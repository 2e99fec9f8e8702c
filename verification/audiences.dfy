/** Who gets what: chat stays in its room, and listings name every member once. */
module Audiences {
  import opened Bytes
  import opened Packets
  import opened PacketLaws
  import opened Lobbies
  import opened LobbyInvariants
  import opened Replication

  // ---- Chat ----

  /** A message the server accepts as chat for the sender's own room. */
  predicate SpeaksToRoom(s: Lobby, me: Id, p: Fields)
    requires me in s.users
  {
    && ValueOr(p.value0, 0) == me && p.value3 == Some(s.users[me].roomId) && p.data.Some?
    && GroupPrefix(s.users[me].name) <= p.data.value
  }

  /** Group chat reaches every other member of the sender's room once, the sender gets a receipt, and nobody else
      gets anything. */
  lemma GroupChatReachesRoom(s: Lobby, me: Id, p: Fields, v: Id)
    requires s.mail.Keys == s.users.Keys && me in s.users && v in s.users && SpeaksToRoom(s, me, p)
    ensures Sends(s, OnChatRoom(s, me, p).lobby, v,
      if v == me then [ErrorReply(CHAT_ROOM_REPLY, 0)]
      else if v in Members(s, s.users[me].roomId) then [ChatPacket(me, s.users[me].roomId, p.data.value)]
      else [])
  {
    hide GroupPrefix, PrivatePrefix, ChatPacket;
  }

  lemma PrefixesDiffer(name: octets, message: octets)
    ensures !(GroupPrefix(name) <= message && PrivatePrefix(name) <= message)
  {
    assert GroupPrefix(name)[0] == 'G' as int && PrivatePrefix(name)[0] == 'P' as int;
  }

  /** Private chat reaches its target exactly when that is a member of the sender's room; the receipt says whether
      it did, and nobody else gets anything. */
  lemma PrivateChatReachesTarget(s: Lobby, me: Id, p: Fields, v: Id)
    requires s.mail.Keys == s.users.Keys && me in s.users && v in s.users
    requires ValueOr(p.value0, 0) == me && p.value3.Some? && p.data.Some?
    requires PrivatePrefix(s.users[me].name) <= p.data.value
    ensures var target := p.value3.value;
      var reached := target in Members(s, s.users[me].roomId);
      Sends(s, OnChatRoom(s, me, p).lobby, v,
        (if reached && v == target then [ChatPacket(me, target, p.data.value)] else [])
        + (if v == me then [ErrorReply(CHAT_ROOM_REPLY, if reached then 0 else 1)] else []))
  {
    hide GroupPrefix, PrivatePrefix, ChatPacket;
    PrefixesDiffer(s.users[me].name, p.data.value);
  }

  /** Whatever happens, chat reaches a user who did not cause it only from a member of the same room. */
  lemma ChatStaysInRoom(net: Net, s: Lobby, e: Event, v: Id, i: nat)
    requires Inv(s) && Enabled(net, s, e) && v in s.users && !ActedBy(e, v)
    requires Allocates(net, s, e) ==> LiveCount(s) < POOL
    ensures v in s.mail && v in Apply(net, s, e).mail
    ensures |s.mail[v]| <= i < |Apply(net, s, e).mail[v]| && Apply(net, s, e).mail[v][i].code == CHAT_ROOM ==>
      e.Request? && e.packet.code == CHAT_ROOM && v in Members(s, s.users[e.user].roomId)
  {
    hide Inv, Enabled, Apply, Notices;
    BystanderIsSent(net, s, e, v);
    var ps := Notices(net, s, e, v);
    var t := Apply(net, s, e);
    if |s.mail[v]| <= i < |t.mail[v]| && t.mail[v][i].code == CHAT_ROOM {
      assert t.mail[v][i] == ps[i - |s.mail[v]|];
      OnlyChatBringsChat(net, s, e, v, i - |s.mail[v]|);
    }
  }

  lemma OnlyChatBringsChat(net: Net, s: Lobby, e: Event, v: Id, i: nat)
    requires Enabled(net, s, e) && v in s.users
    requires i < |Notices(net, s, e, v)| && Notices(net, s, e, v)[i].code == CHAT_ROOM
    ensures e.Request? && e.packet.code == CHAT_ROOM && v in Members(s, s.users[e.user].roomId)
  {
    hide Abandoned, MayHost, WellParsed, MayIssue, Enumerates, RoomNameTaken, UserNameTaken, GroupPrefix, PrivatePrefix,
      NewRoom, NewGame, NewUser, Departed;
  }

  // ---- Listings ----

  function Keep(order: seq<Id>, keys: set<Id>): seq<Id> {
    if order == [] then []
    else (if order[0] in keys then [order[0]] else []) + Keep(order[1..], keys)
  }

  lemma {:induction false} KeepHolds(order: seq<Id>, keys: set<Id>, id: Id)
    ensures id in Keep(order, keys) <==> id in order && id in keys
  {
    if order != [] {
      KeepHolds(order[1..], keys, id);
      assert id in order <==> id == order[0] || id in order[1..];
    }
  }

  /** Picking from a listing without repetition gives one without repetition. */
  lemma {:induction false} KeepIsDistinct(order: seq<Id>, keys: set<Id>, i: nat, j: nat)
    requires forall a, b :: 0 <= a < b < |order| ==> order[a] != order[b]
    requires i < j < |Keep(order, keys)|
    ensures Keep(order, keys)[i] != Keep(order, keys)[j]
  {
    var rest := Keep(order[1..], keys);
    if order[0] in keys {
      if i == 0 {
        KeepHolds(order[1..], keys, rest[j - 1]);
        var k :| 0 <= k < |order[1..]| && order[1..][k] == rest[j - 1];
        assert order[k + 1] == rest[j - 1];
      } else {
        KeepIsDistinct(order[1..], keys, i - 1, j - 1);
      }
    } else {
      KeepIsDistinct(order[1..], keys, i, j);
    }
  }

  lemma KeepEnumerates(order: seq<Id>, all: set<Id>, keys: set<Id>)
    requires Enumerates(order, all) && keys <= all
    ensures Enumerates(Keep(order, keys), keys)
  {
    var kept := Keep(order, keys);
    forall i | 0 <= i < |kept| ensures kept[i] in keys {
      KeepHolds(order, keys, kept[i]);
    }
    forall id | id in keys ensures id in kept {
      KeepHolds(order, keys, id);
    }
    forall i, j | 0 <= i < j < |kept| ensures kept[i] != kept[j] {
      KeepIsDistinct(order, keys, i, j);
    }
  }

  function UserItem(s: Lobby, id: Id): Packet
    requires id in s.users
  {
    ItemPacket(id, s.users[id].name, [], s.users[id].info)
  }

  function GameItem(net: Net, s: Lobby, id: Id): Packet
    requires id in s.games
  {
    ItemPacket(id, s.games[id].name, net.show(s.games[id].address), s.games[id].info)
  }

  function RoomItem(s: Lobby, id: Id): Packet
    requires id in s.rooms
  {
    ItemPacket(id, s.rooms[id].name, [], s.rooms[id].info)
  }

  function GamesIn(s: Lobby, roomId: Id): set<Id> {
    set id | id in s.games && s.games[id].roomId == roomId
  }

  lemma {:induction false} UserItemsAre(s: Lobby, roomId: Id, order: seq<Id>)
    ensures var kept := Keep(order, Members(s, roomId));
      |UserItems(s.users, roomId, order)| == |kept| &&
      forall i :: 0 <= i < |kept| ==> kept[i] in s.users && UserItems(s.users, roomId, order)[i] == UserItem(s, kept[i])
  {
    hide ItemPacket, Members;
    if order != [] {
      UserItemsAre(s, roomId, order[1..]);
      IsMember(s, roomId, order[0]);
      var kept, items := Keep(order[1..], Members(s, roomId)), UserItems(s.users, roomId, order[1..]);
      if order[0] in Members(s, roomId) {
        assert UserItems(s.users, roomId, order) == [UserItem(s, order[0])] + items;
        assert Keep(order, Members(s, roomId)) == [order[0]] + kept;
      }
    }
  }

  lemma IsGameIn(s: Lobby, roomId: Id, id: Id)
    ensures id in GamesIn(s, roomId) <==> id in s.games && s.games[id].roomId == roomId
  {
  }

  lemma {:induction false} GameItemsAre(net: Net, s: Lobby, roomId: Id, order: seq<Id>)
    ensures var kept := Keep(order, GamesIn(s, roomId));
      |GameItems(net, s.games, roomId, order)| == |kept| &&
      forall i :: 0 <= i < |kept| ==>
        kept[i] in s.games && GameItems(net, s.games, roomId, order)[i] == GameItem(net, s, kept[i])
  {
    hide ItemPacket, GamesIn;
    if order != [] {
      GameItemsAre(net, s, roomId, order[1..]);
      IsGameIn(s, roomId, order[0]);
      var kept, items := Keep(order[1..], GamesIn(s, roomId)), GameItems(net, s.games, roomId, order[1..]);
      if order[0] in GamesIn(s, roomId) {
        assert GameItems(net, s.games, roomId, order) == [GameItem(net, s, order[0])] + items;
        assert Keep(order, GamesIn(s, roomId)) == [order[0]] + kept;
      }
    }
  }

  lemma {:induction false} RoomItemsAre(s: Lobby, order: seq<Id>)
    ensures var kept := Keep(order, s.rooms.Keys);
      |RoomItems(s.rooms, order)| == |kept| &&
      forall i :: 0 <= i < |kept| ==> kept[i] in s.rooms && RoomItems(s.rooms, order)[i] == RoomItem(s, kept[i])
  {
    hide ItemPacket;
    if order != [] {
      RoomItemsAre(s, order[1..]);
    }
  }
}
