/** What comes of each request and of a login, by its code and in plain numbers: whether it is refused, what its author
    is told, what everybody else is told, and what changes. */
module Requests {
  import opened Bytes
  import opened SessionInfos
  import opened Packets
  import opened PacketLaws
  import opened Names
  import opened Lobbies
  import opened LobbyInvariants
  import opened LobbyRuns
  import opened Replication
  import opened Audiences

  const BLANK := Fields(None, None, None, None, None, None, None, None, None, None, None)

  /** A value that may be missing, and then counts as `default`. */
  predicate Reads(value: Option<uint32>, default: uint32, expected: uint32) {
    if value.Some? then value.value == expected else default == expected
  }

  predicate IsText(text: Option<octets>) {
    text.Some? && text.value != []
  }

  // ---- Refusals ----

  /** What a request must carry, by its code, from user `me` in room `roomId`. */
  predicate Proper(code: uint32, p: Fields, me: Id, roomId: Id) {
    if code == 200 then Reads(p.value4, 0, 0)
    else if code == 400 || code == 500 then Reads(p.value4, 0, 0) && Reads(p.value2, 0, roomId)
    else if code == 700 then
      Reads(p.value1, 0, 0) && Reads(p.value4, 0, 0) && IsText(p.data) && IsText(p.name) && p.info.Some?
    else if code == 800 || code == 900 then p.value2.Some? && Reads(p.value10, 0, me)
    else if code == 1100 then p.value10.Some?
    else if code == 1200 then
      && p.value1 == Some(0) && Reads(p.value2, 0, roomId) && p.value4 == Some(0x800)
      && p.data.Some? && p.name.Some? && p.info.Some?
    else if code == 1300 then Reads(p.value0, 0, me) && p.value3.Some? && p.data.Some?
    else if code == 1326 then p.value0.Some?
    else false
  }

  /** A request is refused exactly if it lacks what its code demands, or its code is no request's; then nothing
      happens. */
  lemma RefusedExactly(net: Net, s: Lobby, me: Id, packet: Packet, id: Id, order: seq<Id>)
    requires me in s.users
    ensures var step := HandlePacket(net, s, me, packet, id, order);
      && (step.verdict.Refused? <==> !Proper(packet.code, packet.fields, me, s.users[me].roomId))
      && (step.verdict.Refused? ==> step.lobby == s)
  {
    hide Post, GroupPrefix, PrivatePrefix, LeaveRoom, HostGame, RoomNameTaken, CannotHost, RoomItems, UserItems,
      GameItems;
  }

  // ---- Requests that only ask ----

  /** `me` is told these packets, and nothing else happens. */
  predicate OnlyTells(s: Lobby, t: Lobby, me: Id, ps: seq<Packet>) {
    me in s.mail && t == s.(mail := s.mail[me := s.mail[me] + ps])
  }

  lemma PostOnlyTells(s: Lobby, me: Id, ps: seq<Packet>)
    requires me in s.mail
    ensures OnlyTells(s, Post(s, {me}, ps), me, ps)
  {
  }

  /** A request by `me` with this code, as the lobby can take it. */
  ghost predicate Asks(net: Net, s: Lobby, e: Event, me: Id, code: uint32) {
    && s.mail.Keys == s.users.Keys && e.Request? && e.user == me && e.packet.code == code && Enabled(net, s, e)
    && Proper(code, e.packet.fields, me, s.users[me].roomId)
  }

  /** Code 1100: a close request is confirmed, and that is all. */
  lemma CloseRequest(net: Net, s: Lobby, e: Event, me: Id)
    requires Asks(net, s, e, me, 1100)
    ensures OnlyTells(s, Apply(net, s, e), me, [Packet(1101, BLANK.(error := Some(0)))])
  {
    hide Post, WellParsed, Enumerates;
    PostOnlyTells(s, me, [ErrorReply(CLOSE_REPLY, 0)]);
  }

  /** Code 1326: the address of a game is told exactly to those in its room, and that is all. */
  lemma ConnectRequest(net: Net, s: Lobby, e: Event, me: Id, game: Id)
    requires Asks(net, s, e, me, 1326) && e.packet.fields.value0 == Some(game)
    ensures OnlyTells(s, Apply(net, s, e), me, [Packet(1327, AddressFor(net, s, me, game))])
  {
    hide Asks, Enabled, Apply, Post;
    ConnectIsDispatched(net, s, e, me);
    var roomId := s.users[me].roomId;
    var answer :=
      if game in s.games && s.games[game].roomId == roomId then ConnectPacket(net.show(s.games[game].address), 0)
      else ConnectPacket([], 1);
    PostOnlyTells(s, me, [answer]);
  }

  lemma ConnectIsDispatched(net: Net, s: Lobby, e: Event, me: Id)
    requires Asks(net, s, e, me, 1326)
    ensures e.Request? && me in s.users && me in s.mail && e.packet.fields.value0.Some?
    ensures Apply(net, s, e) == OnConnectGame(net, s, me, e.packet.fields).lobby
  {
    hide Post, WellParsed, Enumerates, OnConnectGame;
  }

  /** The address of a game in one's room, or an error. */
  function AddressFor(net: Net, s: Lobby, me: Id, game: Id): Fields {
    if me in s.users && game in s.games && s.games[game].roomId == s.users[me].roomId then
      BLANK.(data := Some(net.show(s.games[game].address)), error := Some(0))
    else
      BLANK.(data := Some([]), error := Some(1))
  }

  /** An item of a listing: an id, a name, a text and a session block, and nothing else. */
  function Item(id: Id, name: octets, data: octets, info: SessionInfo): Packet {
    Packet(350, BLANK.(value1 := Some(id), data := Some(data), name := Some(name), info := Some(info)))
  }

  const END_OF_LIST := Packet(351, BLANK)

  /** Code 200: one item for each room, with its name and block and an empty text, in some order, then the end mark. */
  lemma ListRoomsRequest(net: Net, s: Lobby, e: Event, me: Id) returns (ids: seq<Id>, items: seq<Packet>)
    requires Asks(net, s, e, me, 200)
    ensures OnlyTells(s, Apply(net, s, e), me, items + [END_OF_LIST])
    ensures Enumerates(ids, s.rooms.Keys) && |items| == |ids|
    ensures forall i :: 0 <= i < |ids| ==> items[i] == Item(ids[i], s.rooms[ids[i]].name, [], s.rooms[ids[i]].info)
  {
    hide Asks, Enabled, Apply, Post, RoomItems, Keep;
    ListRoomsSends(net, s, e, me);
    var order := e.order;
    ids, items := Keep(order, s.rooms.Keys), RoomItems(s.rooms, order);
    KeepEnumerates(order, s.rooms.Keys, s.rooms.Keys);
    RoomItemsAre(s, order);
    PostOnlyTells(s, me, items + [LIST_END_PACKET]);
  }

  /** Code 400: the same for each user of one's room. */
  lemma ListUsersRequest(net: Net, s: Lobby, e: Event, me: Id) returns (ids: seq<Id>, items: seq<Packet>)
    requires Asks(net, s, e, me, 400)
    ensures OnlyTells(s, Apply(net, s, e), me, items + [END_OF_LIST])
    ensures Enumerates(ids, set u | u in s.users && s.users[u].roomId == s.users[me].roomId) && |items| == |ids|
    ensures forall i :: 0 <= i < |ids| ==> items[i] == Item(ids[i], s.users[ids[i]].name, [], s.users[ids[i]].info)
  {
    hide Asks, Enabled, Apply, Post, UserItems, Keep;
    ListUsersSends(net, s, e, me);
    var (order, roomId) := (e.order, s.users[me].roomId);
    ids, items := Keep(order, Members(s, roomId)), UserItems(s.users, roomId, order);
    KeepEnumerates(order, s.users.Keys, Members(s, roomId));
    UserItemsAre(s, roomId, order);
    PostOnlyTells(s, me, items + [LIST_END_PACKET]);
  }

  /** Code 500: the same for each game of one's room, with its address as text. */
  lemma ListGamesRequest(net: Net, s: Lobby, e: Event, me: Id) returns (ids: seq<Id>, items: seq<Packet>)
    requires Asks(net, s, e, me, 500)
    ensures OnlyTells(s, Apply(net, s, e), me, items + [END_OF_LIST])
    ensures Enumerates(ids, set g | g in s.games && s.games[g].roomId == s.users[me].roomId) && |items| == |ids|
    ensures forall i :: 0 <= i < |ids| ==>
      items[i] == Item(ids[i], s.games[ids[i]].name, net.show(s.games[ids[i]].address), s.games[ids[i]].info)
  {
    hide Asks, Enabled, Apply, Post, GameItems, Keep;
    ListGamesSends(net, s, e, me);
    var (order, roomId) := (e.order, s.users[me].roomId);
    ids, items := Keep(order, GamesIn(s, roomId)), GameItems(net, s.games, roomId, order);
    KeepEnumerates(order, s.games.Keys, GamesIn(s, roomId));
    GameItemsAre(net, s, roomId, order);
    PostOnlyTells(s, me, items + [LIST_END_PACKET]);
  }

  lemma ListRoomsSends(net: Net, s: Lobby, e: Event, me: Id)
    requires Asks(net, s, e, me, 200)
    ensures me in s.users && me in s.mail && e.Request? && Enumerates(e.order, s.rooms.Keys)
    ensures Apply(net, s, e) == Post(s, {me}, RoomItems(s.rooms, e.order) + [LIST_END_PACKET])
  {
    hide Post, WellParsed, RoomItems;
  }

  lemma ListUsersSends(net: Net, s: Lobby, e: Event, me: Id)
    requires Asks(net, s, e, me, 400)
    ensures me in s.users && me in s.mail && e.Request? && Enumerates(e.order, s.users.Keys)
    ensures Apply(net, s, e) == Post(s, {me}, UserItems(s.users, s.users[me].roomId, e.order) + [LIST_END_PACKET])
  {
    hide Post, WellParsed, UserItems;
  }

  lemma ListGamesSends(net: Net, s: Lobby, e: Event, me: Id)
    requires Asks(net, s, e, me, 500)
    ensures me in s.users && me in s.mail && e.Request? && Enumerates(e.order, s.games.Keys)
    ensures Apply(net, s, e) == Post(s, {me}, GameItems(net, s.games, s.users[me].roomId, e.order) + [LIST_END_PACKET])
  {
    hide Post, WellParsed, GameItems;
  }

  // ---- Requests that change something ----

  /** The session block of something: whose nation, which kind and which access; all else is fixed. */
  predicate IsBlock(info: SessionInfo, nation: byte, kind: byte, access: byte) {
    && info.crc1 == 0x17171717 && info.crc2 == 0x02010101
    && info.nation == nation && info.gameVersion == 49 && info.gameRelease == 49
    && info.kind == kind && info.access == access && info.alwaysOne == 1 && info.alwaysZero == 0
    && forall i :: 0 <= i < 35 ==> info.padding[i] == 0
  }

  lemma NewInfoIsBlock(nation: byte, kind: byte, access: byte)
    ensures IsBlock(NewInfo(nation, kind, access), nation, kind, access)
  {
  }

  lemma RoomNameTakenExactly(s: Lobby, name: octets)
    ensures RoomNameTaken(s, name) <==> exists r :: r in s.rooms && OneName(name, s.rooms[r].name)
  {
    hide EqualsCaseInsensitive, OneName;
    forall r | r in s.rooms ensures EqualsCaseInsensitive(name, s.rooms[r].name) <==> OneName(name, s.rooms[r].name) {
      EqualsCaseInsensitiveExactly(name, s.rooms[r].name);
    }
  }

  lemma UserNameTakenExactly(s: Lobby, name: octets)
    ensures UserNameTaken(s, name) <==> exists u :: u in s.users && OneName(s.users[u].name, name)
  {
    hide EqualsCaseInsensitive, OneName;
    forall u | u in s.users ensures EqualsCaseInsensitive(s.users[u].name, name) <==> OneName(s.users[u].name, name) {
      EqualsCaseInsensitiveExactly(s.users[u].name, name);
    }
  }

  lemma TwoPosts(s: Lobby, to: set<Id>, ps: seq<Packet>, me: Id, qs: seq<Packet>)
    requires me in s.mail && me !in to
    ensures Sends(s, Post(Post(s, to, ps), {me}, qs), me, qs)
  {
  }

  lemma LeaverIsNotTold(s: Lobby, roomId: Id, me: Id)
    requires me in s.mail
    ensures Sends(s, LeaveRoom(s, roomId, me), me, [])
  {
    hide Abandoned;
    assert s.mail[me] + [] == s.mail[me];
  }

  /** An id that nothing has. */
  predicate Unused(s: Lobby, id: Id) {
    id !in s.users && id !in s.rooms && id !in s.games
  }

  /** There is one more room, of this name and nation and its maker's address, under an unused id. */
  predicate RoomIsMade(s: Lobby, t: Lobby, me: Id, id: Id, name: octets, nation: byte) {
    && Unused(s, id) && id in t.rooms && t.rooms == s.rooms[id := t.rooms[id]]
    && t.users == s.users && t.games == s.games
    && me in s.users && t.rooms[id].name == name && t.rooms[id].address == s.users[me].address
    && IsBlock(t.rooms[id].info, nation, 1, 1)
  }

  /** Code 700: unless a room has the name but for the case of its letters, there is a new room of the requested name
      and nation, and its maker and everybody else are told. */
  lemma CreateRoomRequest(net: Net, s: Lobby, e: Event, me: Id)
    requires IdsSound(s) && Asks(net, s, e, me, 700) && (Allocates(net, s, e) ==> LiveCount(s) < POOL)
    ensures var (t, p, id) := (Apply(net, s, e), e.packet.fields, e.id);
      if exists r :: r in s.rooms && OneName(p.name.value, s.rooms[r].name) then
        OnlyTells(s, t, me, [Packet(701, BLANK.(value1 := Some(0), error := Some(1)))])
      else
        && RoomIsMade(s, t, me, id, p.name.value, p.info.value.nation)
        && forall v :: v in s.users ==> Sends(s, t, v,
             if v == me then [Packet(701, BLANK.(value1 := Some(id), error := Some(0)))]
             else [Packet(700, BLANK.(value1 := Some(id), value4 := Some(0), data := Some([]),
                                      name := Some(p.name.value), info := Some(t.rooms[id].info)))])
  {
    hide Asks, Enabled, Apply, Allocates, IdsSound, OneName, RoomNameTaken, OnCreateRoom, LiveCount, RoomIsMade,
      IsBlock, Post;
    CreateRoomIsDispatched(net, s, e, me);
    var (p, id) := (e.packet.fields, e.id);
    RoomNameTakenExactly(s, p.name.value);
    if RoomNameTaken(s, p.name.value) {
      RoomIsRefused(s, me, p, id);
    } else {
      RoomIsCreated(s, me, p, id);
    }
  }

  lemma CreateRoomIsDispatched(net: Net, s: Lobby, e: Event, me: Id)
    requires Asks(net, s, e, me, 700)
    ensures e.Request? && me in s.users && s.mail.Keys == s.users.Keys && RoomRequestValid(e.packet.fields)
    ensures !RoomNameTaken(s, e.packet.fields.name.value) ==> Allocates(net, s, e) && MayIssue(s, e.id)
    ensures Apply(net, s, e) == OnCreateRoom(s, me, e.packet.fields, e.id).lobby
  {
    hide Post, WellParsed, Enumerates, OnCreateRoom, MayIssue, RoomNameTaken;
  }

  lemma RoomIsRefused(s: Lobby, me: Id, p: Fields, id: Id)
    requires me in s.users && me in s.mail && RoomRequestValid(p) && RoomNameTaken(s, p.name.value)
    ensures OnlyTells(s, OnCreateRoom(s, me, p, id).lobby, me,
                      [Packet(701, BLANK.(value1 := Some(0), error := Some(1)))])
  {
    hide Post, RoomNameTaken, OnlyTells;
    PostOnlyTells(s, me, [IdReply(CREATE_ROOM_REPLY, 0, 1)]);
  }

  lemma RoomIsCreated(s: Lobby, me: Id, p: Fields, id: Id)
    requires IdsSound(s) && me in s.users && s.mail.Keys == s.users.Keys && RoomRequestValid(p)
    requires !RoomNameTaken(s, p.name.value) && MayIssue(s, id) && LiveCount(s) < POOL
    ensures var t := OnCreateRoom(s, me, p, id).lobby;
      && RoomIsMade(s, t, me, id, p.name.value, p.info.value.nation)
      && forall v :: v in s.users ==> Sends(s, t, v,
           if v == me then [Packet(701, BLANK.(value1 := Some(id), error := Some(0)))]
           else [Packet(700, BLANK.(value1 := Some(id), value4 := Some(0), data := Some([]),
                                    name := Some(p.name.value), info := Some(t.rooms[id].info)))])
  {
    hide Post, Issue, MayIssue, Conserved, Counted, RoomNameTaken, LiveCount, NewInfo, IsBlock;
    var u := s.users[me];
    NewInfoIsBlock(p.info.value.nation, 1, 1);
    IssueKeepsMaps(s, id);
    ReissuesExactlyWhenExhausted(s, id);
    var r := NewRoom(p, u);
    var s1 := AddRoom(Issue(s, id), id, r);
    CreateRoomEffect(s, me, p, id);
    assert SameButMail(s1, OnCreateRoom(s, me, p, id).lobby);
    TwoPosts(s1, Others(s1, me), [RoomPacket(id, r)], me, [IdReply(CREATE_ROOM_REPLY, id, 0)]);
    forall v | v in s.users && v != me ensures Sends(s, OnCreateRoom(s, me, p, id).lobby, v, [RoomPacket(id, r)]) {
      CreateRoomSends(s, me, p, id, v);
    }
  }

  /** Code 800: one moves into a room, or confirms to join a game of the room one is in; everybody else is told where.
      To anything else the answer is an error, and nothing happens. */
  lemma JoinRequest(net: Net, s: Lobby, e: Event, me: Id)
    requires Asks(net, s, e, me, 800)
    ensures var (t, target, u) := (Apply(net, s, e), e.packet.fields.value2.value, s.users[me]);
      if target in s.rooms || (target in s.games && s.games[target].roomId == u.roomId) then
        var roomId := if target in s.rooms then target else u.roomId;
        && t.users == s.users[me := u.(roomId := roomId)] && t.rooms == s.rooms && t.games == s.games
        && forall v :: v in s.users ==> Sends(s, t, v,
             if v == me then [Packet(801, BLANK.(error := Some(0)))]
             else [Packet(800, BLANK.(value2 := Some(roomId), value10 := Some(me)))])
      else
        OnlyTells(s, t, me, [Packet(801, BLANK.(error := Some(1)))])
  {
    hide Asks, Enabled, Apply, Post;
    JoinIsDispatched(net, s, e, me);
    var (p, u) := (e.packet.fields, s.users[me]);
    var target := p.value2.value;
    JoinEffect(s, me, p);
    if target in s.rooms || (target in s.games && s.games[target].roomId == u.roomId) {
      var roomId := if target in s.rooms then target else u.roomId;
      var s1 := if target in s.rooms then SetRoomId(s, me, target) else s;
      assert s.users[me := u.(roomId := u.roomId)] == s.users;
      TwoPosts(s1, Others(s1, me), [JoinPacket(roomId, me)], me, [ErrorReply(JOIN_REPLY, 0)]);
      forall v | v in s.users && v != me ensures Sends(s, OnJoin(s, me, p).lobby, v, [JoinPacket(roomId, me)]) {
        JoinSends(s, me, p, v);
      }
    } else {
      PostOnlyTells(s, me, [ErrorReply(JOIN_REPLY, 1)]);
    }
  }

  lemma JoinIsDispatched(net: Net, s: Lobby, e: Event, me: Id)
    requires Asks(net, s, e, me, 800)
    ensures e.Request? && me in s.users && s.mail.Keys == s.users.Keys
    ensures var p := e.packet.fields; p.value2.Some? && ValueOr(p.value10, 0) == me
    ensures Apply(net, s, e) == OnJoin(s, me, e.packet.fields).lobby
  {
    hide Post, WellParsed, Enumerates, OnJoin;
  }

  /** What others are told when a user or a game leaves a room that was there in `s`, up to `t`. */
  function Leaving(s: Lobby, t: Lobby, roomId: Id, leftId: Id): seq<Packet> {
    if roomId !in s.rooms then []
    else
      [Packet(900, BLANK.(value2 := Some(roomId), value10 := Some(leftId)))]
      + (if roomId in t.rooms then [] else [Packet(1100, BLANK.(value10 := Some(roomId)))])
  }

  lemma LeavingIsTold(s: Lobby, t: Lobby, roomId: Id, leftId: Id)
    requires roomId in t.rooms <==> roomId in s.rooms && !Abandoned(s, roomId, leftId)
    ensures LeaveNotices(s, roomId, leftId) == Leaving(s, t, roomId, leftId)
  {
    hide Abandoned;
  }

  /** Code 900: one leaves the room one is in, which everybody else is told, and that the room is closed if it is. From
      any other room one cannot leave. */
  lemma LeaveRequest(net: Net, s: Lobby, e: Event, me: Id)
    requires Inv(s) && Asks(net, s, e, me, 900)
    ensures var (t, u) := (Apply(net, s, e), s.users[me]);
      if e.packet.fields.value2.value == u.roomId then
        && t.users == s.users[me := u.(roomId := 0)] && t.games == s.games && ClosedExactly(s, t, u.roomId)
        && forall v :: v in s.users ==> Sends(s, t, v,
             if v == me then [Packet(901, BLANK.(error := Some(0)))] else Leaving(s, t, u.roomId, me))
      else
        OnlyTells(s, t, me, [Packet(901, BLANK.(error := Some(1)))])
  {
    hide Asks, Enabled, Apply, Post, NamesSound, NoDangling, Conserved, Counted, Vacate, LeaveRoom, Leaving,
      LeaveNotices, ClosedExactly;
    LeaveIsDispatched(net, s, e, me);
    var (p, u) := (e.packet.fields, s.users[me]);
    if p.value2.value == u.roomId {
      var t := OnLeave(s, me, p).lobby;
      LeaveClosesExactly(s, me, p);
      LeaveEffect(s, me, p);
      VacateKeepsUsers(s, u.roomId, me);
      VacateKeepsAllGames(s, u.roomId, me);
      VacatedExactly(s, u.roomId, me);
      LeavingIsTold(s, t, u.roomId, me);
      var s1 := SetRoomId(LeaveRoom(s, u.roomId, me), me, 0);
      LeaverIsNotTold(s, u.roomId, me);
      PostSends(s1, {me}, [ErrorReply(LEAVE_REPLY, 0)], me);
      forall v | v in s.users && v != me ensures Sends(s, t, v, LeaveNotices(s, u.roomId, me)) {
        OnLeaveSends(s, me, p, v);
      }
    } else {
      PostOnlyTells(s, me, [ErrorReply(LEAVE_REPLY, 1)]);
    }
  }

  lemma LeaveIsDispatched(net: Net, s: Lobby, e: Event, me: Id)
    requires Asks(net, s, e, me, 900)
    ensures e.Request? && me in s.users && s.mail.Keys == s.users.Keys
    ensures var p := e.packet.fields; p.value2.Some? && ValueOr(p.value10, 0) == me
    ensures Apply(net, s, e) == OnLeave(s, me, e.packet.fields).lobby
  {
    hide Post, WellParsed, Enumerates, OnLeave;
  }

  lemma VacatedExactly(s: Lobby, roomId: Id, leftId: Id)
    ensures roomId in Vacate(s, roomId, leftId).rooms <==> roomId in s.rooms && !Abandoned(s, roomId, leftId)
  {
    hide Abandoned;
  }

  /** What whoever offers a game is told in the end. */
  function CannotBeHosted(me: Id, roomId: Id): seq<Packet> {
    var text := Ascii("GRP:Cannot host your game. Please use FrontendKitWS with fkNetcode. " +
                      "More information at worms2d.info/fkNetcode");
    [Packet(1201, BLANK.(value1 := Some(0), error := Some(2))),
     Packet(1300, BLANK.(value0 := Some(me), value3 := Some(roomId), data := Some(CString(text))))]
  }

  /** There is one more game, of its host's name, nation, room and address, under an unused id. */
  predicate GameIsMade(s: Lobby, t: Lobby, me: Id, id: Id, access: byte) {
    && Unused(s, id) && id in t.games && t.games == s.games[id := t.games[id]]
    && t.users == s.users && t.rooms == s.rooms && me in s.users
    && t.games[id].name == s.users[me].name && t.games[id].address == s.users[me].address
    && t.games[id].roomId == s.users[me].roomId && IsBlock(t.games[id].info, s.users[me].info.nation, 4, access)
  }

  /** Code 1200: an offer at an address that cannot be read ends in an exception. One at the address the user comes from
      makes a game of the offered access, which everybody is told. Either way the host is told in the end that it cannot
      host. */
  lemma CreateGameRequest(net: Net, s: Lobby, e: Event, me: Id)
    requires IdsSound(s) && Asks(net, s, e, me, 1200) && (Allocates(net, s, e) ==> LiveCount(s) < POOL)
    ensures var (t, p, id, u) := (Apply(net, s, e), e.packet.fields, e.id, s.users[me]);
      && (HandlePacket(net, s, me, e.packet, id, e.order).verdict.Threw? <==> net.parse(p.data.value).None?)
      && (if net.parse(p.data.value).None? then t == s
          else if net.parse(p.data.value) != Some(V4(u.address)) then OnlyTells(s, t, me, CannotBeHosted(me, u.roomId))
          else
            && GameIsMade(s, t, me, id, p.info.value.access)
            && forall v :: v in s.users ==> Sends(s, t, v,
                 if v == me then
                   [Packet(1201, BLANK.(value1 := Some(id), error := Some(0)))] + CannotBeHosted(me, u.roomId)
                 else
                   [Packet(1200, BLANK.(value1 := Some(id), value2 := Some(u.roomId), value4 := Some(0x800),
                                        data := Some(net.show(u.address)), name := Some(u.name),
                                        info := Some(t.games[id].info)))]))
  {
    hide Asks, Enabled, Apply, Allocates, HandlePacket, IdsSound, LiveCount, Post, CannotHost, CannotBeHosted,
      GameIsMade, HostGame, MayIssue;
    CreateGameIsDispatched(net, s, e, me);
    var (p, id, u) := (e.packet.fields, e.id, s.users[me]);
    LastWords(me, u.roomId);
    if MayHost(net, p, u) {
      GameIsHosted(net, s, me, p, id);
    } else if net.parse(p.data.value).Some? {
      PostOnlyTells(s, me, [IdReply(CREATE_GAME_REPLY, 0, 2), ChatPacket(me, u.roomId, CannotHost())]);
    }
  }

  lemma CreateGameIsDispatched(net: Net, s: Lobby, e: Event, me: Id)
    requires Asks(net, s, e, me, 1200)
    ensures e.Request? && me in s.users && s.mail.Keys == s.users.Keys
    ensures GameRequestValid(e.packet.fields, s.users[me])
    ensures MayHost(net, e.packet.fields, s.users[me]) ==> Allocates(net, s, e) && MayIssue(s, e.id)
    ensures HandlePacket(net, s, me, e.packet, e.id, e.order) == OnCreateGame(net, s, me, e.packet.fields, e.id)
    ensures Apply(net, s, e) == OnCreateGame(net, s, me, e.packet.fields, e.id).lobby
  {
    hide Post, WellParsed, Enumerates, OnCreateGame, MayIssue;
  }

  lemma LastWords(me: Id, roomId: Id)
    ensures [IdReply(CREATE_GAME_REPLY, 0, 2), ChatPacket(me, roomId, CannotHost())] == CannotBeHosted(me, roomId)
  {
    hide Ascii, CString;
  }

  /** What the host of a new game is told: the confirmation comes first. */
  lemma HostIsTold(net: Net, s: Lobby, me: Id, p: Fields, id: Id)
    requires s.mail.Keys == s.users.Keys && me in s.users && MayHost(net, p, s.users[me])
    ensures Sends(s, OnCreateGame(net, s, me, p, id).lobby, me,
                  [IdReply(CREATE_GAME_REPLY, id, 0)] + CannotBeHosted(me, s.users[me].roomId))
  {
    hide Issue, GamePacket, Post, CannotHost, NewInfo, ChatPacket, CannotBeHosted;
    var (u, told) := (s.users[me], [IdReply(CREATE_GAME_REPLY, id, 0)]);
    LastWords(me, u.roomId);
    IssueKeepsMaps(s, id);
    var g := NewGame(u, p.info.value.access);
    var s1 := AddGame(Issue(s, id), id, g);
    TwoPosts(s1, Others(s1, me), [GamePacket(net, id, g)], me, told);
    var s2 := HostGame(net, s, me, p.info.value.access, id);
    PostSends(s2, {me}, CannotBeHosted(me, u.roomId), me);
    SendsInTurn(s, s2, Post(s2, {me}, CannotBeHosted(me, u.roomId)), me, told, CannotBeHosted(me, u.roomId));
  }

  lemma GameIsHosted(net: Net, s: Lobby, me: Id, p: Fields, id: Id)
    requires IdsSound(s) && me in s.users && s.mail.Keys == s.users.Keys
    requires MayHost(net, p, s.users[me]) && MayIssue(s, id) && LiveCount(s) < POOL
    ensures var (t, u) := (OnCreateGame(net, s, me, p, id).lobby, s.users[me]);
      && GameIsMade(s, t, me, id, p.info.value.access)
      && forall v :: v in s.users ==> Sends(s, t, v,
           if v == me then
             [Packet(1201, BLANK.(value1 := Some(id), error := Some(0)))] + CannotBeHosted(me, u.roomId)
           else
             [Packet(1200, BLANK.(value1 := Some(id), value2 := Some(u.roomId), value4 := Some(0x800),
                                  data := Some(net.show(u.address)), name := Some(u.name),
                                  info := Some(t.games[id].info)))])
  {
    hide Post, Issue, MayIssue, Conserved, Counted, LiveCount, NewInfo, IsBlock, CannotHost, CannotBeHosted,
      OnCreateGame, ChatPacket;
    var (t, u) := (OnCreateGame(net, s, me, p, id).lobby, s.users[me]);
    NewInfoIsBlock(u.info.nation, 4, p.info.value.access);
    IssueKeepsMaps(s, id);
    ReissuesExactlyWhenExhausted(s, id);
    CreateGameEffect(net, s, me, p, id);
    LastWords(me, u.roomId);
    HostIsTold(net, s, me, p, id);
    forall v | v in s.users && v != me
      ensures Sends(s, t, v, [GamePacket(net, id, NewGame(u, p.info.value.access))])
    {
      CreateGameSends(net, s, me, p, id, v);
    }
  }

  /** How chat must begin: a tag, a colon, a bracket, the sender's name, a bracket and two blanks. */
  function Opening(tag: octets, name: octets): octets {
    tag + [0x3A, 0x5B, 0x20] + name + [0x20, 0x5D, 0x20, 0x20]
  }

  const GRP: octets := [0x47, 0x52, 0x50]
  const PRV: octets := [0x50, 0x52, 0x56]

  lemma Prefixes(name: octets)
    ensures GroupPrefix(name) == Opening(GRP, name) && PrivatePrefix(name) == Opening(PRV, name)
  {
    assert Ascii("GRP:[ ") == GRP + [0x3A, 0x5B, 0x20] && Ascii("PRV:[ ") == PRV + [0x3A, 0x5B, 0x20];
    assert Ascii(" ]  ") == [0x20, 0x5D, 0x20, 0x20];
  }

  function Chat(me: Id, target: Id, message: octets): Packet {
    Packet(1300, BLANK.(value0 := Some(me), value3 := Some(target), data := Some(CString(message))))
  }

  /** Code 1300: what begins with GRP goes to everybody else in the sender's room, if that is whom it is for; what
      begins with PRV goes to the user it is for, if that is in the sender's room; the sender is told whether it did.
      Anything else is dropped without an answer. */
  lemma ChatRequest(net: Net, s: Lobby, e: Event, me: Id)
    requires Asks(net, s, e, me, 1300)
    ensures var (t, u, target, message) :=
        (Apply(net, s, e), s.users[me], e.packet.fields.value3.value, e.packet.fields.data.value);
      var (receipt, failure) := (Packet(1301, BLANK.(error := Some(0))), Packet(1301, BLANK.(error := Some(1))));
      && SameButMail(s, t)
      && if Opening(GRP, u.name) <= message then
           if target == u.roomId then
             forall v :: v in s.users ==> Sends(s, t, v,
               if v == me then [receipt] else if s.users[v].roomId == u.roomId then [Chat(me, target, message)] else [])
           else OnlyTells(s, t, me, [failure])
         else if Opening(PRV, u.name) <= message then
           if target in s.users && s.users[target].roomId == u.roomId then
             forall v :: v in s.users ==> Sends(s, t, v,
               (if v == target then [Chat(me, target, message)] else []) + (if v == me then [receipt] else []))
           else OnlyTells(s, t, me, [failure])
         else t == s
  {
    hide Asks, Enabled, Apply, Post, GroupPrefix, PrivatePrefix, Opening, OnChatRoom, Sends, OnlyTells, Chat,
      SameButMail;
    ChatIsDispatched(net, s, e, me);
    var (p, u) := (e.packet.fields, s.users[me]);
    var (target, message) := (p.value3.value, p.data.value);
    Prefixes(u.name);
    ChatEffect(s, me, p);
    if GroupPrefix(u.name) <= message {
      GroupChatGoes(s, me, p);
    } else {
      PrivateChatGoes(s, me, p);
    }
  }

  lemma ChatIsDispatched(net: Net, s: Lobby, e: Event, me: Id)
    requires Asks(net, s, e, me, 1300)
    ensures e.Request? && me in s.users && s.mail.Keys == s.users.Keys
    ensures var p := e.packet.fields; ValueOr(p.value0, 0) == me && p.value3.Some? && p.data.Some?
    ensures Apply(net, s, e) == OnChatRoom(s, me, e.packet.fields).lobby
  {
    hide Post, WellParsed, Enumerates, OnChatRoom;
  }

  lemma GroupChatGoes(s: Lobby, me: Id, p: Fields)
    requires s.mail.Keys == s.users.Keys && me in s.users && p.value3.Some? && p.data.Some?
    requires ValueOr(p.value0, 0) == me && GroupPrefix(s.users[me].name) <= p.data.value
    ensures var (t, u, target, message) := (OnChatRoom(s, me, p).lobby, s.users[me], p.value3.value, p.data.value);
      if target == u.roomId then
        forall v :: v in s.users ==> Sends(s, t, v,
          if v == me then [Packet(1301, BLANK.(error := Some(0)))]
          else if s.users[v].roomId == u.roomId then [Chat(me, target, message)] else [])
      else OnlyTells(s, t, me, [Packet(1301, BLANK.(error := Some(1)))])
  {
    hide Post, GroupPrefix, PrivatePrefix, Members, OnlyTells, Sends;
    var (u, target) := (s.users[me], p.value3.value);
    if target == u.roomId {
      hide OnChatRoom;
      forall v | v in s.users ensures Sends(s, OnChatRoom(s, me, p).lobby, v,
        if v == me then [ErrorReply(CHAT_ROOM_REPLY, 0)]
        else if s.users[v].roomId == u.roomId then [ChatPacket(me, target, p.data.value)] else [])
      {
        IsMember(s, u.roomId, v);
        GroupChatReachesRoom(s, me, p, v);
      }
    } else {
      PostOnlyTells(s, me, [ErrorReply(CHAT_ROOM_REPLY, 1)]);
    }
  }

  lemma PrivateChatGoes(s: Lobby, me: Id, p: Fields)
    requires s.mail.Keys == s.users.Keys && me in s.users && p.value3.Some? && p.data.Some?
    requires ValueOr(p.value0, 0) == me && !(GroupPrefix(s.users[me].name) <= p.data.value)
    ensures var (t, u, target, message) := (OnChatRoom(s, me, p).lobby, s.users[me], p.value3.value, p.data.value);
      if PrivatePrefix(u.name) <= message then
        if target in s.users && s.users[target].roomId == u.roomId then
          forall v :: v in s.users ==> Sends(s, t, v,
            (if v == target then [Chat(me, target, message)] else [])
            + (if v == me then [Packet(1301, BLANK.(error := Some(0)))] else []))
        else OnlyTells(s, t, me, [Packet(1301, BLANK.(error := Some(1)))])
      else t == s
  {
    hide Post, GroupPrefix, PrivatePrefix, Members, OnlyTells, Sends;
    var (u, target) := (s.users[me], p.value3.value);
    if PrivatePrefix(u.name) <= p.data.value {
      if target in s.users && s.users[target].roomId == u.roomId {
        hide OnChatRoom;
        IsMember(s, u.roomId, target);
        forall v | v in s.users ensures Sends(s, OnChatRoom(s, me, p).lobby, v,
          (if v == target then [ChatPacket(me, target, p.data.value)] else [])
          + (if v == me then [ErrorReply(CHAT_ROOM_REPLY, 0)] else []))
        {
          PrivateChatReachesTarget(s, me, p, v);
        }
      } else {
        PostOnlyTells(s, me, [ErrorReply(CHAT_ROOM_REPLY, 1)]);
      }
    }
  }

  // ---- Login and disconnect ----

  predicate IsLogin(packet: Packet) {
    && packet.code == 600 && packet.fields.value1.Some? && packet.fields.value4.Some?
    && packet.fields.name.Some? && packet.fields.info.Some?
  }

  /** Somebody connected has this name but for the case of its letters. */
  ghost predicate NameInUse(s: Lobby, name: octets) {
    exists u :: u in s.users && OneName(s.users[u].name, name)
  }

  ghost predicate Welcome(s: Lobby, packet: Packet) {
    IsLogin(packet) && !NameInUse(s, packet.fields.name.value)
  }

  lemma WelcomeExactly(s: Lobby, packet: Packet)
    ensures LoginAccepted(s, packet) <==> Welcome(s, packet)
    ensures LoginRefusal(s, packet) ==
      if IsLogin(packet) && NameInUse(s, packet.fields.name.value) then
        [Packet(601, BLANK.(value1 := Some(0), error := Some(1)))]
      else []
  {
    hide UserNameTaken, OneName;
    if packet.fields.name.Some? {
      UserNameTakenExactly(s, packet.fields.name.value);
    }
  }

  /** A login that is welcome makes one user, of the given name and nation and the peer's address, in no room, under an
      unused id that it and everybody else are told. Any other changes nothing, and its sender is told only if its name
      is taken. */
  lemma LoginRequest(net: Net, s: Lobby, e: Event)
    requires Inv(s) && e.Login? && Enabled(net, s, e) && (Allocates(net, s, e) ==> LiveCount(s) < POOL)
    ensures var (t, p, id) := (Apply(net, s, e), e.packet.fields, e.id);
      if !Welcome(s, e.packet) then
        && t == s
        && LoginRefusal(s, e.packet) ==
             if IsLogin(e.packet) then [Packet(601, BLANK.(value1 := Some(0), error := Some(1)))] else []
      else
        && LoginRefusal(s, e.packet) == []
        && Unused(s, id) && id in t.users && t.users == s.users[id := t.users[id]]
        && t.rooms == s.rooms && t.games == s.games
        && t.users[id].name == p.name.value && t.users[id].address == e.address && t.users[id].roomId == 0
        && IsBlock(t.users[id].info, p.info.value.nation, 5, 1)
        && id in t.mail && t.mail[id] == [Packet(601, BLANK.(value1 := Some(id), error := Some(0)))]
        && forall v :: v in s.users ==> Sends(s, t, v,
             [Packet(600, BLANK.(value1 := Some(id), value4 := Some(0), name := Some(p.name.value),
                                 info := Some(t.users[id].info)))])
  {
    hide Issue, MayIssue, NamesSound, NoDangling, Conserved, Counted, Welcome, LiveCount, NewInfo, IsBlock,
      UserNameTaken;
    WelcomeExactly(s, e.packet);
    if LoginAccepted(s, e.packet) {
      var name := e.packet.fields.name.value;
      NewInfoIsBlock(e.packet.fields.info.value.nation, 5, 1);
      IssueKeepsMaps(s, e.id);
      ReissuesExactlyWhenExhausted(s, e.id);
      CStringOfNulFree(name);
    }
  }

  /** Whoever is connected keeps its name in all its spellings. */
  lemma SpellingIsRefused(net: Net, s: Lobby, e: Event, u: Id, i: nat, c: byte)
    requires Inv(s) && e.Login? && Enabled(net, s, e) && (Allocates(net, s, e) ==> LiveCount(s) < POOL)
    requires u in s.users && i < |s.users[u].name|
    requires TwoCases(s.users[u].name[i], c) || TwoCases(c, s.users[u].name[i])
    requires e.packet.fields.name == Some(s.users[u].name[i := c])
    ensures Apply(net, s, e) == s
  {
    hide Inv, Enabled, Apply, Allocates, OneName, LiveCount;
    OneLetterOff(s.users[u].name, i, c);
    LoginRequest(net, s, e);
  }

  /** No two users, and no two rooms, have one name but for the case of its letters. */
  lemma NamesAreUnique(s: Lobby)
    requires NamesSound(s)
    ensures forall i, j :: i in s.users && j in s.users && OneName(s.users[i].name, s.users[j].name) ==> i == j
    ensures forall i, j :: i in s.rooms && j in s.rooms && OneName(s.rooms[i].name, s.rooms[j].name) ==> i == j
  {
    hide EqualsCaseInsensitive, OneName;
    forall i, j | i in s.users && j in s.users && OneName(s.users[i].name, s.users[j].name) ensures i == j {
      EqualsCaseInsensitiveExactly(s.users[i].name, s.users[j].name);
    }
    forall i, j | i in s.rooms && j in s.rooms && OneName(s.rooms[i].name, s.rooms[j].name) ensures i == j {
      EqualsCaseInsensitiveExactly(s.rooms[i].name, s.rooms[j].name);
    }
  }

  /** A disconnect takes its user away, and a game of its name if there is one. Everybody else is told that the game
      closed, then that its room, or else the user's, was left and whether it closed, and then who is gone. */
  lemma DisconnectRequest(net: Net, s: Lobby, e: Event, v: Id)
    requires Inv(s) && e.Disconnected? && Enabled(net, s, e) && v in s.users && v != e.user
    ensures var (t, me, hosted) := (Apply(net, s, e), e.user, e.hosted);
      && (hosted.Some? ==> hosted.value in s.games && s.games[hosted.value].name == s.users[me].name)
      && (hosted.None? ==> forall g :: g in s.games ==> s.games[g].name != s.users[me].name)
      && t.users == s.users - {me} && t.games == (if hosted.Some? then s.games - {hosted.value} else s.games)
      && var (roomId, leftId) :=
           if hosted.Some? then (s.games[hosted.value].roomId, hosted.value) else (s.users[me].roomId, me);
         && ClosedExactly(s, t, roomId)
         && Sends(s, t, v,
              (if hosted.Some? then
                 [Packet(900, BLANK.(value2 := Some(hosted.value), value10 := Some(me))),
                  Packet(1100, BLANK.(value10 := Some(hosted.value)))]
               else [])
              + Leaving(s, t, roomId, leftId) + [Packet(1000, BLANK.(value10 := Some(me)))])
  {
    hide NamesSound, NoDangling, Conserved, Counted, Vacate, LeaveNotices, Leaving, ClosedExactly, Departed, Apply,
      HandlePacket, SameButMail, Sends;
    var (me, hosted) := (e.user, e.hosted);
    var t := Apply(net, s, e);
    var (roomId, leftId) := (RoomLeft(s, me, hosted), if hosted.Some? then hosted.value else me);
    IdsDisjoint(s, me);
    var left := Departed(s, me, hosted);
    DepartedParts(s, me, hosted);
    DisconnectClosesExactly(net, s, e);
    ApplyHasEffect(net, s, e);
    VacateKeepsUsers(left, roomId, leftId);
    VacateKeepsAllGames(left, roomId, leftId);
    VacatedExactly(left, roomId, leftId);
    MailOnly(Vacate(left, roomId, leftId), t);
    LeavingIsTold(left, t, roomId, leftId);
    LeavingSeesRooms(s, left, t, roomId, leftId);
    BystanderIsSent(net, s, e, v);
    assert [] + Leaving(s, t, roomId, leftId) == Leaving(s, t, roomId, leftId);
  }

  lemma MailOnly(s: Lobby, t: Lobby)
    requires SameButMail(s, t)
    ensures s.users == t.users && s.rooms == t.rooms && s.games == t.games
  {
  }

  lemma LeavingSeesRooms(s: Lobby, left: Lobby, t: Lobby, roomId: Id, leftId: Id)
    requires s.rooms == left.rooms
    ensures Leaving(s, t, roomId, leftId) == Leaving(left, t, roomId, leftId)
  {
  }
}
