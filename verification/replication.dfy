/** The notifications the server sends are a replication protocol: a client that replays them tracks the lobby. */
module Replication {
  import opened Bytes
  import opened SessionInfos
  import opened Packets
  import opened PacketLaws
  import opened Lobbies
  import opened LobbyInvariants
  import opened LobbyRuns

  // ---- What a bystander is sent ----

  /** The user whose request or disconnect an event is. A login is nobody's: its user is not there yet. */
  predicate ActedBy(e: Event, v: Id) {
    match e
    case Login(_, _, _) => false
    case Request(me, _, _, _) => v == me
    case Disconnected(me, _) => v == me
  }

  function LeaveNotices(s: Lobby, roomId: Id, leftId: Id): seq<Packet> {
    if roomId !in s.rooms then []
    else if Abandoned(s, roomId, leftId) then [LeavePacket(roomId, leftId), ClosePacket(roomId)]
    else [LeavePacket(roomId, leftId)]
  }

  function DisconnectNotices(s: Lobby, me: Id, hosted: Option<Id>): seq<Packet>
    requires me in s.users && (hosted.Some? ==> hosted.value in s.games)
  {
    if me == 0 then []
    else if hosted.Some? then
      [LeavePacket(hosted.value, me), ClosePacket(hosted.value)]
      + LeaveNotices(Departed(s, me, hosted), RoomLeft(s, me, hosted), hosted.value) + [DisconnectPacket(me)]
    else
      LeaveNotices(Departed(s, me, hosted), RoomLeft(s, me, hosted), me) + [DisconnectPacket(me)]
  }

  function JoinNotices(s: Lobby, me: Id, p: Fields): seq<Packet>
    requires me in s.users
  {
    if p.value2.None? || ValueOr(p.value10, 0) != me then []
    else if p.value2.value in s.rooms then [JoinPacket(p.value2.value, me)]
    else if p.value2.value in s.games && s.games[p.value2.value].roomId == s.users[me].roomId then
      [JoinPacket(s.users[me].roomId, me)]
    else []
  }

  /** A chat message reaches the sender's room, or the one member of it that it is addressed to. */
  function ChatNotices(s: Lobby, me: Id, p: Fields, v: Id): seq<Packet>
    requires me in s.users && v in s.users
  {
    if ValueOr(p.value0, 0) != me || p.value3.None? || p.data.None? then []
    else
      var (target, message, u) := (p.value3.value, p.data.value, s.users[me]);
      if s.users[v].roomId != u.roomId then []
      else if GroupPrefix(u.name) <= message then
        if target == u.roomId then [ChatPacket(me, target, message)] else []
      else if PrivatePrefix(u.name) <= message then
        if target == v then [ChatPacket(me, v, message)] else []
      else []
  }

  /** Everything an event sends to a user whose event it is not. */
  function Notices(net: Net, s: Lobby, e: Event, v: Id): seq<Packet>
    requires Enabled(net, s, e) && v in s.users
  {
    match e
    case Login(packet, address, id) =>
      if LoginAccepted(s, packet) then
        var u := NewUser(packet.fields, address);
        [LoginPacket(id, u.name, u.info)]
      else []
    case Request(me, packet, id, _) =>
      var (code, p) := (packet.code, packet.fields);
      if code == CHAT_ROOM then ChatNotices(s, me, p, v)
      else if code == JOIN then JoinNotices(s, me, p)
      else if code == LEAVE then
        if p.value2 == Some(s.users[me].roomId) && ValueOr(p.value10, 0) == me
        then LeaveNotices(s, s.users[me].roomId, me) else []
      else if !Allocates(net, s, e) then []
      else if code == CREATE_ROOM then [RoomPacket(id, NewRoom(p, s.users[me]))]
      else [GamePacket(net, id, NewGame(s.users[me], MayHostInfo(net, p, s.users[me])))]
    case Disconnected(me, hosted) => DisconnectNotices(s, me, hosted)
  }

  /** `v` is sent exactly `ps`. */
  predicate Sends(s: Lobby, t: Lobby, v: Id, ps: seq<Packet>) {
    v in s.mail && v in t.mail && t.mail[v] == s.mail[v] + ps
  }

  lemma PostSends(s: Lobby, to: set<Id>, ps: seq<Packet>, v: Id)
    requires v in s.mail
    ensures Sends(s, Post(s, to, ps), v, if v in to then ps else [])
  {
  }

  lemma SendsInTurn(s: Lobby, t: Lobby, u: Lobby, v: Id, ps: seq<Packet>, qs: seq<Packet>)
    requires Sends(s, t, v, ps) && Sends(t, u, v, qs)
    ensures Sends(s, u, v, ps + qs)
  {
  }

  lemma LeaveSends(s: Lobby, roomId: Id, leftId: Id, v: Id)
    requires s.mail.Keys == s.users.Keys && v in s.users && v != leftId
    ensures Sends(s, LeaveRoom(s, roomId, leftId), v, LeaveNotices(s, roomId, leftId))
  {
    hide Abandoned;
  }

  lemma ChatSends(s: Lobby, me: Id, p: Fields, v: Id)
    requires s.mail.Keys == s.users.Keys && me in s.users && v in s.users && v != me
    ensures Sends(s, OnChatRoom(s, me, p).lobby, v, ChatNotices(s, me, p, v))
  {
    hide GroupPrefix, PrivatePrefix, ChatPacket;
  }

  lemma JoinSends(s: Lobby, me: Id, p: Fields, v: Id)
    requires s.mail.Keys == s.users.Keys && me in s.users && v in s.users && v != me
    ensures Sends(s, OnJoin(s, me, p).lobby, v, JoinNotices(s, me, p))
  {
  }

  lemma OnLeaveSends(s: Lobby, me: Id, p: Fields, v: Id)
    requires s.mail.Keys == s.users.Keys && me in s.users && v in s.users && v != me
    ensures Sends(s, OnLeave(s, me, p).lobby, v,
      if p.value2 == Some(s.users[me].roomId) && ValueOr(p.value10, 0) == me
      then LeaveNotices(s, s.users[me].roomId, me) else [])
  {
    hide LeaveRoom, LeaveNotices;
    LeaveSends(s, s.users[me].roomId, me, v);
    VacateKeepsUsers(s, s.users[me].roomId, me);
  }

  lemma CreateRoomSends(s: Lobby, me: Id, p: Fields, id: Id, v: Id)
    requires s.mail.Keys == s.users.Keys && me in s.users && v in s.users && v != me
    ensures Sends(s, OnCreateRoom(s, me, p, id).lobby, v,
      if RoomRequestValid(p) && !RoomNameTaken(s, p.name.value) then [RoomPacket(id, NewRoom(p, s.users[me]))] else [])
  {
    hide Issue, RoomNameTaken, RoomPacket, NewRoom;
    IssueKeepsMaps(s, id);
  }

  lemma CreateGameSends(net: Net, s: Lobby, me: Id, p: Fields, id: Id, v: Id)
    requires s.mail.Keys == s.users.Keys && me in s.users && v in s.users && v != me
    ensures Sends(s, OnCreateGame(net, s, me, p, id).lobby, v,
      if MayHost(net, p, s.users[me]) then [GamePacket(net, id, NewGame(s.users[me], p.info.value.access))] else [])
  {
    hide Issue, CannotHost, GamePacket, NewGame;
    IssueKeepsMaps(s, id);
  }

  lemma QuietSends(net: Net, s: Lobby, me: Id, packet: Packet, id: Id, order: seq<Id>, v: Id)
    requires s.mail.Keys == s.users.Keys && me in s.users && v in s.users && v != me
    requires packet.code !in {CHAT_ROOM, CREATE_ROOM, JOIN, LEAVE, CREATE_GAME}
    ensures Sends(s, HandlePacket(net, s, me, packet, id, order).lobby, v, [])
  {
    hide HandlePacket, Post;
    var ps := QuietIsAnswered(net, s, me, packet, id, order);
    PostSends(s, {me}, ps, v);
    assert s.mail[v] + [] == s.mail[v];
  }

  lemma RequestSends(net: Net, s: Lobby, e: Event, v: Id)
    requires s.mail.Keys == s.users.Keys && Enabled(net, s, e) && e.Request? && v in s.users && v != e.user
    ensures Sends(s, Apply(net, s, e), v, Notices(net, s, e, v))
  {
    hide OnLeave, OnJoin, OnCreateRoom, OnCreateGame, OnChatRoom, OnListRooms, OnListUsers, OnListGames, OnClose,
      OnConnectGame, WellParsed, MayIssue, Enumerates, Sends, MayHost, RoomRequestValid, RoomNameTaken, LeaveNotices,
      ChatNotices, JoinNotices, NewRoom, NewGame, RoomPacket, GamePacket;
    var Request(me, packet, id, order) := e;
    if packet.code == CHAT_ROOM {
      ChatSends(s, me, packet.fields, v);
    } else if packet.code == CREATE_ROOM {
      CreateRoomSends(s, me, packet.fields, id, v);
    } else if packet.code == JOIN {
      JoinSends(s, me, packet.fields, v);
    } else if packet.code == LEAVE {
      OnLeaveSends(s, me, packet.fields, v);
    } else if packet.code == CREATE_GAME {
      CreateGameSends(net, s, me, packet.fields, id, v);
    } else {
      QuietSends(net, s, me, packet, id, order, v);
    }
  }

  lemma LoginSends(net: Net, s: Lobby, e: Event, v: Id)
    requires Inv(s) && Enabled(net, s, e) && e.Login? && v in s.users
    requires Allocates(net, s, e) ==> LiveCount(s) < POOL
    ensures Sends(s, Apply(net, s, e), v, Notices(net, s, e, v))
  {
    hide Issue, MayIssue, WellParsed, UserNameTaken, NamesSound, NoDangling, Conserved, Counted, LoginPacket, NewUser;
    IssueKeepsMaps(s, e.id);
    if Allocates(net, s, e) {
      ReissuesExactlyWhenExhausted(s, e.id);
    }
  }

  lemma CloseGameSends(s: Lobby, gameId: Id, userId: Id, v: Id)
    requires s.mail.Keys == s.users.Keys && v in s.users && v != userId
    ensures Sends(s, CloseGame(s, gameId, userId), v, [LeavePacket(gameId, userId), ClosePacket(gameId)])
  {
  }

  /** A disconnect up to the room that is left: what `v` is sent of the closed game, and that `v` is still there. */
  lemma DepartingSends(s: Lobby, me: Id, hosted: Option<Id>, v: Id)
    requires s.mail.Keys == s.users.Keys && v in s.users && v != me && me in s.users
    ensures var t := if hosted.Some? then CloseGame(RemoveUser(s, me), hosted.value, me) else RemoveUser(s, me);
      && t.mail.Keys == t.users.Keys && v in t.users
      && Sends(s, t, v, if hosted.Some? then [LeavePacket(hosted.value, me), ClosePacket(hosted.value)] else [])
  {
    hide LeavePacket, ClosePacket;
    var s1 := RemoveUser(s, me);
    if hosted.Some? {
      CloseGameSends(s1, hosted.value, me, v);
    }
  }

  lemma LeaveKeepsUsers(s: Lobby, roomId: Id, leftId: Id)
    requires s.mail.Keys == s.users.Keys
    ensures var t := LeaveRoom(s, roomId, leftId); t.users == s.users && t.mail.Keys == s.mail.Keys
  {
    hide Abandoned;
  }

  lemma DisconnectSends(net: Net, s: Lobby, e: Event, v: Id)
    requires Inv(s) && Enabled(net, s, e) && e.Disconnected? && v in s.users && v != e.user
    ensures Sends(s, Apply(net, s, e), v, Notices(net, s, e, v))
  {
    hide LeaveRoom, LeaveNotices, CloseGame, RemoveUser, Departed, Sends, Post, NamesSound, NoDangling, Conserved,
      Counted, LeavePacket, ClosePacket, DisconnectPacket, SameButMail, HandlePacket;
    var (me, hosted) := (e.user, e.hosted);
    IdsDisjoint(s, v);
    IdsDisjoint(s, me);
    var roomId := RoomLeft(s, me, hosted);
    var leftId := if hosted.Some? then hosted.value else me;
    var s2 := if hosted.Some? then CloseGame(RemoveUser(s, me), hosted.value, me) else RemoveUser(s, me);
    var s3 := LeaveRoom(s2, roomId, leftId);
    var s4 := Post(s3, s3.users.Keys, [DisconnectPacket(me)]);
    var first := if hosted.Some? then [LeavePacket(hosted.value, me), ClosePacket(hosted.value)] else [];
    var second := LeaveNotices(Departed(s, me, hosted), roomId, leftId);
    CloseGameEffect(s, me, hosted);
    NoticesIgnoreMail(Departed(s, me, hosted), s2, roomId, leftId);
    DepartingSends(s, me, hosted, v);
    LeaveSends(s2, roomId, leftId, v);
    LeaveKeepsUsers(s2, roomId, leftId);
    PostSends(s3, s3.users.Keys, [DisconnectPacket(me)], v);
    SendsInTurn(s, s2, s3, v, first, second);
    SendsInTurn(s, s3, s4, v, first + second, [DisconnectPacket(me)]);
    assert [] + second == second;
  }

  lemma NoticesIgnoreMail(s: Lobby, t: Lobby, roomId: Id, leftId: Id)
    requires SameButMail(s, t)
    ensures LeaveNotices(s, roomId, leftId) == LeaveNotices(t, roomId, leftId)
  {
  }

  /** What an event sends to a user who is not its author is exactly its notices, after what was queued before. */
  lemma BystanderIsSent(net: Net, s: Lobby, e: Event, v: Id)
    requires Inv(s) && Enabled(net, s, e) && v in s.users && !ActedBy(e, v)
    requires Allocates(net, s, e) ==> LiveCount(s) < POOL
    ensures Sends(s, Apply(net, s, e), v, Notices(net, s, e, v))
  {
    hide Apply, Notices, Sends, Enabled, NamesSound, NoDangling, Conserved, Counted;
    match e
    case Login(_, _, _) => LoginSends(net, s, e, v);
    case Request(_, _, _, _) => RequestSends(net, s, e, v);
    case Disconnected(_, _) => DisconnectSends(net, s, e, v);
  }

  // ---- The replica ----

  datatype SeenUser = SeenUser(name: octets, info: SessionInfo, roomId: Id)
  datatype SeenRoom = SeenRoom(name: octets, info: SessionInfo)
  datatype SeenGame = SeenGame(name: octets, info: SessionInfo, address: octets, roomId: Id)

  /** What a client can know of the lobby. */
  datatype Replica = Replica(users: map<Id, SeenUser>, rooms: map<Id, SeenRoom>, games: map<Id, SeenGame>)

  function SeeUser(u: User): SeenUser {
    SeenUser(u.name, u.info, u.roomId)
  }

  function SeeRoom(r: Room): SeenRoom {
    SeenRoom(r.name, r.info)
  }

  function SeeGame(net: Net, g: Game): SeenGame {
    SeenGame(g.name, g.info, net.show(g.address), g.roomId)
  }

  function View(net: Net, s: Lobby): Replica {
    Replica(
      map id | id in s.users :: SeeUser(s.users[id]),
      map id | id in s.rooms :: SeeRoom(s.rooms[id]),
      map id | id in s.games :: SeeGame(net, s.games[id]))
  }

  /** How a client updates its replica on a packet; packets that are not notifications change nothing. */
  function Observe(r: Replica, packet: Packet): Replica {
    var (code, p) := (packet.code, packet.fields);
    if code == LOGIN && p.value1.Some? && p.name.Some? && p.info.Some? then
      r.(users := r.users[p.value1.value := SeenUser(p.name.value, p.info.value, 0)])
    else if code == DISCONNECT_USER && p.value10.Some? then
      r.(users := r.users - {p.value10.value})
    else if code == CREATE_ROOM && p.value1.Some? && p.name.Some? && p.info.Some? then
      r.(rooms := r.rooms[p.value1.value := SeenRoom(p.name.value, p.info.value)])
    else if code == CREATE_GAME && p.value1.Some? && p.value2.Some? && p.name.Some? && p.data.Some? && p.info.Some? then
      r.(games := r.games[p.value1.value := SeenGame(p.name.value, p.info.value, p.data.value, p.value2.value)])
    else if code == JOIN && p.value2.Some? && p.value10.Some? && p.value10.value in r.users then
      r.(users := r.users[p.value10.value := r.users[p.value10.value].(roomId := p.value2.value)])
    else if code == LEAVE && p.value2.Some? && p.value10.Some?
            && p.value10.value in r.users && r.users[p.value10.value].roomId == p.value2.value then
      r.(users := r.users[p.value10.value := r.users[p.value10.value].(roomId := 0)])
    else if code == CLOSE && p.value10.Some? then
      r.(rooms := r.rooms - {p.value10.value}, games := r.games - {p.value10.value})
    else
      r
  }

  function Replay(r: Replica, ps: seq<Packet>): Replica
    decreases |ps|
  {
    if ps == [] then r else Replay(Observe(r, ps[0]), ps[1..])
  }

  lemma {:induction false} ReplayInTurn(r: Replica, ps: seq<Packet>, qs: seq<Packet>)
    ensures Replay(r, ps + qs) == Replay(Replay(r, ps), qs)
    decreases |ps|
  {
    hide Observe;
    if ps == [] {
      assert ps + qs == qs;
    } else {
      assert (ps + qs)[1..] == ps[1..] + qs;
      ReplayInTurn(Observe(r, ps[0]), ps[1..], qs);
    }
  }

  lemma ReplayOne(r: Replica, p: Packet)
    ensures Replay(r, [p]) == Observe(r, p)
  {
    assert [p][1..] == [];
  }

  lemma ReplayTwo(r: Replica, p: Packet, q: Packet)
    ensures Replay(r, [p, q]) == Observe(Observe(r, p), q)
  {
    hide Observe;
    assert [p, q][1..] == [q];
    ReplayOne(Observe(r, p), q);
  }

  lemma ViewIgnoresMail(net: Net, s: Lobby, t: Lobby)
    requires SameButMail(s, t)
    ensures View(net, s) == View(net, t)
  {
  }

  lemma LoginIsTracked(net: Net, s: Lobby, e: Event)
    requires Enabled(net, s, e) && e.Login?
    ensures forall v :: v in s.users ==> Replay(View(net, s), Notices(net, s, e, v)) == View(net, Effect(net, s, e))
  {
    hide Issue, MayIssue, UserNameTaken;
    IssueKeepsMaps(s, e.id);
    if LoginAccepted(s, e.packet) {
      var u := NewUser(e.packet.fields, e.address);
      CStringOfNulFree(u.name);
      ReplayOne(View(net, s), LoginPacket(e.id, u.name, u.info));
      assert View(net, AddUser(Issue(s, e.id), e.id, u)).users == View(net, s).users[e.id := SeeUser(u)];
    }
  }

  lemma RoomIsTracked(net: Net, s: Lobby, id: Id, r: Room)
    ensures Replay(View(net, s), [RoomPacket(id, r)]) == View(net, AddRoom(Issue(s, id), id, r))
  {
    hide Issue;
    IssueKeepsMaps(s, id);
    ReplayOne(View(net, s), RoomPacket(id, r));
    assert View(net, AddRoom(Issue(s, id), id, r)).rooms == View(net, s).rooms[id := SeeRoom(r)];
  }

  lemma GameIsTracked(net: Net, s: Lobby, id: Id, g: Game)
    ensures Replay(View(net, s), [GamePacket(net, id, g)]) == View(net, AddGame(Issue(s, id), id, g))
  {
    hide Issue;
    IssueKeepsMaps(s, id);
    ReplayOne(View(net, s), GamePacket(net, id, g));
    assert View(net, AddGame(Issue(s, id), id, g)).games == View(net, s).games[id := SeeGame(net, g)];
  }

  lemma MoveIsTracked(net: Net, s: Lobby, me: Id, roomId: Id)
    requires me in s.users
    ensures Observe(View(net, s), JoinPacket(roomId, me)) == View(net, SetRoomId(s, me, roomId))
    ensures roomId == s.users[me].roomId ==> SetRoomId(s, me, roomId).users == s.users
  {
    assert View(net, SetRoomId(s, me, roomId)).users
      == View(net, s).users[me := SeeUser(s.users[me].(roomId := roomId))];
  }

  lemma JoinIsTracked(net: Net, s: Lobby, me: Id, p: Fields)
    requires me in s.users
    ensures Replay(View(net, s), JoinNotices(s, me, p)) ==
      View(net, if p.value2.Some? && ValueOr(p.value10, 0) == me && p.value2.value in s.rooms
                then SetRoomId(s, me, p.value2.value) else s)
  {
    hide Observe, View, SetRoomId, JoinPacket;
    if p.value2.Some? {
      MoveIsTracked(net, s, me, p.value2.value);
      ReplayOne(View(net, s), JoinPacket(p.value2.value, me));
    }
    MoveIsTracked(net, s, me, s.users[me].roomId);
    ReplayOne(View(net, s), JoinPacket(s.users[me].roomId, me));
    SameUsersSameView(net, s, SetRoomId(s, me, s.users[me].roomId), me, s.users[me].roomId);
  }

  lemma SameUsersSameView(net: Net, s: Lobby, t: Lobby, me: Id, roomId: Id)
    requires me in s.users && t == SetRoomId(s, me, roomId) && roomId == s.users[me].roomId
    ensures View(net, s) == View(net, t)
  {
    MoveIsTracked(net, s, me, roomId);
  }

  /** A Leave that names a user's room takes the user out of it; any other Leave changes nothing. */
  lemma LeaveObserved(net: Net, s: Lobby, roomId: Id, leftId: Id)
    ensures Observe(View(net, s), LeavePacket(roomId, leftId)) ==
      View(net, if leftId in s.users && s.users[leftId].roomId == roomId then SetRoomId(s, leftId, 0) else s)
  {
    if leftId in s.users && s.users[leftId].roomId == roomId {
      MoveIsTracked(net, s, leftId, 0);
    }
  }

  /** A Close takes away the room or the game of that id, whichever there is. */
  lemma CloseObserved(net: Net, s: Lobby, id: Id)
    ensures id !in s.games ==> Observe(View(net, s), ClosePacket(id)) == View(net, RemoveRoom(s, id))
    ensures id !in s.rooms ==> Observe(View(net, s), ClosePacket(id)) == View(net, RemoveGame(s, id))
  {
    assert id !in s.games ==> View(net, s).games - {id} == View(net, s).games;
    assert id !in s.rooms ==> View(net, s).rooms - {id} == View(net, s).rooms;
    assert View(net, RemoveRoom(s, id)).rooms == View(net, s).rooms - {id};
    assert View(net, RemoveGame(s, id)).games == View(net, s).games - {id};
  }

  lemma DisconnectObserved(net: Net, s: Lobby, id: Id)
    ensures Observe(View(net, s), DisconnectPacket(id)) == View(net, RemoveUser(s, id))
  {
    assert View(net, RemoveUser(s, id)).users == View(net, s).users - {id};
  }

  /** Two lobbies that a client cannot tell apart. */
  predicate SameSight(s: Lobby, t: Lobby) {
    s.users == t.users && s.rooms == t.rooms && s.games == t.games
  }

  /** The notices of someone leaving a room move a replica along, whoever of them it still shows. `s` is what the
      replica shows; `left` is the lobby that decides whether the room closes. */
  lemma LeaveIsTracked(net: Net, s: Lobby, left: Lobby, roomId: Id, leftId: Id)
    requires left.rooms == s.rooms && roomId !in s.games
    ensures var moved := if roomId in s.rooms && leftId in s.users && s.users[leftId].roomId == roomId
                         then SetRoomId(s, leftId, 0) else s;
      Replay(View(net, s), LeaveNotices(left, roomId, leftId)) ==
      View(net, moved.(rooms := Vacate(left, roomId, leftId).rooms))
  {
    hide Observe, View, Abandoned, SetRoomId, LeavePacket, ClosePacket;
    if roomId in s.rooms {
      LeaveObserved(net, s, roomId, leftId);
      var moved := if leftId in s.users && s.users[leftId].roomId == roomId then SetRoomId(s, leftId, 0) else s;
      assert SetRoomKeepsRest(s, moved) by { SetRoomKeeps(s, leftId); }
      if Abandoned(left, roomId, leftId) {
        ReplayTwo(View(net, s), LeavePacket(roomId, leftId), ClosePacket(roomId));
        CloseObserved(net, moved, roomId);
        SightDecidesView(net, RemoveRoom(moved, roomId), moved.(rooms := RemoveRoom(left, roomId).rooms));
      } else {
        ReplayOne(View(net, s), LeavePacket(roomId, leftId));
        SightDecidesView(net, moved, moved.(rooms := left.rooms));
      }
    } else {
      SightDecidesView(net, s, s.(rooms := left.rooms));
    }
  }

  predicate SetRoomKeepsRest(s: Lobby, t: Lobby) {
    t.rooms == s.rooms && t.games == s.games
  }

  lemma SetRoomKeeps(s: Lobby, id: Id)
    ensures id in s.users ==> SetRoomKeepsRest(s, SetRoomId(s, id, 0))
  {
  }

  lemma SightDecidesView(net: Net, s: Lobby, t: Lobby)
    requires SameSight(s, t)
    ensures View(net, s) == View(net, t)
  {
  }

  lemma OwnLeaveIsTracked(net: Net, s: Lobby, me: Id)
    requires Inv(s) && me in s.users
    ensures Replay(View(net, s), LeaveNotices(s, s.users[me].roomId, me)) ==
      View(net, SetRoomId(Vacate(s, s.users[me].roomId, me), me, 0))
  {
    hide NamesSound, Counted, Conserved, View, Abandoned, LeaveNotices;
    var roomId := s.users[me].roomId;
    IdsDisjoint(s, roomId);
    IdsDisjoint(s, 0);
    LeaveIsTracked(net, s, s, roomId, me);
    var moved := if roomId in s.rooms then SetRoomId(s, me, 0) else s;
    SightDecidesView(net, moved.(rooms := Vacate(s, roomId, me).rooms), SetRoomId(Vacate(s, roomId, me), me, 0));
  }

  lemma HostGoneIsTracked(net: Net, s: Lobby, me: Id, game: Id)
    requires Inv(s) && me in s.users && game in s.games
    ensures Replay(View(net, s), [LeavePacket(game, me), ClosePacket(game)]) == View(net, RemoveGame(s, game))
  {
    hide NamesSound, Counted, Conserved, View, LeavePacket, ClosePacket, Observe;
    IdsDisjoint(s, game);
    LeaveObserved(net, s, game, me);
    ReplayTwo(View(net, s), LeavePacket(game, me), ClosePacket(game));
    CloseObserved(net, s, game);
  }

  /** After a user and its game are gone: what the replica shows, `shown`, still has the user. */
  lemma DepartureIsTracked(net: Net, shown: Lobby, left: Lobby, roomId: Id, leftId: Id, me: Id)
    requires left.rooms == shown.rooms && left.games == shown.games && left.users == shown.users - {me}
    requires roomId !in shown.games && (leftId == me || leftId !in shown.users)
    ensures Replay(View(net, shown), LeaveNotices(left, roomId, leftId) + [DisconnectPacket(me)]) ==
      View(net, Vacate(left, roomId, leftId))
  {
    hide View, Abandoned, LeaveNotices, Observe, DisconnectPacket;
    LeaveIsTracked(net, shown, left, roomId, leftId);
    var moved := if roomId in shown.rooms && leftId in shown.users && shown.users[leftId].roomId == roomId
                 then SetRoomId(shown, leftId, 0) else shown;
    var closed := moved.(rooms := Vacate(left, roomId, leftId).rooms);
    DisconnectObserved(net, closed, me);
    ReplayOne(View(net, closed), DisconnectPacket(me));
    assert moved.users - {me} == shown.users - {me};
    VacateKeepsUsers(left, roomId, leftId);
    SightDecidesView(net, RemoveUser(closed, me), Vacate(left, roomId, leftId));
    ReplayInTurn(View(net, shown), LeaveNotices(left, roomId, leftId), [DisconnectPacket(me)]);
  }

  lemma DisconnectIsTracked(net: Net, s: Lobby, e: Event)
    requires Inv(s) && e.Disconnected? && Enabled(net, s, e)
    ensures Replay(View(net, s), DisconnectNotices(s, e.user, e.hosted)) == View(net, Effect(net, s, e))
  {
    hide NamesSound, Counted, Conserved, View, Vacate, LeaveNotices, LeavePacket, ClosePacket, DisconnectPacket, Replay;
    var (me, hosted) := (e.user, e.hosted);
    var roomId, leftId := RoomLeft(s, me, hosted), if hosted.Some? then hosted.value else me;
    IdsDisjoint(s, me);
    IdsDisjoint(s, leftId);
    IdsDisjoint(s, roomId);
    IdsDisjoint(s, 0);
    var left := Departed(s, me, hosted);
    var rest := LeaveNotices(left, roomId, leftId) + [DisconnectPacket(me)];
    if hosted.Some? {
      HostGoneIsTracked(net, s, me, hosted.value);
      DepartureIsTracked(net, RemoveGame(s, hosted.value), left, roomId, leftId, me);
      var first := [LeavePacket(hosted.value, me), ClosePacket(hosted.value)];
      ReplayInTurn(View(net, s), first, rest);
      assert DisconnectNotices(s, me, hosted) == first + rest;
    } else {
      DepartureIsTracked(net, s, left, roomId, leftId, me);
    }
  }

  lemma NotObserved(r: Replica, p: Packet)
    requires p.code == CHAT_ROOM
    ensures Observe(r, p) == r
  {
  }

  lemma RequestIsTracked(net: Net, s: Lobby, e: Event, v: Id)
    requires Inv(s) && e.Request? && Enabled(net, s, e) && v in s.users
    ensures Replay(View(net, s), Notices(net, s, e, v)) == View(net, Effect(net, s, e))
  {
    hide Inv, View, Observe, LeaveNotices, JoinNotices, RoomPacket, GamePacket, NewRoom, NewGame, Issue, MayIssue,
      Vacate, SetRoomId, MayHost, RoomNameTaken, WellParsed, Enumerates, GroupPrefix, PrivatePrefix;
    var Request(me, packet, id, order) := e;
    if packet.code == CHAT_ROOM {
      var ps := ChatNotices(s, me, packet.fields, v);
      if ps != [] {
        ReplayOne(View(net, s), ps[0]);
        NotObserved(View(net, s), ps[0]);
      }
    } else if packet.code == JOIN {
      JoinIsTracked(net, s, me, packet.fields);
    } else if packet.code == LEAVE {
      OwnLeaveIsTracked(net, s, me);
    } else if Allocates(net, s, e) {
      if packet.code == CREATE_ROOM {
        RoomIsTracked(net, s, id, NewRoom(packet.fields, s.users[me]));
      } else {
        GameIsTracked(net, s, id, NewGame(s.users[me], MayHostInfo(net, packet.fields, s.users[me])));
      }
    }
  }

  /** One event moves a bystander's replica from the view of the old state to the view of the new. */
  lemma StepIsTracked(net: Net, s: Lobby, e: Event, v: Id)
    requires Inv(s) && Enabled(net, s, e) && v in s.users && !ActedBy(e, v)
    requires Allocates(net, s, e) ==> LiveCount(s) < POOL
    ensures Replay(View(net, s), Notices(net, s, e, v)) == View(net, Apply(net, s, e))
  {
    hide Inv, Enabled, View, Effect, Apply, Replay;
    ApplyHasEffect(net, s, e);
    ViewIgnoresMail(net, Effect(net, s, e), Apply(net, s, e));
    match e
    case Login(_, _, _) => LoginIsTracked(net, s, e);
    case Request(_, _, _, _) => RequestIsTracked(net, s, e, v);
    case Disconnected(_, _) => DisconnectIsTracked(net, s, e);
  }

  // ---- Replication over runs ----

  /** `v` is connected all along and makes no request. */
  predicate Bystander(events: seq<Event>, v: Id) {
    forall i :: 0 <= i < |events| ==> !ActedBy(events[i], v)
  }

  /** From `s` to `t` user `v` was sent `ps`, and replaying them turns the view of `s` into the view of `t`. */
  ghost predicate Tracks(net: Net, s: Lobby, t: Lobby, v: Id, ps: seq<Packet>) {
    v in t.users && Sends(s, t, v, ps) && Replay(View(net, s), ps) == View(net, t)
  }

  lemma StepTracks(net: Net, s: Lobby, e: Event, v: Id)
    requires Inv(s) && Enabled(net, s, e) && v in s.users && !ActedBy(e, v)
    requires Allocates(net, s, e) ==> LiveCount(s) < POOL
    ensures Tracks(net, s, Apply(net, s, e), v, Notices(net, s, e, v))
  {
    hide Enabled, View, Apply, Replay, Notices, NamesSound, NoDangling, Conserved, Counted, Allocates;
    BystanderIsSent(net, s, e, v);
    StepIsTracked(net, s, e, v);
    StepKeepsInv(net, s, e);
  }

  lemma TracksInTurn(net: Net, s: Lobby, t: Lobby, u: Lobby, v: Id, ps: seq<Packet>, qs: seq<Packet>)
    requires Tracks(net, s, t, v, ps) && Tracks(net, t, u, v, qs)
    ensures Tracks(net, s, u, v, ps + qs)
  {
    hide View, Replay;
    SendsInTurn(s, t, u, v, ps, qs);
    ReplayInTurn(View(net, s), ps, qs);
  }

  lemma {:induction false} RunTracks(net: Net, s: Lobby, events: seq<Event>, v: Id) returns (ps: seq<Packet>)
    requires Inv(s) && ValidRun(net, s, events) && WithinPool(net, s, events)
    requires v in s.users && Bystander(events, v)
    ensures Tracks(net, s, Final(net, s, events), v, ps)
    decreases |events|
  {
    hide Inv, Apply, Enabled, Allocates, Notices, Tracks, ActedBy;
    if events == [] {
      ps := [];
      StandingStillTracks(net, s, v);
    } else {
      StepTracks(net, s, events[0], v);
      StepKeepsInv(net, s, events[0]);
      var t := Apply(net, s, events[0]);
      assert v in t.users by { TrackedIsThere(net, s, t, v, Notices(net, s, events[0], v)); }
      var qs := RunTracks(net, t, events[1..], v);
      TracksInTurn(net, s, t, Final(net, s, events), v, Notices(net, s, events[0], v), qs);
      ps := Notices(net, s, events[0], v) + qs;
    }
  }

  lemma StandingStillTracks(net: Net, s: Lobby, v: Id)
    requires Inv(s) && v in s.users
    ensures Tracks(net, s, s, v, [])
  {
    hide View;
    assert s.mail[v] + [] == s.mail[v];
  }

  lemma TrackedIsThere(net: Net, s: Lobby, t: Lobby, v: Id, ps: seq<Packet>)
    requires Tracks(net, s, t, v, ps)
    ensures v in t.users
  {
  }

  lemma TrackedMail(net: Net, s: Lobby, t: Lobby, v: Id, ps: seq<Packet>)
    requires Tracks(net, s, t, v, ps)
    ensures v in s.mail && v in t.users && v in t.mail && s.mail[v] <= t.mail[v]
    ensures Replay(View(net, s), t.mail[v][|s.mail[v]|..]) == View(net, t)
  {
    hide View, Replay;
    assert t.mail[v][|s.mail[v]|..] == ps;
  }

  /** Over any run from a sound state, a user who stays connected and makes no request stays in the lobby, is only
      ever sent more, and turns its view of the first state into the view of the last by replaying what it was sent. */
  lemma ReplicaTracksLobby(net: Net, s: Lobby, events: seq<Event>, v: Id)
    requires Inv(s) && ValidRun(net, s, events) && WithinPool(net, s, events)
    requires v in s.users && Bystander(events, v)
    ensures var t := Final(net, s, events);
      && v in s.mail && v in t.users && v in t.mail && s.mail[v] <= t.mail[v]
      && Replay(View(net, s), t.mail[v][|s.mail[v]|..]) == View(net, t)
  {
    hide *;
    var ps := RunTracks(net, s, events, v);
    TrackedMail(net, s, Final(net, s, events), v, ps);
  }
}
