/** The lobby as a state machine: users, rooms and games that share one space of ids, and the packets queued for
    each user. Every login, request and disconnect is one step, as all of them run on a single thread without
    suspending between their checks and their updates. Where the server's order or choice is unspecified (which
    recycled id is handed out, the order of a hash map, which of several games is found by name) the step carries
    the choice made. */
module Lobbies {
  import opened Bytes
  import opened SessionInfos
  import opened Packets
  import opened PacketLaws
  import opened Names
  import Sessions

  type Id = uint32
  type Ipv4 = uint32

  datatype IpAddress = V4(address: Ipv4) | V6(tag: nat)

  /** Reading and writing addresses: `make_address`, which may fail, and `to_string`. */
  datatype Net = Net(parse: octets -> Option<IpAddress>, show: Ipv4 -> octets)

  datatype User = User(name: octets, info: SessionInfo, address: Ipv4, roomId: Id)
  datatype Room = Room(name: octets, info: SessionInfo, address: Ipv4)
  datatype Game = Game(name: octets, info: SessionInfo, address: Ipv4, roomId: Id)

  datatype Lobby = Lobby(
    users: map<Id, User>, rooms: map<Id, Room>, games: map<Id, Game>,
    nextId: Id, recycled: multiset<Id>,
    mail: map<Id, seq<Packet>>)

  const K_START: Id := 0x1000

  const INITIAL := Lobby(map[], map[], map[], K_START, multiset{}, map[])

  // ---- Database ----

  /** The ids `getNextId` may return: any recycled one if there is one, else the counter's. */
  predicate MayIssue(s: Lobby, id: Id) {
    if s.recycled != multiset{} then id in s.recycled
    else id == if s.nextId < K_START then K_START else s.nextId
  }

  function Issue(s: Lobby, id: Id): Lobby {
    if s.recycled != multiset{} then s.(recycled := s.recycled - multiset{id})
    else s.(nextId := (id + 1) % 0x1_0000_0000)
  }

  function AddUser(s: Lobby, id: Id, u: User): Lobby {
    s.(users := s.users[id := u], mail := s.mail[id := []])
  }

  function RemoveUser(s: Lobby, id: Id): Lobby {
    s.(users := s.users - {id}, mail := s.mail - {id}, recycled := s.recycled + multiset{id})
  }

  function AddRoom(s: Lobby, id: Id, r: Room): Lobby {
    s.(rooms := s.rooms[id := r])
  }

  function RemoveRoom(s: Lobby, id: Id): Lobby {
    s.(rooms := s.rooms - {id}, recycled := s.recycled + multiset{id})
  }

  function AddGame(s: Lobby, id: Id, g: Game): Lobby {
    s.(games := s.games[id := g])
  }

  function RemoveGame(s: Lobby, id: Id): Lobby {
    s.(games := s.games - {id}, recycled := s.recycled + multiset{id})
  }

  function SetRoomId(s: Lobby, id: Id, roomId: Id): Lobby
    requires id in s.users
  {
    s.(users := s.users[id := s.users[id].(roomId := roomId)])
  }

  /** Queues packets for each user in `to`. */
  function Post(s: Lobby, to: set<Id>, ps: seq<Packet>): Lobby {
    s.(mail := map id | id in s.mail :: if id in to then s.mail[id] + ps else s.mail[id])
  }

  function Others(s: Lobby, except: Id): set<Id> {
    s.users.Keys - {except}
  }

  function Members(s: Lobby, roomId: Id): set<Id> {
    set id | id in s.users && s.users[id].roomId == roomId
  }

  lemma IsMember(s: Lobby, roomId: Id, id: Id)
    ensures id in Members(s, roomId) <==> id in s.users && s.users[id].roomId == roomId
  {
  }

  // ---- Packets the server sends ----

  function ErrorReply(code: uint32, error: uint32): Packet {
    Packet(code, NO_FIELDS.(error := Some(error)))
  }

  function IdReply(code: uint32, id: Id, error: uint32): Packet {
    Packet(code, NO_FIELDS.(value1 := Some(id), error := Some(error)))
  }

  function LoginPacket(id: Id, name: octets, info: SessionInfo): Packet {
    Packet(LOGIN, NO_FIELDS.(value1 := Some(id), value4 := Some(0), name := Some(CString(name)), info := Some(info)))
  }

  function DisconnectPacket(id: Id): Packet {
    Packet(DISCONNECT_USER, NO_FIELDS.(value10 := Some(id)))
  }

  function JoinPacket(roomId: Id, userId: Id): Packet {
    Packet(JOIN, NO_FIELDS.(value2 := Some(roomId), value10 := Some(userId)))
  }

  function LeavePacket(roomId: Id, leftId: Id): Packet {
    Packet(LEAVE, NO_FIELDS.(value2 := Some(roomId), value10 := Some(leftId)))
  }

  function ClosePacket(id: Id): Packet {
    Packet(CLOSE, NO_FIELDS.(value10 := Some(id)))
  }

  function RoomPacket(id: Id, r: Room): Packet {
    Packet(CREATE_ROOM, NO_FIELDS.(value1 := Some(id), value4 := Some(0), name := Some(r.name), data := Some([]),
      info := Some(r.info)))
  }

  function GamePacket(net: Net, id: Id, g: Game): Packet {
    Packet(CREATE_GAME, NO_FIELDS.(value1 := Some(id), value2 := Some(g.roomId), value4 := Some(0x800),
      name := Some(g.name), data := Some(net.show(g.address)), info := Some(g.info)))
  }

  function ItemPacket(id: Id, name: octets, data: octets, info: SessionInfo): Packet {
    Packet(LIST_ITEM, NO_FIELDS.(value1 := Some(id), name := Some(name), data := Some(data), info := Some(info)))
  }

  const LIST_END_PACKET := Packet(LIST_END, NO_FIELDS)

  /** A chat message is sent from a C string, so it stops at its first NUL. */
  function ChatPacket(from: Id, target: Id, message: octets): Packet {
    Packet(CHAT_ROOM, NO_FIELDS.(value0 := Some(from), value3 := Some(target), data := Some(CString(message))))
  }

  function ConnectPacket(data: octets, error: uint32): Packet {
    Packet(CONNECT_GAME_REPLY, NO_FIELDS.(data := Some(data), error := Some(error)))
  }

  function Ascii(text: string): (s: octets)
    ensures |s| == |text|
  {
    seq(|text|, i requires 0 <= i < |text| => text[i] as int % 0x100)
  }

  function GroupPrefix(name: octets): octets {
    Ascii("GRP:[ ") + name + Ascii(" ]  ")
  }

  function PrivatePrefix(name: octets): octets {
    Ascii("PRV:[ ") + name + Ascii(" ]  ")
  }

  function CannotHost(): octets {
    Ascii("GRP:Cannot host your game. Please use FrontendKitWS with fkNetcode. " +
          "More information at worms2d.info/fkNetcode")
  }

  // ---- Requests ----

  /** The lobby after a request, and how its handler ended. */
  datatype Step = Step(lobby: Lobby, verdict: Sessions.Verdict)

  function Done(s: Lobby): Step {
    Step(s, Sessions.Handled)
  }

  function Refuse(s: Lobby): Step {
    Step(s, Sessions.Refused)
  }

  function OnChatRoom(s: Lobby, me: Id, p: Fields): Step
    requires me in s.users
  {
    if ValueOr(p.value0, 0) != me || p.value3.None? || p.data.None? then Refuse(s)
    else
      var (target, message, u) := (p.value3.value, p.data.value, s.users[me]);
      if GroupPrefix(u.name) <= message then
        if u.roomId == target then
          var s1 := Post(s, Members(s, u.roomId) - {me}, [ChatPacket(me, u.roomId, message)]);
          Done(Post(s1, {me}, [ErrorReply(CHAT_ROOM_REPLY, 0)]))
        else
          Done(Post(s, {me}, [ErrorReply(CHAT_ROOM_REPLY, 1)]))
      else if PrivatePrefix(u.name) <= message then
        if target !in s.users || s.users[target].roomId != u.roomId then
          Done(Post(s, {me}, [ErrorReply(CHAT_ROOM_REPLY, 1)]))
        else
          var s1 := Post(s, {target}, [ChatPacket(me, target, message)]);
          Done(Post(s1, {me}, [ErrorReply(CHAT_ROOM_REPLY, 0)]))
      else
        Done(s)
  }

  function RoomItems(rooms: map<Id, Room>, order: seq<Id>): seq<Packet> {
    if order == [] then []
    else
      (if order[0] in rooms then [ItemPacket(order[0], rooms[order[0]].name, [], rooms[order[0]].info)] else [])
      + RoomItems(rooms, order[1..])
  }

  function UserItems(users: map<Id, User>, roomId: Id, order: seq<Id>): seq<Packet> {
    if order == [] then []
    else
      (if order[0] in users && users[order[0]].roomId == roomId
       then [ItemPacket(order[0], users[order[0]].name, [], users[order[0]].info)] else [])
      + UserItems(users, roomId, order[1..])
  }

  function GameItems(net: Net, games: map<Id, Game>, roomId: Id, order: seq<Id>): seq<Packet> {
    if order == [] then []
    else
      (if order[0] in games && games[order[0]].roomId == roomId
       then [ItemPacket(order[0], games[order[0]].name, net.show(games[order[0]].address), games[order[0]].info)]
       else [])
      + GameItems(net, games, roomId, order[1..])
  }

  function OnListRooms(s: Lobby, me: Id, p: Fields, order: seq<Id>): Step {
    if ValueOr(p.value4, 0) != 0 then Refuse(s)
    else Done(Post(s, {me}, RoomItems(s.rooms, order) + [LIST_END_PACKET]))
  }

  function OnListUsers(s: Lobby, me: Id, p: Fields, order: seq<Id>): Step
    requires me in s.users
  {
    var roomId := s.users[me].roomId;
    if ValueOr(p.value4, 0) != 0 || ValueOr(p.value2, 0) != roomId then Refuse(s)
    else Done(Post(s, {me}, UserItems(s.users, roomId, order) + [LIST_END_PACKET]))
  }

  function OnListGames(net: Net, s: Lobby, me: Id, p: Fields, order: seq<Id>): Step
    requires me in s.users
  {
    var roomId := s.users[me].roomId;
    if ValueOr(p.value4, 0) != 0 || ValueOr(p.value2, 0) != roomId then Refuse(s)
    else Done(Post(s, {me}, GameItems(net, s.games, roomId, order) + [LIST_END_PACKET]))
  }

  predicate RoomNameTaken(s: Lobby, name: octets) {
    exists id :: id in s.rooms && EqualsCaseInsensitive(name, s.rooms[id].name)
  }

  predicate RoomRequestValid(p: Fields) {
    && ValueOr(p.value1, 0) == 0 && ValueOr(p.value4, 0) == 0
    && TextOr(p.data, []) != [] && TextOr(p.name, []) != [] && p.info.Some?
  }

  function NewRoom(p: Fields, u: User): Room
    requires p.name.Some? && p.info.Some?
  {
    Room(p.name.value, NewInfo(p.info.value.nation, ROOM, PUBLIC_ACCESS), u.address)
  }

  function OnCreateRoom(s: Lobby, me: Id, p: Fields, id: Id): Step
    requires me in s.users
  {
    if !RoomRequestValid(p) then Refuse(s)
    else if RoomNameTaken(s, p.name.value) then Done(Post(s, {me}, [IdReply(CREATE_ROOM_REPLY, 0, 1)]))
    else
      var r := NewRoom(p, s.users[me]);
      var s1 := AddRoom(Issue(s, id), id, r);
      var s2 := Post(s1, Others(s1, me), [RoomPacket(id, r)]);
      Done(Post(s2, {me}, [IdReply(CREATE_ROOM_REPLY, id, 0)]))
  }

  function OnJoin(s: Lobby, me: Id, p: Fields): Step
    requires me in s.users
  {
    if p.value2.None? || ValueOr(p.value10, 0) != me then Refuse(s)
    else
      var target := p.value2.value;
      if target in s.rooms then
        var s1 := SetRoomId(s, me, target);
        var s2 := Post(s1, Others(s1, me), [JoinPacket(target, me)]);
        Done(Post(s2, {me}, [ErrorReply(JOIN_REPLY, 0)]))
      else if target in s.games && s.games[target].roomId == s.users[me].roomId then
        var s1 := Post(s, Others(s, me), [JoinPacket(s.users[me].roomId, me)]);
        Done(Post(s1, {me}, [ErrorReply(JOIN_REPLY, 0)]))
      else
        Done(Post(s, {me}, [ErrorReply(JOIN_REPLY, 1)]))
  }

  /** Nobody but `leftId`, which may be a user's or a game's id, refers to the room. */
  predicate Abandoned(s: Lobby, roomId: Id, leftId: Id) {
    && (forall id :: id in s.users && id != leftId ==> s.users[id].roomId != roomId)
    && (forall id :: id in s.games && id != leftId ==> s.games[id].roomId != roomId)
  }

  /** Announces that `leftId` left the room, if there is such a room, and closes the room if that abandons it. */
  function LeaveRoom(s: Lobby, roomId: Id, leftId: Id): Lobby {
    if roomId !in s.rooms then s
    else if Abandoned(s, roomId, leftId) then
      Post(RemoveRoom(s, roomId), Others(s, leftId), [LeavePacket(roomId, leftId), ClosePacket(roomId)])
    else
      Post(s, Others(s, leftId), [LeavePacket(roomId, leftId)])
  }

  function OnLeave(s: Lobby, me: Id, p: Fields): Step
    requires me in s.users
  {
    if ValueOr(p.value10, 0) != me || p.value2.None? then Refuse(s)
    else if p.value2.value == s.users[me].roomId then
      var s1 := SetRoomId(LeaveRoom(s, s.users[me].roomId, me), me, 0);
      Done(Post(s1, {me}, [ErrorReply(LEAVE_REPLY, 0)]))
    else
      Done(Post(s, {me}, [ErrorReply(LEAVE_REPLY, 1)]))
  }

  function OnClose(s: Lobby, me: Id, p: Fields): Step {
    if p.value10.None? then Refuse(s) else Done(Post(s, {me}, [ErrorReply(CLOSE_REPLY, 0)]))
  }

  predicate GameRequestValid(p: Fields, u: User) {
    && p.value1 == Some(0) && ValueOr(p.value2, 0) == u.roomId && ValueOr(p.value4, 0) == 0x800
    && p.data.Some? && p.name.Some? && p.info.Some?
  }

  /** The announced address is the one the user connects from. */
  predicate MayHost(net: Net, p: Fields, u: User) {
    GameRequestValid(p, u) && net.parse(p.data.value) == Some(V4(u.address))
  }

  /** A hosted game is created and confirmed, and then the refusal is sent all the same. An address that cannot be
      parsed throws: the exception is not of the type the handler catches. */
  function OnCreateGame(net: Net, s: Lobby, me: Id, p: Fields, id: Id): Step
    requires me in s.users
  {
    var u := s.users[me];
    if !GameRequestValid(p, u) then Refuse(s)
    else if net.parse(p.data.value).None? then Step(s, Sessions.Threw)
    else
      var s1 := if MayHost(net, p, u) then HostGame(net, s, me, p.info.value.access, id) else s;
      Done(Post(s1, {me}, [IdReply(CREATE_GAME_REPLY, 0, 2), ChatPacket(me, u.roomId, CannotHost())]))
  }

  function NewGame(u: User, access: byte): Game {
    Game(u.name, NewInfo(u.info.nation, GAME, access), u.address, u.roomId)
  }

  function HostGame(net: Net, s: Lobby, me: Id, access: byte, id: Id): Lobby
    requires me in s.users
  {
    var g := NewGame(s.users[me], access);
    var s1 := AddGame(Issue(s, id), id, g);
    var s2 := Post(s1, Others(s1, me), [GamePacket(net, id, g)]);
    Post(s2, {me}, [IdReply(CREATE_GAME_REPLY, id, 0)])
  }

  function OnConnectGame(net: Net, s: Lobby, me: Id, p: Fields): Step
    requires me in s.users
  {
    if p.value0.None? then Refuse(s)
    else
      var id := p.value0.value;
      if id in s.games && s.games[id].roomId == s.users[me].roomId then
        Done(Post(s, {me}, [ConnectPacket(net.show(s.games[id].address), 0)]))
      else
        Done(Post(s, {me}, [ConnectPacket([], 1)]))
  }

  /** `handlePacket`. The new id and the listing order matter only to the requests that use them. */
  function HandlePacket(net: Net, s: Lobby, me: Id, packet: Packet, id: Id, order: seq<Id>): Step
    requires me in s.users
  {
    var (code, p) := (packet.code, packet.fields);
    if code == CHAT_ROOM then OnChatRoom(s, me, p)
    else if code == LIST_ROOMS then OnListRooms(s, me, p, order)
    else if code == LIST_USERS then OnListUsers(s, me, p, order)
    else if code == LIST_GAMES then OnListGames(net, s, me, p, order)
    else if code == CREATE_ROOM then OnCreateRoom(s, me, p, id)
    else if code == JOIN then OnJoin(s, me, p)
    else if code == LEAVE then OnLeave(s, me, p)
    else if code == CLOSE then OnClose(s, me, p)
    else if code == CREATE_GAME then OnCreateGame(net, s, me, p, id)
    else if code == CONNECT_GAME then OnConnectGame(net, s, me, p)
    else Refuse(s)
  }

  // ---- Login and disconnect ----

  predicate UserNameTaken(s: Lobby, name: octets) {
    exists id :: id in s.users && EqualsCaseInsensitive(s.users[id].name, name)
  }

  predicate LoginValid(packet: Packet) {
    && packet.code == LOGIN
    && packet.fields.value1.Some? && packet.fields.value4.Some? && packet.fields.name.Some? && packet.fields.info.Some?
  }

  predicate LoginAccepted(s: Lobby, packet: Packet) {
    LoginValid(packet) && !UserNameTaken(s, packet.fields.name.value)
  }

  function NewUser(p: Fields, address: Ipv4): User
    requires p.name.Some? && p.info.Some?
  {
    User(p.name.value, NewInfo(p.info.value.nation, USER, PUBLIC_ACCESS), address, 0)
  }

  /** What is written straight to the socket of a client that is turned away: only a taken name gets an answer. */
  function LoginRefusal(s: Lobby, packet: Packet): seq<Packet> {
    if LoginValid(packet) && UserNameTaken(s, packet.fields.name.value) then [IdReply(LOGIN_REPLY, 0, 1)] else []
  }

  function LogIn(s: Lobby, packet: Packet, address: Ipv4, id: Id): Lobby {
    if !LoginAccepted(s, packet) then s
    else
      var u := NewUser(packet.fields, address);
      var s1 := Issue(s, id);
      var s2 := Post(s1, s1.users.Keys, [LoginPacket(id, u.name, u.info)]);
      Post(AddUser(s2, id, u), {id}, [IdReply(LOGIN_REPLY, id, 0)])
  }

  /** What `getGameByName` may find. */
  predicate MayFindGame(s: Lobby, name: octets, found: Option<Id>) {
    match found
    case Some(id) => id in s.games && s.games[id].name == name
    case None => forall id :: id in s.games ==> s.games[id].name != name
  }

  function CloseGame(s: Lobby, gameId: Id, userId: Id): Lobby {
    var s1 := RemoveGame(s, gameId);
    Post(s1, Others(s1, userId), [LeavePacket(gameId, userId), ClosePacket(gameId)])
  }

  function Disconnect(s: Lobby, me: Id, hosted: Option<Id>): Lobby
    requires me in s.users && (hosted.Some? ==> hosted.value in s.games)
  {
    if me == 0 then s
    else
      var s1 := RemoveUser(s, me);
      var s2 := if hosted.Some? then CloseGame(s1, hosted.value, me) else s1;
      var s3 := LeaveRoom(s2, RoomLeft(s, me, hosted), if hosted.Some? then hosted.value else me);
      Post(s3, s3.users.Keys, [DisconnectPacket(me)])
  }

  /** The room a disconnect leaves: that of the hosted game if there is one, else the user's own. */
  function RoomLeft(s: Lobby, me: Id, hosted: Option<Id>): Id
    requires me in s.users && (hosted.Some? ==> hosted.value in s.games)
  {
    if hosted.Some? then s.games[hosted.value].roomId else s.users[me].roomId
  }

  // ---- Runs ----

  datatype Event =
    | Login(packet: Packet, address: Ipv4, id: Id)
    | Request(user: Id, packet: Packet, id: Id, order: seq<Id>)
    | Disconnected(user: Id, hosted: Option<Id>)

  /** `order` lists each key once. */
  predicate Enumerates(order: seq<Id>, keys: set<Id>) {
    && (forall i :: 0 <= i < |order| ==> order[i] in keys)
    && (forall id :: id in keys ==> id in order)
    && (forall i, j :: 0 <= i < j < |order| ==> order[i] != order[j])
  }

  function Listed(s: Lobby, code: uint32): set<Id> {
    if code == LIST_ROOMS then s.rooms.Keys
    else if code == LIST_USERS then s.users.Keys
    else if code == LIST_GAMES then s.games.Keys
    else {}
  }

  predicate Allocates(net: Net, s: Lobby, e: Event) {
    match e
    case Login(packet, _, _) => LoginAccepted(s, packet)
    case Request(me, packet, _, _) =>
      me in s.users &&
      if packet.code == CREATE_ROOM then
        RoomRequestValid(packet.fields) && !RoomNameTaken(s, packet.fields.name.value)
      else
        packet.code == CREATE_GAME && MayHost(net, packet.fields, s.users[me])
    case Disconnected(_, _) => false
  }

  /** The events that can happen in a state, with choices the server could make. Packets come from the parser. */
  predicate Enabled(net: Net, s: Lobby, e: Event) {
    match e
    case Login(packet, _, id) => WellParsed(packet) && (Allocates(net, s, e) ==> MayIssue(s, id))
    case Request(me, packet, id, order) =>
      && me in s.users && WellParsed(packet)
      && (Allocates(net, s, e) ==> MayIssue(s, id))
      && Enumerates(order, Listed(s, packet.code))
    case Disconnected(me, hosted) => me in s.users && MayFindGame(s, s.users[me].name, hosted)
  }

  function Apply(net: Net, s: Lobby, e: Event): Lobby
    requires Enabled(net, s, e)
  {
    match e
    case Login(packet, address, id) => LogIn(s, packet, address, id)
    case Request(me, packet, id, order) => HandlePacket(net, s, me, packet, id, order).lobby
    case Disconnected(me, hosted) => Disconnect(s, me, hosted)
  }

  lemma DisconnectApplied(net: Net, s: Lobby, me: Id, found: Option<Id>)
    requires me in s.users && MayFindGame(s, s.users[me].name, found)
    ensures found.Some? ==> found.value in s.games
    ensures var e := Disconnected(me, found); Enabled(net, s, e) && Apply(net, s, e) == Disconnect(s, me, found)
  {
    hide Disconnect;
  }

  predicate ValidRun(net: Net, s: Lobby, events: seq<Event>)
    decreases |events|
  {
    events != [] ==> Enabled(net, s, events[0]) && ValidRun(net, Apply(net, s, events[0]), events[1..])
  }

  function Final(net: Net, s: Lobby, events: seq<Event>): Lobby
    requires ValidRun(net, s, events)
    decreases |events|
  {
    if events == [] then s else Final(net, Apply(net, s, events[0]), events[1..])
  }

  lemma {:induction false} RunAppend(net: Net, s: Lobby, events: seq<Event>, more: seq<Event>)
    requires ValidRun(net, s, events) && ValidRun(net, Final(net, s, events), more)
    ensures ValidRun(net, s, events + more)
    ensures Final(net, s, events + more) == Final(net, Final(net, s, events), more)
    decreases |events|
  {
    hide Apply, Enabled;
    if events == [] {
      assert [] + more == more;
    } else {
      assert (events + more)[1..] == events[1..] + more;
      RunAppend(net, Apply(net, s, events[0]), events[1..], more);
    }
  }

  lemma RunSnoc(net: Net, s: Lobby, events: seq<Event>, e: Event)
    requires ValidRun(net, s, events) && Enabled(net, Final(net, s, events), e)
    ensures ValidRun(net, s, events + [e])
    ensures Final(net, s, events + [e]) == Apply(net, Final(net, s, events), e)
  {
    hide Apply, Enabled;
    var t := Final(net, s, events);
    assert [e][1..] == [] && Final(net, Apply(net, t, e), []) == Apply(net, t, e);
    RunAppend(net, s, events, [e]);
  }
}
