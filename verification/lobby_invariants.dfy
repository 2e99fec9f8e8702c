/** What holds in every reachable state of the lobby: no id is lost or held twice, no reference dangles, and names
    are unique. */
module LobbyInvariants {
  import opened Bytes
  import opened Packets
  import opened PacketLaws
  import opened Names
  import opened Lobbies

  // ---- Ids ----

  /** How many ids there are to hand out. */
  const POOL := 0x1_0000_0000 - 0x1000

  function One(b: bool): nat {
    if b then 1 else 0
  }

  /** How many places hold an id: the three maps and the bag of recycled ids. */
  function Holders(s: Lobby, id: Id): nat {
    One(id in s.users) + One(id in s.rooms) + One(id in s.games) + s.recycled[id]
  }

  /** Every id below this has been issued. The counter is 0 once the last id is out. */
  function Ceiling(s: Lobby): nat {
    if s.nextId == 0 then 0x1_0000_0000 else s.nextId
  }

  predicate Issued(s: Lobby, id: Id) {
    K_START <= id < Ceiling(s)
  }

  /** Users, rooms, games and recycled ids are disjoint, nothing is recycled twice, and together they are exactly
      the issued ids. */
  ghost predicate Conserved(s: Lobby) {
    K_START <= Ceiling(s) && forall id: Id :: Holders(s, id) == One(Issued(s, id))
  }

  function LiveCount(s: Lobby): nat {
    |s.users| + |s.rooms| + |s.games|
  }

  ghost predicate Counted(s: Lobby) {
    LiveCount(s) + |s.recycled| == Ceiling(s) - K_START
  }

  ghost predicate IdsSound(s: Lobby) {
    Conserved(s) && Counted(s) && s.mail.Keys == s.users.Keys
  }

  /** As `Conserved`, but for one id that has been issued and not stored yet. */
  ghost predicate InFlight(s: Lobby, id: Id) {
    && K_START <= Ceiling(s) && Issued(s, id) && Holders(s, id) == 0
    && (forall j: Id :: j != id ==> Holders(s, j) == One(Issued(s, j)))
    && LiveCount(s) + |s.recycled| + 1 == Ceiling(s) - K_START
    && s.mail.Keys == s.users.Keys
  }

  lemma RecycledIdIsFresh(s: Lobby, id: Id)
    requires IdsSound(s) && id in s.recycled
    ensures InFlight(Issue(s, id), id)
  {
    var t := Issue(s, id);
    assert Holders(s, id) == One(Issued(s, id));
    assert |t.recycled| == |s.recycled| - 1;
    forall j: Id | j != id ensures Holders(t, j) == One(Issued(t, j)) {
      assert Holders(s, j) == One(Issued(s, j));
    }
  }

  lemma CounterIdIsFresh(s: Lobby, id: Id)
    requires IdsSound(s) && s.recycled == multiset{} && s.nextId != 0 && id == s.nextId
    ensures InFlight(Issue(s, id), id)
  {
    hide One;
    var t := Issue(s, id);
    assert Ceiling(t) == Ceiling(s) + 1;
    assert Holders(s, id) == One(Issued(s, id)) == 0 by { OneOfFalse(); }
    forall j: Id | j != id ensures Holders(t, j) == One(Issued(t, j)) {
      assert Holders(s, j) == One(Issued(s, j));
    }
  }

  lemma OneOfFalse()
    ensures One(false) == 0
  {
  }

  lemma IssueTakesFresh(s: Lobby, id: Id)
    requires IdsSound(s) && MayIssue(s, id) && LiveCount(s) < POOL
    ensures InFlight(Issue(s, id), id)
  {
    hide Conserved, InFlight;
    assert K_START <= Ceiling(s) by { CeilingAboveStart(s); }
    if s.recycled != multiset{} {
      RecycledIdIsFresh(s, id);
    } else {
      CounterIdIsFresh(s, id);
    }
  }

  /** An id that is issued and then not stored is lost: nothing holds it, and the ids are no longer conserved. That is
      how the creation of a room ends if its maker's address cannot be had any more. */
  lemma UnstoredIdIsLost(s: Lobby, id: Id)
    requires IdsSound(s) && MayIssue(s, id) && LiveCount(s) < POOL
    ensures var t := Issue(s, id);
      Issued(t, id) && Holders(t, id) == 0 && !Conserved(t)
  {
    IssueTakesFresh(s, id);
  }

  lemma CeilingAboveStart(s: Lobby)
    requires Conserved(s)
    ensures K_START <= Ceiling(s)
  {
  }

  lemma AddUserStores(s: Lobby, id: Id, u: User)
    requires InFlight(s, id)
    ensures IdsSound(AddUser(s, id, u))
  {
    var t := AddUser(s, id, u);
    forall j: Id ensures Holders(t, j) == One(Issued(t, j)) {
      assert j != id ==> Holders(s, j) == One(Issued(s, j));
    }
  }

  lemma AddRoomStores(s: Lobby, id: Id, r: Room)
    requires InFlight(s, id)
    ensures IdsSound(AddRoom(s, id, r))
  {
    var t := AddRoom(s, id, r);
    forall j: Id ensures Holders(t, j) == One(Issued(t, j)) {
      assert j != id ==> Holders(s, j) == One(Issued(s, j));
    }
  }

  lemma AddGameStores(s: Lobby, id: Id, g: Game)
    requires InFlight(s, id)
    ensures IdsSound(AddGame(s, id, g))
  {
    var t := AddGame(s, id, g);
    forall j: Id ensures Holders(t, j) == One(Issued(t, j)) {
      assert j != id ==> Holders(s, j) == One(Issued(s, j));
    }
  }

  lemma RemoveUserRecycles(s: Lobby, id: Id)
    requires IdsSound(s) && id in s.users
    ensures IdsSound(RemoveUser(s, id))
  {
    var t := RemoveUser(s, id);
    assert t.users.Keys == s.users.Keys - {id};
    assert |t.users| == |t.users.Keys| && |s.users| == |s.users.Keys|;
    forall j: Id ensures Holders(t, j) == One(Issued(t, j)) {
      assert Holders(s, j) == One(Issued(s, j));
    }
  }

  lemma RemoveRoomRecycles(s: Lobby, id: Id)
    requires IdsSound(s) && id in s.rooms
    ensures IdsSound(RemoveRoom(s, id))
  {
    var t := RemoveRoom(s, id);
    assert t.rooms.Keys == s.rooms.Keys - {id};
    assert |t.rooms| == |t.rooms.Keys| && |s.rooms| == |s.rooms.Keys|;
    forall j: Id ensures Holders(t, j) == One(Issued(t, j)) {
      assert Holders(s, j) == One(Issued(s, j));
    }
  }

  lemma RemoveGameRecycles(s: Lobby, id: Id)
    requires IdsSound(s) && id in s.games
    ensures IdsSound(RemoveGame(s, id))
  {
    var t := RemoveGame(s, id);
    assert t.games.Keys == s.games.Keys - {id};
    assert |t.games| == |t.games.Keys| && |s.games| == |s.games.Keys|;
    forall j: Id ensures Holders(t, j) == One(Issued(t, j)) {
      assert Holders(s, j) == One(Issued(s, j));
    }
  }

  lemma SetRoomIdKeepsIds(s: Lobby, id: Id, roomId: Id)
    requires IdsSound(s) && id in s.users
    ensures IdsSound(SetRoomId(s, id, roomId))
  {
    var t := SetRoomId(s, id, roomId);
    assert t.users.Keys == s.users.Keys;
    assert |t.users| == |t.users.Keys| && |s.users| == |s.users.Keys|;
    forall j: Id ensures Holders(t, j) == One(Issued(t, j)) {
      assert Holders(s, j) == One(Issued(s, j));
    }
  }

  // ---- Steps without their mail ----

  predicate SameButMail(s: Lobby, t: Lobby) {
    t == s.(mail := t.mail) && t.mail.Keys == s.mail.Keys
  }

  lemma PostIsMailOnly(s: Lobby, to: set<Id>, ps: seq<Packet>)
    ensures SameButMail(s, Post(s, to, ps))
  {
  }

  /** The effect of a user or game leaving a room. */
  function Vacate(s: Lobby, roomId: Id, leftId: Id): Lobby {
    if roomId in s.rooms && Abandoned(s, roomId, leftId) then RemoveRoom(s, roomId) else s
  }

  function Departed(s: Lobby, me: Id, hosted: Option<Id>): Lobby {
    var s1 := RemoveUser(s, me);
    if hosted.Some? then RemoveGame(s1, hosted.value) else s1
  }

  /** The effect of an event on everything but the mail. */
  function Effect(net: Net, s: Lobby, e: Event): Lobby
    requires Enabled(net, s, e)
  {
    match e
    case Login(packet, address, id) =>
      if LoginAccepted(s, packet) then AddUser(Issue(s, id), id, NewUser(packet.fields, address)) else s
    case Request(me, packet, id, _) =>
      var (code, p) := (packet.code, packet.fields);
      if Allocates(net, s, e) then
        if code == CREATE_ROOM then AddRoom(Issue(s, id), id, NewRoom(p, s.users[me]))
        else AddGame(Issue(s, id), id, NewGame(s.users[me], p.info.value.access))
      else if code == JOIN && p.value2.Some? && ValueOr(p.value10, 0) == me && p.value2.value in s.rooms then
        SetRoomId(s, me, p.value2.value)
      else if code == LEAVE && p.value2 == Some(s.users[me].roomId) && ValueOr(p.value10, 0) == me then
        SetRoomId(Vacate(s, s.users[me].roomId, me), me, 0)
      else s
    case Disconnected(me, hosted) =>
      if me == 0 then s
      else Vacate(Departed(s, me, hosted), RoomLeft(s, me, hosted), if hosted.Some? then hosted.value else me)
  }

  lemma LeaveRoomEffect(s: Lobby, roomId: Id, leftId: Id)
    ensures SameButMail(Vacate(s, roomId, leftId), LeaveRoom(s, roomId, leftId))
  {
    hide Abandoned;
  }

  lemma LogInEffect(net: Net, s: Lobby, e: Event)
    requires e.Login? && Enabled(net, s, e)
    ensures SameButMail(Effect(net, s, e), Apply(net, s, e))
  {
    hide Issue, MayIssue, UserNameTaken, WellParsed, NewUser, LoginPacket, HandlePacket;
  }

  lemma CloseGameEffect(s: Lobby, me: Id, hosted: Option<Id>)
    ensures SameButMail(Departed(s, me, hosted),
                        if hosted.Some? then CloseGame(RemoveUser(s, me), hosted.value, me) else RemoveUser(s, me))
  {
  }

  lemma DisconnectEffect(net: Net, s: Lobby, e: Event)
    requires e.Disconnected? && Enabled(net, s, e)
    ensures SameButMail(Effect(net, s, e), Apply(net, s, e))
  {
    hide LeaveRoom, Vacate, Departed, CloseGame, RemoveUser, Post, Apply, MayFindGame, HandlePacket;
    var (me, hosted) := (e.user, e.hosted);
    DisconnectApplied(net, s, me, hosted);
    if me != 0 {
      var s1 := Departed(s, me, hosted);
      var t1 := if hosted.Some? then CloseGame(RemoveUser(s, me), hosted.value, me) else RemoveUser(s, me);
      CloseGameEffect(s, me, hosted);
      var (roomId, leftId) := (RoomLeft(s, me, hosted), if hosted.Some? then hosted.value else me);
      VacateIgnoresMail(s1, t1, roomId, leftId);
      LeaveRoomEffect(t1, roomId, leftId);
      var t2 := LeaveRoom(t1, roomId, leftId);
      PostIsMailOnly(t2, t2.users.Keys, [DisconnectPacket(me)]);
    }
  }

  lemma VacateIgnoresMail(s: Lobby, t: Lobby, roomId: Id, leftId: Id)
    requires SameButMail(s, t)
    ensures SameButMail(Vacate(s, roomId, leftId), Vacate(t, roomId, leftId))
  {
  }

  lemma LeaveEffect(s: Lobby, me: Id, p: Fields)
    requires me in s.users
    ensures SameButMail(
      if p.value2 == Some(s.users[me].roomId) && ValueOr(p.value10, 0) == me
      then SetRoomId(Vacate(s, s.users[me].roomId, me), me, 0) else s,
      OnLeave(s, me, p).lobby)
  {
    hide LeaveRoom, Vacate;
    LeaveRoomEffect(s, s.users[me].roomId, me);
    VacateKeepsUsers(s, s.users[me].roomId, me);
  }

  lemma VacateKeepsUsers(s: Lobby, roomId: Id, leftId: Id)
    ensures Vacate(s, roomId, leftId).users == s.users && LeaveRoom(s, roomId, leftId).users == s.users
  {
  }

  lemma JoinEffect(s: Lobby, me: Id, p: Fields)
    requires me in s.users
    ensures SameButMail(
      if p.value2.Some? && ValueOr(p.value10, 0) == me && p.value2.value in s.rooms
      then SetRoomId(s, me, p.value2.value) else s,
      OnJoin(s, me, p).lobby)
  {
  }

  lemma CreateRoomEffect(s: Lobby, me: Id, p: Fields, id: Id)
    requires me in s.users
    ensures SameButMail(
      if RoomRequestValid(p) && !RoomNameTaken(s, p.name.value)
      then AddRoom(Issue(s, id), id, NewRoom(p, s.users[me])) else s,
      OnCreateRoom(s, me, p, id).lobby)
  {
    hide Issue, RoomNameTaken;
    IssueKeepsMaps(s, id);
  }

  lemma IssueKeepsMaps(s: Lobby, id: Id)
    ensures Issue(s, id) == s.(nextId := Issue(s, id).nextId, recycled := Issue(s, id).recycled)
  {
  }

  lemma CreateGameEffect(net: Net, s: Lobby, me: Id, p: Fields, id: Id)
    requires me in s.users
    ensures SameButMail(
      if MayHost(net, p, s.users[me]) then AddGame(Issue(s, id), id, NewGame(s.users[me], p.info.value.access)) else s,
      OnCreateGame(net, s, me, p, id).lobby)
  {
    hide Issue, CannotHost;
    IssueKeepsMaps(s, id);
  }

  /** A request that changes nothing but mail, and is not chat, is at most answered. */
  lemma QuietIsAnswered(net: Net, s: Lobby, me: Id, packet: Packet, id: Id, order: seq<Id>) returns (ps: seq<Packet>)
    requires me in s.users && packet.code !in {CHAT_ROOM, CREATE_ROOM, JOIN, LEAVE, CREATE_GAME}
    ensures var t := HandlePacket(net, s, me, packet, id, order).lobby; t == s || t == Post(s, {me}, ps)
  {
    hide RoomItems, UserItems, GameItems, Post, ConnectPacket, ErrorReply;
    var (code, p, u) := (packet.code, packet.fields, s.users[me]);
    ps := if code == LIST_ROOMS then RoomItems(s.rooms, order) + [LIST_END_PACKET]
          else if code == LIST_USERS then UserItems(s.users, u.roomId, order) + [LIST_END_PACKET]
          else if code == LIST_GAMES then GameItems(net, s.games, u.roomId, order) + [LIST_END_PACKET]
          else if code == CLOSE then [ErrorReply(CLOSE_REPLY, 0)]
          else if p.value0.Some? && p.value0.value in s.games && s.games[p.value0.value].roomId == u.roomId then
            [ConnectPacket(net.show(s.games[p.value0.value].address), 0)]
          else [ConnectPacket([], 1)];
  }

  lemma ChatEffect(s: Lobby, me: Id, p: Fields)
    requires me in s.users
    ensures SameButMail(s, OnChatRoom(s, me, p).lobby)
  {
    hide GroupPrefix, PrivatePrefix, ChatPacket;
  }

  lemma QuietEffect(net: Net, s: Lobby, me: Id, packet: Packet, id: Id, order: seq<Id>)
    requires me in s.users && packet.code !in {CREATE_ROOM, JOIN, LEAVE, CREATE_GAME}
    ensures SameButMail(s, HandlePacket(net, s, me, packet, id, order).lobby)
  {
    if packet.code == CHAT_ROOM {
      hide OnChatRoom, SameButMail;
      ChatEffect(s, me, packet.fields);
    } else {
      hide HandlePacket, Post;
      var ps := QuietIsAnswered(net, s, me, packet, id, order);
      PostIsMailOnly(s, {me}, ps);
    }
  }

  lemma ApplyHasEffect(net: Net, s: Lobby, e: Event)
    requires Enabled(net, s, e)
    ensures SameButMail(Effect(net, s, e), Apply(net, s, e))
  {
    match e
    case Login(_, _, _) => LogInEffect(net, s, e);
    case Disconnected(_, _) => DisconnectEffect(net, s, e);
    case Request(me, packet, id, order) =>
      hide OnLeave, OnJoin, OnCreateRoom, OnCreateGame, OnChatRoom, OnListRooms, OnListUsers, OnListGames, OnClose,
        OnConnectGame, WellParsed, MayIssue, Enumerates, Listed, SetRoomId, Vacate, SameButMail, MayHost,
        RoomRequestValid, RoomNameTaken;
      if packet.code == CREATE_ROOM {
        CreateRoomEffect(s, me, packet.fields, id);
      } else if packet.code == JOIN {
        JoinEffect(s, me, packet.fields);
      } else if packet.code == LEAVE {
        LeaveEffect(s, me, packet.fields);
      } else if packet.code == CREATE_GAME {
        CreateGameEffect(net, s, me, packet.fields, id);
      } else {
        QuietEffect(net, s, me, packet, id, order);
      }
  }

  // ---- Invariants, step by step ----

  /** Every room id held by a user or a game is 0 or that of a live room. */
  ghost predicate NoDangling(s: Lobby) {
    && (forall id :: id in s.users ==> s.users[id].roomId == 0 || s.users[id].roomId in s.rooms)
    && (forall id :: id in s.games ==> s.games[id].roomId == 0 || s.games[id].roomId in s.rooms)
  }

  /** Names are unique ignoring case; a room has a name; a user's name fits a C string. */
  ghost predicate NamesSound(s: Lobby) {
    && (forall i, j :: i in s.users && j in s.users && i != j ==>
          !EqualsCaseInsensitive(s.users[i].name, s.users[j].name))
    && (forall i, j :: i in s.rooms && j in s.rooms && i != j ==>
          !EqualsCaseInsensitive(s.rooms[i].name, s.rooms[j].name))
    && (forall i :: i in s.rooms ==> s.rooms[i].name != [])
    && (forall i :: i in s.users ==> NulFree(s.users[i].name))
  }

  ghost predicate Inv(s: Lobby) {
    IdsSound(s) && NoDangling(s) && NamesSound(s)
  }

  lemma InitialIsSound()
    ensures Inv(INITIAL)
  {
    hide One;
    OneOfFalse();
  }

  lemma MailIsIrrelevant(s: Lobby, t: Lobby)
    requires SameButMail(s, t)
    ensures IdsSound(s) <==> IdsSound(t)
    ensures NoDangling(s) <==> NoDangling(t)
    ensures NamesSound(s) <==> NamesSound(t)
    ensures LiveCount(s) == LiveCount(t) && Ceiling(s) == Ceiling(t)
  {
    forall j: Id ensures Holders(t, j) == Holders(s, j) && Issued(t, j) == Issued(s, j) {
    }
  }

  /** An id that is live in one map is in no other. */
  lemma IdsDisjoint(s: Lobby, id: Id)
    requires Conserved(s)
    ensures id in s.users ==> id !in s.rooms && id !in s.games
    ensures id in s.rooms ==> id !in s.games
    ensures id in s.users || id in s.rooms || id in s.games ==> id >= K_START && s.recycled[id] == 0
  {
    assert Holders(s, id) == One(Issued(s, id));
  }

  lemma VacateKeepsIds(s: Lobby, roomId: Id, leftId: Id)
    requires IdsSound(s)
    ensures IdsSound(Vacate(s, roomId, leftId))
  {
    hide IdsSound, Abandoned;
    if roomId in s.rooms {
      RemoveRoomRecycles(s, roomId);
    }
  }

  lemma DepartedKeepsIds(s: Lobby, me: Id, hosted: Option<Id>)
    requires IdsSound(s) && me in s.users && (hosted.Some? ==> hosted.value in s.games)
    ensures IdsSound(Departed(s, me, hosted))
  {
    hide IdsSound;
    RemoveUserRecycles(s, me);
    if hosted.Some? {
      RemoveGameRecycles(RemoveUser(s, me), hosted.value);
    }
  }

  lemma EffectKeepsIds(net: Net, s: Lobby, e: Event)
    requires IdsSound(s) && Enabled(net, s, e)
    requires Allocates(net, s, e) ==> LiveCount(s) < POOL
    ensures IdsSound(Effect(net, s, e))
  {
    hide IdsSound, InFlight, Issue, MayIssue, AddUser, AddRoom, AddGame, SetRoomId, Vacate, Departed, RoomNameTaken,
      UserNameTaken, MayHost, WellParsed, Enumerates;
    match e
    case Login(packet, address, id) =>
      if LoginAccepted(s, packet) {
        IssueTakesFresh(s, id);
        AddUserStores(Issue(s, id), id, NewUser(packet.fields, address));
      }
    case Request(me, packet, id, _) =>
      if Allocates(net, s, e) {
        IssueTakesFresh(s, id);
        if packet.code == CREATE_ROOM {
          AddRoomStores(Issue(s, id), id, NewRoom(packet.fields, s.users[me]));
        } else {
          AddGameStores(Issue(s, id), id, NewGame(s.users[me], MayHostInfo(net, packet.fields, s.users[me])));
        }
      } else if packet.code == JOIN && packet.fields.value2.Some? {
        SetRoomIdKeepsIds(s, me, packet.fields.value2.value);
      } else {
        VacateKeepsIds(s, s.users[me].roomId, me);
        VacateKeepsUsers(s, s.users[me].roomId, me);
        SetRoomIdKeepsIds(Vacate(s, s.users[me].roomId, me), me, 0);
      }
    case Disconnected(me, hosted) =>
      DepartedKeepsIds(s, me, hosted);
      VacateKeepsIds(Departed(s, me, hosted), RoomLeft(s, me, hosted), if hosted.Some? then hosted.value else me);
  }

  function MayHostInfo(net: Net, p: Fields, u: User): byte
    requires MayHost(net, p, u)
  {
    p.info.value.access
  }

  lemma AddUserReferences(s: Lobby, id: Id, u: User)
    requires NoDangling(s) && u.roomId == 0
    ensures NoDangling(AddUser(s, id, u))
  {
  }

  lemma AddRoomReferences(s: Lobby, id: Id, r: Room)
    requires NoDangling(s)
    ensures NoDangling(AddRoom(s, id, r))
  {
  }

  lemma AddGameReferences(s: Lobby, me: Id, id: Id, g: Game)
    requires NoDangling(s) && me in s.users && g.roomId == s.users[me].roomId
    ensures NoDangling(AddGame(s, id, g))
  {
  }

  lemma IssueKeepsSoundness(s: Lobby, id: Id)
    ensures NoDangling(s) ==> NoDangling(Issue(s, id))
    ensures NamesSound(s) ==> NamesSound(Issue(s, id))
    ensures Issue(s, id).users == s.users && Issue(s, id).rooms == s.rooms && Issue(s, id).games == s.games
  {
    hide Issue;
    IssueKeepsMaps(s, id);
  }

  /** A user leaves its room for good: if that closes the room, nobody else refers to it. */
  lemma LeavingKeepsReferences(s: Lobby, me: Id)
    requires Conserved(s) && NoDangling(s) && me in s.users
    ensures NoDangling(SetRoomId(Vacate(s, s.users[me].roomId, me), me, 0))
  {
    IdsDisjoint(s, me);
  }

  /** Once its user and its game are gone, vacating a room in the name of either keeps every reference sound. */
  lemma VacatingKeepsReferences(s: Lobby, roomId: Id, leftId: Id)
    requires NoDangling(s) && leftId !in s.users && leftId !in s.games
    ensures NoDangling(Vacate(s, roomId, leftId))
  {
  }

  lemma DepartedForgets(s: Lobby, me: Id, hosted: Option<Id>)
    requires Conserved(s) && me in s.users && (hosted.Some? ==> hosted.value in s.games)
    ensures var t := Departed(s, me, hosted);
      && me !in t.users && me !in t.games
      && (hosted.Some? ==> hosted.value !in t.users && hosted.value !in t.games)
      && (NoDangling(s) ==> NoDangling(t))
  {
    hide Conserved;
    IdsDisjoint(s, me);
    if hosted.Some? {
      IdsDisjoint(s, hosted.value);
    }
  }

  lemma EffectKeepsReferences(net: Net, s: Lobby, e: Event)
    requires Conserved(s) && NoDangling(s) && Enabled(net, s, e)
    ensures NoDangling(Effect(net, s, e))
  {
    hide Conserved, NoDangling, Issue, MayIssue, AddUser, AddRoom, AddGame, Vacate, Departed, RoomNameTaken,
      UserNameTaken, MayHost, WellParsed, Enumerates;
    match e
    case Login(packet, address, id) =>
      IssueKeepsSoundness(s, id);
      if LoginAccepted(s, packet) {
        AddUserReferences(Issue(s, id), id, NewUser(packet.fields, address));
      }
    case Request(me, packet, id, _) =>
      IssueKeepsSoundness(s, id);
      if Allocates(net, s, e) {
        if packet.code == CREATE_ROOM {
          AddRoomReferences(Issue(s, id), id, NewRoom(packet.fields, s.users[me]));
        } else {
          AddGameReferences(Issue(s, id), me, id, NewGame(s.users[me], MayHostInfo(net, packet.fields, s.users[me])));
        }
      } else if packet.code == JOIN {
        JoiningKeepsReferences(s, me);
      } else {
        LeavingKeepsReferences(s, me);
      }
    case Disconnected(me, hosted) =>
      DepartedForgets(s, me, hosted);
      VacatingKeepsReferences(Departed(s, me, hosted), RoomLeft(s, me, hosted),
                              if hosted.Some? then hosted.value else me);
  }

  lemma JoiningKeepsReferences(s: Lobby, me: Id)
    requires NoDangling(s) && me in s.users
    ensures forall roomId :: roomId in s.rooms ==> NoDangling(SetRoomId(s, me, roomId))
  {
  }

  lemma AddUserNames(s: Lobby, id: Id, u: User)
    requires NamesSound(s) && !UserNameTaken(s, u.name) && NulFree(u.name)
    ensures NamesSound(AddUser(s, id, u))
  {
    hide EqualsCaseInsensitive;
    NamesAreSymmetric();
  }

  lemma AddRoomNames(s: Lobby, id: Id, r: Room)
    requires NamesSound(s) && !RoomNameTaken(s, r.name) && r.name != []
    ensures NamesSound(AddRoom(s, id, r))
  {
    hide EqualsCaseInsensitive;
    NamesAreSymmetric();
  }

  lemma NamesAreSymmetric()
    ensures forall a, b :: EqualsCaseInsensitive(a, b) <==> EqualsCaseInsensitive(b, a)
  {
  }

  /** Keeping a part of the users, under their names, and a part of the rooms keeps names sound. */
  lemma FewerNames(s: Lobby, t: Lobby)
    requires NamesSound(s)
    requires forall id :: id in t.users ==> id in s.users && t.users[id].name == s.users[id].name
    requires forall id :: id in t.rooms ==> id in s.rooms && t.rooms[id].name == s.rooms[id].name
    ensures NamesSound(t)
  {
    hide EqualsCaseInsensitive, NulFree;
  }

  lemma LoginKeepsNames(net: Net, s: Lobby, e: Event)
    requires NamesSound(s) && e.Login? && Enabled(net, s, e)
    ensures NamesSound(Effect(net, s, e))
  {
    hide NamesSound, Issue, MayIssue, AddUser, UserNameTaken, NulFree;
    IssueKeepsSoundness(s, e.id);
    if LoginAccepted(s, e.packet) {
      NamesStayTaken(s, Issue(s, e.id));
      AddUserNames(Issue(s, e.id), e.id, NewUser(e.packet.fields, e.address));
    }
  }

  lemma RequestKeepsNames(net: Net, s: Lobby, e: Event)
    requires NamesSound(s) && e.Request? && Enabled(net, s, e)
    ensures NamesSound(Effect(net, s, e))
  {
    hide NamesSound, Issue, MayIssue, MayHost, Enumerates, AddRoom, RoomNameTaken, Abandoned, WellParsed;
    IssueKeepsSoundness(s, e.id);
    if Allocates(net, s, e) && e.packet.code == CREATE_ROOM {
      NamesStayTaken(s, Issue(s, e.id));
      AddRoomNames(Issue(s, e.id), e.id, NewRoom(e.packet.fields, s.users[e.user]));
    } else {
      FewerNames(s, Effect(net, s, e));
    }
  }

  lemma DisconnectKeepsNames(net: Net, s: Lobby, e: Event)
    requires NamesSound(s) && e.Disconnected? && Enabled(net, s, e)
    ensures NamesSound(Effect(net, s, e))
  {
    hide NamesSound, Abandoned, MayFindGame, HandlePacket;
    FewerNames(s, Effect(net, s, e));
  }

  lemma EffectKeepsNames(net: Net, s: Lobby, e: Event)
    requires NamesSound(s) && Enabled(net, s, e)
    ensures NamesSound(Effect(net, s, e))
  {
    hide NamesSound, Enabled, Effect;
    match e
    case Login(_, _, _) => LoginKeepsNames(net, s, e);
    case Request(_, _, _, _) => RequestKeepsNames(net, s, e);
    case Disconnected(_, _) => DisconnectKeepsNames(net, s, e);
  }

  lemma NamesStayTaken(s: Lobby, t: Lobby)
    requires t.users == s.users && t.rooms == s.rooms
    ensures forall name :: UserNameTaken(t, name) <==> UserNameTaken(s, name)
    ensures forall name :: RoomNameTaken(t, name) <==> RoomNameTaken(s, name)
  {
  }

  /** An event keeps the invariant as long as the pool of ids is not exhausted. */
  lemma StepKeepsInv(net: Net, s: Lobby, e: Event)
    requires Inv(s) && Enabled(net, s, e)
    requires Allocates(net, s, e) ==> LiveCount(s) < POOL
    ensures Inv(Apply(net, s, e))
  {
    hide Effect, Apply, Enabled, Allocates, Conserved, Counted, NoDangling, NamesSound, SameButMail;
    EffectKeepsIds(net, s, e);
    EffectKeepsReferences(net, s, e);
    EffectKeepsNames(net, s, e);
    ApplyHasEffect(net, s, e);
    MailIsIrrelevant(Effect(net, s, e), Apply(net, s, e));
  }
}
