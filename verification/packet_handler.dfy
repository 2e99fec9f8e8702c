/** The request handlers (src/packet_handler.cpp), login and disconnect (src/user_session.cpp) as they run on the
    database. Each is proved to take exactly a step the lobby state machine allows. */
module PacketHandlers {
  import opened Bytes
  import opened Names
  import opened Packets
  import opened PacketLaws
  import opened Sessions
  import opened Servers
  import L = Lobbies

  /** The client of a request is a user of the database, and it still is afterwards. */
  ghost predicate Serves(db: Database, client: User)
    reads db`users
  {
    db.Valid() && db.Has(client)
  }

  method OnChatRoom(db: Database, client: User, p: Fields) returns (v: Verdict)
    requires Serves(db, client)
    modifies db.users.Values
    ensures Serves(db, client) && L.Step(db.State(), v) == L.OnChatRoom(old(db.State()), client.id, p)
  {
    hide L.Post, L.SetRoomId, L.Others, L.Members, L.Issue, L.AddRoom, L.AddGame, L.RemoveRoom, Database.State,
      Database.Valid, Database.Lists;
    db.Mirrors(client);
    if ValueOr(p.value0, 0) != client.id || p.value3.None? || p.data.None? {
      return Refused;
    }
    var target, message := p.value3.value, p.data.value;
    if L.GroupPrefix(client.name) <= message {
      if client.roomId == target {
        var us := db.GetUsers();
        db.TellRoom(us, client.roomId, client.id, L.ChatPacket(client.id, client.roomId, message));
        db.Tell(client, L.ErrorReply(CHAT_ROOM_REPLY, 0));
        return Handled;
      }
      db.Tell(client, L.ErrorReply(CHAT_ROOM_REPLY, 1));
      return Handled;
    }
    if L.PrivatePrefix(client.name) <= message {
      if target !in db.users || db.users[target].roomId != client.roomId {
        db.MirrorsEach();
        db.Tell(client, L.ErrorReply(CHAT_ROOM_REPLY, 1));
        return Handled;
      }
      db.MirrorsEach();
      db.Tell(db.users[target], L.ChatPacket(client.id, target, message));
      db.Tell(client, L.ErrorReply(CHAT_ROOM_REPLY, 0));
      return Handled;
    }
    return Handled;
  }

  lemma PostInTurn(s: L.Lobby, to: set<L.Id>, ps: seq<Packet>, qs: seq<Packet>)
    ensures L.Post(L.Post(s, to, ps), to, qs) == L.Post(s, to, ps + qs)
    ensures L.Post(s, to, []) == s
  {
    var (left, right) := (L.Post(L.Post(s, to, ps), to, qs), L.Post(s, to, ps + qs));
    forall id | id in s.mail ensures left.mail[id] == right.mail[id] && L.Post(s, to, []).mail[id] == s.mail[id] {
      assert s.mail[id] + ps + qs == s.mail[id] + (ps + qs) && s.mail[id] + [] == s.mail[id];
    }
  }

  /** Having sent the items before `i`, the listing that remains completes the listing of `order`. */
  ghost predicate Listing(before: L.Lobby, now: L.Lobby, me: L.Id, all: seq<Packet>, remaining: seq<Packet>) {
    L.Post(now, {me}, remaining) == L.Post(before, {me}, all)
  }

  lemma ListingEnds(before: L.Lobby, now: L.Lobby, me: L.Id, all: seq<Packet>, last: Packet)
    requires Listing(before, now, me, all, [])
    ensures L.Post(now, {me}, [last]) == L.Post(before, {me}, all + [last])
  {
    hide L.Post;
    PostInTurn(now, {me}, [], []);
    PostInTurn(before, {me}, all, [last]);
  }

  lemma ListingGoesOn(before: L.Lobby, now: L.Lobby, me: L.Id, all: seq<Packet>, item: Packet, remaining: seq<Packet>)
    requires Listing(before, now, me, all, [item] + remaining)
    ensures Listing(before, L.Post(now, {me}, [item]), me, all, remaining)
  {
    hide L.Post;
    PostInTurn(now, {me}, [item], remaining);
  }

  method OnListRooms(db: Database, client: User, p: Fields) returns (v: Verdict, ghost order: seq<L.Id>)
    requires Serves(db, client)
    modifies db.users.Values
    ensures Serves(db, client) && L.Step(db.State(), v) == L.OnListRooms(old(db.State()), client.id, p, order)
    ensures L.Enumerates(order, old(db.State()).rooms.Keys)
  {
    hide L.Post, L.SetRoomId, L.Others, L.Members, L.Issue, L.AddRoom, L.AddGame, L.RemoveRoom, Database.State,
      Database.Valid, Database.Lists;
    db.Mirrors(client);
    var keys := db.Keys(db.rooms);
    order := keys;
    if ValueOr(p.value4, 0) != 0 {
      return Refused, order;
    }
    ghost var before, all := db.State(), L.RoomItems(db.rooms, keys);
    assert keys[0..] == keys;
    for i := 0 to |keys|
      invariant Serves(db, client)
      invariant Listing(before, db.State(), client.id, all, L.RoomItems(db.rooms, keys[i..]))
    {
      db.Mirrors(client);
      assert keys[i..][1..] == keys[i + 1..];
      var room := db.rooms[keys[i]];
      var item := L.ItemPacket(keys[i], room.name, [], room.info);
      ListingGoesOn(before, db.State(), client.id, all, item, L.RoomItems(db.rooms, keys[i + 1..]));
      db.Tell(client, item);
    }
    db.Mirrors(client);
    ListingEnds(before, db.State(), client.id, all, L.LIST_END_PACKET);
    db.Tell(client, L.LIST_END_PACKET);
    return Handled, order;
  }

  lemma SkipsUser(users: map<L.Id, L.User>, roomId: L.Id, order: seq<L.Id>, i: nat)
    requires i < |order| && order[i] in users && users[order[i]].roomId != roomId
    ensures L.UserItems(users, roomId, order[i..]) == L.UserItems(users, roomId, order[i + 1..])
  {
    assert order[i..][1..] == order[i + 1..];
  }

  lemma TakesUser(users: map<L.Id, L.User>, roomId: L.Id, order: seq<L.Id>, i: nat)
    requires i < |order| && order[i] in users && users[order[i]].roomId == roomId
    ensures L.UserItems(users, roomId, order[i..]) ==
      [L.ItemPacket(order[i], users[order[i]].name, [], users[order[i]].info)]
      + L.UserItems(users, roomId, order[i + 1..])
  {
    assert order[i..][1..] == order[i + 1..];
  }

  /** The loop of `OnListUsers`: an item for each listed user of the room. */
  method TellMembers(db: Database, client: User, us: seq<User>, roomId: L.Id)
    requires Serves(db, client) && db.Lists(us)
    modifies db.users.Values`outbox
    ensures Serves(db, client)
    ensures db.State() == L.Post(old(db.State()), {client.id}, L.UserItems(old(db.State()).users, roomId, Ids(us)))
  {
    hide L.Post, Database.State, Database.Valid, Database.Lists, L.UserItems, L.ItemPacket, Listing, Ids;
    ghost var order, before := Ids(us), db.State();
    ghost var all := L.UserItems(before.users, roomId, order);
    assert order[0..] == order;
    ListingStarts(before, client.id, all);
    db.Mirrors(client);
    for i := 0 to |us|
      invariant Serves(db, client) && db.Lists(us) && client in db.users.Values
      invariant db.State().users == before.users
      invariant Listing(before, db.State(), client.id, all, L.UserItems(before.users, roomId, order[i..]))
    {
      db.ListsHas(us, i);
      db.Mirrors(us[i]);
      if us[i].roomId != roomId {
        SkipsUser(before.users, roomId, order, i);
        continue;
      }
      TakesUser(before.users, roomId, order, i);
      var item := L.ItemPacket(us[i].id, us[i].name, [], us[i].info);
      ListingGoesOn(before, db.State(), client.id, all, item, L.UserItems(before.users, roomId, order[i + 1..]));
      PostKeepsUsers(db.State(), {client.id}, [item]);
      db.Tell(client, item);
    }
    NoItems(before.users, roomId, order[|us|..]);
    ListingDone(before, db.State(), client.id, all);
  }

  lemma ListingDone(before: L.Lobby, now: L.Lobby, me: L.Id, all: seq<Packet>)
    requires Listing(before, now, me, all, [])
    ensures now == L.Post(before, {me}, all)
  {
    hide L.Post;
    PostInTurn(now, {me}, [], []);
  }

  method OnListUsers(db: Database, client: User, p: Fields) returns (v: Verdict, ghost order: seq<L.Id>)
    requires Serves(db, client)
    modifies db.users.Values
    ensures Serves(db, client) && L.Step(db.State(), v) == L.OnListUsers(old(db.State()), client.id, p, order)
    ensures L.Enumerates(order, old(db.State()).users.Keys)
  {
    hide L.Post, Database.State, Database.Valid, Database.Lists, L.UserItems, L.Enumerates, Ids;
    db.Mirrors(client);
    var us := db.GetUsers();
    db.ListsEnumerates(us);
    order := Ids(us);
    if ValueOr(p.value4, 0) != 0 || ValueOr(p.value2, 0) != client.roomId {
      return Refused, order;
    }
    ghost var items := L.UserItems(db.State().users, client.roomId, order);
    PostInTurn(db.State(), {client.id}, items, [L.LIST_END_PACKET]);
    TellMembers(db, client, us, client.roomId);
    db.Mirrors(client);
    db.Tell(client, L.LIST_END_PACKET);
    return Handled, order;
  }

  lemma NoItems(users: map<L.Id, L.User>, roomId: L.Id, order: seq<L.Id>)
    requires order == []
    ensures L.UserItems(users, roomId, order) == []
  {
  }

  lemma ListingStarts(s: L.Lobby, me: L.Id, all: seq<Packet>)
    ensures Listing(s, s, me, all, all)
  {
  }

  lemma PostKeepsUsers(s: L.Lobby, to: set<L.Id>, ps: seq<Packet>)
    ensures L.Post(s, to, ps).users == s.users
  {
  }

  method OnListGames(net: L.Net, db: Database, client: User, p: Fields) returns (v: Verdict, ghost order: seq<L.Id>)
    requires Serves(db, client)
    modifies db.users.Values
    ensures Serves(db, client) && L.Step(db.State(), v) == L.OnListGames(net, old(db.State()), client.id, p, order)
    ensures L.Enumerates(order, old(db.State()).games.Keys)
  {
    hide L.Post, L.SetRoomId, L.Others, L.Members, L.Issue, L.AddRoom, L.AddGame, L.RemoveRoom, Database.State,
      Database.Valid, Database.Lists;
    db.Mirrors(client);
    var keys := db.Keys(db.games);
    order := keys;
    if ValueOr(p.value4, 0) != 0 || ValueOr(p.value2, 0) != client.roomId {
      return Refused, order;
    }
    ghost var before, all := db.State(), L.GameItems(net, db.games, client.roomId, keys);
    assert keys[0..] == keys;
    for i := 0 to |keys|
      invariant Serves(db, client)
      invariant Listing(before, db.State(), client.id, all, L.GameItems(net, db.games, client.roomId, keys[i..]))
    {
      db.Mirrors(client);
      assert keys[i..][1..] == keys[i + 1..];
      var game := db.games[keys[i]];
      if game.roomId != client.roomId {
        assert L.GameItems(net, db.games, client.roomId, keys[i..])
          == L.GameItems(net, db.games, client.roomId, keys[i + 1..]);
        continue;
      }
      var item := L.ItemPacket(keys[i], game.name, net.show(game.address), game.info);
      ListingGoesOn(before, db.State(), client.id, all, item, L.GameItems(net, db.games, client.roomId, keys[i + 1..]));
      db.Tell(client, item);
    }
    db.Mirrors(client);
    ListingEnds(before, db.State(), client.id, all, L.LIST_END_PACKET);
    db.Tell(client, L.LIST_END_PACKET);
    return Handled, order;
  }

  method OnCreateRoom(db: Database, client: User, p: Fields) returns (v: Verdict, ghost id: L.Id)
    requires Serves(db, client)
    modifies db`rooms, db`nextId, db`recycled, db.users.Values
    ensures Serves(db, client) && L.Step(db.State(), v) == L.OnCreateRoom(old(db.State()), client.id, p, id)
    ensures L.RoomRequestValid(p) && !L.RoomNameTaken(old(db.State()), p.name.value) ==> L.MayIssue(old(db.State()), id)
  {
    hide L.Post, L.SetRoomId, L.Others, L.Members, L.Issue, L.AddRoom, L.AddGame, L.RemoveRoom, Database.State,
      Database.Valid, Database.Lists;
    db.Mirrors(client);
    id := 0;
    if !L.RoomRequestValid(p) {
      return Refused, id;
    }
    if exists key :: key in db.rooms && EqualsCaseInsensitive(p.name.value, db.rooms[key].name) {
      db.Tell(client, L.IdReply(CREATE_ROOM_REPLY, 0, 1));
      return Handled, id;
    }
    var roomId := db.GetNextId();
    id := roomId;
    var room := L.NewRoom(p, client.Record());
    db.AddRoom(roomId, room);
    var us := db.GetUsers();
    db.TellOthers(us, client.id, [L.RoomPacket(roomId, room)]);
    db.Mirrors(client);
    db.Tell(client, L.IdReply(CREATE_ROOM_REPLY, roomId, 0));
    return Handled, id;
  }

  method OnJoin(db: Database, client: User, p: Fields) returns (v: Verdict)
    requires Serves(db, client)
    modifies db.users.Values
    ensures Serves(db, client) && L.Step(db.State(), v) == L.OnJoin(old(db.State()), client.id, p)
  {
    hide L.Post, L.SetRoomId, L.Others, L.Members, L.Issue, L.AddRoom, L.AddGame, L.RemoveRoom, Database.State,
      Database.Valid, Database.Lists;
    db.Mirrors(client);
    if p.value2.None? || ValueOr(p.value10, 0) != client.id {
      return Refused;
    }
    var target := p.value2.value;
    if target in db.rooms {
      db.Move(client, target);
      var us := db.GetUsers();
      db.TellOthers(us, client.id, [L.JoinPacket(target, client.id)]);
      db.Tell(client, L.ErrorReply(JOIN_REPLY, 0));
      return Handled;
    }
    if target in db.games && db.games[target].roomId == client.roomId {
      var us := db.GetUsers();
      db.TellOthers(us, client.id, [L.JoinPacket(client.roomId, client.id)]);
      db.Tell(client, L.ErrorReply(JOIN_REPLY, 0));
      return Handled;
    }
    db.Tell(client, L.ErrorReply(JOIN_REPLY, 1));
    return Handled;
  }

  /** Whether some user or game other than `leftId` is in the room. */
  method AnyoneElse(db: Database, us: seq<User>, roomId: L.Id, leftId: L.Id) returns (found: bool)
    requires db.Valid() && db.Lists(us)
    ensures found == !L.Abandoned(db.State(), roomId, leftId)
  {
    db.MirrorsEach();
    db.ListsEach(us);
    db.ListsAll(us);
    for i := 0 to |us|
      invariant forall j :: 0 <= j < i ==> us[j].id == leftId || us[j].roomId != roomId
    {
      if us[i].id != leftId && us[i].roomId == roomId {
        assert us[i].id in db.State().users;
        return true;
      }
    }
    assert forall id :: id in db.users && id != leftId ==> db.users[id].roomId != roomId;
    return exists id :: id in db.games && id != leftId && db.games[id].roomId == roomId;
  }

  method LeaveRoom(db: Database, roomId: L.Id, leftId: L.Id)
    requires db.Valid()
    modifies db`rooms, db`recycled, db.users.Values`outbox
    ensures db.Valid() && db.State() == L.LeaveRoom(old(db.State()), roomId, leftId)
  {
    hide L.Post, L.Abandoned, Database.State, Database.Valid, Database.Lists;
    var us := db.GetUsers();
    db.MirrorsMaps();
    if roomId !in db.rooms {
      return;
    }
    var occupied := AnyoneElse(db, us, roomId, leftId);
    if !occupied {
      db.RemoveRoom(roomId);
      db.TellOthers(us, leftId, [L.LeavePacket(roomId, leftId), L.ClosePacket(roomId)]);
    } else {
      db.TellOthers(us, leftId, [L.LeavePacket(roomId, leftId)]);
    }
  }

  method OnLeave(db: Database, client: User, p: Fields) returns (v: Verdict)
    requires Serves(db, client)
    modifies db`rooms, db`recycled, db.users.Values
    ensures Serves(db, client) && L.Step(db.State(), v) == L.OnLeave(old(db.State()), client.id, p)
  {
    hide L.Post, L.SetRoomId, L.LeaveRoom, Database.State, Database.Valid, Database.Lists;
    db.Mirrors(client);
    if ValueOr(p.value10, 0) != client.id || p.value2.None? {
      return Refused;
    }
    if p.value2.value == client.roomId {
      LeaveRoom(db, client.roomId, client.id);
      db.Mirrors(client);
      db.Move(client, 0);
      db.Tell(client, L.ErrorReply(LEAVE_REPLY, 0));
      return Handled;
    }
    db.Tell(client, L.ErrorReply(LEAVE_REPLY, 1));
    return Handled;
  }

  method OnClose(db: Database, client: User, p: Fields) returns (v: Verdict)
    requires Serves(db, client)
    modifies db.users.Values
    ensures Serves(db, client) && L.Step(db.State(), v) == L.OnClose(old(db.State()), client.id, p)
  {
    hide L.Post, Database.State, Database.Valid;
    db.Mirrors(client);
    if p.value10.None? {
      return Refused;
    }
    db.Tell(client, L.ErrorReply(CLOSE_REPLY, 0));
    return Handled;
  }

  method HostGame(net: L.Net, db: Database, client: User, access: byte) returns (ghost id: L.Id)
    requires Serves(db, client)
    modifies db`games, db`nextId, db`recycled, db.users.Values`outbox
    ensures Serves(db, client) && L.MayIssue(old(db.State()), id)
    ensures db.State() == L.HostGame(net, old(db.State()), client.id, access, id)
  {
    hide L.Post, L.Others, L.Issue, L.AddGame, L.MayIssue, Database.State, Database.Valid, Database.Lists;
    db.Mirrors(client);
    var gameId := db.GetNextId();
    id := gameId;
    var game := L.NewGame(client.Record(), access);
    db.AddGame(gameId, game);
    var us := db.GetUsers();
    db.TellOthers(us, client.id, [L.GamePacket(net, gameId, game)]);
    db.Mirrors(client);
    db.Tell(client, L.IdReply(CREATE_GAME_REPLY, gameId, 0));
  }

  method OnCreateGame(net: L.Net, db: Database, client: User, p: Fields) returns (v: Verdict, ghost id: L.Id)
    requires Serves(db, client)
    modifies db`games, db`nextId, db`recycled, db.users.Values
    ensures Serves(db, client) && L.Step(db.State(), v) == L.OnCreateGame(net, old(db.State()), client.id, p, id)
    ensures L.MayHost(net, p, old(client.Record())) ==> L.MayIssue(old(db.State()), id)
  {
    hide L.Post, L.HostGame, L.CannotHost, L.MayIssue, Database.State, Database.Valid, Database.Lists;
    db.Mirrors(client);
    id := 0;
    if !L.GameRequestValid(p, client.Record()) {
      return Refused, id;
    }
    var parsed := net.parse(p.data.value);
    if parsed.None? {
      return Threw, id;
    }
    if parsed.value.V4? && client.address == parsed.value.address {
      id := HostGame(net, db, client, p.info.value.access);
    }
    db.Mirrors(client);
    var refusal, advice := L.IdReply(CREATE_GAME_REPLY, 0, 2), L.ChatPacket(client.id, client.roomId, L.CannotHost());
    PostInTurn(db.State(), {client.id}, [refusal], [advice]);
    assert [refusal] + [advice] == [refusal, advice];
    db.Tell(client, refusal);
    db.Tell(client, advice);
    return Handled, id;
  }

  method OnConnectGame(net: L.Net, db: Database, client: User, p: Fields) returns (v: Verdict)
    requires Serves(db, client)
    modifies db.users.Values
    ensures Serves(db, client) && L.Step(db.State(), v) == L.OnConnectGame(net, old(db.State()), client.id, p)
  {
    hide L.Post, Database.State, Database.Valid;
    db.Mirrors(client);
    if p.value0.None? {
      return Refused;
    }
    var gameId := p.value0.value;
    if gameId in db.games && db.games[gameId].roomId == client.roomId {
      db.Tell(client, L.ConnectPacket(net.show(db.games[gameId].address), 0));
    } else {
      db.Tell(client, L.ConnectPacket([], 1));
    }
    return Handled;
  }

  /** Every request is an enabled event of the lobby, and has its effect. */
  method HandlePacket(net: L.Net, db: Database, client: User, packet: Packet) returns (v: Verdict, ghost e: L.Event)
    requires Serves(db, client) && WellParsed(packet)
    modifies db`rooms, db`games, db`nextId, db`recycled, db.users.Values
    ensures Serves(db, client)
    ensures e.Request? && e.user == client.id && e.packet == packet
    ensures L.Enabled(net, old(db.State()), e) && db.State() == L.Apply(net, old(db.State()), e)
    ensures v == L.HandlePacket(net, old(db.State()), client.id, packet, e.id, e.order).verdict
  {
    hide Database.State, Database.Valid, L.OnChatRoom, L.OnListRooms, L.OnListUsers, L.OnListGames, L.OnCreateRoom,
      L.OnJoin, L.OnLeave, L.OnClose, L.OnCreateGame, L.OnConnectGame, L.MayIssue, L.MayHost, WellParsed,
      L.RoomRequestValid, L.RoomNameTaken;
    db.Mirrors(client);
    ghost var id: L.Id, order: seq<L.Id> := 0, [];
    var code, p := packet.code, packet.fields;
    if code == CHAT_ROOM {
      v := OnChatRoom(db, client, p);
    } else if code == LIST_ROOMS {
      v, order := OnListRooms(db, client, p);
    } else if code == LIST_USERS {
      v, order := OnListUsers(db, client, p);
    } else if code == LIST_GAMES {
      v, order := OnListGames(net, db, client, p);
    } else if code == CREATE_ROOM {
      v, id := OnCreateRoom(db, client, p);
    } else if code == JOIN {
      v := OnJoin(db, client, p);
    } else if code == LEAVE {
      v := OnLeave(db, client, p);
    } else if code == CLOSE {
      v := OnClose(db, client, p);
    } else if code == CREATE_GAME {
      v, id := OnCreateGame(net, db, client, p);
    } else if code == CONNECT_GAME {
      v := OnConnectGame(net, db, client, p);
    } else {
      v := Refused;
    }
    e := L.Request(client.id, packet, id, order);
  }

  // ---- Login and disconnect ----

  /** The check-and-add part of a login: an enabled event, whose user is returned if the name was free, and what is
      written to the socket otherwise. */
  method HandleLogin(net: L.Net, db: Database, packet: Packet, address: L.Ipv4)
    returns (user: User?, refusal: seq<Packet>, ghost e: L.Event)
    requires db.Valid() && WellParsed(packet)
    modifies db, db.users.Values
    ensures db.Valid() && (user != null ==> fresh(user) && db.Has(user))
    ensures e.Login? && e.packet == packet && e.address == address
    ensures L.Enabled(net, old(db.State()), e) && db.State() == L.Apply(net, old(db.State()), e)
    ensures user != null <==> L.LoginAccepted(old(db.State()), packet)
    ensures user != null ==> user.id == e.id
    ensures db.users == if user == null then old(db.users) else old(db.users)[user.id := user]
    ensures refusal == L.LoginRefusal(old(db.State()), packet)
  {
    hide Database.State, Database.Valid, Database.Lists, L.Post, L.Issue, L.AddUser, L.MayIssue, WellParsed,
      EqualsCaseInsensitive;
    e := L.Login(packet, address, 0);
    if !L.LoginValid(packet) {
      return null, [], e;
    }
    var us := db.GetUsers();
    var taken := NameInUse(db, us, packet.fields.name.value);
    if taken {
      return null, [L.IdReply(LOGIN_REPLY, 0, 1)], e;
    }
    refusal := [];
    user, e := AdmitUser(net, db, packet, address);
  }

  /** The rest of a login, once the name is known to be free. */
  method AdmitUser(net: L.Net, db: Database, packet: Packet, address: L.Ipv4) returns (user: User, ghost e: L.Event)
    requires db.Valid() && WellParsed(packet) && L.LoginAccepted(db.State(), packet)
    modifies db`users, db`nextId, db`recycled, db.users.Values
    ensures db.Valid() && fresh(user) && db.Has(user)
    ensures e.Login? && e.packet == packet && e.address == address && L.MayIssue(old(db.State()), e.id)
    ensures user.id == e.id && db.users == old(db.users)[user.id := user]
    ensures db.State() == L.LogIn(old(db.State()), packet, address, e.id)
  {
    hide Database.State, Database.Valid, Database.Lists, L.Post, L.Issue, L.AddUser, L.MayIssue, WellParsed,
      L.UserNameTaken;
    var userId := db.GetNextId();
    e := L.Login(packet, address, userId);
    user := new User(userId, packet.fields.name.value, packet.fields.info.value.nation, address);
    var us := db.GetUsers();
    db.TellAll(us, L.LoginPacket(userId, user.name, user.info));
    db.AddUser(user);
    db.Tell(user, L.IdReply(LOGIN_REPLY, userId, 0));
  }

  method NameInUse(db: Database, us: seq<User>, name: octets) returns (taken: bool)
    requires db.Valid() && db.Lists(us)
    ensures taken == L.UserNameTaken(db.State(), name)
  {
    hide EqualsCaseInsensitive;
    db.MirrorsEach();
    for i := 0 to |us|
      invariant forall j :: 0 <= j < i ==> !EqualsCaseInsensitive(us[j].name, name)
    {
      if EqualsCaseInsensitive(us[i].name, name) {
        assert us[i].id in db.State().users;
        return true;
      }
    }
    assert forall id :: id in db.users ==> !EqualsCaseInsensitive(db.users[id].name, name);
    return false;
  }

  method CloseGame(db: Database, gameId: L.Id, userId: L.Id)
    requires db.Valid()
    modifies db`games, db`recycled, db.users.Values`outbox
    ensures db.Valid() && db.State() == L.CloseGame(old(db.State()), gameId, userId)
  {
    hide L.Post, L.RemoveGame, L.Others, Database.State, Database.Valid, Database.Lists;
    db.RemoveGame(gameId);
    var us := db.GetUsers();
    db.TellOthers(us, userId, [L.LeavePacket(gameId, userId), L.ClosePacket(gameId)]);
  }

  method DisconnectUser(net: L.Net, db: Database, client: User) returns (ghost e: L.Event)
    requires Serves(db, client)
    modifies db, db.users.Values
    ensures db.Valid() && db.users == if client.id == 0 then old(db.users) else old(db.users) - {client.id}
    ensures e.Disconnected? && e.user == client.id
    ensures L.Enabled(net, old(db.State()), e) && db.State() == L.Apply(net, old(db.State()), e)
  {
    hide Database.State, Database.Valid, Database.Lists, L.Post, L.RemoveUser, L.CloseGame, L.LeaveRoom, L.MayFindGame,
      L.Apply, L.Enabled, L.HandlePacket;
    ghost var before := db.State();
    db.Mirrors(client);
    var leftId, roomId := client.id, client.roomId;
    if leftId == 0 {
      var found := db.GetGameByName(client.name);
      e := L.Disconnected(client.id, found);
      GamesSurvive(before, leftId, client.name, found);
      L.DisconnectApplied(net, before, client.id, found);
      return;
    }
    db.RemoveUser(leftId);
    var found := db.GetGameByName(client.name);
    GamesSurvive(before, leftId, client.name, found);
    e := L.Disconnected(client.id, found);
    L.DisconnectApplied(net, before, client.id, found);
    db.MirrorsMaps();
    if found.Some? {
      roomId := db.games[found.value].roomId;
      leftId := found.value;
      CloseGame(db, leftId, client.id);
    }
    LeaveRoom(db, roomId, leftId);
    var us := db.GetUsers();
    db.TellAll(us, L.DisconnectPacket(client.id));
  }

  /** Removing a user changes no game. */
  lemma GamesSurvive(s: L.Lobby, id: L.Id, name: octets, found: Option<L.Id>)
    ensures L.RemoveUser(s, id).games == s.games
    ensures L.MayFindGame(L.RemoveUser(s, id), name, found) == L.MayFindGame(s, name, found)
    ensures L.MayFindGame(s, name, found) && found.Some? ==> found.value in s.games
  {
  }
}
