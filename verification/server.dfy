/** The server as it runs: users are objects whose room changes and whose packets pile up, and the database keeps
    maps of them (src/user.cpp, src/database.cpp). Each operation is proved to be the corresponding step of the
    lobby state machine. */
module Servers {
  import opened Bytes
  import opened SessionInfos
  import opened Packets
  import L = Lobbies

  class User {
    const id: L.Id
    const name: octets
    const info: SessionInfo
    const address: L.Ipv4
    var roomId: L.Id
    var outbox: seq<Packet>

    constructor (id: L.Id, name: octets, nation: byte, address: L.Ipv4)
      ensures this.id == id && outbox == []
      ensures Record() == L.User(name, NewInfo(nation, USER, PUBLIC_ACCESS), address, 0)
    {
      this.id := id;
      this.name := name;
      this.info := NewInfo(nation, USER, PUBLIC_ACCESS);
      this.address := address;
      roomId := 0;
      outbox := [];
    }

    function Record(): L.User
      reads this
    {
      L.User(name, info, address, roomId)
    }

    method SetRoomId(roomId: L.Id)
      modifies this`roomId
      ensures this.roomId == roomId
    {
      this.roomId := roomId;
    }

    method SendPacket(p: Packet)
      modifies this`outbox
      ensures outbox == old(outbox) + [p]
    {
      outbox := outbox + [p];
    }

    method SendPackets(ps: seq<Packet>)
      modifies this`outbox
      ensures outbox == old(outbox) + ps
    {
      for k := 0 to |ps|
        invariant outbox == old(outbox) + ps[..k]
      {
        SendPacket(ps[k]);
      }
    }
  }

  class Database {
    var users: map<L.Id, User>
    var rooms: map<L.Id, L.Room>
    var games: map<L.Id, L.Game>
    var nextId: L.Id
    var recycled: multiset<L.Id>

    ghost predicate Valid()
      reads this`users
    {
      forall id :: id in users ==> users[id].id == id
    }

    /** The lobby these objects stand for. */
    ghost function State(): L.Lobby
      reads this, users.Values
    {
      L.Lobby(map id | id in users :: users[id].Record(), rooms, games, nextId, recycled,
              map id | id in users :: users[id].outbox)
    }

    ghost predicate Has(u: User)
      reads this`users
    {
      u.id in users && users[u.id] == u
    }

    /** How the lobby mirrors the fields of the database and of its users. */
    lemma MirrorsMaps()
      ensures State().rooms == rooms && State().games == games && State().users.Keys == users.Keys
    {
    }

    lemma Mirrors(u: User)
      requires Has(u)
      ensures State().rooms == rooms && State().games == games && State().users.Keys == users.Keys
      ensures u in users.Values && u.id in State().users && State().users[u.id] == u.Record()
    {
    }

    lemma MirrorsEach()
      requires Valid()
      ensures forall id :: id in users ==>
        users[id].id == id && users[id] in users.Values && State().users[id] == users[id].Record()
    {
    }

    lemma MirrorsMail()
      requires Valid()
      ensures State() == L.Lobby(State().users, rooms, games, nextId, recycled, State().mail)
      ensures State().users.Keys == users.Keys && State().mail.Keys == users.Keys
      ensures forall id :: id in users ==>
        State().mail[id] == users[id].outbox && State().users[id] == users[id].Record()
    {
    }

    lemma ListsEach(us: seq<User>)
      requires Valid() && Lists(us)
      ensures forall i :: 0 <= i < |us| ==> us[i].id in users && users[us[i].id] == us[i] && us[i] in users.Values
      ensures forall i, j :: 0 <= i < j < |us| ==> us[i] != us[j]
    {
    }

    lemma ListsAll(us: seq<User>)
      requires Lists(us)
      ensures forall id :: id in users ==> users[id] in us
    {
    }

    lemma ListsHas(us: seq<User>, i: nat)
      requires Valid() && Lists(us) && i < |us|
      ensures Has(us[i]) && us[i] in users.Values
    {
    }

    lemma ListsEnumerates(us: seq<User>)
      requires Valid() && Lists(us)
      ensures L.Enumerates(Ids(us), State().users.Keys)
    {
      forall id | id in users ensures id in Ids(us) {
        var j :| 0 <= j < |us| && us[j] == users[id];
        assert Ids(us)[j] == id;
      }
      forall i, j | 0 <= i < j < |us| ensures us[i].id != us[j].id {
        assert users[us[i].id] == us[i] && users[us[j].id] == us[j];
      }
    }

    constructor ()
      ensures Valid() && State() == L.INITIAL && users == map[]
    {
      users, rooms, games := map[], map[], map[];
      nextId, recycled := L.K_START, multiset{};
    }

    /** The users are as they were in `before`. */
    lemma UsersUntouched(before: L.Lobby)
      requires before.users.Keys == users.Keys && before.mail.Keys == users.Keys
      requires forall id :: id in users ==>
        before.users[id] == users[id].Record() && before.mail[id] == users[id].outbox
      ensures State() == L.Lobby(before.users, rooms, games, nextId, recycled, before.mail)
    {
      hide User.Record;
      assert State().users == before.users && State().mail == before.mail;
    }

    /** A recycled id if there is one, else the next of the counter, which starts over below 0x1000. */
    method GetNextId() returns (id: L.Id)
      requires Valid()
      modifies this`nextId, this`recycled
      ensures Valid() && L.MayIssue(old(State()), id) && State() == L.Issue(old(State()), id)
    {
      hide State, L.MayIssue, L.Issue;
      ghost var before := State();
      MirrorsMail();
      if recycled != multiset{} {
        id :| id in recycled;
        recycled := recycled - multiset{id};
      } else {
        id := nextId;
        nextId := (nextId + 1) % 0x1_0000_0000;
        if id < L.K_START {
          id := L.K_START;
          nextId := id + 1;
        }
      }
      UsersUntouched(before);
      Issued(before, id, nextId, recycled);
    }

    method AddUser(u: User)
      requires Valid() && u.outbox == []
      modifies this`users
      ensures Valid() && users == old(users)[u.id := u]
      ensures State() == L.AddUser(old(State()), u.id, u.Record())
    {
      users := users[u.id := u];
      assert State().users == old(State()).users[u.id := u.Record()];
      assert State().mail == old(State()).mail[u.id := []];
    }

    method RemoveUser(id: L.Id)
      requires Valid()
      modifies this`users, this`recycled
      ensures Valid() && users == old(users) - {id}
      ensures State() == L.RemoveUser(old(State()), id)
    {
      users := users - {id};
      recycled := recycled + multiset{id};
    }

    method AddRoom(id: L.Id, r: L.Room)
      requires Valid()
      modifies this`rooms
      ensures Valid() && State() == L.AddRoom(old(State()), id, r)
    {
      rooms := rooms[id := r];
    }

    method RemoveRoom(id: L.Id)
      requires Valid()
      modifies this`rooms, this`recycled
      ensures Valid() && State() == L.RemoveRoom(old(State()), id)
    {
      rooms := rooms - {id};
      recycled := recycled + multiset{id};
    }

    method AddGame(id: L.Id, g: L.Game)
      requires Valid()
      modifies this`games
      ensures Valid() && State() == L.AddGame(old(State()), id, g)
    {
      games := games[id := g];
    }

    method RemoveGame(id: L.Id)
      requires Valid()
      modifies this`games, this`recycled
      ensures Valid() && State() == L.RemoveGame(old(State()), id)
    {
      games := games - {id};
      recycled := recycled + multiset{id};
    }

    /** The keys of a map, in an order of the map's own. */
    method Keys<T>(m: map<L.Id, T>) returns (order: seq<L.Id>)
      ensures L.Enumerates(order, m.Keys)
    {
      order := [];
      var rest := m.Keys;
      while rest != {}
        invariant rest <= m.Keys
        invariant L.Enumerates(order, m.Keys - rest)
        decreases rest
      {
        var id :| id in rest;
        assert id !in order;
        assert m.Keys - (rest - {id}) == m.Keys - rest + {id};
        order, rest := order + [id], rest - {id};
      }
      assert m.Keys - rest == m.Keys;
    }

    /** `getUsers`: every user once. */
    ghost predicate Lists(us: seq<User>)
      reads this`users
    {
      && (forall i :: 0 <= i < |us| ==> Has(us[i]))
      && (forall id :: id in users ==> users[id] in us)
      && (forall i, j :: 0 <= i < j < |us| ==> us[i] != us[j])
    }

    method GetUsers() returns (us: seq<User>)
      requires Valid()
      ensures Lists(us)
    {
      var order := Keys(users);
      var users := users;
      us := seq(|order|, i requires 0 <= i < |order| => users[order[i]]);
      forall id | id in users ensures users[id] in us {
        var i :| 0 <= i < |order| && order[i] == id;
        assert us[i] == users[id];
      }
      forall i, j | 0 <= i < j < |us| ensures us[i] != us[j] {
        assert us[i].id == order[i] && us[j].id == order[j];
      }
    }

    method GetGameByName(name: octets) returns (found: Option<L.Id>)
      ensures L.MayFindGame(State(), name, found)
    {
      var order := Keys(games);
      for i := 0 to |order|
        invariant forall j :: 0 <= j < i ==> games[order[j]].name != name
      {
        if games[order[i]].name == name {
          return Some(order[i]);
        }
      }
      return None;
    }

    // ---- Sending and moving ----

    lemma PostedToEach(before: L.Lobby, to: set<L.Id>, ps: seq<Packet>)
      requires before == L.Lobby(before.users, rooms, games, nextId, recycled, before.mail)
      requires before.users.Keys == users.Keys && before.mail.Keys == users.Keys
      requires forall id :: id in users ==> users[id].Record() == before.users[id]
      requires forall id :: id in users ==>
        users[id].outbox == if id in to then before.mail[id] + ps else before.mail[id]
      ensures State() == L.Post(before, to, ps)
    {
      hide User.Record;
      assert State().users == before.users;
      assert State().mail == L.Post(before, to, ps).mail;
    }

    /** When, since `before`, the listed users were only sent packets, the lobby has posted them. */
    lemma Posted(us: seq<User>, before: L.Lobby, to: set<L.Id>, ps: seq<Packet>)
      requires Valid() && Lists(us)
      requires before == L.Lobby(before.users, rooms, games, nextId, recycled, before.mail)
      requires before.users.Keys == users.Keys && before.mail.Keys == users.Keys
      requires forall id :: id in users ==> users[id].Record() == before.users[id]
      requires forall j :: 0 <= j < |us| ==> us[j].id in before.mail
      requires forall j :: 0 <= j < |us| ==>
        us[j].outbox == if us[j].id in to then before.mail[us[j].id] + ps else before.mail[us[j].id]
      ensures State() == L.Post(before, to, ps)
    {
      hide State, L.Post, User.Record;
      forall id | id in users
        ensures users[id].outbox == if id in to then before.mail[id] + ps else before.mail[id]
      {
        var j :| 0 <= j < |us| && us[j] == users[id];
      }
      PostedToEach(before, to, ps);
    }

    /** One packet to one user. */
    method Tell(u: User, p: Packet)
      requires Valid() && Has(u)
      modifies u`outbox
      ensures Valid() && State() == L.Post(old(State()), {u.id}, [p])
    {
      u.SendPacket(p);
      assert State().users == old(State()).users;
    }

    method Move(u: User, roomId: L.Id)
      requires Valid() && Has(u)
      modifies u`roomId
      ensures Valid() && State() == L.SetRoomId(old(State()), u.id, roomId)
    {
      u.SetRoomId(roomId);
      assert State().mail == old(State()).mail;
    }

    /** A loop over the listed users that skips one of them and sends the packets to each of the others. */
    method TellOthers(us: seq<User>, except: L.Id, ps: seq<Packet>)
      requires Valid() && Lists(us)
      modifies users.Values`outbox
      ensures Valid() && State() == L.Post(old(State()), L.Others(old(State()), except), ps)
    {
      hide L.Post, State, Lists;
      ghost var before := State();
      MirrorsMail();
      ListsEach(us);
      SendEach(us, except, ps);
      Posted(us, before, L.Others(before, except), ps);
    }

    method TellAll(us: seq<User>, p: Packet)
      requires Valid() && Lists(us)
      modifies users.Values`outbox
      ensures Valid() && State() == L.Post(old(State()), old(State()).users.Keys, [p])
    {
      hide L.Post, State;
      ghost var before := State();
      MirrorsMail();
      ListsEach(us);
      SendAll(us, p);
      Posted(us, before, before.users.Keys, [p]);
    }

    /** The same for the members of a room. */
    method TellRoom(us: seq<User>, roomId: L.Id, except: L.Id, p: Packet)
      requires Valid() && Lists(us)
      modifies users.Values`outbox
      ensures Valid() && State() == L.Post(old(State()), L.Members(old(State()), roomId) - {except}, [p])
    {
      hide L.Post, L.Members, State, Lists;
      ghost var before := State();
      ghost var to := L.Members(before, roomId) - {except};
      MirrorsMail();
      ListsEach(us);
      forall j | 0 <= j < |us|
        ensures us[j].id in to <==> us[j].roomId == roomId && us[j].id != except
      {
        L.IsMember(before, roomId, us[j].id);
      }
      SendRoom(us, roomId, except, p);
      Posted(us, before, to, [p]);
    }
  }

  /** What the allocator does to bag and counter is the issue of an id. */
  lemma Issued(s: L.Lobby, id: L.Id, nextId: L.Id, recycled: multiset<L.Id>)
    requires
      if s.recycled != multiset{} then
        id in s.recycled && recycled == s.recycled - multiset{id} && nextId == s.nextId
      else
        && recycled == s.recycled
        && id == (if s.nextId < L.K_START then L.K_START else s.nextId)
        && nextId == (id + 1) % 0x1_0000_0000
    ensures L.MayIssue(s, id)
    ensures L.Lobby(s.users, s.rooms, s.games, nextId, recycled, s.mail) == L.Issue(s, id)
  {
  }

  function Ids(us: seq<User>): (order: seq<L.Id>)
    ensures |order| == |us| && forall i :: 0 <= i < |us| ==> order[i] == us[i].id
  {
    seq(|us|, i requires 0 <= i < |us| => us[i].id)
  }

  method SendEach(us: seq<User>, except: L.Id, ps: seq<Packet>)
    requires forall i, j :: 0 <= i < j < |us| ==> us[i] != us[j]
    modifies (set u | u in us)`outbox
    ensures forall j :: 0 <= j < |us| ==>
      us[j].outbox == if us[j].id == except then old(us[j].outbox) else old(us[j].outbox) + ps
  {
    for i := 0 to |us|
      invariant forall j :: 0 <= j < i ==>
        us[j].outbox == if us[j].id == except then old(us[j].outbox) else old(us[j].outbox) + ps
      invariant forall j :: i <= j < |us| ==> us[j].outbox == old(us[j].outbox)
    {
      if us[i].id == except {
        continue;
      }
      us[i].SendPackets(ps);
    }
  }

  method SendAll(us: seq<User>, p: Packet)
    requires forall i, j :: 0 <= i < j < |us| ==> us[i] != us[j]
    modifies (set u | u in us)`outbox
    ensures forall j :: 0 <= j < |us| ==> us[j].outbox == old(us[j].outbox) + [p]
  {
    for i := 0 to |us|
      invariant forall j :: 0 <= j < i ==> us[j].outbox == old(us[j].outbox) + [p]
      invariant forall j :: i <= j < |us| ==> us[j].outbox == old(us[j].outbox)
    {
      us[i].SendPacket(p);
    }
  }

  method SendRoom(us: seq<User>, roomId: L.Id, except: L.Id, p: Packet)
    requires forall i, j :: 0 <= i < j < |us| ==> us[i] != us[j]
    modifies (set u | u in us)`outbox
    ensures forall j :: 0 <= j < |us| ==>
      us[j].outbox ==
      if us[j].roomId == roomId && us[j].id != except then old(us[j].outbox) + [p] else old(us[j].outbox)
  {
    for i := 0 to |us|
      invariant forall j :: 0 <= j < i ==>
        us[j].outbox ==
        if us[j].roomId == roomId && us[j].id != except then old(us[j].outbox) + [p] else old(us[j].outbox)
      invariant forall j :: i <= j < |us| ==> us[j].outbox == old(us[j].outbox)
    {
      if us[i].roomId == roomId && us[i].id != except {
        us[i].SendPacket(p);
      }
    }
  }
}
