/** All clients at once on one database: the coroutines of the connections, in the order in which the network wakes them
    (src/server.cpp lines 48 to 97, src/user_session.cpp lines 160 to 183). */
module Services {
  import opened Bytes
  import opened CodePages
  import opened SessionLaws
  import opened Sessions
  import opened Servers
  import opened PacketHandlers
  import opened Dispatches
  import opened UserSessions
  import opened Connections
  import L = Lobbies
  import R = LobbyRuns

  lemma ConnectionTakes(net: L.Net, page: CodePage, s: L.Lobby, c: Connection, bytes: octets, requests: seq<L.Event>,
                        next: Session, leave: seq<L.Event>) returns (c': Connection)
    requires bytes != [] && AllRequestsOf(requests, c.user) && L.ValidRun(net, s, requests)
    requires next == Receive(page, HandlerOf(VerdictsOf(net, s, requests)), Session([], c.session.buffer, Open), bytes)
    requires next.dispatched == PacketsOf(requests) && c.session.status.Open?
    requires if next.status.Open? then leave == [] else Departs(net, L.Final(net, s, requests), c.user, leave)
    ensures Takes(net, page, s, c, bytes, requests, leave, c') && L.ValidRun(net, s, requests + leave)
    ensures L.Final(net, s, requests + leave) == L.Final(net, L.Final(net, s, requests), leave)
    ensures c'.user == c.user && (c'.gone <==> !next.status.Open?)
    ensures c'.session.buffer == next.buffer && c'.session.status == next.status
  {
    hide L.ValidRun, L.Final, VerdictsOf, Receive, HandlerOf;
    c' := Connection(c.user, c.chunks + [bytes], c.verdicts + VerdictsOf(net, s, requests),
                     next.(dispatched := c.session.dispatched + next.dispatched), !next.status.Open?);
    NoMore(net, L.Final(net, s, requests));
    L.RunAppend(net, s, requests, leave);
  }

  lemma NoMore(net: L.Net, s: L.Lobby)
    ensures L.ValidRun(net, s, []) && L.Final(net, s, []) == s
  {
  }

  lemma Departure(net: L.Net, s: L.Lobby, e: L.Event)
    requires e.Disconnected? && L.Enabled(net, s, e)
    ensures L.ValidRun(net, s, [e])
    ensures Departs(net, s, e.user, [e]) && L.Final(net, s, [e]) == L.Apply(net, s, e)
  {
    hide L.Enabled, L.Apply;
    NoMore(net, s);
    L.RunSnoc(net, s, [], e);
    assert [] + [e] == [e];
  }

  /** One receive of an open connection among others: its frames are served, and if it is empty or closes the session
      its user is disconnected. No other user is removed. */
  method TakeChunk(net: L.Net, db: Database, client: User, reader: FramedPacketReader, bytes: octets,
                   ghost c: Connection)
    returns (closed: bool, ghost requests: seq<L.Event>, ghost leave: seq<L.Event>, ghost c': Connection)
    requires Serves(db, client) && c.user == client.id && c.session.buffer == reader.buffer && c.session.status.Open?
    modifies reader, db, db.users.Values
    ensures db.Valid()
    ensures db.users == if closed && client.id != 0 then old(db.users) - {client.id} else old(db.users)
    ensures Takes(net, reader.page, old(db.State()), c, bytes, requests, leave, c')
    ensures L.ValidRun(net, old(db.State()), requests + leave)
    ensures db.State() == L.Final(net, old(db.State()), requests + leave)
    ensures c'.user == c.user && c'.gone == closed
    ensures !closed ==> c'.session.buffer == reader.buffer && c'.session.status.Open?
  {
    hide Database.State, Database.Valid, L.ValidRun, L.Final, L.Enabled, L.Apply, VerdictsOf, Receive, HandlerOf,
      Departs;
    ghost var before := db.State();
    requests, leave := [], [];
    NoMore(net, before);
    ghost var e;
    if bytes == [] {
      e := DisconnectUser(net, db, client);
      Departure(net, before, e);
      leave := [e];
      assert [] + [e] == [e];
      return true, requests, leave, c.(gone := true);
    }
    var status;
    status, requests := ServeReceive(net, db, client, reader, bytes);
    closed := !status.Open?;
    ghost var next := Session(PacketsOf(requests), reader.buffer, status);
    if closed {
      ghost var middle := db.State();
      e := DisconnectUser(net, db, client);
      Departure(net, middle, e);
      leave := [e];
    }
    NoMore(net, L.Final(net, before, requests));
    c' := ConnectionTakes(net, reader.page, before, c, bytes, requests, next, leave);
  }

  /** The objects behind the connections: each open one has its user in the database and a reader of its own. */
  ghost predicate Backed(page: CodePage, db: Database, users: seq<User>, readers: seq<FramedPacketReader>,
                         gone: seq<bool>, connections: seq<Connection>)
    reads db`users, readers
  {
    && db.Valid() && |users| == |readers| == |gone| == |connections|
    && (forall j, k :: 0 <= j < k < |readers| ==> readers[j] != readers[k])
    && (forall k :: 0 <= k < |gone| ==> gone[k] == connections[k].gone && readers[k].page == page)
    && (forall k :: 0 <= k < |gone| && !gone[k] ==>
          && db.Has(users[k]) && users[k].id == connections[k].user
          && readers[k].buffer == connections[k].session.buffer && connections[k].session.status.Open?)
    && (forall j, k :: 0 <= j < k < |gone| && !gone[j] && !gone[k] ==> users[j].id != users[k].id)
  }

  lemma ConnectIsStep(net: L.Net, page: CodePage, w: Service, address: L.Ipv4, login: FirstReceive,
                      events: seq<L.Event>, w': Service)
    requires Accepts(net, page, w, address, login, events, w')
    ensures Step(net, page, w, Connect(address, login), events, w')
  {
    hide Accepts;
  }

  lemma ChunkIsStep(net: L.Net, page: CodePage, w: Service, k: nat, bytes: octets, requests: seq<L.Event>,
                    leave: seq<L.Event>, c': Connection, w': Service)
    requires k < |w.connections| && !w.connections[k].gone
    requires Takes(net, page, w.lobby, w.connections[k], bytes, requests, leave, c')
    requires L.ValidRun(net, w.lobby, requests + leave)
    requires w' == Service(L.Final(net, w.lobby, requests + leave), w.connections[k := c'])
    ensures Step(net, page, w, Chunk(k, bytes), requests + leave, w')
  {
    hide Takes, L.ValidRun, L.Final;
  }

  lemma IdleIsStep(net: L.Net, page: CodePage, w: Service, k: nat, bytes: octets)
    requires k >= |w.connections| || w.connections[k].gone
    ensures Step(net, page, w, Chunk(k, bytes), [], w)
  {
    hide Takes, L.ValidRun, L.Final;
  }

  lemma CollisionExhausts(net: L.Net, page: CodePage, inputs: seq<Input>, steps: seq<seq<L.Event>>, ws: seq<Service>,
                          address: L.Ipv4, login: FirstReceive, step: seq<L.Event>, w: Service)
    requires History(net, page, inputs, steps, ws) && Accepts(net, page, ws[|inputs|], address, login, step, w)
    requires step != [] && L.LoginAccepted(ws[|inputs|].lobby, step[0].packet)
    requires step[0].id in ws[|inputs|].lobby.users && L.ValidRun(net, L.INITIAL, Flat(steps + [step]))
    ensures !R.WithinPool(net, L.INITIAL, Flat(steps + [step]))
  {
    hide Step, LoginParse, L.LoginAccepted, L.Final, L.ValidRun, R.WithinPool;
    assert step == [step[0]];
    TakenIdExhausts(net, page, inputs, steps, ws, step[0]);
  }

  /** A new connection: an accepted one gets a reader and its place in the list. `clash` tells that its id is that of a
      user who is still connected. */
  method AcceptClient(net: L.Net, page: CodePage, db: Database, users: seq<User>, readers: seq<FramedPacketReader>,
                      gone: seq<bool>, address: L.Ipv4, login: FirstReceive, ghost w: Service)
    returns (users': seq<User>, readers': seq<FramedPacketReader>, gone': seq<bool>, clash: bool,
             ghost step: seq<L.Event>, ghost w': Service)
    requires Backed(page, db, users, readers, gone, w.connections) && db.State() == w.lobby
    modifies db, db.users.Values
    ensures Accepts(net, page, w, address, login, step, w') && db.Valid() && db.State() == w'.lobby
    ensures !clash ==> Backed(page, db, users', readers', gone', w'.connections)
    ensures clash ==> step != [] && L.LoginAccepted(w.lobby, step[0].packet) && step[0].id in w.lobby.users
    ensures forall id :: id in db.users ==>
      (id in old(db.users) && db.users[id] == old(db.users)[id]) || fresh(db.users[id])
    ensures forall i :: 0 <= i < |readers'| ==> readers'[i] in readers || fresh(readers'[i])
  {
    hide Database.State, Arrived, L.ValidRun, L.Final, L.LoginAccepted, L.LoginRefusal;
    var known := db.users;
    db.MirrorsMaps();
    users', readers', gone', clash := users, readers, gone, false;
    var user, refusal;
    user, refusal, step := ReceiveLogin(net, page, db, login, address);
    if user == null {
      return users', readers', gone', clash, step, Service(db.State(), w.connections);
    }
    clash := user.id in known;
    var reader := new FramedPacketReader(page);
    users', readers', gone' := users + [user], readers + [reader], gone + [false];
    w' := Service(db.State(), w.connections + [NewConnection(user.id)]);
  }

  /** A receive of the k-th accepted connection; one that is gone or never was takes nothing. */
  method ServeChunk(net: L.Net, page: CodePage, db: Database, users: seq<User>, readers: seq<FramedPacketReader>,
                    gone: seq<bool>, k: nat, bytes: octets, ghost w: Service)
    returns (gone': seq<bool>, ghost step: seq<L.Event>, ghost w': Service)
    requires Backed(page, db, users, readers, gone, w.connections) && db.State() == w.lobby
    modifies db, db.users.Values, readers
    ensures Step(net, page, w, Chunk(k, bytes), step, w') && db.State() == w'.lobby
    ensures Backed(page, db, users, readers, gone', w'.connections)
    ensures forall id :: id in db.users ==> id in old(db.users) && db.users[id] == old(db.users)[id]
  {
    hide Database.State, Step, Takes, L.ValidRun, L.Final;
    if k >= |gone| || gone[k] {
      IdleIsStep(net, page, w, k, bytes);
      return gone, [], w;
    }
    var closed;
    ghost var requests, leave, c';
    closed, requests, leave, c' := TakeChunk(net, db, users[k], readers[k], bytes, w.connections[k]);
    step, w' := requests + leave, Service(db.State(), w.connections[k := c']);
    ChunkIsStep(net, page, w, k, bytes, requests, leave, c', w');
    gone' := gone[k := closed];
  }

  /** The server from an empty database: new connections log in, and receives are served in the order in which they
      come, until all are, or a login is given the id of a user who is still connected. */
  method ServeClients(net: L.Net, page: CodePage, inputs: seq<Input>)
    returns (db: Database, n: nat, ghost steps: seq<seq<L.Event>>, ghost ws: seq<Service>)
    ensures n <= |inputs| && History(net, page, inputs[..n], steps, ws)
    ensures fresh(db) && db.Valid() && db.State() == ws[n].lobby
    ensures L.ValidRun(net, L.INITIAL, Flat(steps)) && db.State() == L.Final(net, L.INITIAL, Flat(steps))
    ensures R.WithinPool(net, L.INITIAL, Flat(steps)) ==> n == |inputs|
  {
    hide Database.State, Step, Accepts, L.ValidRun, L.Final, L.LoginAccepted, R.WithinPool, Flat;
    db := new Database();
    var users: seq<User>, readers: seq<FramedPacketReader>, gone: seq<bool> := [], [], [];
    n, steps, ws := 0, [], [IDLE];
    while n < |inputs|
      invariant n <= |inputs| && History(net, page, inputs[..n], steps, ws)
      invariant fresh(db) && (forall id :: id in db.users ==> fresh(db.users[id]))
      invariant forall k :: 0 <= k < |readers| ==> fresh(readers[k])
      invariant db.State() == ws[n].lobby && Backed(page, db, users, readers, gone, ws[n].connections)
    {
      ghost var w := ws[n];
      ghost var step, w';
      var clash := false;
      match inputs[n] {
        case Connect(address, login) =>
          users, readers, gone, clash, step, w' :=
            AcceptClient(net, page, db, users, readers, gone, address, login, w);
          ConnectIsStep(net, page, w, address, login, step, w');
        case Chunk(k, bytes) =>
          gone, step, w' := ServeChunk(net, page, db, users, readers, gone, k, bytes, w);
      }
      assert inputs[..n + 1] == inputs[..n] + [inputs[n]];
      HistorySnoc(net, page, inputs[..n], steps, ws, inputs[n], step, w');
      HistoryIsRun(net, page, inputs[..n + 1], steps + [step], ws + [w']);
      if clash {
        CollisionExhausts(net, page, inputs[..n], steps, ws, inputs[n].address, inputs[n].login, step, w');
        return db, n + 1, steps + [step], ws + [w'];
      }
      n, steps, ws := n + 1, steps + [step], ws + [w'];
    }
    HistoryIsRun(net, page, inputs[..n], steps, ws);
  }
}
