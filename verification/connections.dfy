/** The server as a whole: any number of connections, whose receives come in any order. Each is one or more steps of the
    lobby, and each connection is a session of its own (src/server.cpp, src/user_session.cpp). */
module Connections {
  import opened Bytes
  import opened CodePages
  import opened Packets
  import opened SessionLaws
  import opened Sessions
  import opened Dispatches
  import L = Lobbies
  import I = LobbyInvariants
  import R = LobbyRuns
  import P = Replication

  /** The first receive of a connection, which is all its login sees. */
  type FirstReceive = s: octets | |s| <= LOGIN_BUFFER witness []

  /** What the network brings: a new connection, or a receive of the k-th accepted one, whose end is empty. */
  datatype Input = Connect(address: L.Ipv4, login: FirstReceive) | Chunk(k: nat, bytes: octets)

  /** A connection whose login was accepted: its user, what it received, how each packet fared, and its session. */
  datatype Connection = Connection(
    user: L.Id, chunks: seq<octets>, verdicts: seq<Verdict>, session: Session, gone: bool)

  datatype Service = Service(lobby: L.Lobby, connections: seq<Connection>)

  const IDLE := Service(L.INITIAL, [])

  function NewConnection(user: L.Id): Connection {
    Connection(user, [], [], START, false)
  }

  // ---- One input ----

  /** A connection is one login step or none, and is listed if the login is accepted. */
  ghost predicate Accepts(net: L.Net, page: CodePage, w: Service, address: L.Ipv4, login: FirstReceive,
                          events: seq<L.Event>, w': Service)
  {
    && Arrived(net, page, w.lobby, address, login, events)
    && w' == Service(
      L.Final(net, w.lobby, events),
      if events != [] && L.LoginAccepted(w.lobby, events[0].packet)
      then w.connections + [NewConnection(events[0].id)] else w.connections)
  }

  /** A receive brings the requests that its frames hold, with the verdicts of the lobby on them. */
  ghost predicate Brings(net: L.Net, page: CodePage, s: L.Lobby, c: Connection, bytes: octets, requests: seq<L.Event>,
                         c': Connection)
  {
    && AllRequestsOf(requests, c.user) && L.ValidRun(net, s, requests)
    && var verdicts := VerdictsOf(net, s, requests);
       var next := Receive(page, HandlerOf(verdicts), c.session.(dispatched := []), bytes);
       && next.dispatched == PacketsOf(requests)
       && c' == Connection(c.user, c.chunks + [bytes], c.verdicts + verdicts,
                           next.(dispatched := c.session.dispatched + next.dispatched), !next.status.Open?)
  }

  /** The step in which a user leaves. */
  ghost predicate Departs(net: L.Net, s: L.Lobby, me: L.Id, leave: seq<L.Event>) {
    L.ValidRun(net, s, leave) && |leave| == 1 && leave[0].Disconnected? && leave[0].user == me
  }

  /** A receive of an open connection: an empty one, or one that closes the session, ends in the disconnect. */
  ghost predicate Takes(net: L.Net, page: CodePage, s: L.Lobby, c: Connection, bytes: octets, requests: seq<L.Event>,
                        leave: seq<L.Event>, c': Connection)
  {
    && L.ValidRun(net, s, requests)
    && (if bytes == [] then requests == [] && c' == c.(gone := true)
        else Brings(net, page, s, c, bytes, requests, c'))
    && (if c'.gone then Departs(net, L.Final(net, s, requests), c.user, leave) else leave == [])
  }

  /** What an input may make of the service, and the events of the lobby in which it does. */
  ghost predicate Step(net: L.Net, page: CodePage, w: Service, input: Input, events: seq<L.Event>, w': Service) {
    match input
    case Connect(address, login) => Accepts(net, page, w, address, login, events, w')
    case Chunk(k, bytes) =>
      if k >= |w.connections| || w.connections[k].gone then events == [] && w' == w
      else
        exists requests, leave, c' ::
          && Takes(net, page, w.lobby, w.connections[k], bytes, requests, leave, c')
          && events == requests + leave && L.ValidRun(net, w.lobby, events)
          && w' == Service(L.Final(net, w.lobby, events), w.connections[k := c'])
  }

  /** The service after each of the inputs, from the empty one. */
  ghost predicate History(net: L.Net, page: CodePage, inputs: seq<Input>, steps: seq<seq<L.Event>>, ws: seq<Service>) {
    && |steps| == |inputs| && |ws| == |inputs| + 1 && ws[0] == IDLE
    && forall i :: 0 <= i < |inputs| ==> Step(net, page, ws[i], inputs[i], steps[i], ws[i + 1])
  }

  function Flat(steps: seq<seq<L.Event>>): seq<L.Event> {
    if steps == [] then [] else Flat(steps[..|steps| - 1]) + steps[|steps| - 1]
  }

  lemma FlatSnoc(steps: seq<seq<L.Event>>, step: seq<L.Event>)
    ensures Flat(steps + [step]) == Flat(steps) + step
  {
    assert (steps + [step])[..|steps|] == steps;
  }

  lemma HistorySnoc(net: L.Net, page: CodePage, inputs: seq<Input>, steps: seq<seq<L.Event>>, ws: seq<Service>,
                    input: Input, step: seq<L.Event>, w: Service)
    requires History(net, page, inputs, steps, ws) && Step(net, page, ws[|inputs|], input, step, w)
    ensures History(net, page, inputs + [input], steps + [step], ws + [w])
  {
    hide Step;
    forall i | 0 <= i < |inputs| + 1
      ensures Step(net, page, (ws + [w])[i], (inputs + [input])[i], (steps + [step])[i], (ws + [w])[i + 1])
    {
    }
  }

  lemma HistoryFront(net: L.Net, page: CodePage, inputs: seq<Input>, steps: seq<seq<L.Event>>, ws: seq<Service>)
    requires History(net, page, inputs, steps, ws) && inputs != []
    ensures var n := |inputs| - 1;
      && History(net, page, inputs[..n], steps[..n], ws[..n + 1])
      && Step(net, page, ws[n], inputs[n], steps[n], ws[n + 1])
  {
    hide Step;
    var n := |inputs| - 1;
    forall i | 0 <= i < n
      ensures Step(net, page, ws[..n + 1][i], inputs[..n][i], steps[..n][i], ws[..n + 1][i + 1])
    {
      assert Step(net, page, ws[i], inputs[i], steps[i], ws[i + 1]);
    }
  }

  // ---- One run ----

  lemma StepIsRun(net: L.Net, page: CodePage, w: Service, input: Input, events: seq<L.Event>, w': Service)
    requires Step(net, page, w, input, events, w')
    ensures L.ValidRun(net, w.lobby, events) && w'.lobby == L.Final(net, w.lobby, events)
  {
    hide L.Enabled, L.Apply, Takes, L.LoginAccepted;
  }

  /** Whatever comes from however many clients, in whatever order, the lobby takes one run from its initial state. */
  lemma {:induction false} HistoryIsRun(net: L.Net, page: CodePage, inputs: seq<Input>, steps: seq<seq<L.Event>>,
                                        ws: seq<Service>)
    requires History(net, page, inputs, steps, ws)
    ensures L.ValidRun(net, L.INITIAL, Flat(steps))
    ensures L.Final(net, L.INITIAL, Flat(steps)) == ws[|inputs|].lobby
    decreases |inputs|
  {
    hide Step, L.Enabled, L.Apply;
    if inputs != [] {
      var n := |inputs| - 1;
      HistoryFront(net, page, inputs, steps, ws);
      HistoryIsRun(net, page, inputs[..n], steps[..n], ws[..n + 1]);
      StepIsRun(net, page, ws[n], inputs[n], steps[n], ws[n + 1]);
      L.RunAppend(net, L.INITIAL, Flat(steps[..n]), steps[n]);
    }
  }

  // ---- Each connection is a session ----

  /** What a connection has dispatched is what the receive loop makes of its own receives, with the verdicts of the
      lobby on its packets; until it is gone its session is open. */
  ghost predicate IsSession(page: CodePage, c: Connection) {
    && ReceiveAll(page, HandlerOf(c.verdicts), START, c.chunks) == c.session
    && |c.verdicts| == |c.session.dispatched|
    && (!c.gone ==> c.session.status.Open?)
  }

  lemma TakingKeepsSession(net: L.Net, page: CodePage, s: L.Lobby, c: Connection, bytes: octets,
                           requests: seq<L.Event>, leave: seq<L.Event>, c': Connection)
    requires IsSession(page, c) && !c.gone && Takes(net, page, s, c, bytes, requests, leave, c')
    ensures IsSession(page, c')
  {
    hide ReceiveAll, Receive, HandlerOf, L.ValidRun, L.Final, VerdictsOf, Departs;
    if bytes != [] {
      var verdicts := VerdictsOf(net, s, requests);
      var next := Receive(page, HandlerOf(verdicts), c.session.(dispatched := []), bytes);
      VerdictsGoOn(page, c.verdicts, verdicts, c.chunks, bytes, c.session, next);
    }
  }

  ghost predicate AllSessions(page: CodePage, w: Service) {
    forall k :: 0 <= k < |w.connections| ==> IsSession(page, w.connections[k])
  }

  lemma StepKeepsSessions(net: L.Net, page: CodePage, w: Service, input: Input, events: seq<L.Event>, w': Service)
    requires AllSessions(page, w) && Step(net, page, w, input, events, w')
    ensures AllSessions(page, w')
  {
    hide IsSession, Takes, L.ValidRun, L.Final, L.LoginAccepted, Arrived;
    if input.Connect? {
      FreshIsSession(page, if events == [] then 0 else EntryId(net, page, w.lobby, input.address, input.login, events));
    } else if input.k < |w.connections| && !w.connections[input.k].gone {
      var requests, leave, c' :|
        Takes(net, page, w.lobby, w.connections[input.k], input.bytes, requests, leave, c')
        && w'.connections == w.connections[input.k := c'];
      TakingKeepsSession(net, page, w.lobby, w.connections[input.k], input.bytes, requests, leave, c');
    }
  }

  function EntryId(net: L.Net, page: CodePage, s: L.Lobby, address: L.Ipv4, login: FirstReceive,
                   events: seq<L.Event>): L.Id
    requires Arrived(net, page, s, address, login, events) && events != []
  {
    events[0].id
  }

  lemma FreshIsSession(page: CodePage, user: L.Id)
    ensures IsSession(page, NewConnection(user))
  {
  }

  /** The receives that the k-th connection was there to take. */
  function Received(inputs: seq<Input>, ws: seq<Service>, k: nat): seq<octets>
    requires |ws| == |inputs| + 1
  {
    if inputs == [] then []
    else
      var n := |inputs| - 1;
      Received(inputs[..n], ws[..n + 1], k) + Taken(ws[n], inputs[n], k)
  }

  /** What the k-th connection takes of an input. */
  function Taken(w: Service, input: Input, k: nat): seq<octets> {
    if input.Chunk? && input.k == k && input.bytes != [] && k < |w.connections| && !w.connections[k].gone
    then [input.bytes] else []
  }

  lemma TakingKeepsChunks(net: L.Net, page: CodePage, s: L.Lobby, c: Connection, bytes: octets,
                          requests: seq<L.Event>, leave: seq<L.Event>, c': Connection)
    requires Takes(net, page, s, c, bytes, requests, leave, c')
    ensures c'.chunks == c.chunks + (if bytes == [] then [] else [bytes]) && c'.user == c.user
  {
    hide L.ValidRun, L.Final, VerdictsOf, Departs, Receive, HandlerOf;
  }

  lemma StepTakes(net: L.Net, page: CodePage, w: Service, input: Input, events: seq<L.Event>, w': Service, k: nat)
    requires Step(net, page, w, input, events, w') && k < |w'.connections|
    ensures |w.connections| <= |w'.connections|
    ensures w'.connections[k].chunks == (if k < |w.connections| then w.connections[k].chunks else [])
      + Taken(w, input, k)
  {
    hide Takes, L.ValidRun, L.Final, L.LoginAccepted, Arrived;
    if input.Chunk? && input.k < |w.connections| && !w.connections[input.k].gone {
      var requests, leave, c' :|
        Takes(net, page, w.lobby, w.connections[input.k], input.bytes, requests, leave, c')
        && w'.connections == w.connections[input.k := c'];
      TakingKeepsChunks(net, page, w.lobby, w.connections[input.k], input.bytes, requests, leave, c');
    }
  }

  /** In every state of the service, every connection is a session of its own receives: what other clients do between
      them shows only in the verdicts on its packets. */
  lemma {:induction false} ConnectionsAreSessions(net: L.Net, page: CodePage, inputs: seq<Input>,
                                                  steps: seq<seq<L.Event>>, ws: seq<Service>)
    requires History(net, page, inputs, steps, ws)
    ensures AllSessions(page, ws[|inputs|])
    ensures forall k :: 0 <= k < |ws[|inputs|].connections| ==>
      ws[|inputs|].connections[k].chunks == Received(inputs, ws, k)
    ensures forall k: nat :: |ws[|inputs|].connections| <= k ==> Received(inputs, ws, k) == []
    decreases |inputs|
  {
    hide Step, AllSessions;
    if inputs == [] {
      NoSessions(page);
    } else {
      var n := |inputs| - 1;
      HistoryFront(net, page, inputs, steps, ws);
      ConnectionsAreSessions(net, page, inputs[..n], steps[..n], ws[..n + 1]);
      StepKeepsSessions(net, page, ws[n], inputs[n], steps[n], ws[n + 1]);
      forall k | 0 <= k < |ws[n + 1].connections|
        ensures ws[n + 1].connections[k].chunks == Received(inputs, ws, k)
      {
        StepTakes(net, page, ws[n], inputs[n], steps[n], ws[n + 1], k);
      }
      NoneLost(net, page, ws[n], inputs[n], steps[n], ws[n + 1]);
    }
  }

  lemma NoneLost(net: L.Net, page: CodePage, w: Service, input: Input, events: seq<L.Event>, w': Service)
    requires Step(net, page, w, input, events, w')
    ensures |w.connections| <= |w'.connections|
  {
    hide Takes, L.ValidRun, L.Final, L.LoginAccepted, Arrived;
  }

  lemma NoSessions(page: CodePage)
    ensures AllSessions(page, IDLE)
  {
  }

  // ---- The users are the open connections ----

  predicate IsOpenFor(w: Service, k: int, id: L.Id) {
    0 <= k < |w.connections| && !w.connections[k].gone && w.connections[k].user == id
  }

  /** Every user of the lobby has its open connection, every open connection its user, and no two the same. */
  ghost predicate Attended(w: Service) {
    && (forall k, id :: IsOpenFor(w, k, id) ==> id in w.lobby.users)
    && (forall id :: id in w.lobby.users ==> exists k :: IsOpenFor(w, k, id))
    && (forall j, k, id :: IsOpenFor(w, j, id) && IsOpenFor(w, k, id) ==> j == k)
  }

  lemma LoginUsers(net: L.Net, s: L.Lobby, e: L.Event)
    requires e.Login? && L.Enabled(net, s, e)
    ensures L.Apply(net, s, e).users.Keys
      == s.users.Keys + (if L.LoginAccepted(s, e.packet) then {e.id} else {})
  {
    hide L.LoginAccepted, L.Issue, L.MayIssue, L.Apply, I.SameButMail;
    I.ApplyHasEffect(net, s, e);
    MailAside(I.Effect(net, s, e), L.Apply(net, s, e));
    I.IssueKeepsMaps(s, e.id);
  }

  lemma LeaveUsers(net: L.Net, s: L.Lobby, e: L.Event)
    requires I.IdsSound(s) && e.Disconnected? && L.Enabled(net, s, e)
    ensures L.Apply(net, s, e).users.Keys == s.users.Keys - {e.user}
  {
    hide L.MayFindGame, L.Abandoned, L.Apply, I.SameButMail;
    I.IdsDisjoint(s, e.user);
    I.ApplyHasEffect(net, s, e);
    MailAside(I.Effect(net, s, e), L.Apply(net, s, e));
  }

  lemma AdmittingKeepsAttended(w: Service, w': Service, id: L.Id)
    requires Attended(w) && id !in w.lobby.users
    requires w'.connections == w.connections + [NewConnection(id)]
    requires w'.lobby.users.Keys == w.lobby.users.Keys + {id}
    ensures Attended(w')
  {
    var n := |w.connections|;
    forall k, other
      ensures IsOpenFor(w', k, other) <==> IsOpenFor(w, k, other) || (k == n && other == id)
      ensures IsOpenFor(w, k, other) ==> k < n
    {
    }
    hide IsOpenFor;
    forall other | other in w'.lobby.users ensures exists k :: IsOpenFor(w', k, other) {
      if other == id {
        assert IsOpenFor(w', n, id);
      } else {
        var k :| IsOpenFor(w, k, other);
        assert IsOpenFor(w', k, other);
      }
    }
  }

  lemma LeavingKeepsAttended(w: Service, w': Service, k: nat)
    requires Attended(w) && k < |w.connections| && !w.connections[k].gone
    requires |w'.connections| == |w.connections| && w'.connections[k].gone
    requires forall j :: 0 <= j < |w.connections| && j != k ==> w'.connections[j] == w.connections[j]
    requires w'.lobby.users.Keys == w.lobby.users.Keys - {w.connections[k].user}
    ensures Attended(w')
  {
    var me := w.connections[k].user;
    assert IsOpenFor(w, k, me);
    forall j, id
      ensures IsOpenFor(w', j, id) <==> IsOpenFor(w, j, id) && j != k
      ensures IsOpenFor(w, k, id) ==> id == me
    {
    }
    hide IsOpenFor;
    forall other | other in w'.lobby.users ensures exists j :: IsOpenFor(w', j, other) {
      var j :| IsOpenFor(w, j, other);
      assert IsOpenFor(w', j, other);
    }
  }

  lemma SameKeepsAttended(w: Service, w': Service)
    requires Attended(w) && w'.lobby.users.Keys == w.lobby.users.Keys
    requires forall k, id :: IsOpenFor(w', k, id) <==> IsOpenFor(w, k, id)
    ensures Attended(w')
  {
    hide IsOpenFor;
    forall other | other in w'.lobby.users ensures exists k :: IsOpenFor(w', k, other) {
      var k :| IsOpenFor(w, k, other);
      assert IsOpenFor(w', k, other);
    }
  }

  /** A login within the pool. */
  lemma AcceptingKeepsAttended(net: L.Net, page: CodePage, w: Service, address: L.Ipv4, login: FirstReceive,
                               events: seq<L.Event>, w': Service)
    requires Attended(w) && I.Inv(w.lobby) && Accepts(net, page, w, address, login, events, w')
    requires R.WithinPool(net, w.lobby, events)
    ensures Attended(w')
  {
    hide Attended, I.Inv, L.LoginAccepted, LoginParse, L.Enabled, L.Apply, I.LiveCount;
    if events == [] {
      assert w' == w;
    } else {
      var e := events[0];
      ArrivalIsOneStep(net, page, w.lobby, address, login, events);
      LoginUsers(net, w.lobby, e);
      if L.LoginAccepted(w.lobby, e.packet) {
        FreshUser(net, w.lobby, e);
        AdmittingKeepsAttended(w, w', e.id);
      } else {
        assert w'.lobby.users.Keys == w.lobby.users.Keys && w'.connections == w.connections;
        SameKeepsAttended(w, w');
      }
    }
  }

  lemma FreshUser(net: L.Net, s: L.Lobby, e: L.Event)
    requires I.Inv(s) && e.Login? && L.Enabled(net, s, e) && L.LoginAccepted(s, e.packet)
    requires L.Allocates(net, s, e) ==> I.LiveCount(s) < I.POOL
    ensures e.id !in s.users
  {
    hide L.LoginAccepted, L.MayIssue, I.Conserved, I.Counted, I.NoDangling, I.NamesSound, I.LiveCount;
    R.ReissuesExactlyWhenExhausted(s, e.id);
  }

  lemma TakingKeepsAttended(net: L.Net, page: CodePage, w: Service, k: nat, bytes: octets, requests: seq<L.Event>,
                            leave: seq<L.Event>, c': Connection, w': Service)
    requires Attended(w) && I.Inv(w.lobby) && k < |w.connections| && !w.connections[k].gone
    requires Takes(net, page, w.lobby, w.connections[k], bytes, requests, leave, c')
    requires L.ValidRun(net, w.lobby, requests + leave) && R.WithinPool(net, w.lobby, requests + leave)
    requires w' == Service(L.Final(net, w.lobby, requests + leave), w.connections[k := c'])
    ensures Attended(w')
  {
    hide Attended, I.Inv, I.IdsSound, L.Apply, L.Enabled, L.ValidRun, L.Final, R.WithinPool, VerdictsOf, Receive;
    var s, t := w.lobby, L.Final(net, w.lobby, requests);
    TakingKeepsChunks(net, page, s, w.connections[k], bytes, requests, leave, c');
    RequestsKeepUsers(net, s, requests);
    if c'.gone {
      L.RunAppend(net, s, requests, leave);
      R.WithinPoolAppend(net, s, requests, leave);
      R.RunKeepsInv(net, s, requests);
      assert I.IdsSound(t) by { InvHasIds(t); }
      OneStep(net, t, leave);
      LeaveUsers(net, t, leave[0]);
      LeavingKeepsAttended(w, w', k);
    } else {
      assert requests + leave == requests;
      SameKeepsAttended(w, w');
    }
  }

  lemma InvHasIds(s: L.Lobby)
    requires I.Inv(s)
    ensures I.IdsSound(s)
  {
  }

  lemma OneStep(net: L.Net, s: L.Lobby, events: seq<L.Event>)
    requires L.ValidRun(net, s, events) && |events| == 1
    ensures L.Enabled(net, s, events[0]) && L.Final(net, s, events) == L.Apply(net, s, events[0])
  {
    hide L.Enabled, L.Apply;
    assert L.Final(net, L.Apply(net, s, events[0]), events[1..]) == L.Apply(net, s, events[0]);
  }

  lemma StepKeepsAttended(net: L.Net, page: CodePage, w: Service, input: Input, events: seq<L.Event>, w': Service)
    requires Attended(w) && I.Inv(w.lobby) && Step(net, page, w, input, events, w')
    requires L.ValidRun(net, w.lobby, events) && R.WithinPool(net, w.lobby, events)
    ensures Attended(w')
  {
    hide Attended, I.Inv, Takes, Accepts, L.ValidRun, L.Final, R.WithinPool;
    match input
    case Connect(address, login) => AcceptingKeepsAttended(net, page, w, address, login, events, w');
    case Chunk(k, bytes) =>
      if k < |w.connections| && !w.connections[k].gone {
        var requests, leave, c' :|
          && Takes(net, page, w.lobby, w.connections[k], bytes, requests, leave, c')
          && events == requests + leave && w' == Service(L.Final(net, w.lobby, events), w.connections[k := c']);
        TakingKeepsAttended(net, page, w, k, bytes, requests, leave, c', w');
      }
  }

  /** As long as the pool is not exhausted, the users of the lobby are exactly the open connections, one each: nobody is
      left behind by a connection that ended, and no open connection has lost its user. */
  lemma {:induction false} UsersAreOpenConnections(net: L.Net, page: CodePage, inputs: seq<Input>,
                                                   steps: seq<seq<L.Event>>, ws: seq<Service>)
    requires History(net, page, inputs, steps, ws) && L.ValidRun(net, L.INITIAL, Flat(steps))
    requires R.WithinPool(net, L.INITIAL, Flat(steps))
    ensures Attended(ws[|inputs|]) && I.Inv(ws[|inputs|].lobby)
    decreases |inputs|
  {
    hide Step, Attended, I.Inv, L.ValidRun, L.Final, R.WithinPool;
    HistoryIsRun(net, page, inputs, steps, ws);
    R.ReachableIsSound(net, Flat(steps));
    if inputs == [] {
      NobodyAttends();
    } else {
      var n := |inputs| - 1;
      HistoryFront(net, page, inputs, steps, ws);
      HistoryIsRun(net, page, inputs[..n], steps[..n], ws[..n + 1]);
      StepIsRun(net, page, ws[n], inputs[n], steps[n], ws[n + 1]);
      R.WithinPoolAppend(net, L.INITIAL, Flat(steps[..n]), steps[n]);
      UsersAreOpenConnections(net, page, inputs[..n], steps[..n], ws[..n + 1]);
      StepKeepsAttended(net, page, ws[n], inputs[n], steps[n], ws[n + 1]);
    }
  }

  lemma NobodyAttends()
    ensures Attended(IDLE)
  {
  }

  // ---- A silent client keeps up ----

  /** What the k-th connection does not take is none of its user's doing. */
  lemma OthersAreOthers(net: L.Net, page: CodePage, w: Service, input: Input, events: seq<L.Event>, w': Service, k: nat)
    requires Attended(w) && Step(net, page, w, input, events, w')
    requires k < |w.connections| && !w.connections[k].gone && !(input.Chunk? && input.k == k)
    ensures k < |w'.connections| && w'.connections[k] == w.connections[k]
    ensures P.Bystander(events, w.connections[k].user)
  {
    hide Takes, L.ValidRun, L.Final, L.LoginAccepted, LoginParse;
    if input.Chunk? && input.k < |w.connections| && !w.connections[input.k].gone {
      var c := w.connections[input.k];
      var requests, leave, c' :|
        && Takes(net, page, w.lobby, c, input.bytes, requests, leave, c')
        && events == requests + leave && w'.connections == w.connections[input.k := c'];
      assert IsOpenFor(w, k, w.connections[k].user) && IsOpenFor(w, input.k, c.user);
      TakesOwn(net, page, w.lobby, c, input.bytes, requests, leave, c', w.connections[k].user);
    }
  }

  lemma TakesOwn(net: L.Net, page: CodePage, s: L.Lobby, c: Connection, bytes: octets, requests: seq<L.Event>,
                 leave: seq<L.Event>, c': Connection, v: L.Id)
    requires Takes(net, page, s, c, bytes, requests, leave, c') && c.user != v
    ensures P.Bystander(requests + leave, v)
  {
    hide L.ValidRun, L.Final, VerdictsOf, Receive, HandlerOf;
  }

  /** Nothing comes for the k-th connection from the i-th input on. */
  predicate Silent(inputs: seq<Input>, i: nat, k: nat) {
    forall j :: i <= j < |inputs| ==> !(inputs[j].Chunk? && inputs[j].k == k)
  }

  /** While nothing comes from a client, whatever all others do, it stays connected, and replaying the packets it was
      sent turns the lobby it saw into the lobby there is. */
  lemma {:induction false} SilentClientKeepsUp(net: L.Net, page: CodePage, inputs: seq<Input>,
                                               steps: seq<seq<L.Event>>, ws: seq<Service>, i: nat, k: nat)
    returns (sent: seq<Packet>)
    requires History(net, page, inputs, steps, ws) && L.ValidRun(net, L.INITIAL, Flat(steps))
    requires R.WithinPool(net, L.INITIAL, Flat(steps))
    requires i <= |inputs| && k < |ws[i].connections| && !ws[i].connections[k].gone && Silent(inputs, i, k)
    ensures k < |ws[|inputs|].connections| && ws[|inputs|].connections[k] == ws[i].connections[k]
    ensures P.Tracks(net, ws[i].lobby, ws[|inputs|].lobby, ws[i].connections[k].user, sent)
    decreases |inputs|
  {
    hide Step, Attended, IsOpenFor, I.Inv, L.ValidRun, L.Final, R.WithinPool, P.Tracks, P.Bystander;
    var v, n := ws[i].connections[k].user, |inputs|;
    UsersAreOpenConnections(net, page, inputs, steps, ws);
    if i == n {
      assert v in ws[n].lobby.users by { OpenHasUser(ws[n], k); }
      P.StandingStillTracks(net, ws[n].lobby, v);
      sent := [];
    } else {
      HistoryFront(net, page, inputs, steps, ws);
      HistoryIsRun(net, page, inputs[..n - 1], steps[..n - 1], ws[..n]);
      StepIsRun(net, page, ws[n - 1], inputs[n - 1], steps[n - 1], ws[n]);
      R.WithinPoolAppend(net, L.INITIAL, Flat(steps[..n - 1]), steps[n - 1]);
      var before := SilentClientKeepsUp(net, page, inputs[..n - 1], steps[..n - 1], ws[..n], i, k);
      UsersAreOpenConnections(net, page, inputs[..n - 1], steps[..n - 1], ws[..n]);
      OthersAreOthers(net, page, ws[n - 1], inputs[n - 1], steps[n - 1], ws[n], k);
      assert v in ws[n - 1].lobby.users by { OpenHasUser(ws[n - 1], k); }
      var last := P.RunTracks(net, ws[n - 1].lobby, steps[n - 1], v);
      P.TracksInTurn(net, ws[i].lobby, ws[n - 1].lobby, ws[n].lobby, v, before, last);
      sent := before + last;
    }
  }

  lemma OpenHasUser(w: Service, k: nat)
    requires Attended(w) && k < |w.connections| && !w.connections[k].gone
    ensures w.connections[k].user in w.lobby.users
  {
    assert IsOpenFor(w, k, w.connections[k].user);
  }

  // ---- Who is disconnected ----

  /** A receive that holds a refused request ends with it, and its user is disconnected and gone from the lobby. */
  lemma RefusalDisconnects(net: L.Net, page: CodePage, s: L.Lobby, c: Connection, bytes: octets, requests: seq<L.Event>,
                           leave: seq<L.Event>, c': Connection, i: nat)
    requires I.Inv(s) && c.session.status.Open? && bytes != []
    requires Takes(net, page, s, c, bytes, requests, leave, c')
    requires R.WithinPool(net, s, requests) && AllRequests(requests)
    requires i < |requests| && VerdictsOf(net, s, requests)[i].Refused?
    ensures i == |requests| - 1 && c'.gone && |leave| == 1 && leave[0].Disconnected? && leave[0].user == c.user
    ensures L.ValidRun(net, L.Final(net, s, requests), leave)
    ensures c.user !in L.Final(net, L.Final(net, s, requests), leave).users
  {
    hide Parse, I.Inv, I.IdsSound, L.Apply, L.Enabled, L.ValidRun, L.Final, R.WithinPool, VerdictsOf, Drain;
    var verdicts := VerdictsOf(net, s, requests);
    var received := Session([], c.session.buffer + bytes, Open);
    var packets := RoundExactly(page, HandlerOf(verdicts), received);
    assert [] + packets == packets == PacketsOf(requests);
    assert [] + packets[..i + 1] == packets[..i + 1];
    var t := L.Final(net, s, requests);
    R.RunKeepsInv(net, s, requests);
    assert I.IdsSound(t) by { InvHasIds(t); }
    OneStep(net, t, leave);
    LeaveUsers(net, t, leave[0]);
  }

  /** Only an exhausted pool gives a login the id of a connected user. */
  lemma TakenIdExhausts(net: L.Net, page: CodePage, inputs: seq<Input>, steps: seq<seq<L.Event>>, ws: seq<Service>,
                        e: L.Event)
    requires History(net, page, inputs, steps, ws) && L.ValidRun(net, L.INITIAL, Flat(steps + [[e]]))
    requires L.ValidRun(net, ws[|inputs|].lobby, [e]) && e.Login?
    requires L.LoginAccepted(ws[|inputs|].lobby, e.packet) && e.id in ws[|inputs|].lobby.users
    ensures !R.WithinPool(net, L.INITIAL, Flat(steps + [[e]]))
  {
    hide Step, I.Inv, Attended, L.LoginAccepted, L.Enabled, L.Apply, I.LiveCount;
    var s := ws[|inputs|].lobby;
    HistoryIsRun(net, page, inputs, steps, ws);
    FlatSnoc(steps, [e]);
    R.WithinPoolAppend(net, L.INITIAL, Flat(steps), [e]);
    OneStep(net, s, [e]);
    if R.WithinPool(net, L.INITIAL, Flat(steps + [[e]])) {
      UsersAreOpenConnections(net, page, inputs, steps, ws);
      FreshUser(net, s, e);
    }
  }
}
