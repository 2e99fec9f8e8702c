/** A session on the database: each receive is drained frame by frame, and every frame is one event of the lobby
    (src/user_session.cpp, lines 421 to 446). */
module UserSessions {
  import opened Bytes
  import opened CodePages
  import opened Dispatches
  import opened PacketBuffers
  import opened Packets
  import opened PacketLaws
  import opened SessionLaws
  import opened Sessions
  import opened Servers
  import opened PacketHandlers
  import WormsPackets
  import L = Lobbies

  /** One receive of a session: the packets it dispatches are a run of the lobby by this client, and buffer, outcome
      and dispatch are those of the receive loop for the verdicts of that run. */
  method ServeReceive(net: L.Net, db: Database, client: User, reader: FramedPacketReader, bytes: octets)
    returns (status: Status, ghost events: seq<L.Event>)
    requires Serves(db, client)
    modifies reader, db`rooms, db`games, db`nextId, db`recycled, db.users.Values
    ensures Serves(db, client) && AllRequestsOf(events, client.id)
    ensures L.ValidRun(net, old(db.State()), events) && db.State() == L.Final(net, old(db.State()), events)
    ensures var h := HandlerOf(VerdictsOf(net, old(db.State()), events));
      Receive(reader.page, h, Session([], old(reader.buffer), Open), bytes)
      == Session(PacketsOf(events), reader.buffer, status)
  {
    hide Parse, Database.State, Database.Valid, L.HandlePacket, L.Apply, L.Enabled, L.ValidRun, L.Final, VerdictsOf,
      Framed, Drain;
    ghost var before := db.State();
    reader.Append(bytes);
    ghost var start := reader.buffer;
    events := [];
    status := Open;
    ghost var verdicts: seq<Verdict> := [];
    RunStarts(net, before, reader.page, start);
    while true
      invariant Serves(db, client) && AllRequestsOf(events, client.id)
      invariant L.ValidRun(net, before, events) && db.State() == L.Final(net, before, events)
      invariant verdicts == VerdictsOf(net, before, events)
      invariant forall i :: 0 <= i < |verdicts| ==> verdicts[i].Handled?
      invariant Framed(reader.page, start, PacketsOf(events), reader.buffer)
      decreases |reader.buffer|
    {
      FrameBound(reader.page, reader.buffer);
      ghost var buffer, packets := reader.buffer, PacketsOf(events);
      var r := reader.TryReadPacket();
      if !r.Complete? {
        if r.Failed? {
          status := ParseFailed(r.error);
        }
        break;
      }
      ParserYieldsWellParsed(reader.page, buffer);
      FramedGoesOn(reader.page, start, packets, buffer);
      ghost var e;
      var verdict;
      verdict, e := HandlePacket(net, db, client, r.packet);
      VerdictsSnoc(net, before, events, e);
      events, verdicts := events + [e], verdicts + [verdict];
      assert PacketsOf(events) == packets + [r.packet];
      if verdict.Refused? {
        status := HandlerRefused;
        break;
      }
      if verdict.Threw? {
        break;
      }
    }
    EndedIsDrained(reader.page, [], start, PacketsOf(events), verdicts, reader.buffer, status);
    assert [] + PacketsOf(events) == PacketsOf(events);
  }

  /** `handleLogin`: whatever was received is parsed from a zero-filled buffer of 1024 bytes, once. A packet is one
      event of the lobby, which changes nothing unless it is an acceptable login; without one nothing happens. A client
      whose name is taken is told so on its socket. */
  method ReceiveLogin(net: L.Net, page: CodePage, db: Database, received: octets, address: L.Ipv4)
    returns (user: User?, refusal: seq<Packet>, ghost events: seq<L.Event>)
    requires db.Valid() && |received| <= LOGIN_BUFFER
    modifies db, db.users.Values
    ensures db.Valid() && (user != null ==> fresh(user) && db.Has(user))
    ensures db.users == if user == null then old(db.users) else old(db.users)[user.id := user]
    ensures Arrived(net, page, old(db.State()), address, received, events)
    ensures db.State() == L.Final(net, old(db.State()), events)
    ensures user != null <==> events != [] && L.LoginAccepted(old(db.State()), events[0].packet)
    ensures user != null ==> user.id == events[0].id
    ensures refusal == if events == [] then [] else L.LoginRefusal(old(db.State()), events[0].packet)
  {
    hide Parse, Database.State, Database.Valid, L.Apply, L.Enabled, L.LoginAccepted, L.LoginRefusal;
    ghost var before := db.State();
    var reader := new PacketReader(received + Zeros(LOGIN_BUFFER - |received|));
    var r := WormsPackets.ReadFrom(page, reader);
    assert r == LoginParse(page, received);
    if !r.Complete? {
      return null, [], [];
    }
    ParserYieldsWellParsed(page, received + Zeros(LOGIN_BUFFER - |received|));
    ghost var e;
    user, refusal, e := HandleLogin(net, db, r.packet, address);
    events := [e];
    assert [e][1..] == [] && L.ValidRun(net, L.Apply(net, before, e), []);
    assert L.ValidRun(net, before, [e]);
  }

  /** `handleSession` for a client nobody else interferes with: a run of its requests, whose packets are those the
      receives bring, whatever they are. */
  method ServeSession(net: L.Net, page: CodePage, db: Database, client: User, receives: seq<octets>)
    returns (ghost events: seq<L.Event>)
    requires Serves(db, client)
    modifies db`rooms, db`games, db`nextId, db`recycled, db.users.Values
    ensures Serves(db, client)
    ensures SessionRun(net, page, old(db.State()), client.id, UntilEof(receives), events)
    ensures db.State() == L.Final(net, old(db.State()), events)
  {
    hide Database.State, Database.Valid, L.ValidRun, L.Final, VerdictsOf, Receive, ReceiveAll, HandlerOf, Served,
      SessionRun;
    ghost var before := db.State();
    var reader := new FramedPacketReader(page);
    events := [];
    ghost var got: seq<octets> := [];
    ServedNothing(net, page, before, client.id);
    assert receives[0..] == receives && [] + UntilEof(receives) == UntilEof(receives);
    for i := 0 to |receives|
      invariant fresh(reader) && reader.page == page && Serves(db, client) && db.users == old(db.users)
      invariant Served(net, page, before, client.id, got, events, reader.buffer)
      invariant L.ValidRun(net, before, events) && db.State() == L.Final(net, before, events)
      invariant UntilEof(receives) == got + UntilEof(receives[i..])
    {
      ServedIsRun(net, page, before, client.id, got, events, reader.buffer);
      if receives[i] == [] {
        assert got + [] == got;
        return;
      }
      UntilEofStep(receives, i);
      ghost var buffer, rest := reader.buffer, UntilEof(receives[i + 1..]);
      var status;
      ghost var more;
      status, more := ServeReceive(net, db, client, reader, receives[i]);
      ServedFurther(net, page, before, client.id, got, events, buffer, receives[i], more,
                    Session(PacketsOf(more), reader.buffer, status), rest);
      assert got + ([receives[i]] + rest) == got + [receives[i]] + rest;
      events, got := events + more, got + [receives[i]];
      if !status.Open? {
        return;
      }
    }
    ServedIsRun(net, page, before, client.id, got, events, reader.buffer);
    assert got + [] == got;
  }

  /** `run` on a connection nobody else interferes with: its first receive is all the login sees, and what that holds
      besides the login frame is dropped; then the session, and the disconnect. */
  method ServeConnection(net: L.Net, page: CodePage, db: Database, address: L.Ipv4, login: octets,
                         receives: seq<octets>)
    returns (ghost events: seq<L.Event>)
    requires db.Valid() && |login| <= LOGIN_BUFFER
    modifies db, db.users.Values
    ensures db.Valid()
    ensures ConnectionRun(net, page, old(db.State()), address, login, UntilEof(receives), events)
    ensures L.ValidRun(net, old(db.State()), events) && db.State() == L.Final(net, old(db.State()), events)
  {
    hide Parse, LoginParse, Database.State, Database.Valid, L.Apply, L.Enabled, L.LoginAccepted, ReceiveAll, VerdictsOf,
      L.ValidRun, L.Final, SessionRun, ConnectionRun;
    ghost var before := db.State();
    ghost var arrival;
    var user, refusal;
    user, refusal, arrival := ReceiveLogin(net, page, db, login, address);
    events := arrival;
    if user == null {
      ArrivalRefused(net, page, before, address, login, UntilEof(receives), arrival);
      return;
    }
    ghost var requests := ServeSession(net, page, db, user, receives);
    ghost var leave := DisconnectUser(net, db, user);
    RunIsValid(net, page, L.Final(net, before, arrival), user.id, UntilEof(receives), requests);
    ArrivalServed(net, page, before, address, login, UntilEof(receives), arrival, requests, leave);
    events := arrival + requests + [leave];
  }
}
