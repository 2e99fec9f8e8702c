/** The handlers of a run of the lobby, as the receive loop sees them: a verdict for each packet dispatched. */
module Dispatches {
  import opened Bytes
  import opened CodePages
  import opened Packets
  import opened PacketLaws
  import opened SessionLaws
  import opened Sessions
  import I = LobbyInvariants
  import L = Lobbies

  predicate AllRequests(events: seq<L.Event>) {
    forall i :: 0 <= i < |events| ==> events[i].Request?
  }

  function PacketsOf(events: seq<L.Event>): (ps: seq<Packet>)
    requires AllRequests(events)
    ensures |ps| == |events| && forall i :: 0 <= i < |events| ==> ps[i] == events[i].packet
  {
    seq(|events|, i requires 0 <= i < |events| => events[i].packet)
  }

  predicate AllRequestsOf(events: seq<L.Event>, me: L.Id) {
    forall i :: 0 <= i < |events| ==> events[i].Request? && events[i].user == me
  }

  /** How the handler ended on each request of a run. */
  function VerdictsOf(net: L.Net, s: L.Lobby, events: seq<L.Event>): (vs: seq<Verdict>)
    requires L.ValidRun(net, s, events) && AllRequests(events)
    ensures |vs| == |events|
    decreases |events|
  {
    if events == [] then []
    else
      EnabledRequest(net, s, events[0]);
      [L.HandlePacket(net, s, events[0].user, events[0].packet, events[0].id, events[0].order).verdict]
      + VerdictsOf(net, L.Apply(net, s, events[0]), events[1..])
  }

  /** The handler, as the receive loop sees it: the verdict on the last packet of a history. */
  function HandlerOf(verdicts: seq<Verdict>): Handler {
    (history: seq<Packet>) => if 0 < |history| <= |verdicts| then verdicts[|history| - 1] else Handled
  }

  lemma {:induction false} VerdictsAppend(net: L.Net, s: L.Lobby, events: seq<L.Event>, more: seq<L.Event>)
    requires L.ValidRun(net, s, events) && L.ValidRun(net, L.Final(net, s, events), more)
    requires AllRequests(events) && AllRequests(more)
    ensures L.ValidRun(net, s, events + more)
    ensures L.Final(net, s, events + more) == L.Final(net, L.Final(net, s, events), more)
    ensures VerdictsOf(net, s, events + more)
      == VerdictsOf(net, s, events) + VerdictsOf(net, L.Final(net, s, events), more)
    decreases |events|
  {
    hide L.Apply, L.Enabled, L.HandlePacket;
    L.RunAppend(net, s, events, more);
    if events == [] {
      assert [] + more == more;
    } else {
      hide AllRequests;
      assert (events + more)[1..] == events[1..] + more;
      assert AllRequests(events[1..]) && AllRequests(events + more) by { RequestsAppend(events, more); }
      VerdictsAppend(net, L.Apply(net, s, events[0]), events[1..], more);
    }
  }

  lemma RequestsAppend(events: seq<L.Event>, more: seq<L.Event>)
    requires AllRequests(events) && AllRequests(more)
    ensures AllRequests(events + more) && (events != [] ==> AllRequests(events[1..]))
  {
  }

  lemma VerdictsSnoc(net: L.Net, s: L.Lobby, events: seq<L.Event>, e: L.Event)
    requires L.ValidRun(net, s, events) && L.Enabled(net, L.Final(net, s, events), e)
    requires e.Request? && AllRequests(events)
    ensures L.ValidRun(net, s, events + [e])
    ensures L.Final(net, s, events + [e]) == L.Apply(net, L.Final(net, s, events), e)
    ensures e.user in L.Final(net, s, events).users
    ensures VerdictsOf(net, s, events + [e]) == VerdictsOf(net, s, events)
      + [L.HandlePacket(net, L.Final(net, s, events), e.user, e.packet, e.id, e.order).verdict]
  {
    hide L.Apply, L.Enabled, L.HandlePacket;
    L.RunSnoc(net, s, events, e);
    EnabledRequest(net, L.Final(net, s, events), e);
    assert [e][1..] == [];
    VerdictsAppend(net, s, events, [e]);
  }

  lemma EnabledRequest(net: L.Net, s: L.Lobby, e: L.Event)
    requires L.Enabled(net, s, e) && e.Request?
    ensures e.user in s.users
  {
  }

  /** Why a round of dispatching stopped: all but its last packet were handled, and the last, or what is left over,
      ended it. */
  ghost predicate Ended(page: CodePage, verdicts: seq<Verdict>, leftover: octets, status: Status) {
    && (forall i :: 0 <= i < |verdicts| - 1 ==> verdicts[i].Handled?)
    && if verdicts != [] && verdicts[|verdicts| - 1].Refused? then status == HandlerRefused
       else if verdicts != [] && verdicts[|verdicts| - 1].Threw? then status == Open
       else
         match Parse(page, leftover)
         case Partial => status == Open
         case Failed(e) => status == ParseFailed(e)
         case Complete(_, _) => false
  }

  lemma {:induction false} EndedIsDrained(page: CodePage, history: seq<Packet>, buffer: octets, packets: seq<Packet>,
                                          verdicts: seq<Verdict>, leftover: octets, status: Status)
    requires Framed(page, buffer, packets, leftover) && |history| + |packets| == |verdicts|
    requires Ended(page, verdicts, leftover, status)
    requires packets == [] && history != [] ==> verdicts[|verdicts| - 1].Handled?
    ensures Drain(page, HandlerOf(verdicts), Session(history, buffer, Open))
      == Session(history + packets, leftover, status)
    decreases |packets|
  {
    hide Parse;
    if packets == [] {
      assert history + packets == history;
    } else {
      FrameBound(page, buffer);
      var n := Parse(page, buffer).consumed;
      var next := history + [packets[0]];
      assert history + packets == next + packets[1..];
      if |next| < |verdicts| || verdicts[|verdicts| - 1].Handled? {
        EndedIsDrained(page, next, buffer[n..], packets[1..], verdicts, leftover, status);
      } else {
        assert packets[1..] == [];
      }
    }
  }

  lemma RunStarts(net: L.Net, s: L.Lobby, page: CodePage, buffer: octets)
    ensures L.ValidRun(net, s, []) && L.Final(net, s, []) == s && VerdictsOf(net, s, []) == []
    ensures Framed(page, buffer, [], buffer) && PacketsOf([]) == []
  {
  }

  /** One more receive, seen from the start of the session. */
  lemma VerdictsGoOn(page: CodePage, vs: seq<Verdict>, vs': seq<Verdict>, chunks: seq<octets>, chunk: octets,
                     s: Session, next: Session)
    requires ReceiveAll(page, HandlerOf(vs), START, chunks) == s && s.status.Open? && |s.dispatched| == |vs|
    requires Receive(page, HandlerOf(vs'), s.(dispatched := []), chunk) == next
    ensures ReceiveAll(page, HandlerOf(vs + vs'), START, chunks + [chunk])
      == next.(dispatched := s.dispatched + next.dispatched)
  {
    hide Drain, ReceiveAll;
    var h := HandlerOf(vs + vs');
    ReceivesConsult(page, HandlerOf(vs), h, START, chunks);
    ReceiveAllSnoc(page, h, START, chunks, chunk);
    var received := Session([], s.buffer + chunk, Open);
    RoundShifts(page, HandlerOf(vs'), h, s.dispatched, received);
    assert s.dispatched + [] == s.dispatched;
  }

  // ---- A session as a run ----

  /** As long as a client's address can be had from its socket, the one request that ends in an exception is a game
      offer whose address cannot be parsed; it leaves the lobby as it was. */
  lemma ThrowsExactly(net: L.Net, s: L.Lobby, me: L.Id, packet: Packet, id: L.Id, order: seq<L.Id>)
    requires me in s.users
    ensures var step := L.HandlePacket(net, s, me, packet, id, order);
      && (step.verdict.Threw? <==>
            packet.code == CREATE_GAME && L.GameRequestValid(packet.fields, s.users[me])
            && net.parse(packet.fields.data.value).None?)
      && (step.verdict.Threw? ==> step.lobby == s)
  {
    hide L.Post, L.GroupPrefix, L.PrivatePrefix, L.LeaveRoom, L.HostGame, L.RoomNameTaken, L.CannotHost;
  }

  /** An offer of a game at an address that cannot be parsed. */
  ghost predicate UnreadableOffer(net: L.Net, p: Packet) {
    p.code == CREATE_GAME && p.fields.data.Some? && net.parse(p.fields.data.value).None?
  }

  lemma {:induction false} OnlyUnreadableOffersThrow(net: L.Net, s: L.Lobby, events: seq<L.Event>, i: nat)
    requires L.ValidRun(net, s, events) && AllRequests(events) && i < |events|
    requires VerdictsOf(net, s, events)[i].Threw?
    ensures UnreadableOffer(net, events[i].packet)
    decreases |events|
  {
    hide L.HandlePacket, L.Apply, L.Enabled, UnreadableOffer;
    var e := events[0];
    EnabledRequest(net, s, e);
    if i == 0 {
      ThrowsExactly(net, s, e.user, e.packet, e.id, e.order);
      ThrownIsUnreadable(net, s, e);
    } else {
      OnlyUnreadableOffersThrow(net, L.Apply(net, s, e), events[1..], i - 1);
    }
  }

  lemma ThrownIsUnreadable(net: L.Net, s: L.Lobby, e: L.Event)
    requires e.Request? && e.user in s.users
    requires e.packet.code == CREATE_GAME && L.GameRequestValid(e.packet.fields, s.users[e.user])
    requires net.parse(e.packet.fields.data.value).None?
    ensures UnreadableOffer(net, e.packet)
  {
  }

  /** These requests of one user are what comes of receiving these chunks, if nobody else does anything meanwhile. */
  ghost predicate SessionRun(net: L.Net, page: CodePage, s: L.Lobby, me: L.Id, chunks: seq<octets>,
                             events: seq<L.Event>)
  {
    && AllRequestsOf(events, me) && L.ValidRun(net, s, events)
    && ReceiveAll(page, HandlerOf(VerdictsOf(net, s, events)), START, chunks).dispatched == PacketsOf(events)
  }

  /** An open session has come this far. */
  ghost predicate Served(net: L.Net, page: CodePage, s: L.Lobby, me: L.Id, chunks: seq<octets>, events: seq<L.Event>,
                         buffer: octets)
  {
    && AllRequestsOf(events, me) && L.ValidRun(net, s, events)
    && ReceiveAll(page, HandlerOf(VerdictsOf(net, s, events)), START, chunks)
       == Session(PacketsOf(events), buffer, Open)
  }

  lemma ServedNothing(net: L.Net, page: CodePage, s: L.Lobby, me: L.Id)
    ensures Served(net, page, s, me, [], [], []) && L.Final(net, s, []) == s
  {
    RunStarts(net, s, page, []);
    assert ReceiveAll(page, HandlerOf([]), START, []) == START;
  }

  lemma ServedIsRun(net: L.Net, page: CodePage, s: L.Lobby, me: L.Id, chunks: seq<octets>, events: seq<L.Event>,
                    buffer: octets)
    requires Served(net, page, s, me, chunks, events, buffer)
    ensures SessionRun(net, page, s, me, chunks, events)
  {
  }

  /** One more receive, after which the session is open, or closed whatever else is received. */
  lemma ServedFurther(net: L.Net, page: CodePage, s: L.Lobby, me: L.Id, chunks: seq<octets>, events: seq<L.Event>,
                      buffer: octets, chunk: octets, more: seq<L.Event>, next: Session, rest: seq<octets>)
    requires Served(net, page, s, me, chunks, events, buffer)
    requires AllRequestsOf(more, me) && L.ValidRun(net, L.Final(net, s, events), more)
    requires next == Session(PacketsOf(more), next.buffer, next.status)
    requires next == Receive(page, HandlerOf(VerdictsOf(net, L.Final(net, s, events), more)), Session([], buffer, Open),
                             chunk)
    ensures L.ValidRun(net, s, events + more)
    ensures L.Final(net, s, events + more) == L.Final(net, L.Final(net, s, events), more)
    ensures next.status.Open? ==> Served(net, page, s, me, chunks + [chunk], events + more, next.buffer)
    ensures !next.status.Open? ==> SessionRun(net, page, s, me, chunks + [chunk] + rest, events + more)
  {
    hide L.ValidRun, L.Final, VerdictsOf, Receive, ReceiveAll, HandlerOf;
    var verdicts := VerdictsOf(net, s, events);
    var session := Session(PacketsOf(events), buffer, Open);
    VerdictsAppend(net, s, events, more);
    VerdictsGoOn(page, verdicts, VerdictsOf(net, L.Final(net, s, events), more), chunks, chunk, session, next);
    assert PacketsOf(events) + PacketsOf(more) == PacketsOf(events + more);
    if !next.status.Open? {
      var h := HandlerOf(VerdictsOf(net, s, events + more));
      var last := next.(dispatched := PacketsOf(events + more));
      ReceiveAllAppend(page, h, START, chunks + [chunk], rest);
      ClosedStays(page, h, last, rest);
    }
  }

  /** Requests of this user whose packets are the frames at the front of the stream, up to the first exception. */
  ghost predicate RunsIntoThrow(net: L.Net, page: CodePage, s: L.Lobby, me: L.Id, stream: octets, events: seq<L.Event>,
                                rest: octets)
  {
    && AllRequestsOf(events, me) && L.ValidRun(net, s, events)
    && Framed(page, stream, PacketsOf(events), rest)
    && ThrowsLast(HandlerOf(VerdictsOf(net, s, events)), [], PacketsOf(events))
  }

  /** Whatever choices the server makes, no complete frame follows in the stream one whose request throws. */
  ghost predicate ThrowsComeLast(net: L.Net, page: CodePage, s: L.Lobby, me: L.Id, stream: octets) {
    forall events, rest :: RunsIntoThrow(net, page, s, me, stream, events, rest) ==> !Parse(page, rest).Complete?
  }

  /** Of the packets dispatched, those up to the one that throws. */
  lemma ThrowsAmongDispatched(page: CodePage, verdicts: seq<Verdict>, chunks: seq<octets>, packets: seq<Packet>,
                              rest: octets)
    requires |ReceiveAll(page, HandlerOf(verdicts), START, chunks).dispatched| == |verdicts|
    requires Framed(page, Joined(chunks), packets, rest) && ThrowsLast(HandlerOf(verdicts), [], packets)
    ensures 0 < |packets| <= |verdicts|
    ensures packets == ReceiveAll(page, HandlerOf(verdicts), START, chunks).dispatched[..|packets|]
  {
    hide Parse, ReceiveAll, Framed, ThrowsLast, Joined;
    var dispatched, left := ReceivesAreFramed(page, HandlerOf(verdicts), START, chunks);
    assert [] + Joined(chunks) == Joined(chunks) && [] + dispatched == dispatched && [] + packets == packets;
    ThrowsSomething(HandlerOf(verdicts), [], packets);
    FramingIsUnique(page, Joined(chunks), packets, rest, dispatched, left);
  }

  lemma {:induction false} RunPrefix(net: L.Net, s: L.Lobby, events: seq<L.Event>, n: nat)
    requires L.ValidRun(net, s, events) && AllRequests(events) && n <= |events|
    ensures L.ValidRun(net, s, events[..n]) && AllRequests(events[..n])
    ensures VerdictsOf(net, s, events[..n]) == VerdictsOf(net, s, events)[..n]
    decreases n
  {
    hide L.HandlePacket, L.Apply, L.Enabled;
    if n > 0 {
      assert events[..n][1..] == events[1..][..n - 1];
      RunPrefix(net, L.Apply(net, s, events[0]), events[1..], n - 1);
    }
  }

  lemma ShorterHandler(verdicts: seq<Verdict>, packets: seq<Packet>)
    requires |packets| <= |verdicts|
    ensures ThrowsLast(HandlerOf(verdicts[..|packets|]), [], packets) <==> ThrowsLast(HandlerOf(verdicts), [], packets)
  {
    var (h, h') := (HandlerOf(verdicts), HandlerOf(verdicts[..|packets|]));
    assert forall d :: |d| <= |packets| ==> h(d) == h'(d);
  }

  /** In a run of a session, the requests up to one that throws. */
  lemma RunReachesThrow(net: L.Net, page: CodePage, s: L.Lobby, me: L.Id, chunks: seq<octets>, events: seq<L.Event>,
                        packets: seq<Packet>, rest: octets)
    requires SessionRun(net, page, s, me, chunks, events)
    requires Framed(page, Joined(chunks), packets, rest)
    requires ThrowsLast(HandlerOf(VerdictsOf(net, s, events)), [], packets)
    ensures |packets| <= |events| && RunsIntoThrow(net, page, s, me, Joined(chunks), events[..|packets|], rest)
  {
    hide Parse, ReceiveAll, L.ValidRun, VerdictsOf, Framed, ThrowsLast, HandlerOf, Joined;
    var verdicts := VerdictsOf(net, s, events);
    ThrowsAmongDispatched(page, verdicts, chunks, packets, rest);
    RunPrefix(net, s, events, |packets|);
    assert PacketsOf(events[..|packets|]) == packets;
    ShorterHandler(verdicts, packets);
  }

  lemma RunIsValid(net: L.Net, page: CodePage, s: L.Lobby, me: L.Id, chunks: seq<octets>, events: seq<L.Event>)
    requires SessionRun(net, page, s, me, chunks, events)
    ensures L.ValidRun(net, s, events) && AllRequests(events)
  {
  }

  lemma SplitLeavesRun(net: L.Net, page: CodePage, s: L.Lobby, me: L.Id, stream: octets, a: seq<octets>,
                       b: seq<octets>, events: seq<L.Event>)
    requires SplitsOf(stream, a, b) && ThrowsComeLast(net, page, s, me, stream)
    requires SessionRun(net, page, s, me, a, events)
    ensures SessionRun(net, page, s, me, b, events)
  {
    hide Parse, ReceiveAll, Receive, L.ValidRun, VerdictsOf, HandlerOf, Framed, ThrowsLast, RunsIntoThrow, Joined,
      Receivable;
    var h := HandlerOf(VerdictsOf(net, s, events));
    forall packets, rest | Framed(page, Joined(a), packets, rest) && ThrowsLast(h, [], packets)
      ensures !Parse(page, rest).Complete?
    {
      RunReachesThrow(net, page, s, me, a, events, packets, rest);
      ThrowInLongerStream(net, page, s, me, Joined(a), stream, events[..|packets|], rest);
    }
    assert NoFrameAfterThrow(page, h, Joined(a));
    DispatchIndependence(page, h, Joined(a));
    assert SplitsOf(Joined(a), a, b);
  }

  lemma ThrowInLongerStream(net: L.Net, page: CodePage, s: L.Lobby, me: L.Id, prefix: octets, stream: octets,
                            events: seq<L.Event>, rest: octets)
    requires prefix <= stream && ThrowsComeLast(net, page, s, me, stream)
    requires RunsIntoThrow(net, page, s, me, prefix, events, rest)
    ensures !Parse(page, rest).Complete?
  {
    hide Parse, L.ValidRun, VerdictsOf, HandlerOf, Framed, ThrowsLast;
    var more := stream[|prefix|..];
    assert stream == prefix + more;
    FramedWithMore(page, prefix, PacketsOf(events), rest, more);
    assert RunsIntoThrow(net, page, s, me, stream, events, rest + more);
    if Parse(page, rest).Complete? {
      ParseIsStable(page, rest, more);
    }
  }

  /** With the frame behind the exception in the same receive it is such a run; with that frame in a receive of its
      own it is none, as it is dispatched too. */
  lemma ThrowTellsSplits(net: L.Net, page: CodePage, s: L.Lobby, me: L.Id, stream: octets, events: seq<L.Event>,
                         rest: octets) returns (a: seq<octets>, b: seq<octets>)
    requires RunsIntoThrow(net, page, s, me, stream, events, rest) && Parse(page, rest).Complete?
    ensures SplitsOf(stream, a, b)
    ensures SessionRun(net, page, s, me, a, events) && !SessionRun(net, page, s, me, b, events)
  {
    hide Parse, ReceiveAll, L.ValidRun, VerdictsOf, HandlerOf, Framed, ThrowsLast, SplitsOf;
    a, b := SplitsThatTell(page, HandlerOf(VerdictsOf(net, s, events)), stream, PacketsOf(events), rest);
  }

  /** However the server's receives split what a client has sent so far, the same runs of the lobby can have come of
      it, with the same choices and so the same lobby: at every point of the stream if and only if no complete frame
      follows one whose request throws. */
  lemma RunsIgnoreChunkingExactly(net: L.Net, page: CodePage, s: L.Lobby, me: L.Id, stream: octets)
    ensures (forall a, b, events :: SplitsOf(stream, a, b) ==>
               (SessionRun(net, page, s, me, a, events) <==> SessionRun(net, page, s, me, b, events)))
      <==> ThrowsComeLast(net, page, s, me, stream)
  {
    hide SessionRun, SplitsOf, RunsIntoThrow, Parse;
    if ThrowsComeLast(net, page, s, me, stream) {
      hide ThrowsComeLast;
      forall a, b, events | SplitsOf(stream, a, b)
        ensures SessionRun(net, page, s, me, a, events) <==> SessionRun(net, page, s, me, b, events)
      {
        SplitsAreSymmetric(stream, a, b);
        if SessionRun(net, page, s, me, a, events) {
          SplitLeavesRun(net, page, s, me, stream, a, b, events);
        }
        if SessionRun(net, page, s, me, b, events) {
          SplitLeavesRun(net, page, s, me, stream, b, a, events);
        }
      }
    } else {
      var events, rest :| RunsIntoThrow(net, page, s, me, stream, events, rest) && Parse(page, rest).Complete?;
      var a, b := ThrowTellsSplits(net, page, s, me, stream, events, rest);
    }
  }

  lemma SplitsAreSymmetric(stream: octets, a: seq<octets>, b: seq<octets>)
    requires SplitsOf(stream, a, b)
    ensures SplitsOf(stream, b, a)
  {
  }

  /** In the stream, no complete frame follows an unreadable offer. */
  ghost predicate OffersComeLast(net: L.Net, page: CodePage, stream: octets) {
    forall packets, rest ::
      Framed(page, stream, packets, rest) && EndInOffer(net, packets) ==> !Parse(page, rest).Complete?
  }

  ghost predicate EndInOffer(net: L.Net, packets: seq<Packet>) {
    packets != [] && UnreadableOffer(net, packets[|packets| - 1])
  }

  lemma ThrowsEndInOffer(net: L.Net, page: CodePage, s: L.Lobby, me: L.Id, stream: octets, events: seq<L.Event>,
                         rest: octets)
    requires RunsIntoThrow(net, page, s, me, stream, events, rest)
    ensures Framed(page, stream, PacketsOf(events), rest) && EndInOffer(net, PacketsOf(events))
  {
    hide L.ValidRun, VerdictsOf, Framed, UnreadableOffer, ThrowsLast;
    ThrowsSomething(HandlerOf(VerdictsOf(net, s, events)), [], PacketsOf(events));
    OnlyUnreadableOffersThrow(net, s, events, |events| - 1);
  }

  /** Whatever the lobby, it is enough that no complete frame follows an unreadable offer. */
  lemma OffersAreTheOnlyThrows(net: L.Net, page: CodePage, s: L.Lobby, me: L.Id, stream: octets)
    requires OffersComeLast(net, page, stream)
    ensures ThrowsComeLast(net, page, s, me, stream)
  {
    hide RunsIntoThrow, EndInOffer, Framed, Parse;
    forall events, rest | RunsIntoThrow(net, page, s, me, stream, events, rest)
      ensures !Parse(page, rest).Complete?
    {
      assert AllRequests(events) by { RunsOfRequests(net, page, s, me, stream, events, rest); }
      ThrowsEndInOffer(net, page, s, me, stream, events, rest);
    }
  }

  lemma RunsOfRequests(net: L.Net, page: CodePage, s: L.Lobby, me: L.Id, stream: octets, events: seq<L.Event>,
                       rest: octets)
    requires RunsIntoThrow(net, page, s, me, stream, events, rest)
    ensures AllRequests(events)
  {
  }

  // ---- A connection as a run ----

  /** What comes of a connection, if nobody else does anything meanwhile: nothing without a login packet, only the
      login if that is not accepted, and else the login, what the receives after it bring, and a disconnect. */
  ghost predicate ConnectionRun(net: L.Net, page: CodePage, s: L.Lobby, address: L.Ipv4, login: octets,
                                chunks: seq<octets>, events: seq<L.Event>)
    requires |login| <= LOGIN_BUFFER
  {
    match LoginParse(page, login)
    case Complete(packet, _) =>
      && events != [] && events[0].Login? && events[0].packet == packet && events[0].address == address
      && L.Enabled(net, s, events[0])
      && var me, t := events[0].id, L.Apply(net, s, events[0]);
         if L.LoginAccepted(s, packet) then
           exists requests, leave :: events == [events[0]] + requests + [leave]
             && SessionRun(net, page, t, me, chunks, requests) && LeavesAfter(net, t, me, requests, leave)
         else |events| == 1
    case _ => events == []
  }

  ghost predicate LeavesAfter(net: L.Net, s: L.Lobby, me: L.Id, requests: seq<L.Event>, leave: L.Event) {
    && L.ValidRun(net, s, requests)
    && leave.Disconnected? && leave.user == me && L.Enabled(net, L.Final(net, s, requests), leave)
  }

  /** What the login made of the first receive. */
  ghost predicate Arrived(net: L.Net, page: CodePage, s: L.Lobby, address: L.Ipv4, login: octets, events: seq<L.Event>)
    requires |login| <= LOGIN_BUFFER
  {
    var r := LoginParse(page, login);
    && L.ValidRun(net, s, events)
    && (r.Complete? <==> events != [])
    && (r.Complete? ==>
          |events| == 1 && events[0].Login? && events[0].packet == r.packet && events[0].address == address)
  }

  lemma ArrivalIsOneStep(net: L.Net, page: CodePage, s: L.Lobby, address: L.Ipv4, login: octets, events: seq<L.Event>)
    requires |login| <= LOGIN_BUFFER && Arrived(net, page, s, address, login, events) && events != []
    ensures L.Enabled(net, s, events[0]) && L.Final(net, s, events) == L.Apply(net, s, events[0])
  {
    hide LoginParse, L.Enabled, L.Apply;
    assert L.Final(net, L.Apply(net, s, events[0]), events[1..]) == L.Apply(net, s, events[0]);
  }

  lemma ArrivalRefused(net: L.Net, page: CodePage, s: L.Lobby, address: L.Ipv4, login: octets, chunks: seq<octets>,
                       events: seq<L.Event>)
    requires |login| <= LOGIN_BUFFER && Arrived(net, page, s, address, login, events)
    requires events != [] ==> !L.LoginAccepted(s, events[0].packet)
    ensures ConnectionRun(net, page, s, address, login, chunks, events)
  {
    hide LoginParse, L.Enabled, L.Apply, L.LoginAccepted, SessionRun, L.ValidRun;
    if events != [] {
      ArrivalIsOneStep(net, page, s, address, login, events);
    }
  }

  lemma ArrivalServed(net: L.Net, page: CodePage, s: L.Lobby, address: L.Ipv4, login: octets, chunks: seq<octets>,
                      arrival: seq<L.Event>, requests: seq<L.Event>, leave: L.Event)
    requires |login| <= LOGIN_BUFFER && Arrived(net, page, s, address, login, arrival)
    requires arrival != [] && L.LoginAccepted(s, arrival[0].packet)
    requires SessionRun(net, page, L.Final(net, s, arrival), arrival[0].id, chunks, requests)
    requires LeavesAfter(net, L.Final(net, s, arrival), arrival[0].id, requests, leave)
    ensures ConnectionRun(net, page, s, address, login, chunks, arrival + requests + [leave])
    ensures L.ValidRun(net, s, arrival + requests + [leave])
    ensures L.Final(net, s, arrival + requests + [leave])
      == L.Apply(net, L.Final(net, L.Final(net, s, arrival), requests), leave)
  {
    hide LoginParse, L.Enabled, L.Apply, L.LoginAccepted, SessionRun;
    ArrivalIsOneStep(net, page, s, address, login, arrival);
    assert arrival == [arrival[0]];
    L.RunAppend(net, s, arrival, requests);
    L.RunSnoc(net, s, arrival + requests, leave);
    assert (arrival + requests + [leave])[0] == arrival[0];
  }

  /** A login that this first receive can come to, and that is accepted. */
  ghost predicate Admits(net: L.Net, page: CodePage, s: L.Lobby, address: L.Ipv4, login: octets, e: L.Event)
    requires |login| <= LOGIN_BUFFER
  {
    && e.Login? && e.address == address && L.Enabled(net, s, e) && L.LoginAccepted(s, e.packet)
    && LoginParse(page, login).Complete? && e.packet == LoginParse(page, login).packet
  }

  /** For every user the connection may become, throws come last in what follows its login. */
  ghost predicate ThrowsComeLastAfter(net: L.Net, page: CodePage, s: L.Lobby, address: L.Ipv4, login: octets,
                                      stream: octets)
    requires |login| <= LOGIN_BUFFER
  {
    forall e :: Admits(net, page, s, address, login, e) ==> ThrowsComeLast(net, page, L.Apply(net, s, e), e.id, stream)
  }

  lemma {:induction false} RequestsKeepUsers(net: L.Net, s: L.Lobby, events: seq<L.Event>)
    requires L.ValidRun(net, s, events) && AllRequests(events)
    ensures L.Final(net, s, events).users.Keys == s.users.Keys
    decreases |events|
  {
    hide L.Apply, L.Enabled, I.Effect, I.SameButMail;
    if events != [] {
      I.ApplyHasEffect(net, s, events[0]);
      RequestKeepsUsers(net, s, events[0]);
      MailAside(I.Effect(net, s, events[0]), L.Apply(net, s, events[0]));
      RequestsKeepUsers(net, L.Apply(net, s, events[0]), events[1..]);
    }
  }

  lemma RequestKeepsUsers(net: L.Net, s: L.Lobby, e: L.Event)
    requires L.Enabled(net, s, e) && e.Request?
    ensures I.Effect(net, s, e).users.Keys == s.users.Keys
  {
    hide L.Issue, L.MayIssue, L.MayHost, L.RoomNameTaken, L.Abandoned, WellParsed, L.Enumerates, L.Listed, L.NewRoom,
      L.NewGame;
    I.IssueKeepsMaps(s, e.id);
  }

  lemma MailAside(s: L.Lobby, t: L.Lobby)
    requires I.SameButMail(s, t)
    ensures s.users == t.users && s.rooms == t.rooms && s.games == t.games
  {
  }

  /** Someone connected can disconnect. */
  lemma CanLeave(net: L.Net, s: L.Lobby, me: L.Id) returns (leave: L.Event)
    requires me in s.users
    ensures leave.Disconnected? && leave.user == me && L.Enabled(net, s, leave)
  {
    if g :| g in s.games && s.games[g].name == s.users[me].name {
      leave := L.Disconnected(me, Some(g));
    } else {
      leave := L.Disconnected(me, None);
    }
  }

  lemma AdmittedIsUser(net: L.Net, page: CodePage, s: L.Lobby, address: L.Ipv4, login: octets, e: L.Event)
    requires |login| <= LOGIN_BUFFER && Admits(net, page, s, address, login, e)
    ensures e.id in L.Apply(net, s, e).users
  {
    hide L.LoginAccepted, LoginParse, L.Issue, L.MayIssue, L.Apply, I.SameButMail;
    I.ApplyHasEffect(net, s, e);
    MailAside(I.Effect(net, s, e), L.Apply(net, s, e));
  }

  lemma SplitLeavesConnection(net: L.Net, page: CodePage, s: L.Lobby, address: L.Ipv4, login: octets, stream: octets,
                              a: seq<octets>, b: seq<octets>, events: seq<L.Event>)
    requires |login| <= LOGIN_BUFFER && SplitsOf(stream, a, b)
    requires ThrowsComeLastAfter(net, page, s, address, login, stream)
    ensures ConnectionRun(net, page, s, address, login, a, events)
      <==> ConnectionRun(net, page, s, address, login, b, events)
  {
    hide Parse, LoginParse, L.Enabled, L.Apply, L.LoginAccepted, SessionRun, SplitsOf, LeavesAfter, ThrowsComeLast;
    var r := LoginParse(page, login);
    if r.Complete? && events != [] && events[0].Login? && Admits(net, page, s, address, login, events[0]) {
      var (t, me) := (L.Apply(net, s, events[0]), events[0].id);
      RunsIgnoreChunkingExactly(net, page, t, me, stream);
      assert forall requests ::
        SessionRun(net, page, t, me, a, requests) <==> SessionRun(net, page, t, me, b, requests);
    }
  }

  lemma ConnectionsTell(net: L.Net, page: CodePage, s: L.Lobby, address: L.Ipv4, login: octets, stream: octets,
                        e: L.Event) returns (a: seq<octets>, b: seq<octets>, events: seq<L.Event>)
    requires |login| <= LOGIN_BUFFER && Admits(net, page, s, address, login, e)
    requires !ThrowsComeLast(net, page, L.Apply(net, s, e), e.id, stream)
    ensures SplitsOf(stream, a, b)
    ensures ConnectionRun(net, page, s, address, login, a, events)
    ensures !ConnectionRun(net, page, s, address, login, b, events)
  {
    hide Parse, LoginParse, L.Enabled, L.Apply, L.LoginAccepted, SessionRun, SplitsOf, L.ValidRun, L.Final,
      RunsIntoThrow;
    var t := L.Apply(net, s, e);
    var requests, rest :| RunsIntoThrow(net, page, t, e.id, stream, requests, rest) && Parse(page, rest).Complete?;
    a, b := ThrowTellsSplits(net, page, t, e.id, stream, requests, rest);
    RunIsValid(net, page, t, e.id, a, requests);
    RequestsKeepUsers(net, t, requests);
    AdmittedIsUser(net, page, s, address, login, e);
    var leave := CanLeave(net, L.Final(net, t, requests), e.id);
    events := [e] + requests + [leave];
    assert LeavesAfter(net, t, e.id, requests, leave) && events[0] == e;
    forall requests', leave' | events == [events[0]] + requests' + [leave'] ensures requests' == requests {
      assert requests' == events[1..|events| - 1] == requests;
    }
  }

  /** However the server's receives split what has arrived behind the login, a connection can have come to the same
      runs, and so leave the same lobbies behind: at every point of the stream if and only if, for every user the
      login can make, no complete frame follows one whose request throws. */
  lemma ConnectionIgnoresChunkingExactly(net: L.Net, page: CodePage, s: L.Lobby, address: L.Ipv4, login: octets,
                                         stream: octets)
    requires |login| <= LOGIN_BUFFER
    ensures (forall a, b, events :: SplitsOf(stream, a, b) ==>
               (ConnectionRun(net, page, s, address, login, a, events)
                <==> ConnectionRun(net, page, s, address, login, b, events)))
      <==> ThrowsComeLastAfter(net, page, s, address, login, stream)
  {
    hide ConnectionRun, SplitsOf, Admits, ThrowsComeLast, L.Apply;
    if ThrowsComeLastAfter(net, page, s, address, login, stream) {
      hide ThrowsComeLastAfter;
      forall a, b, events | SplitsOf(stream, a, b)
        ensures ConnectionRun(net, page, s, address, login, a, events)
          <==> ConnectionRun(net, page, s, address, login, b, events)
      {
        SplitLeavesConnection(net, page, s, address, login, stream, a, b, events);
      }
    } else {
      var e := UnsettledAdmission(net, page, s, address, login, stream);
      var a, b, events := ConnectionsTell(net, page, s, address, login, stream, e);
    }
  }

  lemma UnsettledAdmission(net: L.Net, page: CodePage, s: L.Lobby, address: L.Ipv4, login: octets, stream: octets)
    returns (e: L.Event)
    requires |login| <= LOGIN_BUFFER && !ThrowsComeLastAfter(net, page, s, address, login, stream)
    ensures Admits(net, page, s, address, login, e)
    ensures !ThrowsComeLast(net, page, L.Apply(net, s, e), e.id, stream)
  {
    hide ThrowsComeLast, L.Apply, L.LoginAccepted, LoginParse;
    e :| Admits(net, page, s, address, login, e) && !ThrowsComeLast(net, page, L.Apply(net, s, e), e.id, stream);
  }

  /** Whatever the lobby and the login, it is enough that no complete frame follows an unreadable offer. */
  lemma OffersAreTheOnlyThrowsAfter(net: L.Net, page: CodePage, s: L.Lobby, address: L.Ipv4, login: octets,
                                    stream: octets)
    requires |login| <= LOGIN_BUFFER && OffersComeLast(net, page, stream)
    ensures ThrowsComeLastAfter(net, page, s, address, login, stream)
  {
    hide Admits, ThrowsComeLast, OffersComeLast, L.Apply;
    forall e | Admits(net, page, s, address, login, e)
      ensures e.Login? && L.Enabled(net, s, e) && ThrowsComeLast(net, page, L.Apply(net, s, e), e.id, stream)
    {
      AdmittedIsEnabled(net, page, s, address, login, e);
      OffersAreTheOnlyThrows(net, page, L.Apply(net, s, e), e.id, stream);
    }
  }

  lemma AdmittedIsEnabled(net: L.Net, page: CodePage, s: L.Lobby, address: L.Ipv4, login: octets, e: L.Event)
    requires |login| <= LOGIN_BUFFER && Admits(net, page, s, address, login, e)
    ensures e.Login? && L.Enabled(net, s, e)
  {
    hide L.Enabled, L.LoginAccepted, LoginParse;
  }
}
