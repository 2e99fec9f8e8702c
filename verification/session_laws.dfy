/** What the receive loop guarantees: which handlers it can be said to have, when the split of a stream into receives
    does not matter, how much it buffers, and what login takes off the stream. */
module SessionLaws {
  import opened Bytes
  import opened CodePages
  import opened Packets
  import opened PacketLaws
  import opened Sessions

  lemma ReceiveAllStep(page: CodePage, h: Handler, s: Session, chunk: octets, rest: seq<octets>)
    ensures ReceiveAll(page, h, s, [chunk] + rest) == ReceiveAll(page, h, Receive(page, h, s, chunk), rest)
  {
    assert ([chunk] + rest)[1..] == rest;
  }

  lemma {:induction false} ClosedStays(page: CodePage, h: Handler, s: Session, chunks: seq<octets>)
    requires !s.status.Open?
    ensures ReceiveAll(page, h, s, chunks) == s
  {
    if chunks != [] {
      ClosedStays(page, h, s, chunks[1..]);
    }
  }

  lemma {:induction false} DispatchedGrows(page: CodePage, h: Handler, s: Session)
    ensures |Drain(page, h, s).dispatched| >= |s.dispatched|
    decreases |s.buffer|
  {
    match Parse(page, s.buffer)
    case Partial =>
    case Failed(_) =>
    case Complete(p, n) =>
      FrameBound(page, s.buffer);
      if h(s.dispatched + [p]).Handled? {
        DispatchedGrows(page, h, Session(s.dispatched + [p], s.buffer[n..], s.status));
      }
  }

  lemma {:induction false} ReceiveAllAppend(page: CodePage, h: Handler, s: Session, a: seq<octets>, b: seq<octets>)
    ensures ReceiveAll(page, h, s, a + b) == ReceiveAll(page, h, ReceiveAll(page, h, s, a), b)
    decreases |a|
  {
    hide Receive;
    if a == [] {
      assert a + b == b;
    } else {
      assert (a + b)[1..] == a[1..] + b;
      ReceiveAllAppend(page, h, Receive(page, h, s, a[0]), a[1..], b);
    }
  }

  lemma ReceiveAllSnoc(page: CodePage, h: Handler, s: Session, chunks: seq<octets>, chunk: octets)
    ensures ReceiveAll(page, h, s, chunks + [chunk]) == Receive(page, h, ReceiveAll(page, h, s, chunks), chunk)
  {
    hide Receive;
    ReceiveAllAppend(page, h, s, chunks, [chunk]);
    ReceiveAllStep(page, h, ReceiveAll(page, h, s, chunks), chunk, []);
    assert [chunk] + [] == [chunk];
  }

  // ---- Handlers ----

  /** A round is the same whatever went before, if the handler says the same. */
  lemma {:induction false} RoundShifts(page: CodePage, h: Handler, h': Handler, past: seq<Packet>, s: Session)
    requires forall d :: d != [] ==> h'(past + d) == h(d)
    ensures var r := Drain(page, h, s);
      Drain(page, h', s.(dispatched := past + s.dispatched)) == r.(dispatched := past + r.dispatched)
    decreases |s.buffer|
  {
    hide Parse;
    if Parse(page, s.buffer).Complete? {
      FrameBound(page, s.buffer);
      var Complete(p, n) := Parse(page, s.buffer);
      var next := Session(s.dispatched + [p], s.buffer[n..], s.status);
      assert past + next.dispatched == past + s.dispatched + [p];
      assert h'(past + next.dispatched) == h(next.dispatched);
      if h(next.dispatched).Handled? {
        RoundShifts(page, h, h', past, next);
      }
    }
  }

  /** A round asks its handler only about histories that extend the session's, up to the one it ends with. */
  lemma {:induction false} RoundConsults(page: CodePage, h: Handler, h': Handler, s: Session)
    requires forall d :: |s.dispatched| < |d| <= |Drain(page, h, s).dispatched| ==> h(d) == h'(d)
    ensures Drain(page, h, s) == Drain(page, h', s)
    decreases |s.buffer|
  {
    hide Parse;
    if Parse(page, s.buffer).Complete? {
      FrameBound(page, s.buffer);
      var Complete(p, n) := Parse(page, s.buffer);
      var next := Session(s.dispatched + [p], s.buffer[n..], s.status);
      DispatchedGrows(page, h, next);
      assert h(next.dispatched) == h'(next.dispatched);
      if h(next.dispatched).Handled? {
        RoundConsults(page, h, h', next);
      }
    }
  }

  lemma {:induction false} ReceivesGrow(page: CodePage, h: Handler, s: Session, chunks: seq<octets>)
    ensures |ReceiveAll(page, h, s, chunks).dispatched| >= |s.dispatched|
    decreases |chunks|
  {
    hide Drain;
    if chunks != [] {
      DispatchedGrows(page, h, s.(buffer := s.buffer + chunks[0]));
      ReceivesGrow(page, h, Receive(page, h, s, chunks[0]), chunks[1..]);
    }
  }

  lemma {:induction false} ReceivesConsult(page: CodePage, h: Handler, h': Handler, s: Session, chunks: seq<octets>)
    requires forall d :: |s.dispatched| < |d| <= |ReceiveAll(page, h, s, chunks).dispatched| ==> h(d) == h'(d)
    ensures ReceiveAll(page, h, s, chunks) == ReceiveAll(page, h', s, chunks)
    decreases |chunks|
  {
    hide Drain;
    if chunks != [] {
      var next := Receive(page, h, s, chunks[0]);
      ReceivesGrow(page, h, next, chunks[1..]);
      if s.status.Open? {
        RoundConsults(page, h, h', s.(buffer := s.buffer + chunks[0]));
        DispatchedGrows(page, h, s.(buffer := s.buffer + chunks[0]));
      }
      ReceivesConsult(page, h, h', next, chunks[1..]);
    }
  }

  /** However the verdicts change between receives, some single handler makes the same session of them. */
  lemma {:induction false} OneHandlerSuffices(page: CodePage, hs: nat -> Handler, k: nat, s: Session,
                                              chunks: seq<octets>) returns (h: Handler)
    ensures ReceiveEach(page, hs, k, s, chunks) == ReceiveAll(page, h, s, chunks)
    decreases |chunks|
  {
    hide Drain;
    if chunks == [] {
      h := hs(k);
    } else {
      var first := hs(k);
      var next := Receive(page, first, s, chunks[0]);
      var later := OneHandlerSuffices(page, hs, k + 1, next, chunks[1..]);
      h := d => if |d| <= |next.dispatched| then first(d) else later(d);
      if s.status.Open? {
        RoundConsults(page, first, h, s.(buffer := s.buffer + chunks[0]));
      }
      ReceivesConsult(page, later, h, next, chunks[1..]);
    }
  }

  // ---- Frames of a stream ----

  function Joined(chunks: seq<octets>): octets {
    if chunks == [] then [] else chunks[0] + Joined(chunks[1..])
  }

  /** An exception left a decided frame lying in the buffer. */
  predicate Stalled(page: CodePage, s: Session) {
    s.status.Open? && !Parse(page, s.buffer).Partial?
  }

  /** The frames at the front of a buffer are these packets, and `leftover` follows them. */
  ghost predicate Framed(page: CodePage, buffer: octets, packets: seq<Packet>, leftover: octets)
    decreases |packets|
  {
    if packets == [] then buffer == leftover
    else
      match Parse(page, buffer)
      case Complete(p, n) => p == packets[0] && n <= |buffer| && Framed(page, buffer[n..], packets[1..], leftover)
      case _ => false
  }

  lemma {:induction false} FramedGoesOn(page: CodePage, buffer: octets, packets: seq<Packet>, leftover: octets)
    requires Framed(page, buffer, packets, leftover) && Parse(page, leftover).Complete?
    ensures Parse(page, leftover).consumed <= |leftover|
    ensures var Complete(p, n) := Parse(page, leftover); Framed(page, buffer, packets + [p], leftover[n..])
    decreases |packets|
  {
    hide Parse;
    FrameBound(page, leftover);
    var Complete(p, n) := Parse(page, leftover);
    if packets == [] {
      assert [] + [p] == [p] && [p][1..] == [];
    } else {
      assert (packets + [p])[1..] == packets[1..] + [p];
      FramedGoesOn(page, buffer[Parse(page, buffer).consumed..], packets[1..], leftover);
    }
  }

  lemma {:induction false} FramesFollow(page: CodePage, a: octets, ps: seq<Packet>, middle: octets,
                                        qs: seq<Packet>, rest: octets)
    requires Framed(page, a, ps, middle) && Framed(page, middle, qs, rest)
    ensures Framed(page, a, ps + qs, rest)
    decreases |ps|
  {
    hide Parse;
    if ps == [] {
      assert ps + qs == qs;
    } else {
      assert (ps + qs)[1..] == ps[1..] + qs;
      FramesFollow(page, a[Parse(page, a).consumed..], ps[1..], middle, qs, rest);
    }
  }

  /** More bytes are more bytes left over. */
  lemma {:induction false} FramedWithMore(page: CodePage, s: octets, ps: seq<Packet>, rest: octets, t: octets)
    requires Framed(page, s, ps, rest)
    ensures Framed(page, s + t, ps, rest + t)
    decreases |ps|
  {
    hide Parse;
    if ps != [] {
      ParseIsStable(page, s, t);
      var n := Parse(page, s).consumed;
      assert (s + t)[n..] == s[n..] + t;
      FramedWithMore(page, s[n..], ps[1..], rest, t);
    }
  }

  /** A stream is framed in one way: the shorter of two readings begins the longer. */
  lemma {:induction false} FramingIsUnique(page: CodePage, s: octets, ps: seq<Packet>, rest: octets, qs: seq<Packet>,
                                           rest': octets)
    requires Framed(page, s, ps, rest) && Framed(page, s, qs, rest') && |ps| <= |qs|
    ensures qs[..|ps|] == ps && Framed(page, rest, qs[|ps|..], rest')
    decreases |ps|
  {
    hide Parse;
    if ps == [] {
      assert qs[0..] == qs;
    } else {
      FramingIsUnique(page, s[Parse(page, s).consumed..], ps[1..], rest, qs[1..], rest');
      assert qs[|ps|..] == qs[1..][|ps| - 1..];
      assert qs[..|ps|] == [qs[0]] + qs[1..][..|ps| - 1];
    }
  }

  /** After `history`, all but the last of these packets are handled, and the last throws. */
  predicate ThrowsLast(h: Handler, history: seq<Packet>, packets: seq<Packet>) {
    && packets != []
    && (forall i :: 0 < i < |packets| ==> h(history + packets[..i]).Handled?)
    && h(history + packets).Threw?
  }

  lemma ThrowsLastAfterFirst(h: Handler, history: seq<Packet>, packets: seq<Packet>)
    requires |packets| > 1
    ensures ThrowsLast(h, history, packets) <==>
      h(history + packets[..1]).Handled? && ThrowsLast(h, history + packets[..1], packets[1..])
  {
    var (first, tail) := (history + packets[..1], packets[1..]);
    assert first + tail == history + packets;
    if h(first).Handled? && ThrowsLast(h, first, tail) {
      forall i | 0 < i < |packets| ensures h(history + packets[..i]).Handled? {
        if i > 1 {
          assert first + tail[..i - 1] == history + packets[..i];
        }
      }
    }
    if ThrowsLast(h, history, packets) {
      forall i | 0 < i < |tail| ensures h(first + tail[..i]).Handled? {
        assert first + tail[..i] == history + packets[..i + 1];
      }
    }
  }

  /** An exception ends the round with the bytes behind its frame still buffered. */
  lemma {:induction false} ThrowEndsRound(page: CodePage, h: Handler, s: Session, packets: seq<Packet>, rest: octets)
    requires s.status.Open? && Framed(page, s.buffer, packets, rest) && ThrowsLast(h, s.dispatched, packets)
    ensures Drain(page, h, s) == Session(s.dispatched + packets, rest, Open)
    decreases |packets|
  {
    hide Parse, ThrowsLast;
    assert packets != [] by { ThrowsSomething(h, s.dispatched, packets); }
    FrameBound(page, s.buffer);
    var n := Parse(page, s.buffer).consumed;
    var next := Session(s.dispatched + [packets[0]], s.buffer[n..], Open);
    assert packets[..1] == [packets[0]];
    if |packets| == 1 {
      assert packets == [packets[0]];
      ThrowsSomething(h, s.dispatched, packets);
    } else {
      ThrowsLastAfterFirst(h, s.dispatched, packets);
      ThrowEndsRound(page, h, next, packets[1..], rest);
      assert s.dispatched + packets == next.dispatched + packets[1..];
    }
  }

  lemma ThrowsSomething(h: Handler, history: seq<Packet>, packets: seq<Packet>)
    requires ThrowsLast(h, history, packets)
    ensures packets != [] && h(history + packets).Threw?
  {
  }

  /** The packets a round dispatches are the frames at the front of its buffer, and an exception is the only way
      for it to leave a decided one behind. */
  lemma {:induction false} RoundIsFramed(page: CodePage, h: Handler, s: Session) returns (packets: seq<Packet>)
    requires s.status.Open?
    ensures var r := Drain(page, h, s);
      && r.dispatched == s.dispatched + packets && Framed(page, s.buffer, packets, r.buffer)
      && (Stalled(page, r) ==> ThrowsLast(h, s.dispatched, packets))
    decreases |s.buffer|
  {
    hide Parse, ThrowsLast, Framed;
    packets := [];
    assert s.dispatched + [] == s.dispatched;
    NoFrameYet(page, s.buffer);
    if Parse(page, s.buffer).Complete? {
      FrameBound(page, s.buffer);
      var Complete(p, n) := Parse(page, s.buffer);
      var next := Session(s.dispatched + [p], s.buffer[n..], s.status);
      if h(next.dispatched).Handled? {
        var tail := RoundIsFramed(page, h, next);
        packets := [p] + tail;
        FrameInFront(page, s.buffer, tail, Drain(page, h, next).buffer);
        assert packets[..1] == [p] && packets[1..] == tail;
        assert s.dispatched + packets == next.dispatched + tail;
        if Stalled(page, Drain(page, h, s)) {
          ThrowsSomething(h, next.dispatched, tail);
          ThrowsLastAfterFirst(h, s.dispatched, packets);
        }
      } else {
        packets := [p];
        NoFrameYet(page, s.buffer[n..]);
        FrameInFront(page, s.buffer, [], s.buffer[n..]);
        assert [p] + [] == [p];
        ThrowsOne(h, s.dispatched, p);
      }
    }
  }

  /** How a round ends that has dispatched these packets and left these bytes. */
  ghost predicate EndsWith(page: CodePage, h: Handler, history: seq<Packet>, packets: seq<Packet>, rest: octets,
                           status: Status)
  {
    && (forall i :: 0 < i < |packets| ==> h(history + packets[..i]).Handled?)
    && if packets != [] && h(history + packets).Refused? then status == HandlerRefused
       else if packets != [] && h(history + packets).Threw? then status == Open
       else
         match Parse(page, rest)
         case Partial => status == Open
         case Failed(e) => status == ParseFailed(e)
         case Complete(_, _) => false
  }

  lemma EndsAfterFirst(page: CodePage, h: Handler, history: seq<Packet>, p: Packet, tail: seq<Packet>, rest: octets,
                       status: Status)
    requires h(history + [p]).Handled? && EndsWith(page, h, history + [p], tail, rest, status)
    ensures EndsWith(page, h, history, [p] + tail, rest, status)
  {
    hide Parse;
    var packets := [p] + tail;
    assert history + packets == history + [p] + tail;
    forall i | 0 < i < |packets| ensures h(history + packets[..i]).Handled? {
      assert history + packets[..i] == history + [p] + tail[..i - 1];
      if i == 1 {
        assert history + [p] + tail[..0] == history + [p];
      }
    }
    if tail == [] {
      assert history + packets == history + [p];
    }
  }

  /** What a round does, and why it ends: it dispatches the frames at the front of the buffer for as long as they are
      handled. A refusal closes the session, an exception does not, and otherwise what follows is no complete frame;
      bytes that can be none close the session too. */
  lemma {:induction false} RoundExactly(page: CodePage, h: Handler, s: Session) returns (packets: seq<Packet>)
    requires s.status.Open?
    ensures var r := Drain(page, h, s);
      && r.dispatched == s.dispatched + packets && Framed(page, s.buffer, packets, r.buffer)
      && EndsWith(page, h, s.dispatched, packets, r.buffer, r.status)
    decreases |s.buffer|
  {
    hide Parse, Framed;
    packets := [];
    assert s.dispatched + [] == s.dispatched;
    NoFrameYet(page, s.buffer);
    if Parse(page, s.buffer).Complete? {
      FrameBound(page, s.buffer);
      var Complete(p, n) := Parse(page, s.buffer);
      var next := Session(s.dispatched + [p], s.buffer[n..], s.status);
      if h(next.dispatched).Handled? {
        var tail := RoundExactly(page, h, next);
        packets := [p] + tail;
        FrameInFront(page, s.buffer, tail, Drain(page, h, next).buffer);
        EndsAfterFirst(page, h, s.dispatched, p, tail, Drain(page, h, next).buffer, Drain(page, h, next).status);
        assert s.dispatched + packets == next.dispatched + tail;
      } else {
        packets := [p];
        NoFrameYet(page, s.buffer[n..]);
        FrameInFront(page, s.buffer, [], s.buffer[n..]);
        assert [p] + [] == [p];
      }
    }
  }

  lemma NoFrameYet(page: CodePage, buffer: octets)
    ensures Framed(page, buffer, [], buffer)
  {
  }

  lemma FrameInFront(page: CodePage, buffer: octets, packets: seq<Packet>, leftover: octets)
    requires Parse(page, buffer).Complete? && Parse(page, buffer).consumed <= |buffer|
    requires Framed(page, buffer[Parse(page, buffer).consumed..], packets, leftover)
    ensures Framed(page, buffer, [Parse(page, buffer).packet] + packets, leftover)
  {
    hide Parse;
    assert ([Parse(page, buffer).packet] + packets)[1..] == packets;
  }

  lemma ThrowsOne(h: Handler, history: seq<Packet>, p: Packet)
    ensures ThrowsLast(h, history, [p]) <==> h(history + [p]).Threw?
  {
  }

  /** The packets dispatched by all receives are the frames at the front of the stream. */
  lemma {:induction false} ReceivesAreFramed(page: CodePage, h: Handler, s: Session, chunks: seq<octets>)
    returns (packets: seq<Packet>, rest: octets)
    ensures ReceiveAll(page, h, s, chunks).dispatched == s.dispatched + packets
    ensures Framed(page, s.buffer + Joined(chunks), packets, rest)
    decreases |chunks|
  {
    hide Parse, Drain;
    if chunks == [] || !s.status.Open? {
      packets, rest := [], s.buffer + Joined(chunks);
      assert s.dispatched + [] == s.dispatched;
      if !s.status.Open? {
        ClosedStays(page, h, s, chunks);
      }
    } else {
      var received, later := s.(buffer := s.buffer + chunks[0]), Joined(chunks[1..]);
      var next := Drain(page, h, received);
      var first := RoundIsFramed(page, h, received);
      var others;
      others, rest := ReceivesAreFramed(page, h, next, chunks[1..]);
      packets := first + others;
      FramedWithMore(page, received.buffer, first, next.buffer, later);
      FramesFollow(page, received.buffer + later, first, next.buffer + later, others, rest);
      assert s.buffer + Joined(chunks) == received.buffer + later;
      assert s.dispatched + packets == next.dispatched + others;
    }
  }

  // ---- Chunking ----

  const RECEIVE_BUFFER := 2048

  /** What a connection can receive: each time at least a byte, and at most what `incoming` holds. */
  predicate Receivable(chunks: seq<octets>) {
    forall i :: 0 <= i < |chunks| ==> 0 < |chunks[i]| <= RECEIVE_BUFFER
  }

  lemma EmptyIsPartial(page: CodePage)
    ensures Parse(page, []).Partial?
  {
  }

  /** One frame and what follows it, received with nothing buffered. */
  lemma FrameDispatched(page: CodePage, h: Handler, s: Session, p: Packet, frame: octets, rest: octets)
    requires s.status.Open? && s.buffer == [] && Parse(page, frame) == Complete(p, |frame|)
    ensures h(s.dispatched + [p]).Threw? ==>
      Receive(page, h, s, frame + rest) == Session(s.dispatched + [p], rest, Open)
    ensures h(s.dispatched + [p]).Handled? && rest == [] ==>
      Receive(page, h, s, frame + rest) == Session(s.dispatched + [p], [], Open)
  {
    hide Parse;
    FrameBound(page, frame + rest);
    ParseIsStable(page, frame, rest);
    assert s.buffer + (frame + rest) == frame + rest && (frame + rest)[|frame|..] == rest;
    EmptyIsPartial(page);
    var next := Session(s.dispatched + [p], rest, Open);
    assert rest == [] ==> Drain(page, h, next) == next;
  }

  /** The same packets in the same order and the same outcome; the bytes left over matter only while open. */
  predicate Agree(a: Session, b: Session) {
    && a.dispatched == b.dispatched
    && a.status == b.status
    && (a.status.Open? ==> a.buffer == b.buffer)
  }

  /** Only an exception stalls a session. */
  lemma {:induction false} StallComesFromThrow(page: CodePage, h: Handler, s: Session)
    requires s.status.Open? && Stalled(page, Drain(page, h, s))
    ensures Drain(page, h, s).dispatched != [] && h(Drain(page, h, s).dispatched).Threw?
    decreases |s.buffer|
  {
    match Parse(page, s.buffer)
    case Partial =>
    case Failed(_) =>
    case Complete(p, n) =>
      FrameBound(page, s.buffer);
      var next := Session(s.dispatched + [p], s.buffer[n..], s.status);
      if h(next.dispatched).Handled? {
        StallComesFromThrow(page, h, next);
      }
  }

  /** Receiving `t` in a receive of its own, or together with what is buffered. */
  lemma {:induction false} SplitAgrees(page: CodePage, h: Handler, s: Session, t: octets)
    requires s.status.Open?
    requires !Stalled(page, Drain(page, h, s.(buffer := s.buffer + t)))
    ensures Agree(Receive(page, h, Drain(page, h, s), t), Drain(page, h, s.(buffer := s.buffer + t)))
    decreases |s.buffer|
  {
    hide Parse;
    if !Parse(page, s.buffer).Partial? {
      ParseIsStable(page, s.buffer, t);
      match Parse(page, s.buffer)
      case Failed(_) =>
      case Complete(p, n) =>
        FrameBound(page, s.buffer);
        var next := Session(s.dispatched + [p], s.buffer[n..], s.status);
        assert (s.buffer + t)[n..] == s.buffer[n..] + t;
        if h(next.dispatched).Handled? {
          SplitAgrees(page, h, next, t);
        }
    }
  }

  lemma {:induction false} AnyChunkingAgrees(page: CodePage, h: Handler, s: Session, chunks: seq<octets>)
    requires s.status.Open? && chunks != []
    requires !Stalled(page, Receive(page, h, s, Joined(chunks)))
    ensures Agree(ReceiveAll(page, h, s, chunks), Receive(page, h, s, Joined(chunks)))
    decreases |chunks|
  {
    hide Drain;
    var rest := Joined(chunks[1..]);
    assert s.buffer + Joined(chunks) == s.buffer + chunks[0] + rest;
    var first := Receive(page, h, s, chunks[0]);
    if chunks[1..] == [] {
      assert chunks[0] + rest == chunks[0];
    } else {
      SplitAgrees(page, h, s.(buffer := s.buffer + chunks[0]), rest);
      if first.status.Open? {
        AnyChunkingAgrees(page, h, first, chunks[1..]);
      } else {
        ClosedStays(page, h, first, chunks[1..]);
      }
    }
  }

  /** Of the stream, read frame by frame up to the first exception, nothing decided is left. */
  ghost predicate ThrowsOnlyAtEnd(page: CodePage, h: Handler, stream: octets) {
    forall packets, rest :: Framed(page, stream, packets, rest) && ThrowsLast(h, [], packets) ==>
      Parse(page, rest).Partial?
  }

  lemma StallsExactly(page: CodePage, h: Handler, stream: octets)
    ensures Stalled(page, Receive(page, h, START, stream)) <==> !ThrowsOnlyAtEnd(page, h, stream)
  {
    hide Drain, Parse, Framed, ThrowsLast;
    var s := START.(buffer := stream);
    assert [] + stream == stream;
    if Stalled(page, Drain(page, h, s)) {
      var packets := RoundIsFramed(page, h, s);
      assert Framed(page, stream, packets, Drain(page, h, s).buffer);
    } else {
      forall packets, rest | Framed(page, stream, packets, rest) && ThrowsLast(h, [], packets)
        ensures Parse(page, rest).Partial?
      {
        ThrowEndsRound(page, h, s, packets, rest);
      }
    }
  }

  /** Two ways in which the same beginning of the stream can have been received. */
  ghost predicate SplitsOf(stream: octets, a: seq<octets>, b: seq<octets>) {
    Receivable(a) && Receivable(b) && Joined(a) == Joined(b) && Joined(b) <= stream
  }

  lemma NothingJoined(chunks: seq<octets>)
    requires Receivable(chunks)
    ensures Joined(chunks) == [] <==> chunks == []
  {
    if chunks != [] {
      assert |chunks[0]| > 0;
    }
  }

  lemma PrefixThrowsAtEnd(page: CodePage, h: Handler, prefix: octets, stream: octets)
    requires prefix <= stream
    ensures ThrowsOnlyAtEnd(page, h, stream) ==> ThrowsOnlyAtEnd(page, h, prefix)
    ensures NoFrameAfterThrow(page, h, stream) ==> NoFrameAfterThrow(page, h, prefix)
  {
    hide Parse, Framed, ThrowsLast;
    var more := stream[|prefix|..];
    assert stream == prefix + more;
    forall packets, rest | Framed(page, prefix, packets, rest)
      ensures Framed(page, stream, packets, rest + more)
      ensures !Parse(page, rest).Partial? ==> Parse(page, rest + more) == Parse(page, rest)
    {
      FramedWithMore(page, prefix, packets, rest, more);
      if !Parse(page, rest).Partial? {
        ParseIsStable(page, rest, more);
      }
    }
  }

  lemma SplitsAgree(page: CodePage, h: Handler, stream: octets, a: seq<octets>, b: seq<octets>)
    requires SplitsOf(stream, a, b) && ThrowsOnlyAtEnd(page, h, stream)
    ensures Agree(ReceiveAll(page, h, START, a), ReceiveAll(page, h, START, b))
  {
    hide Receivable, Joined, ReceiveAll, Receive, Stalled, ThrowsOnlyAtEnd;
    NothingJoined(a);
    NothingJoined(b);
    if a != [] {
      PrefixThrowsAtEnd(page, h, Joined(a), stream);
      StallsExactly(page, h, Joined(a));
      AnyChunkingAgrees(page, h, START, a);
      AnyChunkingAgrees(page, h, START, b);
    }
  }

  /** At whatever point of the stream, and however the server's receives have split it up to there, the same packets
      have been dispatched with the same outcome: if and only if no frame whose handler throws is followed in the
      stream by a decided one. */
  lemma ChunkingIndependence(page: CodePage, h: Handler, stream: octets)
    ensures (forall a, b :: SplitsOf(stream, a, b) ==>
               Agree(ReceiveAll(page, h, START, a), ReceiveAll(page, h, START, b)))
      <==> ThrowsOnlyAtEnd(page, h, stream)
  {
    hide Parse, Agree, ReceiveAll, SplitsOf, Framed, ThrowsLast;
    if ThrowsOnlyAtEnd(page, h, stream) {
      hide ThrowsOnlyAtEnd;
      forall a, b | SplitsOf(stream, a, b)
        ensures Agree(ReceiveAll(page, h, START, a), ReceiveAll(page, h, START, b))
      {
        SplitsAgree(page, h, stream, a, b);
      }
    } else {
      var packets, rest :|
        Framed(page, stream, packets, rest) && ThrowsLast(h, [], packets) && !Parse(page, rest).Partial?;
      var a, b := SplitsThatTell(page, h, stream, packets, rest);
    }
  }

  /** Each packet sent in a frame of its own, and the one that throws followed by `more`. */
  lemma {:induction false} FrameByFrame(page: CodePage, h: Handler, s: Session, stream: octets, packets: seq<Packet>,
                                        rest: octets, more: octets) returns (chunks: seq<octets>)
    requires s.status.Open? && s.buffer == [] && ThrowsLast(h, s.dispatched, packets)
    requires Framed(page, stream, packets, rest) && |more| <= MAX_FRAME
    ensures Receivable(chunks) && |rest| <= |stream| && stream[|stream| - |rest|..] == rest
    ensures Joined(chunks) == stream[..|stream| - |rest|] + more
    ensures ReceiveAll(page, h, s, chunks) == Session(s.dispatched + packets, more, Open)
    decreases |packets|
  {
    hide Parse, Drain, Receive, ReceiveAll, ThrowsLast, Framed, Joined;
    ThrowsSomething(h, s.dispatched, packets);
    var frame, tail := FirstFrame(page, stream, packets, rest);
    var p := packets[0];
    assert packets[..1] == [p];
    if |packets| == 1 {
      assert packets == [p];
      NoneFramed(page, tail, packets[1..], rest);
      FrameDispatched(page, h, s, p, frame, more);
      chunks := [frame + more];
      OneReceive(page, h, s, frame + more);
      assert stream[..|frame|] == frame && stream[|frame|..] == tail;
    } else {
      ThrowsLastAfterFirst(h, s.dispatched, packets);
      FrameDispatched(page, h, s, p, frame, []);
      assert frame + [] == frame;
      var next := Session(s.dispatched + [p], [], Open);
      var later := FrameByFrame(page, h, next, tail, packets[1..], rest, more);
      chunks := [frame] + later;
      ReceiveAllStep(page, h, s, frame, later);
      JoinedCons(frame, later);
      UsedPart(frame, tail, rest, more);
      assert s.dispatched + packets == next.dispatched + packets[1..];
    }
  }

  lemma FirstFrame(page: CodePage, stream: octets, packets: seq<Packet>, rest: octets)
    returns (frame: octets, tail: octets)
    requires Framed(page, stream, packets, rest) && packets != []
    ensures stream == frame + tail && 0 < |frame| <= MAX_FRAME && Parse(page, frame) == Complete(packets[0], |frame|)
    ensures Framed(page, tail, packets[1..], rest)
  {
    hide Parse;
    FrameBound(page, stream);
    var n := Parse(page, stream).consumed;
    frame, tail := stream[..n], stream[n..];
    FrameIsMinimal(page, stream, n);
  }

  lemma NoneFramed(page: CodePage, stream: octets, packets: seq<Packet>, rest: octets)
    requires Framed(page, stream, packets, rest) && packets == []
    ensures stream == rest
  {
  }

  lemma JoinedCons(chunk: octets, chunks: seq<octets>)
    ensures Joined([chunk] + chunks) == chunk + Joined(chunks)
  {
    assert ([chunk] + chunks)[1..] == chunks;
  }

  lemma UsedPart(frame: octets, tail: octets, rest: octets, more: octets)
    requires |rest| <= |tail| && tail[|tail| - |rest|..] == rest
    ensures var stream := frame + tail;
      && stream[|stream| - |rest|..] == rest
      && frame + (tail[..|tail| - |rest|] + more) == stream[..|stream| - |rest|] + more
  {
    var stream, used := frame + tail, |tail| - |rest|;
    assert stream[..|frame| + used] == frame + tail[..used];
    assert stream[|frame| + used..] == tail[used..];
  }

  /** As much of what follows as decides its first frame. */
  lemma FrontDecides(page: CodePage, rest: octets) returns (front: octets)
    requires !Parse(page, rest).Partial?
    ensures 0 < |front| <= MAX_FRAME && front <= rest && Parse(page, front) == Parse(page, rest)
  {
    hide Parse;
    var n := if |rest| <= MAX_FRAME then |rest| else MAX_FRAME;
    front := rest[..n];
    assert rest == front + rest[n..];
    EmptyIsPartial(page);
    FrameBound(page, front);
    assert |rest| <= MAX_FRAME ==> front == rest;
    ParseIsStable(page, front, rest[n..]);
  }

  /** The beginning of the stream that ends with the frame behind the one that throws: received together with that
      one, and in a receive of its own. */
  lemma SplitsThatTell(page: CodePage, h: Handler, stream: octets, packets: seq<Packet>, rest: octets)
    returns (a: seq<octets>, b: seq<octets>)
    requires Framed(page, stream, packets, rest) && ThrowsLast(h, [], packets) && !Parse(page, rest).Partial?
    ensures SplitsOf(stream, a, b)
    ensures var (together, apart) := (ReceiveAll(page, h, START, a), ReceiveAll(page, h, START, b));
      && together.dispatched == packets && !Agree(together, apart)
      && (Parse(page, rest).Complete? ==> apart.dispatched != packets)
  {
    hide Parse, Drain, Receive, ReceiveAll, ThrowsLast, Framed, Joined, Agree;
    var front := FrontDecides(page, rest);
    assert [] + packets == packets;
    a := FrameByFrame(page, h, START, stream, packets, rest, front);
    var alone := FrameByFrame(page, h, START, stream, packets, rest, []);
    b := alone + [front];
    JoinedSnoc(alone, front);
    BeginningOf(stream, rest, front);
    ReceiveAllSnoc(page, h, START, alone, front);
    FrontMovesOn(page, h, packets, front);
  }

  lemma BeginningOf(stream: octets, rest: octets, front: octets)
    requires |rest| <= |stream| && stream[|stream| - |rest|..] == rest && front <= rest
    ensures stream[..|stream| - |rest|] + [] + front == stream[..|stream| - |rest|] + front <= stream
  {
    var used := stream[..|stream| - |rest|];
    assert stream == used + rest && used + [] == used;
  }

  lemma FrontMovesOn(page: CodePage, h: Handler, packets: seq<Packet>, front: octets)
    requires !Parse(page, front).Partial?
    ensures var apart := Receive(page, h, Session(packets, [], Open), front);
      && !Agree(Session(packets, front, Open), apart)
      && (Parse(page, front).Complete? ==> apart.dispatched != packets)
  {
    hide Parse, Drain;
    assert [] + front == front;
    StallMovesOn(page, h, Session(packets, front, Open));
  }

  lemma {:induction false} JoinedSnoc(chunks: seq<octets>, chunk: octets)
    ensures Joined(chunks + [chunk]) == Joined(chunks) + chunk
  {
    if chunks == [] {
      assert [] + [chunk] == [chunk] && [chunk][1..] == [] && chunk + [] == chunk == [] + chunk;
    } else {
      assert (chunks + [chunk])[1..] == chunks[1..] + [chunk];
      JoinedSnoc(chunks[1..], chunk);
      assert Joined(chunks + [chunk]) == chunks[0] + (Joined(chunks[1..]) + chunk);
    }
  }

  lemma OneReceive(page: CodePage, h: Handler, s: Session, a: octets)
    ensures Joined([a]) == a && ReceiveAll(page, h, s, [a]) == Receive(page, h, s, a)
  {
    hide Receive;
    assert [a][1..] == [] && a + [] == a;
    assert ReceiveAll(page, h, Receive(page, h, s, a), []) == Receive(page, h, s, a);
  }

  lemma TwoReceives(page: CodePage, h: Handler, s: Session, a: octets, b: octets)
    ensures Joined([a, b]) == a + b
    ensures ReceiveAll(page, h, s, [a, b]) == Receive(page, h, Receive(page, h, s, a), b)
  {
    hide Receive;
    assert [a, b][1..] == [b] && [b][1..] == [];
    assert Joined([b]) == b + [];
    var s1 := Receive(page, h, s, a);
    assert ReceiveAll(page, h, s1, [b]) == ReceiveAll(page, h, Receive(page, h, s1, b), []);
  }

  /** The next receive goes on with the frame that was left behind. */
  lemma {:induction false} StallMovesOn(page: CodePage, h: Handler, s: Session)
    requires Stalled(page, s)
    ensures !Agree(Drain(page, h, s), s)
    ensures Parse(page, s.buffer).Complete? ==> Drain(page, h, s).dispatched != s.dispatched
  {
    match Parse(page, s.buffer)
    case Failed(_) =>
    case Complete(p, n) =>
      FrameBound(page, s.buffer);
      DispatchedGrows(page, h, Session(s.dispatched + [p], s.buffer[n..], s.status));
  }

  /** A complete frame waits, though the session is open. */
  predicate Waiting(page: CodePage, s: Session) {
    s.status.Open? && Parse(page, s.buffer).Complete?
  }

  lemma {:induction false} SplitDispatches(page: CodePage, h: Handler, s: Session, t: octets)
    requires s.status.Open? && !Waiting(page, Drain(page, h, s.(buffer := s.buffer + t)))
    ensures var split := Receive(page, h, Drain(page, h, s), t);
      !Waiting(page, split) && split.dispatched == Drain(page, h, s.(buffer := s.buffer + t)).dispatched
    decreases |s.buffer|
  {
    hide Parse;
    if !Parse(page, s.buffer).Partial? {
      ParseIsStable(page, s.buffer, t);
      match Parse(page, s.buffer)
      case Failed(_) =>
      case Complete(p, n) =>
        FrameBound(page, s.buffer);
        var next := Session(s.dispatched + [p], s.buffer[n..], s.status);
        assert (s.buffer + t)[n..] == s.buffer[n..] + t;
        if h(next.dispatched).Handled? {
          SplitDispatches(page, h, next, t);
        }
    }
  }

  lemma {:induction false} AnyChunkingDispatches(page: CodePage, h: Handler, s: Session, chunks: seq<octets>)
    requires s.status.Open? && chunks != [] && !Waiting(page, Receive(page, h, s, Joined(chunks)))
    ensures ReceiveAll(page, h, s, chunks).dispatched == Receive(page, h, s, Joined(chunks)).dispatched
    decreases |chunks|
  {
    hide Drain;
    var rest := Joined(chunks[1..]);
    assert s.buffer + Joined(chunks) == s.buffer + chunks[0] + rest;
    var first := Receive(page, h, s, chunks[0]);
    if chunks[1..] == [] {
      assert chunks[0] + rest == chunks[0];
    } else {
      SplitDispatches(page, h, s.(buffer := s.buffer + chunks[0]), rest);
      if first.status.Open? {
        AnyChunkingDispatches(page, h, first, chunks[1..]);
      } else {
        ClosedStays(page, h, first, chunks[1..]);
      }
    }
  }

  /** Of the stream, read frame by frame up to the first exception, no complete frame is left. */
  ghost predicate NoFrameAfterThrow(page: CodePage, h: Handler, stream: octets) {
    forall packets, rest :: Framed(page, stream, packets, rest) && ThrowsLast(h, [], packets) ==>
      !Parse(page, rest).Complete?
  }

  lemma WaitsExactly(page: CodePage, h: Handler, stream: octets)
    ensures Waiting(page, Receive(page, h, START, stream)) <==> !NoFrameAfterThrow(page, h, stream)
  {
    hide Drain, Parse, Framed, ThrowsLast;
    var s := START.(buffer := stream);
    assert [] + stream == stream;
    if Waiting(page, Drain(page, h, s)) {
      var packets := RoundIsFramed(page, h, s);
      assert Framed(page, stream, packets, Drain(page, h, s).buffer);
    } else {
      forall packets, rest | Framed(page, stream, packets, rest) && ThrowsLast(h, [], packets)
        ensures !Parse(page, rest).Complete?
      {
        ThrowEndsRound(page, h, s, packets, rest);
      }
    }
  }

  lemma SplitsDispatch(page: CodePage, h: Handler, stream: octets, a: seq<octets>, b: seq<octets>)
    requires SplitsOf(stream, a, b) && NoFrameAfterThrow(page, h, stream)
    ensures ReceiveAll(page, h, START, a).dispatched == ReceiveAll(page, h, START, b).dispatched
  {
    hide Receivable, Joined, ReceiveAll, Receive, Waiting, NoFrameAfterThrow;
    NothingJoined(a);
    NothingJoined(b);
    if a != [] {
      PrefixThrowsAtEnd(page, h, Joined(a), stream);
      WaitsExactly(page, h, Joined(a));
      AnyChunkingDispatches(page, h, START, a);
      AnyChunkingDispatches(page, h, START, b);
    }
  }

  /** For the packets alone, whatever becomes of the session, it is a complete frame that must not follow. */
  lemma DispatchIndependence(page: CodePage, h: Handler, stream: octets)
    ensures (forall a, b :: SplitsOf(stream, a, b) ==>
               ReceiveAll(page, h, START, a).dispatched == ReceiveAll(page, h, START, b).dispatched)
      <==> NoFrameAfterThrow(page, h, stream)
  {
    hide Parse, ReceiveAll, SplitsOf, Framed, ThrowsLast;
    if NoFrameAfterThrow(page, h, stream) {
      hide NoFrameAfterThrow;
      forall a, b | SplitsOf(stream, a, b)
        ensures ReceiveAll(page, h, START, a).dispatched == ReceiveAll(page, h, START, b).dispatched
      {
        SplitsDispatch(page, h, stream, a, b);
      }
    } else {
      var packets, rest :|
        Framed(page, stream, packets, rest) && ThrowsLast(h, [], packets) && Parse(page, rest).Complete?;
      var a, b := SplitsThatTell(page, h, stream, packets, rest);
    }
  }

  // ---- The size of the buffer ----

  /** Between receives an open session holds less than one frame, unless it is stalled. */
  lemma BufferBound(page: CodePage, s: Session)
    ensures s.status.Open? ==> |s.buffer| < MAX_FRAME || Stalled(page, s)
  {
    FrameBound(page, s.buffer);
  }

  /** A history the loop can come to: frames deliver it, and every packet but the last was handled. */
  ghost predicate Dispatchable(page: CodePage, h: Handler, history: seq<Packet>) {
    && history != []
    && (forall i :: 0 <= i < |history| ==> Deliverable(page, history[i]))
    && (forall i :: 0 < i < |history| ==> h(history[..i]).Handled?)
  }

  ghost predicate NeverThrows(page: CodePage, h: Handler) {
    forall history :: Dispatchable(page, h, history) ==> !h(history).Threw?
  }

  /** So far every packet came from a frame and was handled. */
  ghost predicate AllHandled(page: CodePage, h: Handler, s: Session) {
    && (forall i :: 0 <= i < |s.dispatched| ==> Deliverable(page, s.dispatched[i]))
    && (forall i :: 0 < i <= |s.dispatched| ==> h(s.dispatched[..i]).Handled?)
  }

  lemma NextIsDispatchable(page: CodePage, h: Handler, s: Session, p: Packet)
    requires AllHandled(page, h, s) && Deliverable(page, p)
    ensures Dispatchable(page, h, s.dispatched + [p])
    ensures h(s.dispatched + [p]).Handled? ==> AllHandled(page, h, s.(dispatched := s.dispatched + [p]))
  {
    hide Deliverable;
    var history := s.dispatched + [p];
    forall i | 0 < i < |history| ensures h(history[..i]).Handled? {
      assert history[..i] == s.dispatched[..i];
    }
    assert history[..|history|] == history;
  }

  lemma FrameDelivers(page: CodePage, s: octets)
    requires Parse(page, s).Complete?
    ensures Deliverable(page, Parse(page, s).packet)
  {
    hide Parse;
    FrameBound(page, s);
    FrameIsMinimal(page, s, Parse(page, s).consumed);
  }

  lemma {:induction false} QuietRound(page: CodePage, h: Handler, s: Session)
    requires NeverThrows(page, h) && s.status.Open? && AllHandled(page, h, s)
    ensures var r := Drain(page, h, s); r.status.Open? ==> AllHandled(page, h, r) && !Stalled(page, r)
    decreases |s.buffer|
  {
    hide Parse, AllHandled, Dispatchable, Deliverable;
    if Parse(page, s.buffer).Complete? {
      FrameBound(page, s.buffer);
      FrameDelivers(page, s.buffer);
      var Complete(p, n) := Parse(page, s.buffer);
      NextIsDispatchable(page, h, s, p);
      var next := Session(s.dispatched + [p], s.buffer[n..], s.status);
      if h(next.dispatched).Handled? {
        BufferIsIrrelevant(page, h, s.(dispatched := s.dispatched + [p]), next);
        QuietRound(page, h, next);
      }
    }
  }

  lemma BufferIsIrrelevant(page: CodePage, h: Handler, s: Session, t: Session)
    requires AllHandled(page, h, s) && t.dispatched == s.dispatched
    ensures AllHandled(page, h, t)
  {
  }

  /** As long as nothing throws, the buffer stays below one frame. */
  lemma {:induction false} QuietSessionStaysSmall(page: CodePage, h: Handler, s: Session, chunks: seq<octets>)
    requires NeverThrows(page, h)
    requires s.status.Open? ==> AllHandled(page, h, s) && !Stalled(page, s)
    ensures var r := ReceiveAll(page, h, s, chunks); r.status.Open? ==> |r.buffer| < MAX_FRAME
    decreases |chunks|
  {
    hide Parse, Drain, AllHandled, NeverThrows, Stalled;
    BufferBound(page, s);
    if chunks != [] {
      var received := s.(buffer := s.buffer + chunks[0]);
      if s.status.Open? {
        BufferIsIrrelevant(page, h, s, received);
        QuietRound(page, h, received);
      }
      QuietSessionStaysSmall(page, h, Receive(page, h, s, chunks[0]), chunks[1..]);
    }
  }

  lemma {:induction false} FramesOf(page: CodePage, packets: seq<Packet>) returns (stream: octets)
    requires forall i :: 0 <= i < |packets| ==> Deliverable(page, packets[i])
    ensures Framed(page, stream, packets, [])
  {
    hide Parse, Deliverable;
    if packets == [] {
      stream := [];
    } else {
      var frame := FrameOf(page, packets[0]);
      var later := FramesOf(page, packets[1..]);
      stream := frame + later;
      ParseIsStable(page, frame, later);
      assert stream[|frame|..] == later;
    }
  }

  lemma FrameOf(page: CodePage, p: Packet) returns (frame: octets)
    requires Deliverable(page, p)
    ensures Parse(page, frame) == Complete(p, |frame|)
  {
    hide Parse;
    frame :| Parse(page, frame) == Complete(p, |frame|);
  }

  /** Whatever is received, an open session buffers less than one frame, if and only if the handler throws on no
      history that frames can bring about. */
  lemma BufferStaysSmallExactly(page: CodePage, h: Handler)
    ensures (forall chunks :: Receivable(chunks) ==>
               var r := ReceiveAll(page, h, START, chunks); r.status.Open? ==> |r.buffer| < MAX_FRAME)
      <==> NeverThrows(page, h)
  {
    hide Parse, Drain, ReceiveAll, Receivable, Deliverable;
    if NeverThrows(page, h) {
      EmptyIsPartial(page);
      forall chunks | Receivable(chunks)
        ensures var r := ReceiveAll(page, h, START, chunks); r.status.Open? ==> |r.buffer| < MAX_FRAME
      {
        QuietSessionStaysSmall(page, h, START, chunks);
      }
    } else {
      var history :| Dispatchable(page, h, history) && h(history).Threw?;
      forall i | 0 < i < |history| ensures h([] + history[..i]).Handled? {
        assert [] + history[..i] == history[..i];
      }
      assert [] + history == history;
      var stream := FramesOf(page, history);
      var chunks := FrameByFrame(page, h, START, stream, history, [], Zeros(MAX_FRAME));
      assert Receivable(chunks);
    }
  }

  // ---- A backlog that grows ----

  function Repeat<T>(x: T, n: nat): (r: seq<T>)
    ensures |r| == n && forall i :: 0 <= i < n ==> r[i] == x
  {
    seq(n, _ => x)
  }

  lemma RepeatSnoc<T>(x: T, n: nat)
    ensures Repeat(x, n + 1) == Repeat(x, n) + [x]
  {
  }

  lemma {:induction false} CopiesCommute(frame: octets, n: nat)
    ensures Joined(Repeat(frame, n + 1)) == frame + Joined(Repeat(frame, n)) == Joined(Repeat(frame, n)) + frame
    ensures |Joined(Repeat(frame, n))| == n * |frame|
  {
    assert Repeat(frame, n + 1)[1..] == Repeat(frame, n);
    if n > 0 {
      assert Repeat(frame, n)[1..] == Repeat(frame, n - 1);
      CopiesCommute(frame, n - 1);
      assert frame + Joined(Repeat(frame, n)) == frame + (Joined(Repeat(frame, n - 1)) + frame)
        == (frame + Joined(Repeat(frame, n - 1))) + frame;
    }
  }

  /** Two copies of a throwing frame in each receive leave one copy more buffered each time. */
  lemma {:induction false} BacklogGrows(page: CodePage, h: Handler, frame: octets, p: Packet, n: nat)
    requires Parse(page, frame) == Complete(p, |frame|)
    requires forall k :: 0 < k <= n ==> h(Repeat(p, k)).Threw?
    ensures ReceiveAll(page, h, START, Repeat(frame + frame, n))
      == Session(Repeat(p, n), Joined(Repeat(frame, n)), Open)
  {
    hide Parse, ReceiveAll, Repeat, Joined;
    if n == 0 {
      NothingReceived(page, h, frame + frame, frame, p);
    } else {
      BacklogGrows(page, h, frame, p, n - 1);
      RepeatSnoc(frame + frame, n - 1);
      RepeatSnoc(p, n - 1);
      ReceiveAllSnoc(page, h, START, Repeat(frame + frame, n - 1), frame + frame);
      CopiesCommute(frame, n - 1);
      var backlog := Joined(Repeat(frame, n - 1));
      var buffer := backlog + (frame + frame);
      assert buffer == (backlog + frame) + frame == frame + (backlog + frame);
      ParseIsStable(page, frame, backlog + frame);
      FrameBound(page, buffer);
      assert buffer[|frame|..] == backlog + frame;
    }
  }

  lemma NothingReceived(page: CodePage, h: Handler, chunk: octets, frame: octets, p: Packet)
    ensures ReceiveAll(page, h, START, Repeat(chunk, 0)) == Session(Repeat(p, 0), Joined(Repeat(frame, 0)), Open)
  {
    assert Repeat(chunk, 0) == [] && Repeat(p, 0) == [] && Repeat(frame, 0) == [];
  }

  // ---- Login ----

  const LOGIN_BUFFER := 1024

  /** Login parses its whole zero-filled buffer, however little of it was received. */
  function LoginParse(page: CodePage, received: octets): ParseResult
    requires |received| <= LOGIN_BUFFER
  {
    Parse(page, received + Zeros(LOGIN_BUFFER - |received|))
  }

  /** So login never asks for more bytes: a truncated frame is completed with zeros or refused. */
  lemma LoginIsNeverPartial(page: CodePage, received: octets)
    requires |received| <= LOGIN_BUFFER
    ensures !LoginParse(page, received).Partial?
    ensures !Parse(page, received).Partial? ==> LoginParse(page, received) == Parse(page, received)
  {
    FrameBound(page, received + Zeros(LOGIN_BUFFER - |received|));
    if !Parse(page, received).Partial? {
      ParseIsStable(page, received, Zeros(LOGIN_BUFFER - |received|));
    }
  }

  /** The bytes of a stream from `f + rest` that the login's receive of `n` bytes takes and leaves. */
  predicate LoginLosesNothing(page: CodePage, h: Handler, f: octets, n: nat, rest: octets)
    requires n <= LOGIN_BUFFER && n <= |f| + |rest|
  {
    && LoginParse(page, (f + rest)[..n]) == Parse(page, f)
    && Agree(Receive(page, h, START, (f + rest)[n..]), Receive(page, h, START, rest))
  }

  lemma CutAtFrame(page: CodePage, h: Handler, f: octets, rest: octets)
    requires Parse(page, f).Complete? && |f| <= LOGIN_BUFFER
    ensures LoginLosesNothing(page, h, f, |f|, rest)
  {
    hide Parse, Drain;
    assert (f + rest)[..|f|] == f && (f + rest)[|f|..] == rest;
    LoginIsNeverPartial(page, f);
  }

  /** A receive that ends early leaves the rest of the login frame to the session. */
  lemma CutInsideFrame(page: CodePage, h: Handler, f: octets, n: nat)
    requires n < |f| && n <= LOGIN_BUFFER
    ensures !LoginLosesNothing(page, h, f, n, [])
  {
    hide Parse, LoginParse;
    assert f + [] == f;
    var left := START.(buffer := f[n..]);
    assert START.buffer + f[n..] == f[n..] && START.buffer + [] == [];
    EmptyIsPartial(page);
    SomethingHappens(page, h, left);
  }

  lemma SomethingHappens(page: CodePage, h: Handler, s: Session)
    requires s.status.Open? && s.buffer != []
    ensures !Agree(Drain(page, h, s), s.(buffer := []))
  {
    hide Parse;
    if Parse(page, s.buffer).Complete? {
      FrameBound(page, s.buffer);
      var Complete(p, n) := Parse(page, s.buffer);
      DispatchedGrows(page, h, Session(s.dispatched + [p], s.buffer[n..], s.status));
    }
  }

  /** Zeros in front of a frame make an unknown code of its first bytes. */
  lemma ZerosSpoil(page: CodePage, k: nat, p: Packet)
    requires k > 0 && p.code == LIST_ROOMS
    ensures Parse(page, Zeros(k) + Print(page, p)).Failed?
  {
    hide ParseFrom, PrintFrom, FlagsOf;
    var s := Zeros(k) + Print(page, p);
    assert PutU32(LIST_ROOMS) == [200, 0, 0, 0];
    assert Print(page, p)[0] == 200 && Print(page, p)[1] == 0 && Print(page, p)[2] == 0;
    assert s[0] == 0;
    assert forall i :: 0 <= i < 4 ==> s[i] == if i == k then 200 else 0;
  }

  lemma CutBehindFrame(page: CodePage, h: Handler, f: octets, n: nat) returns (rest: octets)
    requires |f| < n <= LOGIN_BUFFER
    ensures n <= |f| + |rest| && !LoginLosesNothing(page, h, f, n, rest)
  {
    hide Parse, LoginParse, Print;
    var p := Packet(LIST_ROOMS, NO_FIELDS);
    var frame := Print(page, p);
    rest := Zeros(n - |f|) + frame;
    assert (f + rest)[n..] == frame;
    PlainIsDeliverable(page, p);
    ZerosSpoil(page, n - |f|, p);
    assert START.buffer + rest == rest && START.buffer + frame == frame;
    FrameBound(page, frame);
    DispatchedGrows(page, h, Session([p], [], Open));
    assert frame[|frame|..] == [] && [] + [p] == [p];
  }

  /** The first receive of a connection is all that login looks at, and what it does not need is lost. So a
      connection whose login frame is `f` is served as its bytes demand, whatever follows, if and only if that
      receive ends exactly where the frame does. */
  lemma LoginTakesItsFrameExactly(page: CodePage, h: Handler, f: octets, n: nat)
    requires Parse(page, f).Complete? && Parse(page, f).consumed == |f| && n <= LOGIN_BUFFER
    ensures (forall rest :: n <= |f| + |rest| ==> LoginLosesNothing(page, h, f, n, rest)) <==> n == |f|
  {
    hide Parse, LoginLosesNothing;
    FrameBound(page, f);
    if n == |f| {
      forall rest | n <= |f| + |rest| ensures LoginLosesNothing(page, h, f, n, rest) {
        CutAtFrame(page, h, f, rest);
      }
    } else if n < |f| {
      CutInsideFrame(page, h, f, n);
    } else {
      var rest := CutBehindFrame(page, h, f, n);
      assert !LoginLosesNothing(page, h, f, n, rest);
    }
  }
}
