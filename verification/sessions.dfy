/** The receive loop of a session: bytes are appended as they arrive, and every frame that is complete is handed
    to the packet handler (src/user_session.cpp, lines 377 to 462). */
module Sessions {
  import opened Bytes
  import opened CodePages
  import opened PacketBuffers
  import opened Packets
  import opened PacketLaws
  import WormsPackets

  /** How a handler ends: it returns true, it returns false, or an exception leaves it. */
  datatype Verdict = Handled | Refused | Threw

  /** What the handler makes of the last packet of the given history. */
  type Handler = seq<Packet> -> Verdict

  datatype Status = Open | ParseFailed(error: ParseError) | HandlerRefused

  datatype Session = Session(dispatched: seq<Packet>, buffer: octets, status: Status)

  const START := Session([], [], Open)

  // ---- Specification ----

  /** The inner loop. A refusal or a parse error ends the session; an exception ends only this round, and
      whatever is still buffered waits for the next receive. */
  function Drain(page: CodePage, h: Handler, s: Session): (r: Session)
    ensures |r.buffer| <= |s.buffer|
    decreases |s.buffer|
  {
    match Parse(page, s.buffer)
    case Partial => s
    case Failed(e) => s.(status := ParseFailed(e))
    case Complete(p, n) =>
      FrameBound(page, s.buffer);
      var next := Session(s.dispatched + [p], s.buffer[n..], s.status);
      match h(next.dispatched)
      case Handled => Drain(page, h, next)
      case Refused => next.(status := HandlerRefused)
      case Threw => next
  }

  function Receive(page: CodePage, h: Handler, s: Session, chunk: octets): Session {
    if s.status.Open? then Drain(page, h, s.(buffer := s.buffer + chunk)) else s
  }

  function ReceiveAll(page: CodePage, h: Handler, s: Session, chunks: seq<octets>): Session
    decreases |chunks|
  {
    if chunks == [] then s else ReceiveAll(page, h, Receive(page, h, s, chunks[0]), chunks[1..])
  }

  /** The same with a handler for each receive, numbered from `k`: what other users do between two receives may
      change what becomes of the packets of the second. */
  function ReceiveEach(page: CodePage, hs: nat -> Handler, k: nat, s: Session, chunks: seq<octets>): Session
    decreases |chunks|
  {
    if chunks == [] then s else ReceiveEach(page, hs, k + 1, Receive(page, hs(k), s, chunks[0]), chunks[1..])
  }

  // ---- The loop as it runs ----

  /** PacketIO's framed reader: it parses from the front of its buffer and drops the bytes of a frame only when
      that frame is complete. */
  class FramedPacketReader {
    const page: CodePage
    var buffer: octets

    constructor (page: CodePage)
      ensures this.page == page && buffer == []
    {
      this.page := page;
      buffer := [];
    }

    method Append(bytes: octets)
      modifies this
      ensures buffer == old(buffer) + bytes
    {
      buffer := buffer + bytes;
    }

    method TryReadPacket() returns (r: ParseResult)
      modifies this
      ensures r == Parse(page, old(buffer))
      ensures r.Complete? ==> r.consumed <= |old(buffer)|
      ensures buffer == if r.Complete? then old(buffer)[r.consumed..] else old(buffer)
    {
      var reader := new PacketReader(buffer);
      r := WormsPackets.ReadFrom(page, reader);
      FrameBound(page, buffer);
      if r.Complete? {
        buffer := buffer[reader.pos..];
      }
    }
  }

  /** The inner loop of `handleSession`: one receive's worth of frames. */
  method DispatchBuffered(h: Handler, reader: FramedPacketReader, dispatched: seq<Packet>) returns (session: Session)
    modifies reader
    ensures session == Drain(reader.page, h, Session(dispatched, old(reader.buffer), Open))
    ensures reader.buffer == session.buffer
  {
    hide Parse;
    var history := dispatched;
    while true
      invariant Drain(reader.page, h, Session(history, reader.buffer, Open))
        == Drain(reader.page, h, Session(dispatched, old(reader.buffer), Open))
      decreases |reader.buffer|
    {
      FrameBound(reader.page, reader.buffer);
      var r := reader.TryReadPacket();
      match r {
        case Partial =>
          return Session(history, reader.buffer, Open);
        case Failed(error) =>
          return Session(history, reader.buffer, ParseFailed(error));
        case Complete(packet, _) =>
          history := history + [packet];
          match h(history) {
            case Handled =>
            case Refused => return Session(history, reader.buffer, HandlerRefused);
            case Threw => return Session(history, reader.buffer, Open);
          }
      }
    }
  }

  /** The receives before the first empty one, which is the end of the connection. */
  function UntilEof(receives: seq<octets>): seq<octets> {
    if receives == [] || receives[0] == [] then [] else [receives[0]] + UntilEof(receives[1..])
  }

  lemma UntilEofStep(receives: seq<octets>, i: nat)
    requires i < |receives| && receives[i] != []
    ensures UntilEof(receives[i..]) == [receives[i]] + UntilEof(receives[i + 1..])
  {
    assert receives[i..][1..] == receives[i + 1..];
  }

  lemma {:induction false} ClosedStaysEach(page: CodePage, hs: nat -> Handler, k: nat, s: Session, chunks: seq<octets>)
    requires !s.status.Open?
    ensures ReceiveEach(page, hs, k, s, chunks) == s
    decreases |chunks|
  {
    if chunks != [] {
      ClosedStaysEach(page, hs, k + 1, s, chunks[1..]);
    }
  }

  lemma ReceiveEachStep(page: CodePage, hs: nat -> Handler, k: nat, s: Session, chunk: octets, rest: seq<octets>)
    ensures ReceiveEach(page, hs, k, s, [chunk] + rest)
      == ReceiveEach(page, hs, k + 1, Receive(page, hs(k), s, chunk), rest)
  {
    assert ([chunk] + rest)[1..] == rest;
  }

  /** `handleSession` on the receives of a connection, until it closes. */
  method HandleSession(page: CodePage, hs: nat -> Handler, receives: seq<octets>) returns (session: Session)
    ensures session == ReceiveEach(page, hs, 0, START, UntilEof(receives))
  {
    hide Drain;
    var reader := new FramedPacketReader(page);
    session := START;
    assert receives[0..] == receives;
    for i := 0 to |receives|
      invariant reader.page == page && reader.buffer == session.buffer && session.status.Open?
      invariant ReceiveEach(page, hs, 0, START, UntilEof(receives))
        == ReceiveEach(page, hs, i, session, UntilEof(receives[i..]))
    {
      if receives[i] == [] {
        return;
      }
      UntilEofStep(receives, i);
      ghost var rest := UntilEof(receives[i + 1..]);
      ReceiveEachStep(page, hs, i, session, receives[i], rest);
      reader.Append(receives[i]);
      session := DispatchBuffered(hs(i), reader, session.dispatched);
      if !session.status.Open? {
        ClosedStaysEach(page, hs, i + 1, session, rest);
        return;
      }
    }
  }
}
