/** Packets, and their wire form as a specification: what a frame means and how a packet is written
    (src/worms_packet.cpp, include/packet_code.hpp, include/packet_flags.hpp). */
module Packets {
  import opened Bytes
  import opened CodePages
  import opened SessionInfos

  const MAX_DATA_LENGTH := 0x200
  const MAX_NAME_LENGTH := 20

  // ---- Codes ----

  const LIST_ROOMS: uint32 := 200
  const LIST_ITEM: uint32 := 350
  const LIST_END: uint32 := 351
  const LIST_USERS: uint32 := 400
  const LIST_GAMES: uint32 := 500
  const LOGIN: uint32 := 600
  const LOGIN_REPLY: uint32 := 601
  const CREATE_ROOM: uint32 := 700
  const CREATE_ROOM_REPLY: uint32 := 701
  const JOIN: uint32 := 800
  const JOIN_REPLY: uint32 := 801
  const LEAVE: uint32 := 900
  const LEAVE_REPLY: uint32 := 901
  const DISCONNECT_USER: uint32 := 1000
  const CLOSE: uint32 := 1100
  const CLOSE_REPLY: uint32 := 1101
  const CREATE_GAME: uint32 := 1200
  const CREATE_GAME_REPLY: uint32 := 1201
  const CHAT_ROOM: uint32 := 1300
  const CHAT_ROOM_REPLY: uint32 := 1301
  const CONNECT_GAME: uint32 := 1326
  const CONNECT_GAME_REPLY: uint32 := 1327

  /** The codes a client may send. */
  predicate PacketCodeExists(code: uint32) {
    || code == LOGIN || code == LIST_ROOMS || code == LIST_USERS || code == LIST_GAMES
    || code == CREATE_ROOM || code == JOIN || code == LEAVE || code == CLOSE
    || code == CREATE_GAME || code == CHAT_ROOM || code == CONNECT_GAME
  }

  // ---- Fields ----

  datatype Fields = Fields(
    value0: Option<uint32>, value1: Option<uint32>, value2: Option<uint32>, value3: Option<uint32>,
    value4: Option<uint32>, value10: Option<uint32>, dataLength: Option<uint32>,
    data: Option<octets>, error: Option<uint32>, name: Option<octets>, info: Option<SessionInfo>)

  const NO_FIELDS := Fields(None, None, None, None, None, None, None, None, None, None, None)

  datatype Packet = Packet(code: uint32, fields: Fields)

  /** The optional parts of a frame. */
  datatype Field = Value0 | Value1 | Value2 | Value3 | Value4 | Value10 | DataLength | Data | Error | Name | Info

  const FIELD_COUNT := 11

  /** The order in which the parts follow the eight-byte header. */
  function FieldAt(k: nat): Field
    requires k < FIELD_COUNT
  {
    match k
    case 0 => Value0
    case 1 => Value1
    case 2 => Value2
    case 3 => Value3
    case 4 => Value4
    case 5 => Value10
    case 6 => DataLength
    case 7 => Data
    case 8 => Error
    case 9 => Name
    case _ => Info
  }

  /** The flag of a part is `1 << BitOf(f)`. */
  function BitOf(f: Field): (i: nat)
    ensures i < FIELD_COUNT
  {
    match f
    case Value0 => 0
    case Value1 => 1
    case Value2 => 2
    case Value3 => 3
    case Value4 => 4
    case DataLength => 5
    case Data => 6
    case Error => 7
    case Name => 8
    case Info => 9
    case Value10 => 10
  }

  /** Whether bit `i` of `n` is set. */
  predicate TestBit(n: nat, i: nat) {
    if i == 0 then n % 2 == 1 else TestBit(n / 2, i - 1)
  }

  /** `n | (1 << i)`. */
  function SetBit(n: nat, i: nat): nat {
    if i == 0 then n / 2 * 2 + 1 else SetBit(n / 2, i - 1) * 2 + n % 2
  }

  predicate HasFlag(flags: uint32, f: Field) {
    TestBit(flags, BitOf(f))
  }

  /** Whether the printer sets the flag of a part. */
  predicate Present(p: Fields, f: Field) {
    match f
    case Value0 => p.value0.Some?
    case Value1 => p.value1.Some?
    case Value2 => p.value2.Some?
    case Value3 => p.value3.Some?
    case Value4 => p.value4.Some?
    case Value10 => p.value10.Some?
    case DataLength => p.dataLength.Some? || p.data.Some?
    case Data => p.data.Some?
    case Error => p.error.Some?
    case Name => p.name.Some?
    case Info => p.info.Some?
  }

  /** The number whose binary digits, lowest first, are given. */
  function Binary(digits: seq<bool>): (n: nat) {
    if digits == [] then 0 else (if digits[0] then 1 else 0) + 2 * Binary(digits[1..])
  }

  /** The parts in the order of their flags. */
  function FieldOfBit(i: nat): Field
    requires i < FIELD_COUNT
  {
    match i
    case 0 => Value0
    case 1 => Value1
    case 2 => Value2
    case 3 => Value3
    case 4 => Value4
    case 5 => DataLength
    case 6 => Data
    case 7 => Error
    case 8 => Name
    case 9 => Info
    case _ => Value10
  }

  function Presence(p: Fields): (digits: seq<bool>)
    ensures |digits| == FIELD_COUNT
  {
    seq(FIELD_COUNT, i requires 0 <= i < FIELD_COUNT => Present(p, FieldOfBit(i)))
  }

  /** `getFlagsFromFields`: bit `BitOf(f)` tells whether the part is present. */
  function FlagsOf(p: Fields): uint32 {
    BinaryBelow(Presence(p), FIELD_COUNT);
    Binary(Presence(p))
  }

  function PowerOfTwo(n: nat): nat {
    if n == 0 then 1 else 2 * PowerOfTwo(n - 1)
  }

  lemma {:induction false} BinaryBelow(digits: seq<bool>, n: nat)
    requires |digits| <= n
    ensures Binary(digits) < PowerOfTwo(n)
    ensures PowerOfTwo(FIELD_COUNT) == 0x800
  {
    assert PowerOfTwo(FIELD_COUNT) == 0x800 by {
      assert PowerOfTwo(8) == 8 * PowerOfTwo(5);
    }
    if digits != [] {
      BinaryBelow(digits[1..], n - 1);
    } else if n > 0 {
      BinaryBelow(digits, n - 1);
    }
  }

  lemma {:induction false} TestBitOfBinary(digits: seq<bool>, i: nat)
    requires i < |digits|
    ensures TestBit(Binary(digits), i) == digits[i]
  {
    assert Binary(digits) / 2 == Binary(digits[1..]);
    if i > 0 {
      TestBitOfBinary(digits[1..], i - 1);
    }
  }

  lemma {:induction false} SetBitOfBinary(digits: seq<bool>, i: nat)
    requires i < |digits|
    ensures SetBit(Binary(digits), i) == Binary(digits[i := true])
  {
    assert Binary(digits) / 2 == Binary(digits[1..]);
    if i > 0 {
      SetBitOfBinary(digits[1..], i - 1);
      assert digits[i := true][1..] == digits[1..][i - 1 := true];
    } else {
      assert digits[0 := true][1..] == digits[1..];
    }
  }

  lemma PresenceOf(p: Fields, f: Field)
    ensures Presence(p)[BitOf(f)] == Present(p, f)
  {
  }

  /** The parser finds the flag of a part set exactly when the printer set it. */
  lemma FlagsSayWhatIsPresent(p: Fields, f: Field)
    ensures HasFlag(FlagsOf(p), f) <==> Present(p, f)
  {
    hide Presence, Present, Binary, BitOf, TestBit;
    PresenceOf(p, f);
    TestBitOfBinary(Presence(p), BitOf(f));
  }

  // ---- Printing ----

  function Zeros(n: nat): (s: octets)
    ensures |s| == n && forall i :: 0 <= i < n ==> s[i] == 0
  {
    if n == 0 then [] else [0] + Zeros(n - 1)
  }

  /** The part of an encoded name that fits the block. */
  function NameText(page: CodePage, name: octets): (s: octets)
    ensures |s| <= MAX_NAME_LENGTH
  {
    var e := Encoded(page, name);
    if |e| <= MAX_NAME_LENGTH then e else e[..MAX_NAME_LENGTH]
  }

  function NameBlock(page: CodePage, name: octets): (s: octets)
    ensures |s| == MAX_NAME_LENGTH
  {
    NameText(page, name) + Zeros(MAX_NAME_LENGTH - |NameText(page, name)|)
  }

  /** The announced length of a text: its encoding and one NUL, cut to 32 bits. */
  function LengthOnWire(page: CodePage, data: octets): uint32 {
    (|Encoded(page, data)| + 1) % 0x1_0000_0000
  }

  function PutOptional(v: Option<uint32>): octets {
    if v.Some? then PutU32(v.value) else []
  }

  /** The bytes of one part. A data length is written only with data, though its flag may be set without. */
  function Image(page: CodePage, p: Fields, f: Field): octets {
    match f
    case Value0 => PutOptional(p.value0)
    case Value1 => PutOptional(p.value1)
    case Value2 => PutOptional(p.value2)
    case Value3 => PutOptional(p.value3)
    case Value4 => PutOptional(p.value4)
    case Value10 => PutOptional(p.value10)
    case DataLength => if p.data.Some? then PutU32(LengthOnWire(page, p.data.value)) else []
    case Data => if p.data.Some? then Encoded(page, p.data.value) + [0] else []
    case Error => PutOptional(p.error)
    case Name => if p.name.Some? then NameBlock(page, p.name.value) else []
    case Info => if p.info.Some? then PutInfo(p.info.value) else []
  }

  function PrintFrom(page: CodePage, p: Fields, k: nat): octets
    requires k <= FIELD_COUNT
    decreases FIELD_COUNT - k
  {
    if k == FIELD_COUNT then [] else Image(page, p, FieldAt(k)) + PrintFrom(page, p, k + 1)
  }

  /** `freeze`: the frame of a packet. */
  function Print(page: CodePage, p: Packet): octets {
    PutU32(p.code) + PutU32(FlagsOf(p.fields)) + PrintFrom(page, p.fields, 0)
  }

  // ---- Parsing ----

  datatype ParseError =
    | UnknownCode(code: uint32)
    | DataLengthTooBig(length: uint32)
    | MissingTerminator
    | EncodedDataTooLong
    | DecodedDataTooLong
    | EncodedNameTooLong
    | DecodedNameTooLong
    | InvalidSessionInfo

  datatype ParseResult = Partial | Failed(error: ParseError) | Complete(packet: Packet, consumed: nat)

  /** The outcome of reading the optional parts: too few bytes, a fault, or the fields and what follows them. */
  datatype Parsed = Short | Bad(error: ParseError) | Done(fields: Fields, rest: octets)

  datatype Absorbed = Fault(error: ParseError) | Good(fields: Fields)

  /** How many bytes a flagged part takes, given the parts before it. */
  function Width(f: Field, acc: Fields): nat {
    match f
    case Data => ValueOr(acc.dataLength, 0)
    case Name => MAX_NAME_LENGTH
    case Info => INFO_SIZE
    case _ => 4
  }

  function AbsorbData(page: CodePage, acc: Fields, s: octets): Absorbed {
    if s == [] then Good(acc.(data := Some([])))
    else if s[|s| - 1] != 0 then Fault(MissingTerminator)
    else
      var encoded := s[..|s| - 1];
      var decoded := Decoded(page, encoded);
      if |encoded| > MAX_DATA_LENGTH then Fault(EncodedDataTooLong)
      else if |decoded| > MAX_DATA_LENGTH then Fault(DecodedDataTooLong)
      else Good(acc.(data := Some(decoded)))
  }

  function AbsorbName(page: CodePage, acc: Fields, s: octets): Absorbed {
    var encoded := CString(s);
    var decoded := Decoded(page, encoded);
    if |encoded| > MAX_NAME_LENGTH then Fault(EncodedNameTooLong)
    else if |decoded| > MAX_NAME_LENGTH then Fault(DecodedNameTooLong)
    else Good(acc.(name := Some(decoded)))
  }

  function AbsorbInfo(acc: Fields, s: octets): Absorbed
    requires |s| == INFO_SIZE
  {
    if Verified(GetInfo(s)) then Good(acc.(info := Some(GetInfo(s).(gameRelease := GAME_RELEASE))))
    else Fault(InvalidSessionInfo)
  }

  /** Reading one flagged part from exactly its bytes. */
  function Absorb(page: CodePage, f: Field, acc: Fields, s: octets): Absorbed
    requires |s| == Width(f, acc)
  {
    match f
    case Value0 => Good(acc.(value0 := Some(GetU32(s))))
    case Value1 => Good(acc.(value1 := Some(GetU32(s))))
    case Value2 => Good(acc.(value2 := Some(GetU32(s))))
    case Value3 => Good(acc.(value3 := Some(GetU32(s))))
    case Value4 => Good(acc.(value4 := Some(GetU32(s))))
    case Value10 => Good(acc.(value10 := Some(GetU32(s))))
    case DataLength =>
      var n := GetU32(s);
      if n > MAX_DATA_LENGTH then Fault(DataLengthTooBig(n)) else Good(acc.(dataLength := Some(n)))
    case Data => AbsorbData(page, acc, s)
    case Error => Good(acc.(error := Some(GetU32(s))))
    case Name => AbsorbName(page, acc, s)
    case Info => AbsorbInfo(acc, s)
  }

  function ParseFrom(page: CodePage, flags: uint32, k: nat, acc: Fields, s: octets): (r: Parsed)
    requires k <= FIELD_COUNT
    ensures r.Done? ==> |r.rest| <= |s|
    decreases FIELD_COUNT - k
  {
    if k == FIELD_COUNT then Done(acc, s)
    else
      var f := FieldAt(k);
      if !HasFlag(flags, f) then ParseFrom(page, flags, k + 1, acc, s)
      else
        var w := Width(f, acc);
        if |s| < w then Short
        else match Absorb(page, f, acc, s[..w])
          case Fault(e) => Bad(e)
          case Good(next) => ParseFrom(page, flags, k + 1, next, s[w..])
  }

  /** What the bytes at the front of a buffer mean. */
  function Parse(page: CodePage, s: octets): ParseResult {
    if |s| < 8 then Partial
    else
      var code := GetU32(s[..4]);
      if !PacketCodeExists(code) then Failed(UnknownCode(code))
      else
        match ParseFrom(page, GetU32(s[4..8]), 0, NO_FIELDS, s[8..])
        case Short => Partial
        case Bad(e) => Failed(e)
        case Done(fields, rest) => Complete(Packet(code, fields), |s| - |rest|)
  }
}
