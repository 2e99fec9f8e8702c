/** The incremental parser and the printer as they run: a cursor that advances part by part, and a writer
    that is appended to (src/worms_packet.cpp). */
module WormsPackets {
  import opened Bytes
  import opened CodePages
  import opened PacketBuffers
  import SI = SessionInfos
  import opened Packets
  import opened PacketLaws

  /** What reading one part came to. */
  datatype PartRead = Lacking | Faulty(error: ParseError) | Read(fields: Fields)

  /** Reading the parts from `k` up to `to` came to `r` and left `rest`: the parse goes on from there, or ends. */
  ghost predicate ReadsParts(page: CodePage, flags: uint32, k: nat, to: nat, acc: Fields, s: octets,
                             r: PartRead, rest: octets)
  {
    k <= to <= FIELD_COUNT && ParseFrom(page, flags, k, acc, s) ==
    match r
    case Lacking => Short
    case Faulty(e) => Bad(e)
    case Read(fields) => ParseFrom(page, flags, to, fields, rest)
  }

  ghost predicate ReadsPart(page: CodePage, flags: uint32, k: nat, acc: Fields, s: octets, r: PartRead, rest: octets) {
    ReadsParts(page, flags, k, k + 1, acc, s, r, rest)
  }

  lemma PartStep(page: CodePage, flags: uint32, k: nat, acc: Fields, reader: PacketReader, p: nat)
    requires k < FIELD_COUNT && p <= |reader.data|
    ensures var f, s, w := FieldAt(k), reader.data[p..], Width(FieldAt(k), acc);
      ParseFrom(page, flags, k, acc, s) ==
      if !HasFlag(flags, f) then ParseFrom(page, flags, k + 1, acc, s)
      else if |s| < w then Short
      else match Absorb(page, f, acc, reader.data[p..p + w])
        case Fault(e) => Bad(e)
        case Good(next) => ParseFrom(page, flags, k + 1, next, reader.data[p + w..])
  {
    hide ParseFrom, Absorb, Width, HasFlag, FieldAt;
    var s, w := reader.data[p..], Width(FieldAt(k), acc);
    ParseStep(page, flags, k, acc, s);
    if w <= |s| {
      assert s[..w] == reader.data[p..p + w] && s[w..] == reader.data[p + w..];
    }
  }

  function SetValue(acc: Fields, f: Field, v: uint32): Fields {
    match f
    case Value0 => acc.(value0 := Some(v))
    case Value1 => acc.(value1 := Some(v))
    case Value2 => acc.(value2 := Some(v))
    case Value3 => acc.(value3 := Some(v))
    case Value4 => acc.(value4 := Some(v))
    case Value10 => acc.(value10 := Some(v))
    case _ => acc.(error := Some(v))
  }

  method ReadValue(page: CodePage, reader: PacketReader, flags: uint32, k: nat, acc: Fields) returns (r: PartRead)
    requires reader.Valid() && (k < 6 || k == 8)
    modifies reader
    ensures reader.Valid()
    ensures ReadsPart(page, flags, k, acc, old(reader.Rest()), r, reader.Rest())
  {
    hide ParseFrom, HasFlag, GetU32;
    PartStep(page, flags, k, acc, reader, reader.pos);
    if HasFlag(flags, FieldAt(k)) {
      if !reader.CanRead(4) {
        return Lacking;
      }
      var v := reader.ReadU32();
      return Read(SetValue(acc, FieldAt(k), v));
    }
    return Read(acc);
  }

  method ReadDataLength(page: CodePage, reader: PacketReader, flags: uint32, acc: Fields) returns (r: PartRead)
    requires reader.Valid()
    modifies reader
    ensures reader.Valid()
    ensures ReadsPart(page, flags, 6, acc, old(reader.Rest()), r, reader.Rest())
  {
    hide ParseFrom, HasFlag, GetU32;
    PartStep(page, flags, 6, acc, reader, reader.pos);
    if HasFlag(flags, DataLength) {
      if !reader.CanRead(4) {
        return Lacking;
      }
      var dataLength := reader.ReadU32();
      if dataLength > MAX_DATA_LENGTH {
        return Faulty(DataLengthTooBig(dataLength));
      }
      return Read(acc.(dataLength := Some(dataLength)));
    }
    return Read(acc);
  }

  method ReadData(page: CodePage, reader: PacketReader, flags: uint32, acc: Fields) returns (r: PartRead)
    requires reader.Valid()
    modifies reader
    ensures reader.Valid()
    ensures ReadsPart(page, flags, 7, acc, old(reader.Rest()), r, reader.Rest())
  {
    hide ParseFrom, HasFlag, Decoded;
    PartStep(page, flags, 7, acc, reader, reader.pos);
    if HasFlag(flags, Data) {
      var length := ValueOr(acc.dataLength, 0);
      if !reader.CanRead(length) {
        return Lacking;
      }
      if length == 0 {
        return Read(acc.(data := Some([])));
      }
      var bytes := reader.ReadBytes(length);
      if bytes[|bytes| - 1] != 0 {
        return Faulty(MissingTerminator);
      }
      var encoded := bytes[..|bytes| - 1];
      if |encoded| > MAX_DATA_LENGTH {
        return Faulty(EncodedDataTooLong);
      }
      var decoded := Decode(page, encoded);
      if |decoded| > MAX_DATA_LENGTH {
        return Faulty(DecodedDataTooLong);
      }
      return Read(acc.(data := Some(decoded)));
    }
    return Read(acc);
  }

  /** The position of the first NUL, or the length. */
  method FindNul(s: octets) returns (n: nat)
    ensures n == |CString(s)| && CString(s) == s[..n]
  {
    n := 0;
    while n < |s| && s[n] != 0
      invariant n <= |s| && |CString(s)| == n + |CString(s[n..])|
    {
      assert s[n..][1..] == s[n + 1..];
      n := n + 1;
    }
  }

  method ReadName(page: CodePage, reader: PacketReader, flags: uint32, acc: Fields) returns (r: PartRead)
    requires reader.Valid()
    modifies reader
    ensures reader.Valid()
    ensures ReadsPart(page, flags, 9, acc, old(reader.Rest()), r, reader.Rest())
  {
    hide ParseFrom, HasFlag, Decoded;
    PartStep(page, flags, 9, acc, reader, reader.pos);
    if HasFlag(flags, Name) {
      if !reader.CanRead(MAX_NAME_LENGTH) {
        return Lacking;
      }
      var bytes := reader.ReadBytes(MAX_NAME_LENGTH);
      var length := FindNul(bytes);
      var encoded := bytes[..length];
      if |encoded| > MAX_NAME_LENGTH {
        return Faulty(EncodedNameTooLong);
      }
      var decoded := Decode(page, encoded);
      if |decoded| > MAX_NAME_LENGTH {
        return Faulty(DecodedNameTooLong);
      }
      return Read(acc.(name := Some(decoded)));
    }
    return Read(acc);
  }

  method ReadInfo(page: CodePage, reader: PacketReader, flags: uint32, acc: Fields) returns (r: PartRead)
    requires reader.Valid()
    modifies reader
    ensures reader.Valid()
    ensures ReadsPart(page, flags, 10, acc, old(reader.Rest()), r, reader.Rest())
  {
    hide ParseFrom, HasFlag, SI.GetInfo;
    PartStep(page, flags, 10, acc, reader, reader.pos);
    if HasFlag(flags, Info) {
      if !reader.CanRead(50) {
        return Lacking;
      }
      var info := SI.ReadFrom(reader);
      if info.None? {
        return Faulty(InvalidSessionInfo);
      }
      return Read(acc.(info := Some(info.value.(gameRelease := SI.GAME_RELEASE))));
    }
    return Read(acc);
  }

  method ReadParts(page: CodePage, reader: PacketReader, flags: uint32) returns (r: PartRead)
    requires reader.Valid()
    modifies reader
    ensures reader.Valid()
    ensures ReadsParts(page, flags, 0, FIELD_COUNT, NO_FIELDS, old(reader.Rest()), r, reader.Rest())
  {
    hide ParseFrom;
    r := ReadValues(page, reader, flags);
    if !r.Read? { return; }
    r := ReadDataLength(page, reader, flags, r.fields);
    if !r.Read? { return; }
    r := ReadData(page, reader, flags, r.fields);
    if !r.Read? { return; }
    r := ReadValue(page, reader, flags, 8, r.fields);
    if !r.Read? { return; }
    r := ReadName(page, reader, flags, r.fields);
    if !r.Read? { return; }
    r := ReadInfo(page, reader, flags, r.fields);
  }

  method ReadValues(page: CodePage, reader: PacketReader, flags: uint32) returns (r: PartRead)
    requires reader.Valid()
    modifies reader
    ensures reader.Valid()
    ensures ReadsParts(page, flags, 0, 6, NO_FIELDS, old(reader.Rest()), r, reader.Rest())
  {
    hide ParseFrom;
    r := ReadValue(page, reader, flags, 0, NO_FIELDS);
    if !r.Read? { return; }
    r := ReadValue(page, reader, flags, 1, r.fields);
    if !r.Read? { return; }
    r := ReadValue(page, reader, flags, 2, r.fields);
    if !r.Read? { return; }
    r := ReadValue(page, reader, flags, 3, r.fields);
    if !r.Read? { return; }
    r := ReadValue(page, reader, flags, 4, r.fields);
    if !r.Read? { return; }
    r := ReadValue(page, reader, flags, 5, r.fields);
  }

  function Outcome(r: PartRead): ParseResult
    requires !r.Read?
  {
    if r.Lacking? then Partial else Failed(r.error)
  }

  /** `WormsPacket::readFrom`: decides the front of the buffer as `Parse` says, leaving the cursor after a
      complete frame. */
  method ReadFrom(page: CodePage, reader: PacketReader) returns (r: ParseResult)
    requires reader.Valid()
    modifies reader
    ensures reader.Valid()
    ensures r == Parse(page, old(reader.Rest()))
    ensures r.Complete? ==> reader.pos == old(reader.pos) + r.consumed
  {
    hide ParseFrom, GetU32, PacketCodeExists;
    var start := reader.pos;
    ghost var s := reader.Rest();
    if !reader.CanRead(8) {
      return Partial;
    }
    HeaderSlices(reader.data, start);
    var code := reader.ReadU32();
    if !PacketCodeExists(code) {
      return Failed(UnknownCode(code));
    }
    var flags := reader.ReadU32();
    var part := ReadParts(page, reader, flags);
    if !part.Read? {
      return Outcome(part);
    }
    ParseEnd(page, flags, part.fields, reader.Rest());
    return Complete(Packet(code, part.fields), reader.pos - start);
  }

  lemma ParseEnd(page: CodePage, flags: uint32, acc: Fields, s: octets)
    ensures ParseFrom(page, flags, FIELD_COUNT, acc, s) == Done(acc, s)
  {
  }

  // ---- Writing ----

  /** The place in the layout of the part with flag `1 << i`. */
  function RankOfBit(i: nat): nat {
    if i < 5 then i else if i < 10 then i + 1 else 5
  }

  /** The flags of the first `k` parts. */
  ghost function PresenceUpto(p: Fields, k: nat): (digits: seq<bool>)
    ensures |digits| == FIELD_COUNT
  {
    seq(FIELD_COUNT, i requires 0 <= i < FIELD_COUNT => RankOfBit(i) < k && Presence(p)[i])
  }

  lemma BitsFollowLayout(i: nat, k: nat)
    requires i < FIELD_COUNT && k < FIELD_COUNT
    ensures RankOfBit(i) == k <==> BitOf(FieldAt(k)) == i
  {
  }

  lemma PresenceGrows(p: Fields, k: nat)
    requires k < FIELD_COUNT
    ensures PresenceUpto(p, k + 1) == PresenceUpto(p, k)[BitOf(FieldAt(k)) := Present(p, FieldAt(k))]
    ensures !PresenceUpto(p, k)[BitOf(FieldAt(k))]
  {
    hide FieldAt, BitOf, RankOfBit, Presence, Present;
    PresenceOf(p, FieldAt(k));
    var next := PresenceUpto(p, k)[BitOf(FieldAt(k)) := Present(p, FieldAt(k))];
    forall i | 0 <= i < FIELD_COUNT ensures PresenceUpto(p, k + 1)[i] == next[i] {
      BitsFollowLayout(i, k);
    }
    BitsFollowLayout(BitOf(FieldAt(k)), k);
  }

  /** One `flags |= bit` of `getFlagsFromFields`. */
  method AddFlag(flags: uint32, p: Fields, k: nat) returns (r: uint32)
    requires k < FIELD_COUNT && flags == Binary(PresenceUpto(p, k))
    ensures r == Binary(PresenceUpto(p, k + 1))
  {
    hide Presence, PresenceUpto, FieldAt, Binary;
    var f := FieldAt(k);
    PresenceGrows(p, k);
    if Present(p, f) {
      SetBitOfBinary(PresenceUpto(p, k), BitOf(f));
      BinaryBelow(PresenceUpto(p, k + 1), FIELD_COUNT);
      return SetBit(flags, BitOf(f));
    }
    assert PresenceUpto(p, k + 1) == PresenceUpto(p, k);
    return flags;
  }

  method GetFlagsFromFields(p: Fields) returns (flags: uint32)
    ensures flags == FlagsOf(p)
  {
    hide Binary, Presence;
    NoFlags(PresenceUpto(p, 0));
    flags := 0;
    assert flags == Binary(PresenceUpto(p, 0));
    {
      hide PresenceUpto;
      flags := AddFlag(flags, p, 0);
      flags := AddFlag(flags, p, 1);
      flags := AddFlag(flags, p, 2);
      flags := AddFlag(flags, p, 3);
      flags := AddFlag(flags, p, 4);
      flags := AddFlag(flags, p, 5);
      flags := AddFlag(flags, p, 6);
      flags := AddFlag(flags, p, 7);
      flags := AddFlag(flags, p, 8);
      flags := AddFlag(flags, p, 9);
      flags := AddFlag(flags, p, 10);
    }
    assert PresenceUpto(p, FIELD_COUNT) == Presence(p);
  }

  lemma {:induction false} NoFlags(digits: seq<bool>)
    requires forall i :: 0 <= i < |digits| ==> !digits[i]
    ensures Binary(digits) == 0
  {
    if digits != [] {
      NoFlags(digits[1..]);
    }
  }

  /** Parts `from` up to `to` have been appended. */
  ghost predicate Wrote(page: CodePage, p: Fields, from: nat, to: nat, before: octets, after: octets) {
    from <= to <= FIELD_COUNT && after + PrintFrom(page, p, to) == before + PrintFrom(page, p, from)
  }

  lemma Appended(page: CodePage, p: Fields, k: nat, before: octets, after: octets)
    requires k < FIELD_COUNT && after == before + Image(page, p, FieldAt(k))
    ensures Wrote(page, p, k, k + 1, before, after)
  {
    hide Image, FieldAt;
  }

  method WriteValue(page: CodePage, p: Fields, v: Option<uint32>, k: nat, writer: PacketWriter)
    requires k < 6 || k == 8
    requires Image(page, p, FieldAt(k)) == PutOptional(v)
    modifies writer
    ensures Wrote(page, p, k, k + 1, old(writer.data), writer.data)
  {
    hide PutU32, FieldAt, Image, Wrote;
    if v.Some? {
      writer.WriteU32(v.value);
    }
    assert writer.data == old(writer.data) + PutOptional(v);
    Appended(page, p, k, old(writer.data), writer.data);
  }

  method WriteData(page: CodePage, p: Fields, writer: PacketWriter)
    modifies writer
    ensures Wrote(page, p, 6, 8, old(writer.data), writer.data)
  {
    hide PutU32, Encoded, PrintFrom;
    if p.data.Some? {
      var encoded := Encode(page, p.data.value);
      writer.WriteU32((|encoded| + 1) % 0x1_0000_0000);
      Appended(page, p, 6, old(writer.data), writer.data);
      ghost var middle := writer.data;
      writer.WriteBytes(encoded);
      writer.WriteU8(0);
      assert writer.data == middle + (encoded + [0]);
      Appended(page, p, 7, middle, writer.data);
    } else {
      assert writer.data == writer.data + [];
      Appended(page, p, 6, writer.data, writer.data);
      Appended(page, p, 7, writer.data, writer.data);
    }
  }

  /** A zero-filled block with the text copied over its front. */
  lemma BlockHoldsText(page: CodePage, name: octets, length: nat)
    requires length == |NameText(page, name)|
    ensures length <= |Encoded(page, name)|
    ensures Encoded(page, name)[..length] + Zeros(MAX_NAME_LENGTH)[length..] == NameBlock(page, name)
  {
    hide Encoded;
    assert Zeros(MAX_NAME_LENGTH)[length..] == Zeros(MAX_NAME_LENGTH - length);
  }

  method WriteName(page: CodePage, p: Fields, writer: PacketWriter)
    modifies writer
    ensures Wrote(page, p, 9, 10, old(writer.data), writer.data)
  {
    hide PutU32, Encoded, PrintFrom, Wrote, NameBlock, Zeros;
    if p.name.Some? {
      var encoded := Encode(page, p.name.value);
      var buffer := Zeros(MAX_NAME_LENGTH);
      var length := if |encoded| < MAX_NAME_LENGTH then |encoded| else MAX_NAME_LENGTH;
      BlockHoldsText(page, p.name.value, length);
      buffer := encoded[..length] + buffer[length..];
      writer.WriteBytes(buffer);
    }
    assert writer.data == old(writer.data) + Image(page, p, Name);
    Appended(page, p, 9, old(writer.data), writer.data);
  }

  method WriteInfo(page: CodePage, p: Fields, writer: PacketWriter)
    modifies writer
    ensures Wrote(page, p, 10, 11, old(writer.data), writer.data)
  {
    hide SI.PutInfo, PrintFrom, Wrote;
    if p.info.Some? {
      SI.WriteTo(p.info.value, writer);
    }
    assert writer.data == old(writer.data) + Image(page, p, Info);
    Appended(page, p, 10, old(writer.data), writer.data);
  }

  method WriteValues(page: CodePage, p: Fields, writer: PacketWriter)
    modifies writer
    ensures Wrote(page, p, 0, 6, old(writer.data), writer.data)
  {
    hide PrintFrom;
    WriteValue(page, p, p.value0, 0, writer);
    WriteValue(page, p, p.value1, 1, writer);
    WriteValue(page, p, p.value2, 2, writer);
    WriteValue(page, p, p.value3, 3, writer);
    WriteValue(page, p, p.value4, 4, writer);
    WriteValue(page, p, p.value10, 5, writer);
  }

  /** `writeTo`: appends exactly the frame `Print` defines. */
  method WriteTo(page: CodePage, p: Packet, writer: PacketWriter)
    modifies writer
    ensures writer.data == old(writer.data) + Print(page, p)
  {
    hide PrintFrom, PutU32, FlagsOf;
    writer.WriteU32(p.code);
    var flags := GetFlagsFromFields(p.fields);
    writer.WriteU32(flags);
    ghost var body := writer.data;
    WriteValues(page, p.fields, writer);
    WriteData(page, p.fields, writer);
    WriteValue(page, p.fields, p.fields.error, 8, writer);
    WriteName(page, p.fields, writer);
    WriteInfo(page, p.fields, writer);
    PrintEnd(page, p.fields);
    assert writer.data + [] == writer.data;
    assert writer.data == body + PrintFrom(page, p.fields, 0);
  }

  lemma PrintEnd(page: CodePage, p: Fields)
    ensures PrintFrom(page, p, FIELD_COUNT) == []
  {
  }

  method Freeze(page: CodePage, p: Packet) returns (frame: octets)
    ensures frame == Print(page, p)
  {
    var writer := new PacketWriter();
    WriteTo(page, p, writer);
    return writer.data;
  }
}
