/** What the wire format guarantees: frames are found at the same place whatever follows them, they are short,
    and the parser undoes the printer. */
module PacketLaws {
  import opened Bytes
  import opened CodePages
  import opened SessionInfos
  import opened Packets

  /** One part of a parse. */
  lemma ParseStep(page: CodePage, flags: uint32, k: nat, acc: Fields, s: octets)
    requires k < FIELD_COUNT
    ensures ParseFrom(page, flags, k, acc, s) ==
      if !HasFlag(flags, FieldAt(k)) then ParseFrom(page, flags, k + 1, acc, s)
      else if |s| < Width(FieldAt(k), acc) then Short
      else match Absorb(page, FieldAt(k), acc, s[..Width(FieldAt(k), acc)])
        case Fault(e) => Bad(e)
        case Good(next) => ParseFrom(page, flags, k + 1, next, s[Width(FieldAt(k), acc)..])
  {
    hide Absorb, Width, HasFlag, FieldAt;
  }

  // ---- Prefix stability ----

  lemma {:induction false} StableFrom(page: CodePage, flags: uint32, k: nat, acc: Fields, s: octets, t: octets)
    requires k <= FIELD_COUNT
    ensures match ParseFrom(page, flags, k, acc, s)
      case Short => true
      case Bad(e) => ParseFrom(page, flags, k, acc, s + t) == Bad(e)
      case Done(fields, rest) => ParseFrom(page, flags, k, acc, s + t) == Done(fields, rest + t)
    decreases FIELD_COUNT - k
  {
    hide Absorb, Width, HasFlag, FieldAt;
    if k < FIELD_COUNT {
      var f := FieldAt(k);
      var w := Width(f, acc);
      if !HasFlag(flags, f) {
        StableFrom(page, flags, k + 1, acc, s, t);
      } else if w <= |s| {
        assert (s + t)[..w] == s[..w] && (s + t)[w..] == s[w..] + t;
        match Absorb(page, f, acc, s[..w])
        case Fault(_) =>
        case Good(next) => StableFrom(page, flags, k + 1, next, s[w..], t);
      }
    }
  }

  /** Once the front of a buffer is decided, more bytes change neither the verdict nor the bytes used. */
  lemma ParseIsStable(page: CodePage, s: octets, t: octets)
    requires !Parse(page, s).Partial?
    ensures Parse(page, s + t) == Parse(page, s)
  {
    hide ParseFrom;
    var u := s + t;
    assert u[..4] == s[..4] && u[4..8] == s[4..8] && u[8..] == s[8..] + t;
    StableFrom(page, GetU32(s[4..8]), 0, NO_FIELDS, s[8..], t);
  }

  /** The bytes a frame uses parse to the same packet on their own, and nothing shorter parses at all. */
  lemma FrameIsMinimal(page: CodePage, s: octets, n: nat)
    requires Parse(page, s).Complete? && n <= Parse(page, s).consumed
    ensures Parse(page, s).consumed <= |s|
    ensures Parse(page, s[..n]) == if n == Parse(page, s).consumed then Parse(page, s) else Partial
  {
    hide ParseFrom;
    var c := Parse(page, s).consumed;
    assert s == s[..n] + s[n..];
    if !Parse(page, s[..n]).Partial? {
      ParseIsStable(page, s[..n], s[n..]);
    } else if n == c {
      FrameStandsAlone(page, s);
    }
  }

  lemma {:induction false} FrameStandsAloneFrom(page: CodePage, flags: uint32, k: nat, acc: Fields, s: octets, n: nat)
    requires k <= FIELD_COUNT
    requires ParseFrom(page, flags, k, acc, s).Done?
    requires n == |s| - |ParseFrom(page, flags, k, acc, s).rest|
    ensures ParseFrom(page, flags, k, acc, s[..n]) == Done(ParseFrom(page, flags, k, acc, s).fields, [])
    decreases FIELD_COUNT - k
  {
    hide Absorb, Width, HasFlag, FieldAt;
    if k < FIELD_COUNT {
      var f := FieldAt(k);
      var w := Width(f, acc);
      if !HasFlag(flags, f) {
        FrameStandsAloneFrom(page, flags, k + 1, acc, s, n);
      } else {
        var next := Absorb(page, f, acc, s[..w]).fields;
        assert w <= n by {
          assert |ParseFrom(page, flags, k + 1, next, s[w..]).rest| <= |s[w..]|;
        }
        assert s[..n][..w] == s[..w] && s[..n][w..] == s[w..][..n - w];
        FrameStandsAloneFrom(page, flags, k + 1, next, s[w..], n - w);
      }
    }
  }

  lemma FrameStandsAlone(page: CodePage, s: octets)
    requires Parse(page, s).Complete?
    ensures Parse(page, s).consumed <= |s|
    ensures Parse(page, s[..Parse(page, s).consumed]) == Parse(page, s)
  {
    hide ParseFrom;
    var n := Parse(page, s).consumed;
    var u := s[..n];
    assert u[..4] == s[..4] && u[4..8] == s[4..8] && u[8..] == s[8..][..n - 8];
    FrameStandsAloneFrom(page, GetU32(s[4..8]), 0, NO_FIELDS, s[8..], n - 8);
  }

  // ---- Frame bound ----

  const MAX_FRAME := 622

  /** The most bytes the parts from `k` on can take. */
  function Budget(k: nat): nat
    requires k <= FIELD_COUNT
    decreases FIELD_COUNT - k
  {
    if k == FIELD_COUNT then 0
    else
      (match FieldAt(k) case Data => MAX_DATA_LENGTH case f => Width(f, NO_FIELDS)) + Budget(k + 1)
  }

  lemma MaxFrame()
    ensures Budget(0) + 8 == MAX_FRAME
  {
    assert Budget(6) == 4 + 512 + 4 + 20 + 50;
    assert Budget(3) == 12 + Budget(6);
  }

  predicate LengthBounded(acc: Fields) {
    ValueOr(acc.dataLength, 0) <= MAX_DATA_LENGTH
  }

  lemma WidthWithinBudget(page: CodePage, k: nat, acc: Fields, s: octets)
    requires k < FIELD_COUNT && LengthBounded(acc)
    ensures Width(FieldAt(k), acc) + Budget(k + 1) <= Budget(k)
    ensures |s| == Width(FieldAt(k), acc) ==>
      match Absorb(page, FieldAt(k), acc, s) case Fault(_) => true case Good(next) => LengthBounded(next)
  {
    hide Decoded, CString, GetU32, GetInfo;
  }

  lemma {:induction false} BoundedFrom(page: CodePage, flags: uint32, k: nat, acc: Fields, s: octets)
    requires k <= FIELD_COUNT && LengthBounded(acc)
    ensures match ParseFrom(page, flags, k, acc, s)
      case Short => |s| < Budget(k)
      case Bad(_) => true
      case Done(_, rest) => |s| - |rest| <= Budget(k)
    decreases FIELD_COUNT - k
  {
    hide Absorb, Width, HasFlag, FieldAt, Budget, LengthBounded;
    if k < FIELD_COUNT {
      var f := FieldAt(k);
      var w := Width(f, acc);
      WidthWithinBudget(page, k, acc, if w <= |s| then s[..w] else []);
      if !HasFlag(flags, f) {
        BoundedFrom(page, flags, k + 1, acc, s);
      } else if w <= |s| {
        match Absorb(page, f, acc, s[..w])
        case Fault(_) =>
        case Good(next) => BoundedFrom(page, flags, k + 1, next, s[w..]);
      }
    }
  }

  /** No frame is longer than 622 bytes, and a buffer that long is never undecided. */
  lemma FrameBound(page: CodePage, s: octets)
    ensures Parse(page, s).Complete? ==> 8 <= Parse(page, s).consumed <= |s| && Parse(page, s).consumed <= MAX_FRAME
    ensures Parse(page, s).Partial? ==> |s| < MAX_FRAME
  {
    hide ParseFrom, Budget;
    MaxFrame();
    if |s| >= 8 {
      BoundedFrom(page, GetU32(s[4..8]), 0, NO_FIELDS, s[8..]);
    }
  }

  // ---- What a parsed packet looks like ----

  /** Names hold no NUL and, like data, are bounded after decoding. */
  predicate TextsInBounds(p: Fields) {
    && (p.name.Some? ==> NulFree(p.name.value) && |p.name.value| <= MAX_NAME_LENGTH)
    && (p.data.Some? ==> |p.data.value| <= MAX_DATA_LENGTH)
    && (p.info.Some? ==> Verified(p.info.value) && p.info.value.gameRelease == GAME_RELEASE)
  }

  predicate WellParsed(p: Packet) {
    PacketCodeExists(p.code) && TextsInBounds(p.fields)
  }

  lemma AbsorbKeepsBounds(page: CodePage, f: Field, acc: Fields, s: octets)
    requires |s| == Width(f, acc) && TextsInBounds(acc)
    ensures Absorb(page, f, acc, s).Good? ==> TextsInBounds(Absorb(page, f, acc, s).fields)
  {
    hide Encoded, Decoded;
    if f.Name? {
      DecodedNulFree(page, CString(s));
    }
  }

  lemma {:induction false} ParsedFromInBounds(page: CodePage, flags: uint32, k: nat, acc: Fields, s: octets)
    requires k <= FIELD_COUNT && TextsInBounds(acc)
    ensures var r := ParseFrom(page, flags, k, acc, s); r.Done? ==> TextsInBounds(r.fields)
    decreases FIELD_COUNT - k
  {
    hide Absorb, Width, HasFlag, FieldAt, TextsInBounds;
    if k < FIELD_COUNT {
      var f := FieldAt(k);
      var w := Width(f, acc);
      if !HasFlag(flags, f) {
        ParsedFromInBounds(page, flags, k + 1, acc, s);
      } else if w <= |s| {
        AbsorbKeepsBounds(page, f, acc, s[..w]);
        match Absorb(page, f, acc, s[..w])
        case Fault(_) =>
        case Good(next) => ParsedFromInBounds(page, flags, k + 1, next, s[w..]);
      }
    }
  }

  lemma ParserYieldsWellParsed(page: CodePage, s: octets)
    requires Parse(page, s).Complete?
    ensures WellParsed(Parse(page, s).packet)
  {
    hide ParseFrom;
    ParsedFromInBounds(page, GetU32(s[4..8]), 0, NO_FIELDS, s[8..]);
  }

  // ---- The parser undoes the printer ----

  /** What reading back makes of a name. */
  function NameEcho(page: CodePage, name: octets): octets {
    Decoded(page, CString(NameText(page, name)))
  }

  /** The first `k` parts of `p` as they are read back: text is normalised, the data length is filled in from
      the data, and the game release becomes 49. */
  function EchoUpto(page: CodePage, p: Fields, k: nat): Fields {
    Fields(
      if k > 0 then p.value0 else None,
      if k > 1 then p.value1 else None,
      if k > 2 then p.value2 else None,
      if k > 3 then p.value3 else None,
      if k > 4 then p.value4 else None,
      if k > 5 then p.value10 else None,
      if k > 6 && p.data.Some? then Some(LengthOnWire(page, p.data.value)) else None,
      if k > 7 && p.data.Some? then Some(Normalised(page, p.data.value)) else None,
      if k > 8 then p.error else None,
      if k > 9 && p.name.Some? then Some(NameEcho(page, p.name.value)) else None,
      if k > 10 && p.info.Some? then Some(p.info.value.(gameRelease := GAME_RELEASE)) else None)
  }

  function Echo(page: CodePage, p: Packet): Packet {
    Packet(p.code, EchoUpto(page, p.fields, FIELD_COUNT))
  }

  /** The demands the format makes on one part. */
  predicate Fits(page: CodePage, p: Fields, f: Field) {
    match f
    case DataLength =>
      && (p.dataLength.Some? ==> p.data.Some?)
      && (p.data.Some? ==> |Encoded(page, p.data.value)| + 1 <= MAX_DATA_LENGTH)
    case Data => p.data.Some? ==> |Normalised(page, p.data.value)| <= MAX_DATA_LENGTH
    case Name => p.name.Some? ==> |NameEcho(page, p.name.value)| <= MAX_NAME_LENGTH
    case Info => p.info.Some? ==> Verified(p.info.value)
    case _ => true
  }

  /** The packets that can be sent to a reader like this one. */
  predicate Printable(page: CodePage, p: Packet) {
    && PacketCodeExists(p.code)
    && Fits(page, p.fields, DataLength)
    && Fits(page, p.fields, Data)
    && Fits(page, p.fields, Name)
    && Fits(page, p.fields, Info)
  }

  lemma {:induction false} CStringOfPadded(s: octets, n: nat)
    ensures CString(s + Zeros(n)) == CString(s)
  {
    if s == [] {
      assert s + Zeros(n) == Zeros(n);
    } else {
      assert (s + Zeros(n))[1..] == s[1..] + Zeros(n);
      CStringOfPadded(s[1..], n);
    }
  }

  /** Part `k` is read back from its image as its echo. */
  ghost predicate Echoes(page: CodePage, p: Fields, k: nat)
    requires k < FIELD_COUNT
  {
    var f, acc, image := FieldAt(k), EchoUpto(page, p, k), Image(page, p, FieldAt(k));
    if Present(p, f) then
      |image| == Width(f, acc) && Absorb(page, f, acc, image) == Good(EchoUpto(page, p, k + 1))
    else
      image == [] && EchoUpto(page, p, k + 1) == acc
  }

  lemma ValueEchoes(page: CodePage, p: Fields, k: nat)
    requires k < 6 || k == 8
    ensures Echoes(page, p, k)
  {
    hide Encoded, Decoded, PutU32, GetU32;
    match FieldAt(k)
    case Value0 => EchoOfValue(p.value0);
    case Value1 => EchoOfValue(p.value1);
    case Value2 => EchoOfValue(p.value2);
    case Value3 => EchoOfValue(p.value3);
    case Value4 => EchoOfValue(p.value4);
    case Value10 => EchoOfValue(p.value10);
    case Error => EchoOfValue(p.error);
  }

  lemma EchoOfValue(v: Option<uint32>)
    ensures v.Some? ==> |PutOptional(v)| == 4 && GetU32(PutOptional(v)) == v.value
  {
    if v.Some? {
      GetAfterPut(v.value);
    }
  }

  lemma LengthEchoes(page: CodePage, p: Fields)
    requires Fits(page, p, DataLength)
    ensures Echoes(page, p, 6)
  {
    hide Encoded, Decoded, PutU32, GetU32;
    if p.data.Some? {
      GetAfterPut(LengthOnWire(page, p.data.value));
    }
  }

  lemma DataEchoes(page: CodePage, p: Fields)
    requires Fits(page, p, DataLength) && Fits(page, p, Data)
    ensures Echoes(page, p, 7)
  {
    hide Encoded, Decoded;
    if p.data.Some? {
      var encoded := Encoded(page, p.data.value);
      assert (encoded + [0])[..|encoded|] == encoded;
    }
  }

  lemma NameAbsorbed(page: CodePage, acc: Fields, name: octets)
    ensures AbsorbName(page, acc, NameBlock(page, name)) ==
      if |NameEcho(page, name)| <= MAX_NAME_LENGTH then Good(acc.(name := Some(NameEcho(page, name))))
      else Fault(DecodedNameTooLong)
  {
    hide Encoded, Decoded;
    var text := NameText(page, name);
    CStringOfPadded(text, MAX_NAME_LENGTH - |text|);
  }

  lemma NameEchoes(page: CodePage, p: Fields)
    requires Fits(page, p, Name)
    ensures Echoes(page, p, 9)
  {
    hide Encoded, Decoded;
    if p.name.Some? {
      NameAbsorbed(page, EchoUpto(page, p, 9), p.name.value);
    }
  }

  lemma InfoEchoes(page: CodePage, p: Fields)
    requires Fits(page, p, Info)
    ensures Echoes(page, p, 10)
  {
    hide Encoded, Decoded, PutInfo, GetInfo;
    if p.info.Some? {
      GetAfterPutInfo(p.info.value);
    }
  }

  lemma FittingPartEchoes(page: CodePage, p: Fields, k: nat)
    requires k < FIELD_COUNT && Fits(page, p, FieldAt(k))
    requires k == 7 ==> Fits(page, p, DataLength)
    ensures Echoes(page, p, k)
  {
    hide Echoes, Fits;
    if k == 6 {
      LengthEchoes(page, p);
    } else if k == 7 {
      DataEchoes(page, p);
    } else if k == 9 {
      NameEchoes(page, p);
    } else if k == 10 {
      InfoEchoes(page, p);
    } else {
      ValueEchoes(page, p, k);
    }
  }

  /** The data length is settled once its part is past. */
  lemma {:induction false} DataLengthSticks(page: CodePage, flags: uint32, k: nat, acc: Fields, s: octets)
    requires 7 <= k <= FIELD_COUNT
    ensures var r := ParseFrom(page, flags, k, acc, s); r.Done? ==> r.fields.dataLength == acc.dataLength
    decreases FIELD_COUNT - k
  {
    hide Decoded, CString, GetU32, GetInfo, HasFlag, Verified;
    if k < FIELD_COUNT {
      var f := FieldAt(k);
      var w := Width(f, acc);
      if !HasFlag(flags, f) {
        DataLengthSticks(page, flags, k + 1, acc, s);
      } else if w <= |s| {
        match Absorb(page, f, acc, s[..w])
        case Fault(_) =>
        case Good(next) => DataLengthSticks(page, flags, k + 1, next, s[w..]);
      }
    }
  }

  /** Reading back the parts from `k` on. */
  ghost predicate ReadsBackFrom(page: CodePage, p: Fields, k: nat, rest: octets)
    requires k <= FIELD_COUNT
  {
    ParseFrom(page, FlagsOf(p), k, EchoUpto(page, p, k), PrintFrom(page, p, k) + rest)
    == Done(EchoUpto(page, p, FIELD_COUNT), rest)
  }

  lemma LoneLengthSpoils(page: CodePage, p: Fields, rest: octets)
    requires p.dataLength.Some? && p.data.None?
    ensures !ReadsBackFrom(page, p, 6, rest)
  {
    hide Encoded, Decoded, PutU32, GetU32, HasFlag, FlagsOf, Image;
    FlagsSayWhatIsPresent(p, DataLength);
    var s := PrintFrom(page, p, 6) + rest;
    if |s| >= 4 && GetU32(s[..4]) <= MAX_DATA_LENGTH {
      var acc := EchoUpto(page, p, 6).(dataLength := Some(GetU32(s[..4])));
      DataLengthSticks(page, FlagsOf(p), 7, acc, s[4..]);
    }
  }

  lemma FlaggedStep(page: CodePage, flags: uint32, k: nat, acc: Fields, image: octets, tail: octets)
    requires k < FIELD_COUNT && HasFlag(flags, FieldAt(k)) && |image| == Width(FieldAt(k), acc)
    ensures ParseFrom(page, flags, k, acc, image + tail) ==
      match Absorb(page, FieldAt(k), acc, image)
      case Fault(e) => Bad(e)
      case Good(next) => ParseFrom(page, flags, k + 1, next, tail)
  {
    hide Absorb, Width, HasFlag, FieldAt;
    assert (image + tail)[..|image|] == image && (image + tail)[|image|..] == tail;
  }

  lemma SixthIsDataLength(page: CodePage, p: Fields)
    ensures FieldAt(6) == DataLength && Budget(6) == 4 + 512 + 4 + 20 + 50
    ensures LengthBounded(EchoUpto(page, p, 6))
  {
  }

  lemma LongDataIsPrinted(page: CodePage, p: Fields)
    requires p.data.Some?
    ensures PrintFrom(page, p, 6) == PutU32(LengthOnWire(page, p.data.value)) + PrintFrom(page, p, 7)
    ensures |PrintFrom(page, p, 7)| > |Encoded(page, p.data.value)|
  {
    hide Encoded, PutU32, NameBlock, PutInfo;
  }

  lemma LongDataSpoils(page: CodePage, p: Fields, rest: octets)
    requires p.data.Some? && |Encoded(page, p.data.value)| + 1 > MAX_DATA_LENGTH
    ensures !ReadsBackFrom(page, p, 6, rest)
  {
    hide Encoded, Decoded, PutU32, GetU32, HasFlag, FlagsOf, ParseFrom, PrintFrom, Budget, EchoUpto;
    var length := LengthOnWire(page, p.data.value);
    var acc := EchoUpto(page, p, 6);
    var tail := PrintFrom(page, p, 7) + rest;
    LongDataIsPrinted(page, p);
    assert PrintFrom(page, p, 6) + rest == PutU32(length) + tail;
    SixthIsDataLength(page, p);
    BoundedFrom(page, FlagsOf(p), 6, acc, PutU32(length) + tail);
    FlagsSayWhatIsPresent(p, DataLength);
    GetAfterPut(length);
    FlaggedStep(page, FlagsOf(p), 6, acc, PutU32(length), tail);
  }

  lemma BadImageSpoils(page: CodePage, p: Fields, k: nat, rest: octets)
    requires k < FIELD_COUNT && Present(p, FieldAt(k))
    requires |Image(page, p, FieldAt(k))| == Width(FieldAt(k), EchoUpto(page, p, k))
    requires Absorb(page, FieldAt(k), EchoUpto(page, p, k), Image(page, p, FieldAt(k))).Fault?
    ensures !ReadsBackFrom(page, p, k, rest)
  {
    hide Absorb, Width, Image, FieldAt, Present, HasFlag, FlagsOf, ParseFrom, EchoUpto;
    var image, tail := Image(page, p, FieldAt(k)), PrintFrom(page, p, k + 1) + rest;
    assert PrintFrom(page, p, k) + rest == image + tail;
    FlagsSayWhatIsPresent(p, FieldAt(k));
    FlaggedStep(page, FlagsOf(p), k, EchoUpto(page, p, k), image, tail);
  }

  /** A part that does not fit is refused, or throws the reader out of step. */
  lemma MisfitSpoils(page: CodePage, p: Fields, k: nat, rest: octets)
    requires k < FIELD_COUNT && !Fits(page, p, FieldAt(k))
    requires k >= 7 ==> Fits(page, p, DataLength)
    ensures !ReadsBackFrom(page, p, k, rest)
  {
    hide Encoded, Decoded, ReadsBackFrom, PutInfo, GetInfo, NameBlock, AbsorbName, NameEcho;
    if k == 6 {
      if p.data.None? {
        LoneLengthSpoils(page, p, rest);
      } else {
        LongDataSpoils(page, p, rest);
      }
    } else if k == 7 {
      var encoded := Encoded(page, p.data.value);
      assert (encoded + [0])[..|encoded|] == encoded;
      BadImageSpoils(page, p, k, rest);
    } else if k == 9 {
      NameAbsorbed(page, EchoUpto(page, p, k), p.name.value);
      BadImageSpoils(page, p, k, rest);
    } else {
      GetAfterPutInfo(p.info.value);
      BadImageSpoils(page, p, k, rest);
    }
  }

  ghost predicate FitsFrom(page: CodePage, p: Fields, k: nat)
    requires k <= FIELD_COUNT
  {
    forall j :: k <= j < FIELD_COUNT ==> Fits(page, p, FieldAt(j))
  }

  lemma {:induction false} ReadsBackExactlyFrom(page: CodePage, p: Fields, k: nat, rest: octets)
    requires k <= FIELD_COUNT
    requires k >= 7 ==> Fits(page, p, DataLength)
    ensures ReadsBackFrom(page, p, k, rest) <==> FitsFrom(page, p, k)
    decreases FIELD_COUNT - k
  {
    hide Encoded, Decoded, HasFlag, FlagsOf, Image, Fits, EchoUpto, Absorb, Width, Present, FieldAt;
    if k == FIELD_COUNT {
      assert PrintFrom(page, p, k) + rest == rest;
    } else if !Fits(page, p, FieldAt(k)) {
      MisfitSpoils(page, p, k, rest);
    } else {
      var f, acc := FieldAt(k), EchoUpto(page, p, k);
      var image, tail := Image(page, p, f), PrintFrom(page, p, k + 1) + rest;
      assert PrintFrom(page, p, k) + rest == image + tail;
      SixthIsDataLength(page, p);
      FlagsSayWhatIsPresent(p, f);
      FittingPartEchoes(page, p, k);
      if Present(p, f) {
        FlaggedStep(page, FlagsOf(p), k, acc, image, tail);
      } else {
        assert image + tail == tail;
      }
      ReadsBackExactlyFrom(page, p, k + 1, rest);
    }
  }

  /** The parser undoes the printer: a printed packet, whatever follows it, is read back whole, using its own
      bytes exactly, up to the stated echo, if and only if it is printable. */
  lemma ParserUndoesPrinter(page: CodePage, p: Packet, rest: octets)
    ensures Parse(page, Print(page, p) + rest) == Complete(Echo(page, p), |Print(page, p)|) <==> Printable(page, p)
  {
    hide ParseFrom, PrintFrom, EchoUpto, Fits, FlagsOf, PutU32, GetU32;
    var flags, body := FlagsOf(p.fields), PrintFrom(page, p.fields, 0);
    var s := Print(page, p) + rest;
    assert s[..4] == PutU32(p.code) && s[4..8] == PutU32(flags) && s[8..] == body + rest;
    GetAfterPut(p.code);
    GetAfterPut(flags);
    assert EchoUpto(page, p.fields, 0) == NO_FIELDS by { NothingEchoed(page, p.fields); }
    ReadsBackExactlyFrom(page, p.fields, 0, rest);
    FitsFromStart(page, p.fields);
    if Parse(page, s) == Complete(Echo(page, p), |Print(page, p)|) {
      var r := ParseFrom(page, flags, 0, NO_FIELDS, body + rest);
      assert |r.rest| == |rest|;
      RestIsSuffix(page, flags, 0, NO_FIELDS, body + rest);
      assert (body + rest)[|body|..] == rest;
    }
  }

  /** Some frame is parsed to this packet. */
  ghost predicate Deliverable(page: CodePage, p: Packet) {
    exists frame :: Parse(page, frame) == Complete(p, |frame|)
  }

  /** A client's packet with plain texts, as it is read: the announced length is that of the data. */
  predicate PlainPacket(p: Packet) {
    && PacketCodeExists(p.code)
    && (p.fields.name.Some? ==> Plain(p.fields.name.value) && |p.fields.name.value| <= MAX_NAME_LENGTH)
    && (p.fields.data.Some? ==> Plain(p.fields.data.value) && |p.fields.data.value| < MAX_DATA_LENGTH)
    && p.fields.dataLength == (if p.fields.data.Some? then Some(|p.fields.data.value| + 1) else None)
    && (p.fields.info.Some? ==> Verified(p.fields.info.value) && p.fields.info.value.gameRelease == GAME_RELEASE)
  }

  lemma PlainName(page: CodePage, name: octets)
    requires Plain(name) && |name| <= MAX_NAME_LENGTH
    ensures NameEcho(page, name) == name
  {
    hide Encoded, Decoded;
    PlainIsUntouched(page, name);
    CStringOfNulFree(name);
  }

  lemma PlainEcho(page: CodePage, p: Packet)
    requires PlainPacket(p)
    ensures Echo(page, p) == p && Printable(page, p)
  {
    hide Encoded, Decoded, NameEcho;
    if p.fields.name.Some? {
      PlainName(page, p.fields.name.value);
    }
    if p.fields.data.Some? {
      PlainIsUntouched(page, p.fields.data.value);
    }
  }

  /** Every plain packet has a frame: its own printed form. */
  lemma PlainIsDeliverable(page: CodePage, p: Packet)
    requires PlainPacket(p)
    ensures Parse(page, Print(page, p)) == Complete(p, |Print(page, p)|)
    ensures Deliverable(page, p) && WellParsed(p)
  {
    hide Parse, Print, Echo, Printable, PlainPacket, WellParsed;
    PlainEcho(page, p);
    ParserUndoesPrinter(page, p, []);
    assert Print(page, p) + [] == Print(page, p);
    ParserYieldsWellParsed(page, Print(page, p));
  }

  lemma NothingEchoed(page: CodePage, p: Fields)
    ensures EchoUpto(page, p, 0) == NO_FIELDS
  {
  }

  lemma FitsFromStart(page: CodePage, p: Fields)
    ensures FitsFrom(page, p, 0) <==>
      Fits(page, p, DataLength) && Fits(page, p, Data) && Fits(page, p, Name) && Fits(page, p, Info)
  {
    hide Encoded, Decoded;
    assert FieldAt(6) == DataLength && FieldAt(7) == Data && FieldAt(9) == Name && FieldAt(10) == Info;
  }

  lemma {:induction false} RestIsSuffix(page: CodePage, flags: uint32, k: nat, acc: Fields, s: octets)
    requires k <= FIELD_COUNT
    ensures match ParseFrom(page, flags, k, acc, s)
      case Done(_, rest) => |rest| <= |s| && rest == s[|s| - |rest|..]
      case _ => true
    decreases FIELD_COUNT - k
  {
    hide Absorb, Width, HasFlag, FieldAt;
    if k < FIELD_COUNT {
      var f := FieldAt(k);
      var w := Width(f, acc);
      if !HasFlag(flags, f) {
        RestIsSuffix(page, flags, k + 1, acc, s);
      } else if w <= |s| {
        match Absorb(page, f, acc, s[..w])
        case Fault(_) =>
        case Good(next) => RestIsSuffix(page, flags, k + 1, next, s[w..]);
      }
    }
  }
}
