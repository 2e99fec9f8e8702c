/** What a frame is, without reference to how it is parsed: which parts it has, in which order and of which length, what
    each must hold, and what each means (src/worms_packet.cpp, lines 34 to 227). */
module Reading {
  import opened Bytes
  import opened CodePages
  import opened SessionInfos
  import opened Packets
  import opened PacketLaws
  import Wire

  /** The parts of a frame as they lie behind its header: values 0 to 4, value 10, the length of the data, the data,
      the error, the name and the session block. */
  type Parts = parts: seq<Option<octets>> | |parts| == 11 witness NO_PARTS

  const NO_PARTS := [None, None, None, None, None, None, None, None, None, None, None]

  /** The flag of each part. */
  function FlagOfPart(k: nat): (flag: nat)
    requires k < 11
    ensures flag > 0
  {
    match k
    case 0 => 0x001
    case 1 => 0x002
    case 2 => 0x004
    case 3 => 0x008
    case 4 => 0x010
    case 5 => 0x400
    case 6 => 0x020
    case 7 => 0x040
    case 8 => 0x080
    case 9 => 0x100
    case _ => 0x200
  }

  function Number(part: Option<octets>): Option<uint32> {
    if part.Some? && |part.value| == 4 then Some(GetU32(part.value)) else None
  }

  /** A session block that is accepted. */
  predicate IsBlock(s: octets) {
    && |s| == 50 && s[..8] == [0x17, 0x17, 0x17, 0x17, 0x01, 0x01, 0x01, 0x02]
    && s[13] == 1 && s[14] == 0 && forall i :: 15 <= i < 50 ==> s[i] == 0
  }

  /** What a part must hold. The data is as long as was announced, or empty if nothing was, and ends in a NUL. */
  predicate Sound(page: CodePage, parts: Parts, k: nat)
    requires k < 11
  {
    parts[k].Some? ==>
      var s := parts[k].value;
      if k == 6 then |s| == 4 && GetU32(s) <= 512
      else if k == 7 then
        && |s| == ValueOr(Number(parts[6]), 0)
        && (s != [] ==> s[|s| - 1] == 0 && |Decoded(page, s[..|s| - 1])| <= 512)
      else if k == 9 then |s| == 20 && |Decoded(page, CString(s))| <= 20
      else if k == 10 then IsBlock(s)
      else |s| == 4
  }

  function DataOf(page: CodePage, part: Option<octets>): Option<octets> {
    match part
    case None => None
    case Some(s) => Some(if s == [] then [] else Decoded(page, s[..|s| - 1]))
  }

  function NameOf(page: CodePage, part: Option<octets>): Option<octets> {
    match part
    case None => None
    case Some(s) => Some(Decoded(page, CString(s)))
  }

  function InfoOf(part: Option<octets>): Option<SessionInfo> {
    if part.Some? && |part.value| == 50 then Some(GetInfo(part.value).(gameRelease := 49)) else None
  }

  /** What the parts mean. */
  function Meaning(page: CodePage, parts: Parts): Fields {
    Fields(Number(parts[0]), Number(parts[1]), Number(parts[2]), Number(parts[3]), Number(parts[4]), Number(parts[5]),
           Number(parts[6]), DataOf(page, parts[7]), Number(parts[8]), NameOf(page, parts[9]), InfoOf(parts[10]))
  }

  function Piece(parts: Parts, k: nat): octets
    requires k < 11
  {
    if parts[k].Some? then parts[k].value else []
  }

  function BytesFrom(parts: Parts, k: nat): octets
    requires k <= 11
    decreases 11 - k
  {
    if k == 11 then [] else Piece(parts, k) + BytesFrom(parts, k + 1)
  }

  /** The flag of a part is set exactly if it is there. */
  predicate FlagsMatch(flags: uint32, parts: Parts, k: nat)
    requires k < 11
  {
    flags / FlagOfPart(k) % 2 == 1 <==> parts[k].Some?
  }

  /** A frame of these parts, `n` bytes long, lies at the front of `s`. Flags that belong to no part are ignored. */
  ghost predicate Lies(page: CodePage, s: octets, n: nat, parts: Parts) {
    && 8 <= n <= |s| && s[8..n] == BytesFrom(parts, 0)
    && GetU32(s[..4]) in {200, 400, 500, 600, 700, 800, 900, 1100, 1200, 1300, 1326}
    && (forall k :: 0 <= k < 11 ==> FlagsMatch(GetU32(s[4..8]), parts, k) && Sound(page, parts, k))
  }

  // ---- Part by part ----

  lemma FlagIsTested(flags: uint32, k: nat)
    requires k < 11
    ensures HasFlag(flags, FieldAt(k)) <==> flags / FlagOfPart(k) % 2 == 1
  {
    var n: nat := flags;
    TestedBit(n, BitOf(FieldAt(k)));
  }

  lemma {:induction false} PowerIsPositive(i: nat)
    ensures PowerOfTwo(i) > 0
  {
    if i > 0 {
      PowerIsPositive(i - 1);
    }
  }

  lemma {:induction false} TestedBit(n: nat, i: nat)
    ensures PowerOfTwo(i) > 0
    ensures TestBit(n, i) <==> n / PowerOfTwo(i) % 2 == 1
  {
    PowerIsPositive(i);
    if i > 0 {
      PowerIsPositive(i - 1);
      TestedBit(n / 2, i - 1);
      Halved(n, PowerOfTwo(i - 1));
    }
  }

  lemma Halved(n: nat, d: nat)
    requires d > 0
    ensures n / 2 / d == n / (2 * d)
  {
    var q, r := n / 2 / d, n / 2 % d;
    assert n / 2 == q * d + r;
    assert n == 2 * (n / 2) + n % 2;
    assert n == q * (2 * d) + (2 * r + n % 2) && 2 * r + n % 2 < 2 * d;
    Quotient(n, 2 * d, q, 2 * r + n % 2);
  }

  lemma Quotient(n: nat, d: nat, q: nat, r: nat)
    requires d > 0 && n == q * d + r && r < d
    ensures n / d == q
  {
    assert n / d * d + n % d == n;
    AtLeastOnce(d, q - n / d);
    AtLeastOnce(d, n / d - q);
  }

  lemma AtLeastOnce(d: nat, x: int)
    ensures x >= 1 ==> d * x >= d
  {
  }

  /** The parts before the k-th. */
  function Upto(parts: Parts, k: nat): Parts {
    seq(11, i requires 0 <= i < 11 => if i < k then parts[i] else None)
  }

  lemma UptoGrows(page: CodePage, parts: Parts, k: nat)
    requires k < 11
    ensures Upto(parts, k + 1) == Upto(parts, k)[k := parts[k]]
    ensures parts[k].None? ==> Upto(parts, k + 1) == Upto(parts, k)
  {
  }

  /** How much of a part the parser takes, given the parts before it. */
  lemma WidthOfPart(page: CodePage, parts: Parts, k: nat)
    requires k < 11
    ensures Width(FieldAt(k), Meaning(page, Upto(parts, k))) ==
      if k == 7 then ValueOr(Number(parts[6]), 0) else if k == 9 then 20 else if k == 10 then 50 else 4
  {
    hide GetU32, Decoded, CString;
  }

  /** A part is absorbed exactly if it is sound, and then with its meaning. */
  lemma PartIsAbsorbed(page: CodePage, parts: Parts, k: nat)
    requires k < 11 && parts[k].Some?
    requires |parts[k].value| == Width(FieldAt(k), Meaning(page, Upto(parts, k)))
    requires k == 7 ==> Sound(page, parts, 6)
    ensures var r := Absorb(page, FieldAt(k), Meaning(page, Upto(parts, k)), parts[k].value);
      && (r.Good? <==> Sound(page, parts, k))
      && (r.Good? ==> r.fields == Meaning(page, Upto(parts, k + 1)))
  {
    hide GetU32, Decoded, CString, GetInfo, Verified, IsBlock;
    WidthOfPart(page, parts, k);
    UptoGrows(page, parts, k);
    if k == 10 {
      BlockIsAccepted(parts[k].value);
    }
  }

  lemma BlockIsAccepted(s: octets)
    requires |s| == 50
    ensures Verified(GetInfo(s)) <==> IsBlock(s)
  {
    hide Verified, GetInfo;
    Wire.BlockIsAcceptedExactly(s);
  }

  // ---- The whole frame ----

  lemma PartIsRead(page: CodePage, flags: uint32, parts: Parts, k: nat, tail: octets)
    requires k < 11 && FlagsMatch(flags, parts, k) && Sound(page, parts, k) && Sound(page, parts, 6)
    ensures ParseFrom(page, flags, k, Meaning(page, Upto(parts, k)), Piece(parts, k) + tail)
      == ParseFrom(page, flags, k + 1, Meaning(page, Upto(parts, k + 1)), tail)
  {
    hide FieldAt, HasFlag, Width, Absorb, Meaning, Sound, FlagOfPart, Upto, ParseFrom;
    FlagIsTested(flags, k);
    UptoGrows(page, parts, k);
    var acc := Meaning(page, Upto(parts, k));
    if parts[k].Some? {
      SoundWidth(page, parts, k);
      PartIsAbsorbed(page, parts, k);
      FlaggedStep(page, flags, k, acc, parts[k].value, tail);
    } else {
      ParseStep(page, flags, k, acc, tail);
      assert [] + tail == tail;
    }
  }

  /** Sound parts are read, with their meaning. */
  lemma {:induction false} PartsAreRead(page: CodePage, flags: uint32, parts: Parts, k: nat, rest: octets)
    requires k <= 11 && forall j :: 0 <= j < 11 ==> FlagsMatch(flags, parts, j) && Sound(page, parts, j)
    ensures ParseFrom(page, flags, k, Meaning(page, Upto(parts, k)), BytesFrom(parts, k) + rest)
      == Done(Meaning(page, parts), rest)
    decreases 11 - k
  {
    hide Meaning, Sound, FlagsMatch, Upto, ParseFrom, Piece, BytesFrom;
    if k == 11 {
      UptoAll(parts);
      NoBytesLeft(parts);
      assert [] + rest == rest;
      ParsedAll(page, flags, Meaning(page, parts), rest);
    } else {
      assert FlagsMatch(flags, parts, k) && Sound(page, parts, k) && Sound(page, parts, 6);
      BytesInTurn(parts, k, rest);
      PartIsRead(page, flags, parts, k, BytesFrom(parts, k + 1) + rest);
      PartsAreRead(page, flags, parts, k + 1, rest);
    }
  }

  lemma NoBytesLeft(parts: Parts)
    ensures BytesFrom(parts, 11) == []
  {
  }

  lemma BytesInTurn(parts: Parts, k: nat, rest: octets)
    requires k < 11
    ensures BytesFrom(parts, k) + rest == Piece(parts, k) + (BytesFrom(parts, k + 1) + rest)
  {
    assert BytesFrom(parts, k) == Piece(parts, k) + BytesFrom(parts, k + 1);
  }

  lemma UptoAll(parts: Parts)
    ensures Upto(parts, 11) == parts
  {
  }

  lemma SoundWidth(page: CodePage, parts: Parts, k: nat)
    requires k < 11 && parts[k].Some? && Sound(page, parts, k)
    ensures |parts[k].value| == Width(FieldAt(k), Meaning(page, Upto(parts, k)))
  {
    hide GetU32, Decoded, CString, Width, FieldAt, Meaning;
    WidthOfPart(page, parts, k);
  }

  /** Whatever is read was sound parts, of this meaning. */
  lemma {:induction false} PartsWereSound(page: CodePage, flags: uint32, parts: Parts, k: nat, s: octets)
    returns (all: Parts, rest: octets)
    requires k <= 11 && parts == Upto(parts, k)
    requires forall j :: 0 <= j < k ==> FlagsMatch(flags, parts, j) && Sound(page, parts, j)
    requires ParseFrom(page, flags, k, Meaning(page, parts), s).Done?
    ensures ParseFrom(page, flags, k, Meaning(page, parts), s) == Done(Meaning(page, all), rest)
    ensures s == BytesFrom(all, k) + rest && Upto(all, k) == parts
    ensures forall j :: 0 <= j < 11 ==> FlagsMatch(flags, all, j) && Sound(page, all, j)
    decreases 11 - k
  {
    hide FieldAt, HasFlag, Width, Absorb, Meaning, Sound, FlagOfPart, FlagsMatch, ParseFrom, BytesFrom, Piece, Upto;
    if k == 11 {
      all, rest := parts, s;
      NoBytesLeft(all);
      assert [] + s == s;
      ParsedAll(page, flags, Meaning(page, parts), s);
      return;
    }
    var next, tail := NextPart(page, flags, parts, k, s);
    all, rest := PartsWereSound(page, flags, next, k + 1, tail);
    UptoTwice(all, next, parts, k);
    BytesInTurn(all, k, rest);
  }

  lemma UptoTwice(all: Parts, next: Parts, parts: Parts, k: nat)
    requires k < 11 && Upto(all, k + 1) == next && Upto(next, k) == parts
    ensures Upto(all, k) == parts && Piece(all, k) == Piece(next, k)
  {
    assert all[k] == Upto(all, k + 1)[k] == next[k];
  }

  /** One part more of what is being read. */
  lemma NextPart(page: CodePage, flags: uint32, parts: Parts, k: nat, s: octets) returns (next: Parts, tail: octets)
    requires k < 11 && parts == Upto(parts, k)
    requires forall j :: 0 <= j < k ==> FlagsMatch(flags, parts, j) && Sound(page, parts, j)
    requires ParseFrom(page, flags, k, Meaning(page, parts), s).Done?
    ensures next == Upto(next, k + 1) && parts == Upto(next, k) && s == Piece(next, k) + tail
    ensures forall j :: 0 <= j < k + 1 ==> FlagsMatch(flags, next, j) && Sound(page, next, j)
    ensures ParseFrom(page, flags, k, Meaning(page, parts), s)
      == ParseFrom(page, flags, k + 1, Meaning(page, next), tail)
  {
    hide FieldAt, HasFlag, Width, Absorb, Meaning, Sound, FlagOfPart, FlagsMatch, ParseFrom;
    FlagIsTested(flags, k);
    ParseStep(page, flags, k, Meaning(page, parts), s);
    next, tail := parts, s;
    assert [] + s == s;
    if HasFlag(flags, FieldAt(k)) {
      var w := Width(FieldAt(k), Meaning(page, parts));
      next, tail := parts[k := Some(s[..w])], s[w..];
      assert Upto(next, k) == parts;
      if k == 7 {
        SoundBefore(page, parts, next, 7, 6);
      }
      PartIsAbsorbed(page, next, k);
    }
    assert next == Upto(next, k + 1) && parts == Upto(next, k);
    forall j | 0 <= j < k + 1 ensures FlagsMatch(flags, next, j) && Sound(page, next, j) {
      if j < k {
        SoundBefore(page, parts, next, k, j);
        MatchBefore(flags, parts, next, j);
      } else {
        ThisMatches(page, flags, next, k);
      }
    }
  }

  lemma ParsedAll(page: CodePage, flags: uint32, acc: Fields, s: octets)
    ensures ParseFrom(page, flags, 11, acc, s) == Done(acc, s)
  {
  }

  lemma SoundBefore(page: CodePage, parts: Parts, next: Parts, k: nat, j: nat)
    requires j < k < 11 && (forall i :: 0 <= i < k ==> next[i] == parts[i]) && Sound(page, parts, j)
    ensures Sound(page, next, j)
  {
  }

  lemma MatchBefore(flags: uint32, parts: Parts, next: Parts, j: nat)
    requires j < 11 && next[j] == parts[j] && FlagsMatch(flags, parts, j)
    ensures FlagsMatch(flags, next, j)
  {
  }

  lemma ThisMatches(page: CodePage, flags: uint32, next: Parts, k: nat)
    requires k < 11 && (next[k].Some? ==> Sound(page, next, k))
    requires next[k].Some? <==> flags / FlagOfPart(k) % 2 == 1
    ensures FlagsMatch(flags, next, k) && Sound(page, next, k)
  {
  }

  /** The parser completes exactly the frames there are, with their meaning. */
  lemma ParseExactly(page: CodePage, s: octets, p: Packet, n: nat)
    ensures Parse(page, s) == Complete(p, n) <==>
      exists parts :: Lies(page, s, n, parts) && p == Packet(GetU32(s[..4]), Meaning(page, parts))
  {
    hide ParseFrom, GetU32, Meaning, Sound, FlagOfPart, BytesFrom;
    if Parse(page, s) == Complete(p, n) {
      var body := s[8..];
      NothingMeant(page);
      var parts, rest := PartsWereSound(page, GetU32(s[4..8]), NO_PARTS, 0, body);
      assert s[8..n] == BytesFrom(parts, 0);
      FrameBound(page, s);
      assert Lies(page, s, n, parts);
    }
    if parts :| Lies(page, s, n, parts) && p == Packet(GetU32(s[..4]), Meaning(page, parts)) {
      assert s[8..] == BytesFrom(parts, 0) + s[n..];
      NothingMeant(page);
      assert Upto(parts, 0) == NO_PARTS;
      PartsAreRead(page, GetU32(s[4..8]), parts, 0, s[n..]);
    }
  }

  lemma NothingMeant(page: CodePage)
    ensures Meaning(page, NO_PARTS) == NO_FIELDS && Upto(NO_PARTS, 0) == NO_PARTS
  {
  }
}
