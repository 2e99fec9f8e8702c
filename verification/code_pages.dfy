/**
  The two single-byte code pages of the wire and their transcoders to and from the server's UTF-8
  (include/windows_1251.hpp, include/windows_1252.hpp). Masks and shifts are written as the
  divisions and remainders they are: `x & 0x3F` is `x % 0x40`, `(x & 0xE0) == 0xC0` is `0xC0 <= x < 0xE0`.
*/
module CodePages {
  import opened Bytes

  datatype CodePage = Windows1251 | Windows1252

  const QUESTION: byte := 0x3F

  // ---- Tables ----

  /** `windows1251ToUnicode`; the upper quarter of its table is the Cyrillic alphabet in order. */
  function Unicode1251(c: byte): (cp: nat)
    ensures cp < 0x1_0000 && (c < 0x80 ==> cp == c) && (c >= 0x80 ==> cp >= 0x80)
  {
    match c
    case 0x80 => 0x0402
    case 0x81 => 0x0403
    case 0x82 => 0x201A
    case 0x83 => 0x0453
    case 0x84 => 0x201E
    case 0x85 => 0x2026
    case 0x86 => 0x2020
    case 0x87 => 0x2021
    case 0x88 => 0x20AC
    case 0x89 => 0x2030
    case 0x8A => 0x0409
    case 0x8B => 0x2039
    case 0x8C => 0x040A
    case 0x8D => 0x040C
    case 0x8E => 0x040B
    case 0x8F => 0x040F
    case 0x90 => 0x0452
    case 0x91 => 0x2018
    case 0x92 => 0x2019
    case 0x93 => 0x201C
    case 0x94 => 0x201D
    case 0x95 => 0x2022
    case 0x96 => 0x2013
    case 0x97 => 0x2014
    case 0x98 => 0x0098
    case 0x99 => 0x2122
    case 0x9A => 0x0459
    case 0x9B => 0x203A
    case 0x9C => 0x045A
    case 0x9D => 0x045C
    case 0x9E => 0x045B
    case 0x9F => 0x045F
    case 0xA0 => 0x00A0
    case 0xA1 => 0x040E
    case 0xA2 => 0x045E
    case 0xA3 => 0x0408
    case 0xA4 => 0x00A4
    case 0xA5 => 0x0490
    case 0xA6 => 0x00A6
    case 0xA7 => 0x00A7
    case 0xA8 => 0x0401
    case 0xA9 => 0x00A9
    case 0xAA => 0x0404
    case 0xAB => 0x00AB
    case 0xAC => 0x00AC
    case 0xAD => 0x00AD
    case 0xAE => 0x00AE
    case 0xAF => 0x0407
    case 0xB0 => 0x00B0
    case 0xB1 => 0x00B1
    case 0xB2 => 0x0406
    case 0xB3 => 0x0456
    case 0xB4 => 0x0491
    case 0xB5 => 0x00B5
    case 0xB6 => 0x00B6
    case 0xB7 => 0x00B7
    case 0xB8 => 0x0451
    case 0xB9 => 0x2116
    case 0xBA => 0x0454
    case 0xBB => 0x00BB
    case 0xBC => 0x0458
    case 0xBD => 0x0405
    case 0xBE => 0x0455
    case 0xBF => 0x0457
    case _ => if c < 0x80 then c else 0x0410 + (c - 0xC0)
  }

  /** `unicodeToWindows1251`: a partial inverse of the table. */
  function Byte1251(cp: nat): byte {
    if cp < 0x80 then cp
    else if 0x0410 <= cp <= 0x044F then cp - 0x0410 + 0xC0
    else if cp == 0x2116 then 0xB9
    else if cp == 0x0401 then 0xA8
    else if cp == 0x0451 then 0xB8
    else QUESTION
  }

  /** `CP1252_TABLE`, by the byte it stands for. */
  function Table1252(c: byte): (cp: nat)
    requires 0x80 <= c < 0xA0
    ensures 0x100 <= cp < 0x1_0000
  {
    match c
    case 0x80 => 0x20AC
    case 0x81 => 0xFFFD
    case 0x82 => 0x201A
    case 0x83 => 0x0192
    case 0x84 => 0x201E
    case 0x85 => 0x2026
    case 0x86 => 0x2020
    case 0x87 => 0x2021
    case 0x88 => 0x02C6
    case 0x89 => 0x2030
    case 0x8A => 0x0160
    case 0x8B => 0x2039
    case 0x8C => 0x0152
    case 0x8D => 0xFFFD
    case 0x8E => 0x017D
    case 0x8F => 0xFFFD
    case 0x90 => 0xFFFD
    case 0x91 => 0x2018
    case 0x92 => 0x2019
    case 0x93 => 0x201C
    case 0x94 => 0x201D
    case 0x95 => 0x2022
    case 0x96 => 0x2013
    case 0x97 => 0x2014
    case 0x98 => 0x02DC
    case 0x99 => 0x2122
    case 0x9A => 0x0161
    case 0x9B => 0x203A
    case 0x9C => 0x0153
    case 0x9D => 0xFFFD
    case 0x9E => 0x017E
    case 0x9F => 0x0178
  }

  function Unicode1252(c: byte): nat {
    if 0x80 <= c < 0xA0 then Table1252(c) else c
  }

  /** The linear search of `unicodeToCp1252`, from position `c` on. */
  function Search1252(cp: nat, c: int): byte
    requires 0x80 <= c <= 0xA0
    decreases 0xA0 - c
  {
    if c == 0xA0 then QUESTION else if Table1252(c) == cp then c else Search1252(cp, c + 1)
  }

  function Byte1252(cp: nat): byte {
    if cp < 0x80 || 0xA0 <= cp <= 0xFF then cp else Search1252(cp, 0x80)
  }

  function ToUnicode(page: CodePage, c: byte): nat {
    if page == Windows1251 then Unicode1251(c) else Unicode1252(c)
  }

  function FromUnicode(page: CodePage, cp: nat): byte {
    if page == Windows1251 then Byte1251(cp) else Byte1252(cp)
  }

  // ---- UTF-8, at most three bytes a character ----

  /** What `appendUtf8` appends. */
  function Utf8(cp: nat): (s: octets)
    ensures 1 <= |s| <= 3
  {
    if cp <= 0x7F then [cp]
    else if cp <= 0x7FF then [0xC0 + cp / 0x40, 0x80 + cp % 0x40]
    else if cp <= 0xFFFF then [0xE0 + cp / 0x1000, 0x80 + cp / 0x40 % 0x40, 0x80 + cp % 0x40]
    else [QUESTION]
  }

  function Low6(c: byte): nat {
    c % 0x40
  }

  /** `utf8ToCodepoint` at the front of `s`: bytes used (0 if unsupported) and the code point. No continuation
      byte is checked, so malformed and overlong forms are accepted. */
  function Utf8Head(s: octets): (r: (nat, nat))
    requires s != []
    ensures r.0 <= |s|
  {
    var first: int := s[0];
    if first < 0x80 then
      (1, first)
    else if 0xC0 <= first < 0xE0 && 1 < |s| then
      (2, first % 0x20 * 0x40 + Low6(s[1]))
    else if 0xE0 <= first < 0xF0 && 2 < |s| then
      (3, first % 0x10 * 0x1000 + Low6(s[1]) * 0x40 + Low6(s[2]))
    else
      (0, 0)
  }

  // ---- Transcoders ----

  /** UTF-8 to code page, lossy. */
  function Encoded(page: CodePage, s: octets): (r: octets)
    ensures |r| <= |s|
  {
    if s == [] then []
    else
      var (len, cp) := Utf8Head(s);
      if len == 0 then [QUESTION] + Encoded(page, s[1..])
      else [FromUnicode(page, cp)] + Encoded(page, s[len..])
  }

  /** Code page to UTF-8. */
  function Decoded(page: CodePage, b: octets): (r: octets)
    ensures |b| <= |r| <= 3 * |b|
  {
    if b == [] then [] else Utf8(ToUnicode(page, b[0])) + Decoded(page, b[1..])
  }

  /** What a text becomes by being sent and read back. */
  function Normalised(page: CodePage, s: octets): octets {
    Decoded(page, Encoded(page, s))
  }

  method AppendUtf8(str: octets, cp: nat) returns (r: octets)
    ensures r == str + Utf8(cp)
  {
    r := str;
    if cp <= 0x7F {
      r := r + [cp];
    } else if cp <= 0x7FF {
      r := r + [0xC0 + cp / 0x40];
      r := r + [0x80 + cp % 0x40];
    } else if cp <= 0xFFFF {
      r := r + [0xE0 + cp / 0x1000];
      r := r + [0x80 + cp / 0x40 % 0x40];
      r := r + [0x80 + cp % 0x40];
    } else {
      r := r + [QUESTION];
    }
  }

  method Utf8ToCodepoint(input: octets, pos: nat) returns (len: nat, cp: nat)
    requires pos < |input|
    ensures (len, cp) == Utf8Head(input[pos..])
    ensures pos + len <= |input|
  {
    var first: int := input[pos];
    if first < 0x80 {
      return 1, first;
    }
    if 0xC0 <= first < 0xE0 && pos + 1 < |input| {
      return 2, first % 0x20 * 0x40 + Low6(input[pos + 1]);
    }
    if 0xE0 <= first < 0xF0 && pos + 2 < |input| {
      return 3, first % 0x10 * 0x1000 + Low6(input[pos + 1]) * 0x40 + Low6(input[pos + 2]);
    }
    return 0, 0;
  }

  method UnicodeToCp1252(cp: nat) returns (r: byte)
    ensures r == Byte1252(cp)
  {
    if cp < 0x80 {
      return cp;
    }
    if 0xA0 <= cp <= 0xFF {
      return cp;
    }
    for i := 0 to 0x20
      invariant Search1252(cp, 0x80) == Search1252(cp, 0x80 + i)
    {
      if Table1252(i + 0x80) == cp {
        return i + 0x80;
      }
    }
    return QUESTION;
  }

  method ToByte(page: CodePage, cp: nat) returns (r: byte)
    ensures r == FromUnicode(page, cp)
  {
    if page == Windows1251 {
      r := Byte1251(cp);
    } else {
      r := UnicodeToCp1252(cp);
    }
  }

  lemma EncodedStep(page: CodePage, s: octets, i: nat)
    requires i < |s|
    ensures var (len, cp) := Utf8Head(s[i..]);
      Encoded(page, s[i..]) ==
      if len == 0 then [QUESTION] + Encoded(page, s[i + 1..]) else [FromUnicode(page, cp)] + Encoded(page, s[i + len..])
  {
    hide FromUnicode, Utf8Head;
    var (len, cp) := Utf8Head(s[i..]);
    assert s[i..][1..] == s[i + 1..] && s[i..][len..] == s[i + len..];
  }

  lemma DecodedStep(page: CodePage, b: octets, i: nat)
    requires i < |b|
    ensures Decoded(page, b[i..]) == Utf8(ToUnicode(page, b[i])) + Decoded(page, b[i + 1..])
  {
    hide Utf8, ToUnicode;
    assert b[i..][1..] == b[i + 1..];
  }

  method Encode(page: CodePage, utf8Input: octets) returns (result: octets)
    ensures result == Encoded(page, utf8Input)
  {
    hide *;
    result := [];
    var i := 0;
    assert utf8Input[0..] == utf8Input;
    while i < |utf8Input|
      invariant i <= |utf8Input|
      invariant result + Encoded(page, utf8Input[i..]) == Encoded(page, utf8Input)
    {
      EncodedStep(page, utf8Input, i);
      var len, cp := Utf8ToCodepoint(utf8Input, i);
      if len == 0 {
        result := result + [QUESTION];
        i := i + 1;
        continue;
      }
      i := i + len;
      var ch := ToByte(page, cp);
      result := result + [ch];
    }
  }

  /** The strict encoder is the lossy one, refused exactly when its result holds a question mark,
      even one that was typed. */
  method EncodeStrict(page: CodePage, utf8Input: octets) returns (result: Option<octets>)
    ensures result == if QUESTION in Encoded(page, utf8Input) then None else Some(Encoded(page, utf8Input))
  {
    hide *;
    var r: octets := [];
    var i := 0;
    assert utf8Input[0..] == utf8Input;
    while i < |utf8Input|
      invariant i <= |utf8Input|
      invariant r + Encoded(page, utf8Input[i..]) == Encoded(page, utf8Input)
      invariant QUESTION !in r
    {
      EncodedStep(page, utf8Input, i);
      ghost var rest := Encoded(page, utf8Input[i..]);
      assert rest[0] in r + rest;
      var len, cp := Utf8ToCodepoint(utf8Input, i);
      if len == 0 {
        return None;
      }
      var ch := ToByte(page, cp);
      if ch == QUESTION {
        return None;
      }
      r := r + [ch];
      i := i + len;
    }
    assert utf8Input[i..] == [] && r == Encoded(page, utf8Input);
    return Some(r);
  }

  method Decode(page: CodePage, input: octets) returns (result: octets)
    ensures result == Decoded(page, input)
  {
    hide *;
    result := [];
    assert input[0..] == input;
    for i := 0 to |input|
      invariant result + Decoded(page, input[i..]) == Decoded(page, input)
    {
      DecodedStep(page, input, i);
      result := AppendUtf8(result, ToUnicode(page, input[i]));
    }
  }

  // ---- Round trips ----

  /** What a code-page byte becomes when it is decoded and encoded again. */
  function Settled(page: CodePage, c: byte): byte {
    match page
    case Windows1251 => if c < 0x80 || c >= 0xC0 || c == 0xA8 || c == 0xB8 || c == 0xB9 then c else QUESTION
    case Windows1252 => if c == 0x8D || c == 0x8F || c == 0x90 || c == 0x9D then 0x81 else c
  }

  function SettledAll(page: CodePage, b: octets): (r: octets)
    ensures |r| == |b|
    ensures forall i :: 0 <= i < |b| ==> r[i] == Settled(page, b[i])
  {
    if b == [] then [] else [Settled(page, b[0])] + SettledAll(page, b[1..])
  }

  lemma Inverse1251(c: byte)
    ensures Byte1251(Unicode1251(c)) == Settled(Windows1251, c)
  {
  }

  /** The search finds the first place that holds the code point. */
  lemma {:induction false} SearchFindsFirst(cp: nat, from: int, c: int)
    requires 0x80 <= from <= c < 0xA0 && Table1252(c) == cp
    requires forall i :: from <= i < c ==> Table1252(i) != cp
    ensures Search1252(cp, from) == c
    decreases c - from
  {
    if from < c {
      SearchFindsFirst(cp, from + 1, c);
    }
  }

  /** U+FFFD apart, the 1252 table holds no code point twice. */
  lemma TableInjective(i: byte, j: byte)
    requires 0x80 <= i < j < 0xA0 && Table1252(i) == Table1252(j)
    ensures Table1252(j) == 0xFFFD && j in {0x8D, 0x8F, 0x90, 0x9D}
  {
  }

  lemma Inverse1252(c: byte)
    ensures Byte1252(Unicode1252(c)) == Settled(Windows1252, c)
  {
    if 0x80 <= c < 0xA0 {
      var first := Settled(Windows1252, c);
      forall i: byte | 0x80 <= i < first ensures Table1252(i) != Table1252(c) {
        if Table1252(i) == Table1252(first) {
          TableInjective(i, first);
        }
      }
      SearchFindsFirst(Table1252(c), 0x80, first);
    }
  }

  lemma ByteRoundTrip(page: CodePage, c: byte)
    ensures FromUnicode(page, ToUnicode(page, c)) == Settled(page, c)
    ensures ToUnicode(page, c) < 0x1_0000
  {
    Inverse1251(c);
    Inverse1252(c);
  }

  lemma TwoByteForm(cp: nat)
    requires 0x7F < cp <= 0x7FF
    ensures (0xC0 + cp / 0x40) % 0x20 == cp / 0x40 && (0x80 + cp % 0x40) % 0x40 == cp % 0x40
  {
  }

  lemma ThreeByteForm(cp: nat)
    requires 0x7FF < cp < 0x1_0000
    ensures (0xE0 + cp / 0x1000) % 0x10 == cp / 0x1000
    ensures (0x80 + cp / 0x40 % 0x40) % 0x40 == cp / 0x40 % 0x40 && (0x80 + cp % 0x40) % 0x40 == cp % 0x40
    ensures cp == cp / 0x1000 * 0x1000 + cp / 0x40 % 0x40 * 0x40 + cp % 0x40
  {
    assert cp / 0x40 / 0x40 == cp / 0x1000;
  }

  /** `Utf8` is UTF-8 as section 3 of RFC 3629 defines it, for code points below 0x10000, in its shortest form; the rest
      become a question mark. */
  lemma Utf8IsStandard(cp: nat)
    ensures var s := Utf8(cp);
      if cp < 0x80 then s == [cp]
      else if cp < 0x800 then
        && |s| == 2 && 0xC2 <= s[0] < 0xE0 && 0x80 <= s[1] < 0xC0
        && cp + 0xC0 * 0x40 + 0x80 == s[0] as int * 0x40 + s[1] as int
      else if cp < 0x1_0000 then
        && |s| == 3 && 0xE0 <= s[0] < 0xF0 && 0x80 <= s[1] < 0xC0 && 0x80 <= s[2] < 0xC0
        && cp + 0xE0 * 0x1000 + 0x80 * 0x40 + 0x80 == s[0] as int * 0x1000 + s[1] as int * 0x40 + s[2] as int
      else s == [0x3F]
  {
    if 0x800 <= cp < 0x1_0000 {
      ThreeByteForm(cp);
    }
  }

  /** A decoder that meets a printed character reads exactly that character and stops at its end. */
  lemma Utf8Resegments(cp: nat, rest: octets)
    requires cp < 0x1_0000
    ensures Utf8Head(Utf8(cp) + rest) == (|Utf8(cp)|, cp)
  {
    var s := Utf8(cp) + rest;
    if 0x7F < cp <= 0x7FF {
      TwoByteForm(cp);
      assert s[0] == Utf8(cp)[0] && s[1] == Utf8(cp)[1];
    } else if 0x7FF < cp {
      ThreeByteForm(cp);
      assert s[0] == Utf8(cp)[0] && s[1] == Utf8(cp)[1] && s[2] == Utf8(cp)[2];
    }
  }

  /** Text written by the decoder and encoded again has its length, and is bytewise the settled text. */
  lemma {:induction false} EncodeAfterDecode(page: CodePage, b: octets)
    ensures Encoded(page, Decoded(page, b)) == SettledAll(page, b)
  {
    if b != [] {
      var cp := ToUnicode(page, b[0]);
      var rest := Decoded(page, b[1..]);
      ByteRoundTrip(page, b[0]);
      Utf8Resegments(cp, rest);
      assert (Utf8(cp) + rest)[|Utf8(cp)|..] == rest;
      EncodeAfterDecode(page, b[1..]);
    }
  }

  predicate RoundTrips(page: CodePage, b: octets) {
    forall i :: 0 <= i < |b| ==> Settled(page, b[i]) == b[i]
  }

  /** Bytes survive the trip through UTF-8 exactly when each of them is settled. */
  lemma RoundTripsExactly(page: CodePage, b: octets)
    ensures Encoded(page, Decoded(page, b)) == b <==> RoundTrips(page, b)
  {
    EncodeAfterDecode(page, b);
  }

  /** Which bytes survive, in numbers: of the upper half of 1251 the Cyrillic alphabet, both letters Yo and the numero
      sign; of 1252 all but four that it shares its code point with. */
  lemma SurvivorsExactly(page: CodePage, c: byte)
    ensures Encoded(page, Decoded(page, [c])) == [c] <==>
      match page
      case Windows1251 => c < 0x80 || c >= 0xC0 || c in {0xA8, 0xB8, 0xB9}
      case Windows1252 => c !in {0x8D, 0x8F, 0x90, 0x9D}
  {
    RoundTripsExactly(page, [c]);
    assert RoundTrips(page, [c]) <==> Settled(page, [c][0]) == [c][0];
  }

  /** Windows-1251: ASCII, the Cyrillic alphabet in order, and the rest character by character. */
  lemma Characters1251(c: byte) returns (cp: nat)
    ensures cp == Unicode1251(c)
    ensures c < 0x80 ==> cp == c
    ensures c >= 0xC0 ==> cp == 'А' as int + (c as int - 0xC0)
    ensures (c == 0x80 ==> cp == 'Ђ' as int) && (c == 0x81 ==> cp == 'Ѓ' as int) && (c == 0x82 ==> cp == '‚' as int)
    ensures (c == 0x83 ==> cp == 'ѓ' as int) && (c == 0x84 ==> cp == '„' as int) && (c == 0x85 ==> cp == '…' as int)
    ensures (c == 0x86 ==> cp == '†' as int) && (c == 0x87 ==> cp == '‡' as int) && (c == 0x88 ==> cp == '€' as int)
    ensures (c == 0x89 ==> cp == '‰' as int) && (c == 0x8A ==> cp == 'Љ' as int) && (c == 0x8B ==> cp == '‹' as int)
    ensures (c == 0x8C ==> cp == 'Њ' as int) && (c == 0x8D ==> cp == 'Ќ' as int) && (c == 0x8E ==> cp == 'Ћ' as int)
    ensures (c == 0x8F ==> cp == 'Џ' as int) && (c == 0x90 ==> cp == 'ђ' as int) && (c == 0x91 ==> cp == '‘' as int)
    ensures (c == 0x92 ==> cp == '’' as int) && (c == 0x93 ==> cp == '“' as int) && (c == 0x94 ==> cp == '”' as int)
    ensures (c == 0x95 ==> cp == '•' as int) && (c == 0x96 ==> cp == '–' as int) && (c == 0x97 ==> cp == '—' as int)
    ensures (c == 0x98 ==> cp == 0x0098) && (c == 0x99 ==> cp == '™' as int) && (c == 0x9A ==> cp == 'љ' as int)
    ensures (c == 0x9B ==> cp == '›' as int) && (c == 0x9C ==> cp == 'њ' as int) && (c == 0x9D ==> cp == 'ќ' as int)
    ensures (c == 0x9E ==> cp == 'ћ' as int) && (c == 0x9F ==> cp == 'џ' as int) && (c == 0xA0 ==> cp == 0x00A0)
    ensures (c == 0xA1 ==> cp == 'Ў' as int) && (c == 0xA2 ==> cp == 'ў' as int) && (c == 0xA3 ==> cp == 'Ј' as int)
    ensures (c == 0xA4 ==> cp == '¤' as int) && (c == 0xA5 ==> cp == 'Ґ' as int) && (c == 0xA6 ==> cp == '¦' as int)
    ensures (c == 0xA7 ==> cp == '§' as int) && (c == 0xA8 ==> cp == 'Ё' as int) && (c == 0xA9 ==> cp == '©' as int)
    ensures (c == 0xAA ==> cp == 'Є' as int) && (c == 0xAB ==> cp == '«' as int) && (c == 0xAC ==> cp == '¬' as int)
    ensures (c == 0xAD ==> cp == 0x00AD) && (c == 0xAE ==> cp == '®' as int) && (c == 0xAF ==> cp == 'Ї' as int)
    ensures (c == 0xB0 ==> cp == '°' as int) && (c == 0xB1 ==> cp == '±' as int) && (c == 0xB2 ==> cp == 'І' as int)
    ensures (c == 0xB3 ==> cp == 'і' as int) && (c == 0xB4 ==> cp == 'ґ' as int) && (c == 0xB5 ==> cp == 'µ' as int)
    ensures (c == 0xB6 ==> cp == '¶' as int) && (c == 0xB7 ==> cp == '·' as int) && (c == 0xB8 ==> cp == 'ё' as int)
    ensures (c == 0xB9 ==> cp == '№' as int) && (c == 0xBA ==> cp == 'є' as int) && (c == 0xBB ==> cp == '»' as int)
    ensures (c == 0xBC ==> cp == 'ј' as int) && (c == 0xBD ==> cp == 'Ѕ' as int) && (c == 0xBE ==> cp == 'ѕ' as int)
    ensures (c == 0xBF ==> cp == 'ї' as int)
  {
    cp := Unicode1251(c);
  }

  /** Windows-1252: Latin-1, and the rest character by character. */
  lemma Characters1252(c: byte) returns (cp: nat)
    ensures cp == Unicode1252(c)
    ensures c < 0x80 || c >= 0xA0 ==> cp == c
    ensures (c == 0x80 ==> cp == '€' as int) && (c == 0x81 ==> cp == 0xFFFD) && (c == 0x82 ==> cp == '‚' as int)
    ensures (c == 0x83 ==> cp == 'ƒ' as int) && (c == 0x84 ==> cp == '„' as int) && (c == 0x85 ==> cp == '…' as int)
    ensures (c == 0x86 ==> cp == '†' as int) && (c == 0x87 ==> cp == '‡' as int) && (c == 0x88 ==> cp == 'ˆ' as int)
    ensures (c == 0x89 ==> cp == '‰' as int) && (c == 0x8A ==> cp == 'Š' as int) && (c == 0x8B ==> cp == '‹' as int)
    ensures (c == 0x8C ==> cp == 'Œ' as int) && (c == 0x8D ==> cp == 0xFFFD) && (c == 0x8E ==> cp == 'Ž' as int)
    ensures (c == 0x8F ==> cp == 0xFFFD) && (c == 0x90 ==> cp == 0xFFFD) && (c == 0x91 ==> cp == '‘' as int)
    ensures (c == 0x92 ==> cp == '’' as int) && (c == 0x93 ==> cp == '“' as int) && (c == 0x94 ==> cp == '”' as int)
    ensures (c == 0x95 ==> cp == '•' as int) && (c == 0x96 ==> cp == '–' as int) && (c == 0x97 ==> cp == '—' as int)
    ensures (c == 0x98 ==> cp == '˜' as int) && (c == 0x99 ==> cp == '™' as int) && (c == 0x9A ==> cp == 'š' as int)
    ensures (c == 0x9B ==> cp == '›' as int) && (c == 0x9C ==> cp == 'œ' as int) && (c == 0x9D ==> cp == 0xFFFD)
    ensures (c == 0x9E ==> cp == 'ž' as int) && (c == 0x9F ==> cp == 'Ÿ' as int)
  {
    cp := Unicode1252(c);
  }

  lemma {:induction false} SearchSettled(cp: nat, from: int)
    requires 0x80 <= from <= 0xA0
    requires from > 0x81 ==> cp != 0xFFFD
    ensures Settled(Windows1252, Search1252(cp, from)) == Search1252(cp, from)
    decreases 0xA0 - from
  {
    if from < 0xA0 && Table1252(from) != cp {
      SearchSettled(cp, from + 1);
    }
  }

  /** Whatever it is given, malformed UTF-8 included, the encoder writes settled bytes only. */
  lemma {:induction false} EncoderSettles(page: CodePage, s: octets)
    ensures RoundTrips(page, Encoded(page, s))
  {
    if s != [] {
      var (len, cp) := Utf8Head(s);
      if len == 0 {
        EncoderSettles(page, s[1..]);
      } else {
        EncoderSettles(page, s[len..]);
        SearchSettled(cp, 0x80);
      }
    }
  }

  /** Sending and reading back is a projection: doing it twice changes nothing more. */
  lemma NormalisedIsProjection(page: CodePage, s: octets)
    ensures Normalised(page, Normalised(page, s)) == Normalised(page, s)
  {
    EncoderSettles(page, s);
    RoundTripsExactly(page, Encoded(page, s));
  }

  /** ASCII text without NUL. */
  predicate Plain(s: octets) {
    forall i :: 0 <= i < |s| ==> 0 < s[i] < 0x80
  }

  /** Both pages leave plain text alone. */
  lemma {:induction false} PlainIsUntouched(page: CodePage, s: octets)
    requires Plain(s)
    ensures Encoded(page, s) == s && Decoded(page, s) == s && Normalised(page, s) == s
  {
    if s != [] {
      var c := s[0];
      assert 0 < c < 0x80 && Utf8Head(s) == (1, c);
      PlainByte(page, c);
      PlainIsUntouched(page, s[1..]);
    }
  }

  lemma PlainByte(page: CodePage, c: byte)
    requires c < 0x80
    ensures FromUnicode(page, c) == c && ToUnicode(page, c) == c && Utf8(c) == [c]
  {
  }

  /** What stands at the front of a text, in numbers: the first byte decides, and nobody looks at whether the bytes
      behind it are continuations. */
  lemma HeadInNumbers(s: octets)
    requires s != []
    ensures var (len, cp) := Utf8Head(s);
      var a: int := s[0];
      if a < 0x80 then len == 1 && cp == a
      else if 0xC0 <= a < 0xE0 && |s| >= 2 then len == 2 && cp == (a - 0xC0) * 0x40 + s[1] as int % 0x40
      else if 0xE0 <= a < 0xF0 && |s| >= 3 then
        len == 3 && cp == (a - 0xE0) * 0x1000 + s[1] as int % 0x40 * 0x40 + s[2] as int % 0x40
      else len == 0
  {
    var a: int := s[0];
    assert 0xC0 <= a < 0xE0 ==> a % 0x20 == a - 0xC0;
    assert 0xE0 <= a < 0xF0 ==> a % 0x10 == a - 0xE0;
  }

  /** How any text is encoded, malformed UTF-8 included. What cannot begin a character, or begins one that is cut off,
      becomes a question mark. */
  lemma EncodedByFirstByte(page: CodePage, s: octets)
    requires s != []
    ensures var a: int := s[0];
      if a < 0x80 then Encoded(page, s) == [FromUnicode(page, a)] + Encoded(page, s[1..])
      else if 0xC0 <= a < 0xE0 && |s| >= 2 then
        Encoded(page, s) == [FromUnicode(page, (a - 0xC0) * 0x40 + s[1] as int % 0x40)] + Encoded(page, s[2..])
      else if 0xE0 <= a < 0xF0 && |s| >= 3 then
        var cp := (a - 0xE0) * 0x1000 + s[1] as int % 0x40 * 0x40 + s[2] as int % 0x40;
        Encoded(page, s) == [FromUnicode(page, cp)] + Encoded(page, s[3..])
      else Encoded(page, s) == [0x3F] + Encoded(page, s[1..])
  {
    hide Encoded, Utf8Head, FromUnicode;
    assert s[0..] == s;
    HeadInNumbers(s);
    EncodedStep(page, s, 0);
  }

  /** A decoded text has no NUL unless the wire had one. */
  lemma {:induction false} DecodedNulFree(page: CodePage, b: octets)
    requires NulFree(b)
    ensures NulFree(Decoded(page, b))
  {
    if b != [] {
      DecodedNulFree(page, b[1..]);
      assert b[0] != 0 && ToUnicode(page, b[0]) != 0;
    }
  }

  lemma {:induction false} SearchIsInverse(cp: nat, from: int)
    requires 0x80 <= from <= 0xA0
    ensures Search1252(cp, from) == QUESTION
      || (0x80 <= Search1252(cp, from) < 0xA0 && Table1252(Search1252(cp, from)) == cp)
    decreases 0xA0 - from
  {
    hide Table1252;
    if from < 0xA0 {
      SearchIsInverse(cp, from + 1);
    }
  }

  /** A code point is either encoded as the question mark or recovered by decoding. */
  lemma EncodedOrLost(page: CodePage, cp: nat)
    ensures FromUnicode(page, cp) == QUESTION || ToUnicode(page, FromUnicode(page, cp)) == cp
  {
    SearchIsInverse(cp, 0x80);
  }

  lemma CharacterNeverLengthens(page: CodePage, s: octets)
    requires s != []
    ensures var (len, cp) := Utf8Head(s); len > 0 ==> |Utf8(ToUnicode(page, FromUnicode(page, cp)))| <= len
  {
    hide FromUnicode;
    EncodedOrLost(page, Utf8Head(s).1);
  }

  /** Normalising never makes a text longer, malformed UTF-8 included. */
  lemma {:induction false} NormalisedIsNoLonger(page: CodePage, s: octets)
    ensures |Normalised(page, s)| <= |s|
  {
    if s != [] {
      hide Utf8, Utf8Head, ToUnicode, FromUnicode;
      var (len, cp) := Utf8Head(s);
      var rest := if len == 0 then s[1..] else s[len..];
      NormalisedIsNoLonger(page, rest);
      var c := if len == 0 then QUESTION else FromUnicode(page, cp);
      assert Encoded(page, s) == [c] + Encoded(page, rest);
      assert ([c] + Encoded(page, rest))[1..] == Encoded(page, rest);
      if len > 0 {
        CharacterNeverLengthens(page, s);
      } else {
        QuestionIsOneByte(page);
      }
    }
  }

  lemma QuestionIsOneByte(page: CodePage)
    ensures |Utf8(ToUnicode(page, QUESTION))| == 1
  {
  }

  lemma {:induction false} DecodedOfPrefix(page: CodePage, b: octets, n: nat)
    requires n <= |b|
    ensures |Decoded(page, b[..n])| <= |Decoded(page, b)|
  {
    if n > 0 {
      hide Utf8, ToUnicode;
      assert b[..n][1..] == b[1..][..n - 1];
      DecodedOfPrefix(page, b[1..], n - 1);
    }
  }
}
