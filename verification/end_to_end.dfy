/** From the bytes one client sends to the bytes another receives. */
module EndToEnd {
  import opened Bytes
  import opened CodePages
  import opened SessionInfos
  import opened Packets
  import opened PacketLaws
  import opened Lobbies
  import opened Replication
  import opened Audiences

  // ---- Where the data of a frame lies ----

  /** The bytes taken by the flagged values from `k` on, up to the data length. */
  function ValuesFrom(flags: uint32, k: nat): nat
    requires k <= 6
    decreases 6 - k
  {
    if k == 6 then 0 else (if HasFlag(flags, FieldAt(k)) then 4 else 0) + ValuesFrom(flags, k + 1)
  }

  /** The data section of a frame, its NUL included: the bytes that follow the announced length. */
  function DataSection(s: octets): octets {
    if |s| < 8 then []
    else
      var flags := GetU32(s[4..8]);
      SectionAt(flags, s[8..], ValuesFrom(flags, 0))
  }

  function SectionAt(flags: uint32, body: octets, head: nat): octets {
    if HasFlag(flags, DataLength) && head + 4 <= |body| then
      var length := GetU32(body[head..head + 4]);
      if head + 4 + length <= |body| then body[head + 4..head + 4 + length] else []
    else []
  }

  /** Data that was read stays as the later parts are read. */
  lemma {:induction false} DataSticks(page: CodePage, flags: uint32, k: nat, acc: Fields, s: octets)
    requires 8 <= k <= FIELD_COUNT
    ensures var r := ParseFrom(page, flags, k, acc, s); r.Done? ==> r.fields.data == acc.data
    decreases FIELD_COUNT - k
  {
    hide Decoded, CString, GetU32, GetInfo, HasFlag, Verified;
    if k < FIELD_COUNT {
      var f := FieldAt(k);
      var w := Width(f, acc);
      if !HasFlag(flags, f) {
        DataSticks(page, flags, k + 1, acc, s);
      } else if w <= |s| {
        match Absorb(page, f, acc, s[..w])
        case Fault(_) =>
        case Good(next) => DataSticks(page, flags, k + 1, next, s[w..]);
      }
    }
  }

  predicate NoDataYet(acc: Fields) {
    acc.data.None? && acc.dataLength.None?
  }

  lemma ValueAbsorbed(page: CodePage, k: nat, acc: Fields, s: octets)
    requires k < 6 && NoDataYet(acc) && |s| == 4
    ensures Width(FieldAt(k), acc) == 4
    ensures Absorb(page, FieldAt(k), acc, s).Good? && NoDataYet(Absorb(page, FieldAt(k), acc, s).fields)
  {
    hide GetU32;
  }

  lemma {:induction false} ValuesAreRead(page: CodePage, flags: uint32, k: nat, acc: Fields, s: octets)
    returns (at: Fields)
    requires k <= 6 && ParseFrom(page, flags, k, acc, s).Done? && NoDataYet(acc)
    ensures NoDataYet(at) && ValuesFrom(flags, k) <= |s|
    ensures ParseFrom(page, flags, k, acc, s) == ParseFrom(page, flags, 6, at, s[ValuesFrom(flags, k)..])
    decreases FIELD_COUNT - k
  {
    hide Absorb, Width, FieldAt, HasFlag, ParseFrom, NoDataYet;
    if k == 6 {
      at := acc;
      assert s[0..] == s;
      return;
    }
    ParseStep(page, flags, k, acc, s);
    if !HasFlag(flags, FieldAt(k)) {
      at := ValuesAreRead(page, flags, k + 1, acc, s);
    } else {
      ValueAbsorbed(page, k, acc, if |s| < 4 then [0, 0, 0, 0] else s[..4]);
      at := ValuesAreRead(page, flags, k + 1, Absorb(page, FieldAt(k), acc, s[..4]).fields, s[4..]);
      var rest := ValuesFrom(flags, k + 1);
      assert s[4..][rest..] == s[4 + rest..];
    }
  }

  /** What a parsed packet's data is, given the section it was read from. */
  ghost predicate DataReadFrom(page: CodePage, data: Option<octets>, section: octets) {
    data.Some? ==>
      if section == [] then data.value == []
      else section[|section| - 1] == 0 && data.value == Decoded(page, section[..|section| - 1])
  }

  lemma TextIsRead(page: CodePage, flags: uint32, at: Fields, t: octets)
    requires ParseFrom(page, flags, 7, at, t).Done? && at.data.None?
    ensures var w := ValueOr(at.dataLength, 0);
      DataReadFrom(page, ParseFrom(page, flags, 7, at, t).fields.data, if w <= |t| then t[..w] else [])
  {
    hide Decoded, HasFlag, ParseFrom;
    ParseStep(page, flags, 7, at, t);
    if HasFlag(flags, Data) {
      var w := ValueOr(at.dataLength, 0);
      DataSticks(page, flags, 8, AbsorbData(page, at, t[..w]).fields, t[w..]);
    } else {
      DataSticks(page, flags, 8, at, t);
    }
  }

  lemma DataIsRead(page: CodePage, flags: uint32, acc: Fields, s: octets)
    requires ParseFrom(page, flags, 6, acc, s).Done? && NoDataYet(acc)
    ensures DataReadFrom(page, ParseFrom(page, flags, 6, acc, s).fields.data, SectionAt(flags, s, 0))
    ensures |SectionAt(flags, s, 0)| <= MAX_DATA_LENGTH
  {
    hide Decoded, GetU32, HasFlag, DataReadFrom, AbsorbData, ParseFrom;
    ParseStep(page, flags, 6, acc, s);
    if HasFlag(flags, DataLength) {
      var n := GetU32(s[..4]);
      assert s[0..4] == s[..4];
      TextIsRead(page, flags, acc.(dataLength := Some(n)), s[4..]);
      assert 4 + n <= |s| ==> s[4..][..n] == s[4..4 + n];
    } else {
      TextIsRead(page, flags, acc, s);
    }
  }

  /** The data of a parsed packet is the decoded data section of its frame. */
  lemma DataComesFromSection(page: CodePage, s: octets)
    requires Parse(page, s).Complete?
    ensures DataReadFrom(page, Parse(page, s).packet.fields.data, DataSection(s))
    ensures |DataSection(s)| <= MAX_DATA_LENGTH
  {
    hide ParseFrom, GetU32, HasFlag, DataReadFrom, PacketCodeExists;
    var flags, body := GetU32(s[4..8]), s[8..];
    var at := ValuesAreRead(page, flags, 0, NO_FIELDS, body);
    var head := ValuesFrom(flags, 0);
    DataIsRead(page, flags, at, body[head..]);
    SectionShifts(flags, body, head);
  }

  lemma SectionShifts(flags: uint32, body: octets, head: nat)
    requires head <= |body|
    ensures SectionAt(flags, body, head) == SectionAt(flags, body[head..], 0)
  {
    hide GetU32, HasFlag;
    var tail := body[head..];
    if 4 <= |tail| {
      assert tail[0..4] == body[head..head + 4];
      var length := GetU32(tail[0..4]);
      if 4 + length <= |tail| {
        assert tail[4..4 + length] == body[head + 4..head + 4 + length];
      }
    }
  }

  // ---- Where the printer puts it ----

  lemma ValueWidth(page: CodePage, p: Fields, k: nat)
    requires k < 6
    ensures |Image(page, p, FieldAt(k))| == if Present(p, FieldAt(k)) then 4 else 0
  {
    hide PutU32;
  }

  lemma {:induction false} ValuesArePrinted(page: CodePage, p: Fields, k: nat)
    requires k <= 6
    ensures var head := ValuesFrom(FlagsOf(p), k);
      head <= |PrintFrom(page, p, k)| && PrintFrom(page, p, k)[head..] == PrintFrom(page, p, 6)
    decreases 6 - k
  {
    hide Image, Present, HasFlag, FlagsOf, FieldAt;
    if k < 6 {
      ValueWidth(page, p, k);
      FlagsSayWhatIsPresent(p, FieldAt(k));
      ValuesArePrinted(page, p, k + 1);
      var image, tail := Image(page, p, FieldAt(k)), PrintFrom(page, p, k + 1);
      var rest := ValuesFrom(FlagsOf(p), k + 1);
      assert (image + tail)[|image| + rest..] == tail[rest..];
    } else {
      assert PrintFrom(page, p, 6)[0..] == PrintFrom(page, p, 6);
    }
  }

  /** The data section of a printed packet is its encoded data and one NUL. */
  lemma PrintedSection(page: CodePage, p: Packet)
    requires p.fields.data.Some? && |Encoded(page, p.fields.data.value)| + 1 < 0x1_0000_0000
    ensures DataSection(Print(page, p)) == Encoded(page, p.fields.data.value) + [0]
  {
    hide Encoded, PutU32, GetU32, HasFlag, FlagsOf, PrintFrom;
    var f, flags := p.fields, FlagsOf(p.fields);
    var s, body := Print(page, p), PrintFrom(page, p.fields, 0);
    assert s[4..8] == PutU32(flags) && s[8..] == body;
    GetAfterPut(flags);
    FlagsSayWhatIsPresent(f, DataLength);
    ValuesArePrinted(page, f, 0);
    var head := ValuesFrom(flags, 0);
    SectionShifts(flags, body, head);
    SectionOfTail(page, f, flags);
  }

  lemma SectionOfTail(page: CodePage, f: Fields, flags: uint32)
    requires f.data.Some? && |Encoded(page, f.data.value)| + 1 < 0x1_0000_0000 && HasFlag(flags, DataLength)
    ensures SectionAt(flags, PrintFrom(page, f, 6), 0) == Encoded(page, f.data.value) + [0]
  {
    hide Encoded, PutU32, GetU32, HasFlag, NameBlock, PutInfo;
    var length, data := LengthOnWire(page, f.data.value), Encoded(page, f.data.value) + [0];
    var tail := PrintFrom(page, f, 6);
    var rest := PrintFrom(page, f, 8);
    assert tail == PutU32(length) + (data + rest);
    GetAfterPut(length);
    assert tail[0..4] == PutU32(length);
    assert tail[4..4 + length] == data;
  }

  // ---- Printing what was parsed ----

  /** A name the parser accepts is never truncated when it is written back, and comes back within bounds. */
  lemma NameFitsAgain(page: CodePage, name: octets)
    requires |name| <= MAX_NAME_LENGTH
    ensures NameText(page, name) == Encoded(page, name)
    ensures |NameEcho(page, name)| <= MAX_NAME_LENGTH
  {
    hide Encoded, Decoded;
    var e := Encoded(page, name);
    NormalisedIsNoLonger(page, name);
    DecodedOfPrefix(page, e, |CString(e)|);
  }

  lemma DataFitsAgain(page: CodePage, s: octets)
    requires Parse(page, s).Complete? && Parse(page, s).packet.fields.data.Some?
    ensures var data := Parse(page, s).packet.fields.data.value;
      |Encoded(page, data)| + 1 <= MAX_DATA_LENGTH && |Normalised(page, data)| <= MAX_DATA_LENGTH
  {
    hide Parse, Encoded, Decoded, DataSection;
    var data := Parse(page, s).packet.fields.data.value;
    DataComesFromSection(page, s);
    var section := DataSection(s);
    if section != [] {
      EncodeAfterDecode(page, section[..|section| - 1]);
    }
    assert WellParsed(Parse(page, s).packet) by { ParserYieldsWellParsed(page, s); }
    NormalisedIsNoLonger(page, data);
  }

  /** Whatever the parser accepts can be printed and read back, except a data length that came without data. */
  lemma ParsedIsPrintableExactly(page: CodePage, s: octets)
    requires Parse(page, s).Complete?
    ensures var p := Parse(page, s).packet;
      Printable(page, p) <==> (p.fields.dataLength.Some? ==> p.fields.data.Some?)
  {
    hide Parse, Encoded, Decoded, NameEcho;
    var p := Parse(page, s).packet;
    ParserYieldsWellParsed(page, s);
    if p.fields.name.Some? {
      NameFitsAgain(page, p.fields.name.value);
    }
    if p.fields.data.Some? {
      DataFitsAgain(page, s);
    }
  }

  // ---- Chat relay ----

  /** Decoding keeps the place of the first NUL. */
  lemma {:induction false} DecodedCString(page: CodePage, b: octets)
    ensures CString(Decoded(page, b)) == Decoded(page, CString(b))
  {
    if b != [] {
      var first := Utf8(ToUnicode(page, b[0]));
      var rest := Decoded(page, b[1..]);
      if b[0] == 0 {
        assert first + rest == [] + [0] + rest;
        CStringStopsAtNul([], rest);
      } else {
        DecodedCString(page, b[1..]);
        assert NulFree(first);
        CStringAfter(first, rest);
        assert ([b[0]] + CString(b[1..]))[1..] == CString(b[1..]);
      }
    }
  }

  lemma {:induction false} CStringAfter(a: octets, b: octets)
    requires NulFree(a)
    ensures CString(a + b) == a + CString(b)
  {
    if a == [] {
      assert a + b == b && a + CString(b) == CString(b);
    } else {
      assert (a + b)[1..] == a[1..] + b;
      CStringAfter(a[1..], b);
    }
  }

  /** The text bytes of a data section, without the NUL that ends it. */
  function Text(section: octets): octets {
    if section == [] then [] else section[..|section| - 1]
  }

  /** What comes out of the server for the text bytes that went in: cut at the first NUL, bytes settled. */
  lemma RelayedSection(page: CodePage, frame: octets, from: Id, target: Id)
    requires Parse(page, frame).Complete? && Parse(page, frame).packet.fields.data.Some?
    ensures var message := Parse(page, frame).packet.fields.data.value;
      DataSection(Print(page, ChatPacket(from, target, message)))
      == SettledAll(page, CString(Text(DataSection(frame)))) + [0]
    ensures |CString(Text(DataSection(frame)))| < MAX_DATA_LENGTH
  {
    hide Parse, Decoded, Encoded, DataSection, Print;
    DataComesFromSection(page, frame);
    var message := Parse(page, frame).packet.fields.data.value;
    var text := Text(DataSection(frame));
    assert message == Decoded(page, text) by { EmptyDecodes(page); }
    DecodedCString(page, text);
    EncodeAfterDecode(page, CString(text));
    PrintedSection(page, ChatPacket(from, target, message));
  }

  lemma EmptyDecodes(page: CodePage)
    ensures Decoded(page, []) == []
  {
  }

  /** A chat text is relayed byte for byte exactly when there is one, it holds no NUL and each byte survives its code
      page. (An empty section comes out as a lone NUL.) */
  lemma RelayIsFaithfulExactly(page: CodePage, frame: octets, from: Id, target: Id)
    requires Parse(page, frame).Complete? && Parse(page, frame).packet.fields.data.Some?
    ensures var message := Parse(page, frame).packet.fields.data.value;
      var text := Text(DataSection(frame));
      DataSection(Print(page, ChatPacket(from, target, message))) == DataSection(frame) <==>
      DataSection(frame) != [] && NulFree(text) && RoundTrips(page, text)
    ensures var message := Parse(page, frame).packet.fields.data.value;
      |DataSection(Print(page, ChatPacket(from, target, message)))| <= MAX_DATA_LENGTH
  {
    hide Parse, DataSection, Print, ChatPacket;
    DataComesFromSection(page, frame);
    RelayedSection(page, frame, from, target);
    var text := Text(DataSection(frame));
    var settled := SettledAll(page, CString(text));
    if DataSection(frame) != [] {
      assert DataSection(frame) == text + [0];
      if settled + [0] == text + [0] {
        assert settled == (settled + [0])[..|settled|] == (text + [0])[..|text|] == text;
        assert CString(text) == text;
      }
      if NulFree(text) {
        CStringOfNulFree(text);
      }
    }
  }

  /** For a message that is not empty there is a section. */
  lemma MessageIsRelayed(page: CodePage, frame: octets, from: Id, target: Id)
    requires Parse(page, frame).Complete? && Parse(page, frame).packet.fields.data.Some?
    requires Parse(page, frame).packet.fields.data.value != []
    ensures var message := Parse(page, frame).packet.fields.data.value;
      DataSection(Print(page, ChatPacket(from, target, message))) == DataSection(frame) <==>
      NulFree(Text(DataSection(frame))) && RoundTrips(page, Text(DataSection(frame)))
  {
    hide Parse, DataSection, Print, ChatPacket, RoundTrips;
    DataComesFromSection(page, frame);
    RelayIsFaithfulExactly(page, frame, from, target);
  }

  /** End to end: when a parsed ChatRoom frame speaks to the sender's room, every other member is sent one chat
      frame, whose data section is the sender's byte for byte exactly when the text has no NUL and round-trips. */
  lemma ChatIsRelayed(page: CodePage, frame: octets, s: Lobby, me: Id, v: Id)
    requires Parse(page, frame).Complete? && s.mail.Keys == s.users.Keys && me in s.users
    requires SpeaksToRoom(s, me, Parse(page, frame).packet.fields)
    requires v in Members(s, s.users[me].roomId) && v != me
    ensures var p := Parse(page, frame).packet.fields;
      var relayed := ChatPacket(me, s.users[me].roomId, p.data.value);
      && Sends(s, OnChatRoom(s, me, p).lobby, v, [relayed])
      && (DataSection(Print(page, relayed)) == DataSection(frame) <==>
            NulFree(Text(DataSection(frame))) && RoundTrips(page, Text(DataSection(frame))))
  {
    hide Parse, DataSection, Print, ChatPacket, OnChatRoom, RoundTrips, GroupPrefix, PrivatePrefix;
    var p := Parse(page, frame).packet.fields;
    GroupChatReachesRoom(s, me, p, v);
    assert p.data.value != [] by { PrefixIsLong(s.users[me].name); }
    MessageIsRelayed(page, frame, me, s.users[me].roomId);
  }

  /** The same for a private message to another member of the sender's room: it alone is sent the chat frame, and the
      sender a receipt. */
  lemma PrivateChatIsRelayed(page: CodePage, frame: octets, s: Lobby, me: Id, v: Id)
    requires Parse(page, frame).Complete? && s.mail.Keys == s.users.Keys && me in s.users && v in s.users
    requires var p := Parse(page, frame).packet.fields;
      && ValueOr(p.value0, 0) == me && p.value3.Some? && p.data.Some?
      && PrivatePrefix(s.users[me].name) <= p.data.value
      && p.value3.value in Members(s, s.users[me].roomId) - {me}
    ensures var p := Parse(page, frame).packet.fields;
      var relayed := ChatPacket(me, p.value3.value, p.data.value);
      && Sends(s, OnChatRoom(s, me, p).lobby, v,
               if v == p.value3.value then [relayed]
               else if v == me then [ErrorReply(CHAT_ROOM_REPLY, 0)]
               else [])
      && (DataSection(Print(page, relayed)) == DataSection(frame) <==>
            NulFree(Text(DataSection(frame))) && RoundTrips(page, Text(DataSection(frame))))
  {
    hide Parse, DataSection, Print, ChatPacket, OnChatRoom, RoundTrips, GroupPrefix, PrivatePrefix;
    var p := Parse(page, frame).packet.fields;
    PrivateChatReachesTarget(s, me, p, v);
    assert p.data.value != [] by { PrefixIsLong(s.users[me].name); }
    MessageIsRelayed(page, frame, me, p.value3.value);
  }

  lemma PrefixIsLong(name: octets)
    ensures |GroupPrefix(name)| > 0 && |PrivatePrefix(name)| > 0
  {
  }
}
