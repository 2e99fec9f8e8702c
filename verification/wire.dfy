/** The wire form in plain numbers: which bytes a packet is, part by part, and the frames of all packets the server
    sends (include/packet_code.hpp, include/packet_flags.hpp, src/worms_packet.cpp, src/session_info.cpp). */
module Wire {
  import opened Bytes
  import opened CodePages
  import opened SessionInfos
  import opened Packets
  import opened PacketLaws
  import opened Lobbies

  /** A word is written with its lowest byte first. */
  lemma WordIsLittleEndian(n: uint32)
    ensures var s := PutU32(n);
      |s| == 4 && n == s[0] as int + 0x100 * s[1] as int + 0x1_0000 * s[2] as int + 0x100_0000 * s[3] as int
  {
    assert n / 0x1_0000 == n / 0x100 / 0x100 && n / 0x100_0000 == n / 0x1_0000 / 0x100;
  }

  // ---- Session blocks ----

  /** The block of a user, a room or a game, byte for byte. */
  lemma BlockInBytes(nation: byte, kind: byte, access: byte)
    ensures PutInfo(NewInfo(nation, kind, access)) ==
      [0x17, 0x17, 0x17, 0x17, 0x01, 0x01, 0x01, 0x02, nation, 49, 49, kind, access, 1, 0] + Zeros(35)
  {
    assert PutU32(0x17171717) == [0x17, 0x17, 0x17, 0x17] && PutU32(0x02010101) == [0x01, 0x01, 0x01, 0x02];
    assert Zeros(35) == NewInfo(nation, kind, access).padding;
  }

  /** Where the fields of any block lie. */
  lemma BlockLayout(info: SessionInfo)
    ensures var s := PutInfo(info);
      && |s| == 50 && s[..4] == PutU32(info.crc1) && s[4..8] == PutU32(info.crc2)
      && s[8] == info.nation && s[9] == info.gameVersion && s[10] == info.gameRelease
      && s[11] == info.kind && s[12] == info.access && s[13] == info.alwaysOne && s[14] == info.alwaysZero
      && s[15..] == info.padding
  {
    hide PutU32;
  }

  /** The blocks a reader accepts. */
  lemma BlockIsAcceptedExactly(s: octets)
    requires |s| == 50
    ensures Verified(GetInfo(s)) <==>
      && s[..8] == [0x17, 0x17, 0x17, 0x17, 0x01, 0x01, 0x01, 0x02]
      && s[13] == 1 && s[14] == 0 && forall i :: 15 <= i < 50 ==> s[i] == 0
  {
    WordIs(s[..4], 0x17171717, [0x17, 0x17, 0x17, 0x17]);
    WordIs(s[4..8], 0x02010101, [0x01, 0x01, 0x01, 0x02]);
    hide GetU32;
    var info := GetInfo(s);
    assert s[..8] == s[..4] + s[4..8];
    assert [0x17, 0x17, 0x17, 0x17, 0x01, 0x01, 0x01, 0x02] == [0x17, 0x17, 0x17, 0x17] + [0x01, 0x01, 0x01, 0x02];
    assert forall i :: 0 <= i < 35 ==> info.padding[i] == s[15 + i];
    assert forall i :: 15 <= i < 50 ==> s[i] == info.padding[i - 15];
  }

  lemma WordIs(s: octets, n: uint32, bytes: octets)
    requires |s| == 4 && |bytes| == 4 && n == GetU32(bytes)
    ensures GetU32(s) == n <==> s == bytes
  {
    if GetU32(s) == n {
      LowestByte(s);
      LowestByte(bytes);
      assert s[0] == bytes[0] && s[1] == bytes[1] && s[2] == bytes[2] && s[3] == bytes[3];
    }
  }

  lemma LowestByte(s: octets)
    requires |s| == 4
    ensures var n := GetU32(s);
      n % 0x100 == s[0] && n / 0x100 % 0x100 == s[1] && n / 0x1_0000 % 0x100 == s[2] && n / 0x100_0000 == s[3]
  {
    var a: int, b: int, c: int, d: int := s[0], s[1], s[2], s[3];
    var n: int := GetU32(s);
    assert n == a + 0x100 * (b + 0x100 * (c + 0x100 * d));
    assert n / 0x100 == b + 0x100 * (c + 0x100 * d);
    assert n / 0x1_0000 == n / 0x100 / 0x100 == c + 0x100 * d;
    assert n / 0x100_0000 == n / 0x1_0000 / 0x100;
  }

  // ---- Every packet ----

  function Bit(b: bool): nat {
    if b then 1 else 0
  }

  /** The flags of the parts a packet has. */
  function FlagWord(f: Fields): nat {
    0x001 * Bit(f.value0.Some?) + 0x002 * Bit(f.value1.Some?) + 0x004 * Bit(f.value2.Some?)
    + 0x008 * Bit(f.value3.Some?) + 0x010 * Bit(f.value4.Some?) + 0x020 * Bit(f.dataLength.Some? || f.data.Some?)
    + 0x040 * Bit(f.data.Some?) + 0x080 * Bit(f.error.Some?) + 0x100 * Bit(f.name.Some?)
    + 0x200 * Bit(f.info.Some?) + 0x400 * Bit(f.value10.Some?)
  }

  lemma BinaryAt(digits: seq<bool>, i: nat)
    requires i < |digits|
    ensures Binary(digits[i..]) == Bit(digits[i]) + 2 * Binary(digits[i + 1..])
  {
    assert digits[i..][1..] == digits[i + 1..];
  }

  lemma NothingIsZero(digits: seq<bool>)
    requires digits == []
    ensures Binary(digits) == 0
  {
  }

  /** Eleven digits, lowest first. */
  lemma BinaryIsSum(d: seq<bool>)
    requires |d| == 11
    ensures Binary(d) == Bit(d[0]) + 2 * (Bit(d[1]) + 2 * (Bit(d[2]) + 2 * (Bit(d[3])
      + 2 * (Bit(d[4]) + 2 * (Bit(d[5]) + 2 * (Bit(d[6]) + 2 * (Bit(d[7])
      + 2 * (Bit(d[8]) + 2 * (Bit(d[9]) + 2 * Bit(d[10]))))))))))
  {
    hide Binary, Bit;
    var n := seq(12, i requires 0 <= i <= 11 => Binary(d[i..]));
    forall i | 0 <= i < 11 ensures n[i] == Bit(d[i]) + 2 * n[i + 1] {
      BinaryAt(d, i);
    }
    assert n[11] == 0 by { NothingIsZero(d[11..]); }
    assert d[0..] == d;
    assert Binary(d) == n[0];
    assert n[0] == Bit(d[0]) + 2 * n[1] && n[1] == Bit(d[1]) + 2 * n[2];
    assert n[2] == Bit(d[2]) + 2 * n[3] && n[3] == Bit(d[3]) + 2 * n[4];
    assert n[4] == Bit(d[4]) + 2 * n[5] && n[5] == Bit(d[5]) + 2 * n[6];
    assert n[6] == Bit(d[6]) + 2 * n[7] && n[7] == Bit(d[7]) + 2 * n[8];
    assert n[8] == Bit(d[8]) + 2 * n[9] && n[9] == Bit(d[9]) + 2 * n[10];
    assert n[10] == Bit(d[10]) + 2 * n[11];
  }

  lemma FlagsInNumbers(f: Fields)
    ensures FlagsOf(f) == FlagWord(f)
  {
    hide FlagsOf, Presence, Binary;
    var d := Presence(f);
    FlagsAreBinary(f);
    PresenceInOrder(f);
    BinaryIsSum(d);
    SumOfBits(Bit(d[0]), Bit(d[1]), Bit(d[2]), Bit(d[3]), Bit(d[4]), Bit(d[5]), Bit(d[6]), Bit(d[7]), Bit(d[8]),
              Bit(d[9]), Bit(d[10]));
  }

  lemma FlagsAreBinary(f: Fields)
    ensures FlagsOf(f) == Binary(Presence(f))
  {
  }

  lemma SumOfBits(a: nat, b: nat, c: nat, d: nat, e: nat, f: nat, g: nat, h: nat, i: nat, j: nat, k: nat)
    ensures
      a + 2 * (b + 2 * (c + 2 * (d + 2 * (e + 2 * (f + 2 * (g + 2 * (h + 2 * (i + 2 * (j + 2 * k)))))))))
      == 0x001 * a + 0x002 * b + 0x004 * c + 0x008 * d + 0x010 * e + 0x020 * f + 0x040 * g + 0x080 * h
         + 0x100 * i + 0x200 * j + 0x400 * k
  {
  }

  lemma PresenceInOrder(f: Fields)
    ensures var d := Presence(f);
      && d[0] == f.value0.Some? && d[1] == f.value1.Some? && d[2] == f.value2.Some? && d[3] == f.value3.Some?
      && d[4] == f.value4.Some? && d[5] == (f.dataLength.Some? || f.data.Some?) && d[6] == f.data.Some?
      && d[7] == f.error.Some? && d[8] == f.name.Some? && d[9] == f.info.Some? && d[10] == f.value10.Some?
  {
  }

  function Word(v: Option<uint32>): octets {
    if v.Some? then PutU32(v.value) else []
  }

  /** Data is preceded by its length and followed by a NUL, which the length counts. */
  function DataPart(page: CodePage, data: Option<octets>): octets {
    if data.Some? then
      var encoded := Encoded(page, data.value);
      PutU32((|encoded| + 1) % 0x1_0000_0000) + encoded + [0]
    else []
  }

  /** A name takes 20 bytes: cut, or filled up with NULs. */
  function NamePart(page: CodePage, name: Option<octets>): octets {
    if name.Some? then
      var encoded := Encoded(page, name.value);
      if |encoded| >= 20 then encoded[..20] else encoded + Zeros(20 - |encoded|)
    else []
  }

  function BlockPart(info: Option<SessionInfo>): octets {
    if info.Some? then PutInfo(info.value) else []
  }

  /** The order of the parts: values 0 to 4, value 10, the data, the error, the name, the session block. */
  function Body(page: CodePage, f: Fields): octets {
    Word(f.value0) + Word(f.value1) + Word(f.value2) + Word(f.value3) + Word(f.value4) + Word(f.value10)
    + DataPart(page, f.data) + Word(f.error) + NamePart(page, f.name) + BlockPart(f.info)
  }

  lemma PartsInOrder(page: CodePage, f: Fields)
    ensures Image(page, f, FieldAt(0)) == Word(f.value0) && Image(page, f, FieldAt(1)) == Word(f.value1)
    ensures Image(page, f, FieldAt(2)) == Word(f.value2) && Image(page, f, FieldAt(3)) == Word(f.value3)
    ensures Image(page, f, FieldAt(4)) == Word(f.value4) && Image(page, f, FieldAt(5)) == Word(f.value10)
    ensures Image(page, f, FieldAt(6)) + Image(page, f, FieldAt(7)) == DataPart(page, f.data)
    ensures Image(page, f, FieldAt(8)) == Word(f.error) && Image(page, f, FieldAt(9)) == NamePart(page, f.name)
    ensures Image(page, f, FieldAt(10)) == BlockPart(f.info)
  {
    hide PutU32, Encoded, PutInfo, Zeros, NameBlock, NamePart, DataPart;
    DataInOrder(page, f);
    NameInOrder(page, f);
  }

  lemma DataInOrder(page: CodePage, f: Fields)
    ensures Image(page, f, DataLength) + Image(page, f, Data) == DataPart(page, f.data)
  {
    hide PutU32, Encoded;
    if f.data.Some? {
      var encoded := Encoded(page, f.data.value);
      var length := PutU32((|encoded| + 1) % 0x1_0000_0000);
      assert length + (encoded + [0]) == length + encoded + [0];
    }
  }

  lemma NameInOrder(page: CodePage, f: Fields)
    ensures Image(page, f, Name) == NamePart(page, f.name)
  {
    hide Encoded, Zeros;
    if f.name.Some? {
      var encoded := Encoded(page, f.name.value);
      if |encoded| == 20 {
        assert encoded[..20] == encoded && encoded + Zeros(0) == encoded;
      }
    }
  }

  /** Any packet in bytes: its code, its flags, and its parts in this order. */
  lemma PacketInBytes(page: CodePage, p: Packet)
    ensures FlagWord(p.fields) < 0x800
    ensures Print(page, p) == PutU32(p.code) + PutU32(FlagWord(p.fields)) + Body(page, p.fields)
  {
    hide FieldAt, Image, PutU32, Word, DataPart, NamePart, BlockPart, FlagsOf;
    FlagsInNumbers(p.fields);
    PartsInOrder(page, p.fields);
    BodyInOrder(page, p.fields);
  }

  lemma BodyInOrder(page: CodePage, f: Fields)
    ensures PrintFrom(page, f, 0) ==
      Image(page, f, FieldAt(0)) + Image(page, f, FieldAt(1)) + Image(page, f, FieldAt(2)) + Image(page, f, FieldAt(3))
      + Image(page, f, FieldAt(4)) + Image(page, f, FieldAt(5))
      + (Image(page, f, FieldAt(6)) + Image(page, f, FieldAt(7))) + Image(page, f, FieldAt(8))
      + Image(page, f, FieldAt(9)) + Image(page, f, FieldAt(10))
  {
    hide FieldAt, Image, PrintFrom;
    var done := [];
    PrintStep(page, f, done, 0);
    done := done + Image(page, f, FieldAt(0));
    PrintStep(page, f, done, 1);
    done := done + Image(page, f, FieldAt(1));
    PrintStep(page, f, done, 2);
    done := done + Image(page, f, FieldAt(2));
    PrintStep(page, f, done, 3);
    done := done + Image(page, f, FieldAt(3));
    PrintStep(page, f, done, 4);
    done := done + Image(page, f, FieldAt(4));
    PrintStep(page, f, done, 5);
    done := done + Image(page, f, FieldAt(5));
    PrintStep(page, f, done, 6);
    PrintStep(page, f, done + Image(page, f, FieldAt(6)), 7);
    assert done + Image(page, f, FieldAt(6)) + Image(page, f, FieldAt(7))
      == done + (Image(page, f, FieldAt(6)) + Image(page, f, FieldAt(7)));
    done := done + (Image(page, f, FieldAt(6)) + Image(page, f, FieldAt(7)));
    PrintStep(page, f, done, 8);
    done := done + Image(page, f, FieldAt(8));
    PrintStep(page, f, done, 9);
    done := done + Image(page, f, FieldAt(9));
    PrintStep(page, f, done, 10);
    done := done + Image(page, f, FieldAt(10));
    PrintStops(page, f, done);
    assert [] + PrintFrom(page, f, 0) == PrintFrom(page, f, 0);
    assert [] + Image(page, f, FieldAt(0)) == Image(page, f, FieldAt(0));
  }

  lemma PrintStep(page: CodePage, f: Fields, done: octets, k: nat)
    requires k < FIELD_COUNT
    ensures done + PrintFrom(page, f, k) == done + Image(page, f, FieldAt(k)) + PrintFrom(page, f, k + 1)
  {
    hide FieldAt, Image;
  }

  lemma PrintStops(page: CodePage, f: Fields, done: octets)
    ensures done + PrintFrom(page, f, FIELD_COUNT) == done
  {
  }

  // ---- The frames of the server ----

  /** A packet whose parts are known: its code, its flags and its body. */
  lemma Framing(page: CodePage, p: Packet, flags: uint32, body: octets)
    requires flags == FlagWord(p.fields) && body == Body(page, p.fields)
    ensures Print(page, p) == PutU32(p.code) + PutU32(flags) + body
  {
    hide PutU32, Body, FlagWord;
    PacketInBytes(page, p);
  }

  /** Replies that carry an error only, and replies with an id: the id comes first. */
  lemma ReplyFrames(page: CodePage, code: uint32, id: Id, error: uint32)
    ensures Print(page, ErrorReply(code, error)) == PutU32(code) + PutU32(0x080) + PutU32(error)
    ensures Print(page, IdReply(code, id, error)) == PutU32(code) + PutU32(0x082) + (PutU32(id) + PutU32(error))
  {
    hide PutU32, Print;
    var (e, i) := (ErrorReply(code, error), IdReply(code, id, error));
    assert Body(page, e.fields) == PutU32(error);
    assert Body(page, i.fields) == PutU32(id) + PutU32(error);
    Framing(page, e, 0x080, PutU32(error));
    Framing(page, i, 0x082, PutU32(id) + PutU32(error));
  }

  /** Where users move: the room comes first, then who moves. */
  lemma MoveFrames(page: CodePage, roomId: Id, userId: Id)
    ensures Print(page, JoinPacket(roomId, userId)) == PutU32(800) + PutU32(0x404) + (PutU32(roomId) + PutU32(userId))
    ensures Print(page, LeavePacket(roomId, userId)) == PutU32(900) + PutU32(0x404) + (PutU32(roomId) + PutU32(userId))
  {
    hide PutU32, Print;
    var (j, l) := (JoinPacket(roomId, userId), LeavePacket(roomId, userId));
    assert Body(page, j.fields) == PutU32(roomId) + PutU32(userId) == Body(page, l.fields);
    Framing(page, j, 0x404, PutU32(roomId) + PutU32(userId));
    Framing(page, l, 0x404, PutU32(roomId) + PutU32(userId));
  }

  /** What ends: a connection, a room or a game, and a listing. */
  lemma EndFrames(page: CodePage, id: Id)
    ensures Print(page, DisconnectPacket(id)) == PutU32(1000) + PutU32(0x400) + PutU32(id)
    ensures Print(page, ClosePacket(id)) == PutU32(1100) + PutU32(0x400) + PutU32(id)
    ensures Print(page, LIST_END_PACKET) == PutU32(351) + PutU32(0)
  {
    hide PutU32, Print;
    assert Body(page, DisconnectPacket(id).fields) == PutU32(id) == Body(page, ClosePacket(id).fields);
    assert Body(page, LIST_END_PACKET.fields) == [];
    Framing(page, DisconnectPacket(id), 0x400, PutU32(id));
    Framing(page, ClosePacket(id), 0x400, PutU32(id));
    Framing(page, LIST_END_PACKET, 0, []);
  }

  /** Who comes, and which rooms: their id and 0, then name and block. A room has an empty text. */
  lemma LoginFrame(page: CodePage, id: Id, name: octets, info: SessionInfo)
    ensures Print(page, LoginPacket(id, name, info)) == PutU32(600) + PutU32(0x312)
      + (PutU32(id) + PutU32(0) + NamePart(page, Some(CString(name))) + PutInfo(info))
  {
    hide PutU32, Print, NamePart, PutInfo, CString;
    var p := LoginPacket(id, name, info);
    var body := PutU32(id) + PutU32(0) + NamePart(page, Some(CString(name))) + PutInfo(info);
    assert Body(page, p.fields) == body;
    Framing(page, p, 0x312, body);
  }

  lemma EmptyText(page: CodePage)
    ensures DataPart(page, Some([])) == [1, 0, 0, 0, 0]
  {
    hide Encoded;
    var encoded := Encoded(page, []);
    assert encoded == [] && |encoded| + 1 == 1;
    OneInBytes();
  }

  lemma OneInBytes()
    ensures PutU32(1) == [1, 0, 0, 0]
  {
  }

  lemma RoomFrame(page: CodePage, id: Id, r: Room)
    ensures Print(page, RoomPacket(id, r)) == PutU32(700) + PutU32(0x372)
      + (PutU32(id) + PutU32(0) + [1, 0, 0, 0, 0] + NamePart(page, Some(r.name)) + PutInfo(r.info))
  {
    hide PutU32, Print, NamePart, PutInfo, DataPart;
    EmptyText(page);
    var p := RoomPacket(id, r);
    var body := PutU32(id) + PutU32(0) + [1, 0, 0, 0, 0] + NamePart(page, Some(r.name)) + PutInfo(r.info);
    assert Body(page, p.fields) == body;
    Framing(page, p, 0x372, body);
  }

  /** A game: its id, its room, the number 0x800, its address as text, name and block. */
  lemma GameFrame(page: CodePage, net: Net, id: Id, g: Game)
    ensures Print(page, GamePacket(net, id, g)) == PutU32(1200) + PutU32(0x376)
      + (PutU32(id) + PutU32(g.roomId) + PutU32(0x800) + DataPart(page, Some(net.show(g.address)))
         + NamePart(page, Some(g.name)) + PutInfo(g.info))
  {
    hide PutU32, Print, NamePart, PutInfo, DataPart;
    var p := GamePacket(net, id, g);
    var body := PutU32(id) + PutU32(g.roomId) + PutU32(0x800) + DataPart(page, Some(net.show(g.address)))
      + NamePart(page, Some(g.name)) + PutInfo(g.info);
    assert Body(page, p.fields) == body;
    Framing(page, p, 0x376, body);
  }

  /** An item of a listing: its id, its text, name and block. */
  lemma ItemFrame(page: CodePage, id: Id, name: octets, data: octets, info: SessionInfo)
    ensures Print(page, ItemPacket(id, name, data, info)) == PutU32(350) + PutU32(0x362)
      + (PutU32(id) + DataPart(page, Some(data)) + NamePart(page, Some(name)) + PutInfo(info))
  {
    hide PutU32, Print, NamePart, PutInfo, DataPart;
    var p := ItemPacket(id, name, data, info);
    var body := PutU32(id) + DataPart(page, Some(data)) + NamePart(page, Some(name)) + PutInfo(info);
    assert Body(page, p.fields) == body;
    Framing(page, p, 0x362, body);
  }

  /** Chat: from whom, to whom, and the text up to its first NUL. */
  lemma ChatFrame(page: CodePage, from: Id, target: Id, message: octets)
    ensures Print(page, ChatPacket(from, target, message)) == PutU32(1300) + PutU32(0x069)
      + (PutU32(from) + PutU32(target) + DataPart(page, Some(CString(message))))
  {
    hide PutU32, Print, DataPart, CString;
    var p := ChatPacket(from, target, message);
    var body := PutU32(from) + PutU32(target) + DataPart(page, Some(CString(message)));
    assert Body(page, p.fields) == body;
    Framing(page, p, 0x069, body);
  }

  /** Where to find a game: the address comes before the error. */
  lemma ConnectFrame(page: CodePage, address: octets, error: uint32)
    ensures Print(page, ConnectPacket(address, error)) == PutU32(1327) + PutU32(0x0E0)
      + (DataPart(page, Some(address)) + PutU32(error))
  {
    hide PutU32, Print, DataPart;
    var p := ConnectPacket(address, error);
    var body := DataPart(page, Some(address)) + PutU32(error);
    assert Body(page, p.fields) == body;
    Framing(page, p, 0x0E0, body);
  }

  // ---- Reading ----

  /** Of eight bytes or more, the first four decide whether this is a packet a client may send. */
  lemma UnknownCodeExactly(page: CodePage, s: octets)
    ensures |s| < 8 ==> Parse(page, s).Partial?
    ensures |s| >= 8 ==>
      ((Parse(page, s).Failed? && Parse(page, s).error.UnknownCode?) <==>
        GetU32(s[..4]) !in {200, 400, 500, 600, 700, 800, 900, 1100, 1200, 1300, 1326})
  {
    hide ParseFrom, GetU32;
    if |s| >= 8 {
      NotTheCode(page, GetU32(s[4..8]), 0, NO_FIELDS, s[8..]);
    }
  }

  lemma {:induction false} NotTheCode(page: CodePage, flags: uint32, k: nat, acc: Fields, s: octets)
    requires k <= FIELD_COUNT
    ensures var r := ParseFrom(page, flags, k, acc, s); r.Bad? ==> !r.error.UnknownCode?
    decreases FIELD_COUNT - k
  {
    hide Decoded, CString, GetU32, GetInfo, HasFlag, Verified, FieldAt;
    if k < FIELD_COUNT {
      var f := FieldAt(k);
      var w := Width(f, acc);
      if !HasFlag(flags, f) {
        NotTheCode(page, flags, k + 1, acc, s);
      } else if w <= |s| {
        match Absorb(page, f, acc, s[..w])
        case Fault(_) =>
        case Good(next) => NotTheCode(page, flags, k + 1, next, s[w..]);
      }
    }
  }

  /** A client's request to join or leave: the room comes first, then who asks. */
  lemma MoveIsRead(page: CodePage, code: uint32, roomId: Id, me: Id)
    requires code in {800, 900}
    ensures Parse(page, PutU32(code) + PutU32(0x404) + (PutU32(roomId) + PutU32(me))) ==
      Complete(Packet(code, Fields(None, None, Some(roomId), None, None, Some(me), None, None, None, None, None)), 16)
  {
    hide Parse, PutU32, Print, Encoded;
    var p := Packet(code, NO_FIELDS.(value2 := Some(roomId), value10 := Some(me)));
    PlainIsDeliverable(page, p);
    assert Body(page, p.fields) == PutU32(roomId) + PutU32(me);
    Framing(page, p, 0x404, PutU32(roomId) + PutU32(me));
  }
}
