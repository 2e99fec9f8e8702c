/** The 50-byte block that describes a user, a room or a game (src/session_info.cpp). */
module SessionInfos {
  import opened Bytes
  import opened PacketBuffers

  const PADDING_SIZE := 35
  const INFO_SIZE := 50
  const CRC1: uint32 := 0x17171717
  const CRC2: uint32 := 0x02010101
  const GAME_RELEASE: byte := 49

  const ROOM: byte := 1
  const GAME: byte := 4
  const USER: byte := 5
  const PUBLIC_ACCESS: byte := 1

  const NO_PADDING: octets := [0, 0, 0, 0, 0, 0, 0, 0, 0, 0, 0, 0, 0, 0, 0, 0, 0, 0, 0, 0, 0, 0, 0, 0, 0, 0, 0, 0, 0,
                               0, 0, 0, 0, 0, 0]

  type Padding = p: octets | |p| == PADDING_SIZE witness NO_PADDING

  /** Nation, kind and access are enumerations cast from bytes unchecked, so any byte can stand in them. */
  datatype SessionInfo = SessionInfo(
    crc1: uint32, crc2: uint32, nation: byte, gameVersion: byte, gameRelease: byte, kind: byte, access: byte,
    alwaysOne: byte, alwaysZero: byte, padding: Padding)

  function NewInfo(nation: byte, kind: byte, access: byte): (info: SessionInfo)
    ensures Verified(info) && info.gameRelease == GAME_RELEASE
  {
    SessionInfo(CRC1, CRC2, nation, 49, GAME_RELEASE, kind, access, 1, 0, NO_PADDING)
  }

  /** `verifySessionInfo` on a little-endian host. */
  predicate Verified(info: SessionInfo) {
    && info.crc1 == CRC1
    && info.crc2 == CRC2
    && info.alwaysOne == 1
    && info.alwaysZero == 0
    && forall i :: 0 <= i < PADDING_SIZE ==> info.padding[i] == 0
  }

  function PutInfo(info: SessionInfo): (s: octets)
    ensures |s| == INFO_SIZE
  {
    PutU32(info.crc1) + PutU32(info.crc2)
    + [info.nation, info.gameVersion, info.gameRelease, info.kind, info.access, info.alwaysOne, info.alwaysZero]
    + info.padding
  }

  function GetInfo(s: octets): SessionInfo
    requires |s| == INFO_SIZE
  {
    SessionInfo(GetU32(s[..4]), GetU32(s[4..8]), s[8], s[9], s[10], s[11], s[12], s[13], s[14], s[15..])
  }

  lemma SliceOfSlice(data: octets, p: nat, n: nat, from: nat, to: nat)
    requires p + n <= |data| && from <= to <= n
    ensures data[p..p + n][from..to] == data[p + from..p + to]
  {
    var inner, outer := data[p..p + n][from..to], data[p + from..p + to];
    forall i | 0 <= i < to - from ensures inner[i] == outer[i] {
      assert inner[i] == data[p..p + n][from + i] == data[p + (from + i)];
    }
  }

  /** Where the fields of the block at `p` lie. */
  lemma InfoAt(data: octets, p: nat)
    requires p + INFO_SIZE <= |data|
    ensures var info := GetInfo(data[p..p + INFO_SIZE]);
      && info.crc1 == GetU32(data[p..p + 4]) && info.crc2 == GetU32(data[p + 4..p + 8])
      && info.nation == data[p + 8] && info.gameVersion == data[p + 9] && info.gameRelease == data[p + 10]
      && info.kind == data[p + 11] && info.access == data[p + 12]
      && info.alwaysOne == data[p + 13] && info.alwaysZero == data[p + 14]
      && info.padding == data[p + 15..p + INFO_SIZE]
  {
    SliceOfSlice(data, p, INFO_SIZE, 0, 4);
    SliceOfSlice(data, p, INFO_SIZE, 4, 8);
    SliceOfSlice(data, p, INFO_SIZE, 15, INFO_SIZE);
    var s := data[p..p + INFO_SIZE];
    assert s[..4] == data[p..p + 4] && s[15..] == data[p + 15..p + INFO_SIZE];
  }

  lemma GetAfterPutInfo(info: SessionInfo)
    ensures GetInfo(PutInfo(info)) == info
  {
    var s := PutInfo(info);
    GetAfterPut(info.crc1);
    GetAfterPut(info.crc2);
    assert s[..4] == PutU32(info.crc1) && s[4..8] == PutU32(info.crc2) && s[15..] == info.padding;
  }

  method WriteTo(info: SessionInfo, writer: PacketWriter)
    modifies writer
    ensures writer.data == old(writer.data) + PutInfo(info)
  {
    writer.WriteU32(info.crc1);
    writer.WriteU32(info.crc2);
    writer.WriteU8(info.nation);
    writer.WriteU8(info.gameVersion);
    writer.WriteU8(info.gameRelease);
    writer.WriteU8(info.kind);
    writer.WriteU8(info.access);
    writer.WriteU8(info.alwaysOne);
    writer.WriteU8(info.alwaysZero);
    writer.WriteBytes(info.padding);
  }

  /** The fields take up exactly the 50 bytes whose presence the caller checked. */
  method ReadFrom(reader: PacketReader) returns (r: Option<SessionInfo>)
    requires reader.Valid() && reader.CanRead(INFO_SIZE)
    modifies reader
    ensures reader.Valid() && reader.pos == old(reader.pos) + INFO_SIZE
    ensures var info := GetInfo(reader.data[old(reader.pos)..reader.pos]);
      r == if Verified(info) then Some(info) else None
  {
    hide GetU32, GetInfo, Verified;
    InfoAt(reader.data, reader.pos);
    var crc1 := reader.ReadU32();
    var crc2 := reader.ReadU32();
    var nation := reader.ReadU8();
    var gameVersion := reader.ReadU8();
    var gameRelease := reader.ReadU8();
    var kind := reader.ReadU8();
    var access := reader.ReadU8();
    var alwaysOne := reader.ReadU8();
    var alwaysZero := reader.ReadU8();
    var padding := reader.ReadBytes(PADDING_SIZE);
    var info := SessionInfo(crc1, crc2, nation, gameVersion, gameRelease, kind, access, alwaysOne, alwaysZero, padding);
    if !Verified(info) {
      return None;
    }
    return Some(info);
  }
}
