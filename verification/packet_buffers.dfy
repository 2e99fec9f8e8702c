/** The reader and writer that packets are parsed from and printed to. PacketIO is a separate library; these
    classes state what the server relies on. */
module PacketBuffers {
  import opened Bytes

  lemma HeaderSlices(data: octets, p: nat)
    requires p + 8 <= |data|
    ensures data[p..][..4] == data[p..p + 4] && data[p..][4..8] == data[p + 4..p + 8] && data[p..][8..] == data[p + 8..]
  {
  }

  /** A cursor over a fixed buffer. Reading past the end is the dereference of an empty optional, so each
      `Read` demands that `CanRead` was established. */
  class PacketReader {
    const data: octets
    var pos: nat

    ghost predicate Valid()
      reads this
    {
      pos <= |data|
    }

    ghost function Rest(): octets
      requires Valid()
      reads this
    {
      data[pos..]
    }

    constructor (data: octets)
      ensures Valid() && this.data == data && pos == 0 && Rest() == data
    {
      this.data := data;
      pos := 0;
    }

    predicate CanRead(n: nat)
      requires Valid()
      reads this
      ensures CanRead(n) <==> n <= |Rest()|
    {
      n <= |data| - pos
    }

    method ReadBytes(n: nat) returns (r: octets)
      requires Valid() && CanRead(n)
      modifies this
      ensures Valid() && pos == old(pos) + n
      ensures r == data[old(pos)..pos]
    {
      r := data[pos..pos + n];
      pos := pos + n;
    }

    method ReadU8() returns (r: byte)
      requires Valid() && CanRead(1)
      modifies this
      ensures Valid() && pos == old(pos) + 1
      ensures r == data[old(pos)]
    {
      r := data[pos];
      pos := pos + 1;
    }

    method ReadU32() returns (r: uint32)
      requires Valid() && CanRead(4)
      modifies this
      ensures Valid() && pos == old(pos) + 4
      ensures r == GetU32(data[old(pos)..pos])
    {
      var b := ReadBytes(4);
      r := GetU32(b);
    }
  }

  class PacketWriter {
    var data: octets

    constructor ()
      ensures data == []
    {
      data := [];
    }

    method WriteBytes(s: octets)
      modifies this
      ensures data == old(data) + s
    {
      data := data + s;
    }

    method WriteU8(b: byte)
      modifies this
      ensures data == old(data) + [b]
    {
      data := data + [b];
    }

    method WriteU32(n: uint32)
      modifies this
      ensures data == old(data) + PutU32(n)
    {
      data := data + PutU32(n);
    }
  }
}
