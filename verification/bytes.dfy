/** Octets, 32-bit words and their little-endian wire form. */
module Bytes {
  datatype Option<+T> = None | Some(value: T)

  type byte = b: int | 0 <= b < 0x100
  type uint32 = n: int | 0 <= n < 0x1_0000_0000

  /** A C++ `std::string` or byte buffer. Text inside the server is UTF-8 held in one of these. */
  type octets = seq<byte>

  function ValueOr(o: Option<uint32>, default: uint32): uint32 {
    if o.Some? then o.value else default
  }

  function TextOr(o: Option<octets>, default: octets): octets {
    if o.Some? then o.value else default
  }

  /** `write_le` on a 32-bit value. */
  function PutU32(n: uint32): (s: octets)
    ensures |s| == 4
  {
    [n % 0x100, n / 0x100 % 0x100, n / 0x1_0000 % 0x100, n / 0x100_0000]
  }

  /** `read_le` of a 32-bit value. */
  function GetU32(s: octets): (n: uint32)
    requires |s| == 4
  {
    var b0: int, b1: int, b2: int, b3: int := s[0], s[1], s[2], s[3];
    b0 + 0x100 * b1 + 0x1_0000 * b2 + 0x100_0000 * b3
  }

  lemma GetAfterPut(n: uint32)
    ensures GetU32(PutU32(n)) == n
  {
    assert n / 0x1_0000 == n / 0x100 / 0x100;
    assert n / 0x100_0000 == n / 0x1_0000 / 0x100;
  }

  /** What a C string holds: everything before the first NUL. */
  function CString(s: octets): (c: octets)
    ensures |c| <= |s| && c == s[..|c|] && NulFree(c)
    ensures |c| < |s| ==> s[|c|] == 0
  {
    if s == [] || s[0] == 0 then [] else [s[0]] + CString(s[1..])
  }

  predicate NulFree(s: octets) {
    forall i :: 0 <= i < |s| ==> s[i] != 0
  }

  lemma {:induction false} CStringOfNulFree(s: octets)
    requires NulFree(s)
    ensures CString(s) == s
  {
    if s != [] {
      CStringOfNulFree(s[1..]);
    }
  }

  /** `CString` drops the first NUL and everything after it, whatever that is. */
  lemma {:induction false} CStringStopsAtNul(c: octets, rest: octets)
    requires NulFree(c)
    ensures CString(c + [0] + rest) == c
  {
    if c == [] {
      assert (c + [0] + rest)[0] == 0;
    } else {
      assert (c + [0] + rest)[1..] == c[1..] + [0] + rest;
      CStringStopsAtNul(c[1..], rest);
    }
  }
}
