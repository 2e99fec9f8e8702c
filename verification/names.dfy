/** Case-insensitive names (include/string_utils.hpp). */
module Names {
  import opened Bytes

  /** `std::tolower` in the "C" locale. */
  function ToLower(c: byte): byte {
    if 0x41 <= c <= 0x5A then c + 0x20 else c
  }

  predicate EqualsCaseInsensitive(a: octets, b: octets) {
    |a| == |b| && forall i :: 0 <= i < |a| ==> ToLower(a[i]) == ToLower(b[i])
  }

  lemma EqualsCaseInsensitiveIsEquivalence(a: octets, b: octets, c: octets)
    ensures EqualsCaseInsensitive(a, a)
    ensures EqualsCaseInsensitive(a, b) <==> EqualsCaseInsensitive(b, a)
    ensures EqualsCaseInsensitive(a, b) && EqualsCaseInsensitive(b, c) ==> EqualsCaseInsensitive(a, c)
  {
  }

  /** The two cases of one ASCII letter. */
  predicate TwoCases(upper: byte, lower: byte) {
    0x41 <= upper <= 0x5A && lower == upper + 0x20
  }

  /** Alike but for the case of ASCII letters. */
  predicate OneName(a: octets, b: octets) {
    && |a| == |b|
    && forall i :: 0 <= i < |a| ==> a[i] == b[i] || TwoCases(a[i], b[i]) || TwoCases(b[i], a[i])
  }

  lemma LettersAlike(c: byte, d: byte)
    ensures ToLower(c) == ToLower(d) <==> c == d || TwoCases(c, d) || TwoCases(d, c)
  {
  }

  /** The comparison takes names for one exactly when they differ at most in the case of ASCII letters. */
  lemma EqualsCaseInsensitiveExactly(a: octets, b: octets)
    ensures EqualsCaseInsensitive(a, b) <==> OneName(a, b)
  {
    hide ToLower, TwoCases;
    if |a| == |b| {
      forall i | 0 <= i < |a|
        ensures ToLower(a[i]) == ToLower(b[i]) <==> a[i] == b[i] || TwoCases(a[i], b[i]) || TwoCases(b[i], a[i])
      {
        LettersAlike(a[i], b[i]);
      }
    }
  }

  /** A name with one of its letters in the other case. */
  lemma OneLetterOff(name: octets, i: nat, c: byte)
    requires i < |name| && (TwoCases(name[i], c) || TwoCases(c, name[i]))
    ensures OneName(name, name[i := c]) && name[i := c] != name
  {
    assert name[i := c][i] != name[i];
  }
}
