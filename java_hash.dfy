/** `java.lang.String.hashCode`, with its 32-bit wrap-around written out. */
module JavaHash {
  import opened JavaInt

  function Pow(b: int, e: nat): int {
    if e == 0 then 1 else b * Pow(b, e - 1)
  }

  /** The documented formula `s[0]*31^(n-1) + s[1]*31^(n-2) + ... + s[n-1]`, over unbounded integers. */
  function PolyHash(s: string): int {
    if s == [] then 0 else (s[0] as int) * Pow(31, |s| - 1) + PolyHash(s[1..])
  }

  /** `String.hashCode` as the JDK computes it: `h = 31 * h + c` for each character in turn, in `int`
      arithmetic. Each character counts as one code unit. */
  function HashCode(s: string): int32 {
    if s == [] then 0 else Wrap32(31 * HashCode(s[..|s| - 1]) + (s[|s| - 1] as int))
  }

  /** Appending a character to the formula multiplies the earlier terms by 31 (Horner's rule). */
  lemma {:induction false} PolyHashSnoc(a: string, c: char)
    ensures PolyHash(a + [c]) == 31 * PolyHash(a) + (c as int)
  {
    if a != [] {
      var t := a[1..];
      var x := a[0] as int;
      assert (a + [c])[1..] == t + [c];
      PolyHashSnoc(t, c);
      var p := Pow(31, |t|);
      assert Pow(31, |t| + 1) == 31 * p;
      assert x * (31 * p) == 31 * (x * p);
    } else {
      assert [] + [c] == [c];
    }
  }

  /** The JDK loop computes the documented formula reduced to 32 bits. */
  lemma {:induction false} HashCodeFormula(s: string)
    ensures HashCode(s) == Wrap32(PolyHash(s))
  {
    if s != [] {
      var a, c := s[..|s| - 1], s[|s| - 1];
      assert s == a + [c];
      HashCodeFormula(a);
      PolyHashSnoc(a, c);
      WrapStep(PolyHash(a), c as int);
    }
  }

  /** One step of the loop may wrap before or after: the result is the same. */
  lemma WrapStep(p: int, c: int)
    ensures Wrap32(31 * Wrap32(p) + c) == Wrap32(31 * p + c)
  {
    var w := Wrap32(p);
    var k := (p - w) / TWO_32;
    assert p - w == k * TWO_32;
    assert 31 * w + c == (31 * p + c) + (-31 * k) * TWO_32;
    WrapShift(31 * p + c, -31 * k);
  }
}
