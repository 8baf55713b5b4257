/** `java.util.UUID`: a 128-bit value and its canonical text form. */
module Uuids {

  const TWO_64: int := 0x1_0000_0000_0000_0000
  const HEX_DIGITS: string := "0123456789abcdef"

  type u64 = x: int | 0 <= x < 0x1_0000_0000_0000_0000

  /** The two halves a `UUID` stores: the most and the least significant 64 bits. */
  datatype Uuid = Uuid(mostSigBits: u64, leastSigBits: u64)

  predicate IsHexDigit(c: char) {
    c in HEX_DIGITS
  }

  predicate AllHex(s: string) {
    forall i | 0 <= i < |s| :: IsHexDigit(s[i])
  }

  lemma AllHexConcat(a: string, b: string)
    requires AllHex(a) && AllHex(b)
    ensures AllHex(a + b)
  {
    forall i | 0 <= i < |a + b| ensures IsHexDigit((a + b)[i]) {
      if i >= |a| {
        assert (a + b)[i] == b[i - |a|];
      }
    }
  }

  /** The low `n` hexadecimal digits of `v`, most significant first, in lower case. */
  function Hex(v: nat, n: nat): (s: string)
    ensures |s| == n && AllHex(s)
  {
    if n == 0 then [] else Hex(v / 16, n - 1) + [HEX_DIGITS[v % 16]]
  }

  /** `UUID.toString`: groups of 8, 4, 4, 4 and 12 hexadecimal digits joined by dashes. */
  function ToString(u: Uuid): (s: string)
    ensures |s| == 36
    ensures forall i | 0 <= i < 36 :: (s[i] == '-' <==> i in {8, 13, 18, 23})
    ensures forall i | 0 <= i < 36 && i !in {8, 13, 18, 23} :: IsHexDigit(s[i])
  {
    var msb, lsb := u.mostSigBits, u.leastSigBits;
    Hex(msb / 0x1_0000_0000, 8) + "-" + Hex(msb / 0x1_0000, 4) + "-" + Hex(msb, 4) + "-"
    + Hex(lsb / 0x1_0000_0000_0000, 4) + "-" + Hex(lsb, 12)
  }

  /** `s.replace("-", "")`: `s` with every dash taken out. */
  function RemoveDashes(s: string): (r: string)
    ensures |r| <= |s| && '-' !in r
  {
    if s == [] then [] else (if s[0] == '-' then [] else [s[0]]) + RemoveDashes(s[1..])
  }

  lemma {:induction false} RemoveDashesAppend(a: string, b: string)
    ensures RemoveDashes(a + b) == RemoveDashes(a) + RemoveDashes(b)
  {
    if a == [] {
      assert a + b == b;
    } else {
      assert (a + b)[1..] == a[1..] + b;
      RemoveDashesAppend(a[1..], b);
    }
  }

  lemma {:induction false} RemoveDashesNoDash(s: string)
    requires '-' !in s
    ensures RemoveDashes(s) == s
  {
    if s != [] {
      RemoveDashesNoDash(s[1..]);
    }
  }

  /** Joining with a dash and then taking the dashes out is plain concatenation. */
  lemma RemoveDashesJoin(a: string, b: string)
    ensures RemoveDashes(a + "-" + b) == RemoveDashes(a) + RemoveDashes(b)
  {
    RemoveDashesAppend(a + "-", b);
    RemoveDashesAppend(a, "-");
  }

  lemma HexHasNoDash(v: nat, n: nat)
    ensures RemoveDashes(Hex(v, n)) == Hex(v, n)
  {
    RemoveDashesNoDash(Hex(v, n));
  }

  /** With the dashes taken out, `toString` leaves the 32 hexadecimal digits, and its first eight
      characters come first. */
  lemma RemoveDashesOfToString(u: Uuid)
    ensures var r := RemoveDashes(ToString(u));
      |r| == 32 && r[..8] == ToString(u)[..8] && AllHex(r)
  {
    var msb, lsb := u.mostSigBits, u.leastSigBits;
    var g1, g2, g3, g4, g5 := Hex(msb / 0x1_0000_0000, 8), Hex(msb / 0x1_0000, 4), Hex(msb, 4),
      Hex(lsb / 0x1_0000_0000_0000, 4), Hex(lsb, 12);
    HexHasNoDash(msb / 0x1_0000_0000, 8);
    HexHasNoDash(msb / 0x1_0000, 4);
    HexHasNoDash(msb, 4);
    HexHasNoDash(lsb / 0x1_0000_0000_0000, 4);
    HexHasNoDash(lsb, 12);
    var p2 := g1 + "-" + g2;
    var p3 := p2 + "-" + g3;
    var p4 := p3 + "-" + g4;
    var s := p4 + "-" + g5;
    assert s == ToString(u);
    RemoveDashesJoin(g1, g2);
    RemoveDashesJoin(p2, g3);
    RemoveDashesJoin(p3, g4);
    RemoveDashesJoin(p4, g5);
    var r := g1 + g2 + g3 + g4 + g5;
    assert RemoveDashes(s) == r;
    assert r[..8] == g1 == s[..8];
    AllHexConcat(g1, g2);
    AllHexConcat(g1 + g2, g3);
    AllHexConcat(g1 + g2 + g3, g4);
    AllHexConcat(g1 + g2 + g3 + g4, g5);
  }
}
