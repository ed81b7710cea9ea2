/**
 AX.25 callsigns of seven shifted octets, and how ax25ipd compares them.
 */
module Callsigns {
  type Call = s: seq<bv8> | |s| == 7 witness [0, 0, 0, 0, 0, 0, 0]

  /** A callsign without its flag bits, as the tables hold it. */
  function Normalised(c: Call): Call {
    [c[0] & 0xfe, c[1] & 0xfe, c[2] & 0xfe, c[3] & 0xfe, c[4] & 0xfe, c[5] & 0xfe, (c[6] & 0x1e) | 0x60]
  }

  predicate IsNormal(c: Call) {
    Normalised(c) == c
  }

  /** The sign of the difference of two octets as a signed char without its low bit. */
  function Sign(x: bv8, y: bv8): int {
    if (x - y) & 0xfe == 0 then 0 else if (x - y) & 0xfe < 0x80 then 1 else -1
  }

  function CompareFrom(a: Call, b: Call, i: nat): int
    requires i <= 7
    decreases 7 - i
  {
    if i == 7 then 0 else if Sign(a[i], b[i]) != 0 then Sign(a[i], b[i]) else CompareFrom(a, b, i + 1)
  }

  /** addrcompare, up to its sign, which is all that is used of it. */
  function Compare(a: Call, b: Call): int {
    CompareFrom(a, b, 0)
  }

  /** addrmatch: an SSID of zero in b stands for any. */
  predicate Match(a: Call, b: Call) {
    && a[0] != 0 && b[0] != 0
    && (forall i | 0 <= i < 6 :: (a[i] ^ b[i]) & 0xfe == 0)
    && (b[6] & 0x1e == 0 || (a[6] ^ b[6]) & 0x1e == 0)
  }

  lemma SignOfSame(x: bv8)
    ensures Sign(x, x) == 0
  {
  }

  lemma {:induction false} CompareSame(a: Call, i: nat)
    requires i <= 7
    ensures CompareFrom(a, a, i) == 0
    decreases 7 - i
  {
    hide Sign;
    if i < 7 {
      SignOfSame(a[i]);
      CompareSame(a, i + 1);
    }
  }

  lemma EvenSigns(x: bv8, y: bv8)
    requires x & 1 == 0 && y & 1 == 0 && Sign(x, y) == 0
    ensures x == y
  {
    assert (x - y) & 1 == 0;
  }

  lemma NormalIsEven(c: Call, i: nat)
    requires IsNormal(c) && i < 7
    ensures c[i] & 1 == 0
  {
    var j := c[i];
    assert i < 6 ==> j == j & 0xfe;
    assert i == 6 ==> j == (j & 0x1e) | 0x60;
    assert (j & 0xfe) & 1 == 0 && ((j & 0x1e) | 0x60) & 1 == 0;
  }

  lemma {:induction false} CompareZero(a: Call, b: Call, i: nat)
    requires IsNormal(a) && IsNormal(b) && i <= 7 && CompareFrom(a, b, i) == 0
    ensures a[i..] == b[i..]
    decreases 7 - i
  {
    hide Sign, IsNormal;
    if i < 7 {
      NormalIsEven(a, i);
      NormalIsEven(b, i);
      EvenSigns(a[i], b[i]);
      CompareZero(a, b, i + 1);
      assert a[i..] == [a[i]] + a[i + 1..] && b[i..] == [b[i]] + b[i + 1..];
    }
  }

  /** On callsigns without flag bits the comparison tells equal from different ... */
  lemma CompareDecides(a: Call, b: Call)
    requires IsNormal(a) && IsNormal(b)
    ensures Compare(a, b) == 0 <==> a == b
  {
    hide IsNormal;
    CompareSame(a, 0);
    if Compare(a, b) == 0 {
      CompareZero(a, b, 0);
      assert a[0..] == a && b[0..] == b;
    }
  }

  /** ... but on octets in general it is no order: it can go round in a circle, and be less both ways. */
  lemma CompareIsNoOrder()
    ensures exists a: Call, b: Call, c: Call ::
              IsNormal(a) && IsNormal(b) && IsNormal(c) && Compare(b, a) > 0 && Compare(c, b) > 0 && Compare(a, c) > 0
    ensures exists a: Call, b: Call :: IsNormal(a) && IsNormal(b) && Compare(a, b) < 0 && Compare(b, a) < 0
  {
    hide Normalised;
    var a, b, c, d := Starting(0x00), Starting(0x60), Starting(0xc0), Starting(0x80);
    Starts(0x00, 0x60);
    Starts(0x60, 0xc0);
    Starts(0xc0, 0x00);
    Starts(0x80, 0x00);
    Starts(0x00, 0x80);
    assert Compare(b, a) > 0 && Compare(c, b) > 0 && Compare(a, c) > 0;
    assert Compare(a, d) < 0 && Compare(d, a) < 0;
  }

  function Starting(x: bv8): Call {
    [x, 0, 0, 0, 0, 0, 0x60]
  }

  lemma Starts(x: bv8, y: bv8)
    requires x & 1 == 0 && y & 1 == 0
    ensures IsNormal(Starting(x)) && IsNormal(Starting(y))
    ensures Sign(y, x) != 0 ==> Compare(Starting(y), Starting(x)) == Sign(y, x)
  {
    hide Sign;
    assert x & 0xfe == x && y & 0xfe == y;
  }

  lemma NormalisedIsNormal(c: Call)
    ensures IsNormal(Normalised(c))
  {
    MaskTwice(c[6]);
    var n := Normalised(c);
    forall i | 0 <= i < 6 ensures n[i] & 0xfe == n[i] { EvenTwice(c[i]); }
  }

  lemma MaskTwice(x: bv8)
    ensures (((x & 0x1e) | 0x60) & 0x1e) | 0x60 == (x & 0x1e) | 0x60
  {
  }

  lemma EvenTwice(x: bv8)
    ensures (x & 0xfe) & 0xfe == x & 0xfe
  {
  }

  // ----- where it is the lexicographic order

  /** Where two callsigns first differ, or 7. */
  function Differ(a: Call, b: Call, i: nat): (k: nat)
    requires i <= 7
    ensures i <= k <= 7 && (k < 7 ==> a[k] != b[k]) && forall m | i <= m < k :: a[m] == b[m]
    decreases 7 - i
  {
    if i == 7 || a[i] != b[i] then i else Differ(a, b, i + 1)
  }

  /** The lexicographic order of the octets. */
  function Lexicographic(a: Call, b: Call): int {
    var k := Differ(a, b, 0);
    if k == 7 then 0 else if a[k] > b[k] then 1 else -1
  }

  /** The difference of two octets, as a signed char, has the sign of their order. */
  predicate Close(x: bv8, y: bv8) {
    (x > y && x - y < 0x80) || (x < y && y - x <= 0x80)
  }

  lemma SignOfClose(x: bv8, y: bv8)
    requires x & 1 == 0 && y & 1 == 0 && x != y
    ensures Sign(x, y) == (if x > y then 1 else -1) <==> Close(x, y)
    ensures Sign(x, y) != 0
  {
    hide Sign;
    EvenDifference(x, y);
    if x < y { Negated(x - y, y - x); }
    SignIs(x, y);
  }

  lemma EvenDifference(x: bv8, y: bv8)
    requires x & 1 == 0 && y & 1 == 0 && x != y
    ensures (x - y) & 0xfe == x - y != 0
  {
  }

  lemma SignIs(x: bv8, y: bv8)
    requires (x - y) & 0xfe == x - y != 0
    ensures Sign(x, y) == if x - y < 0x80 then 1 else -1
  {
  }

  lemma Negated(d: bv8, e: bv8)
    requires d + e == 0 && d != 0
    ensures d >= 0x80 <==> e <= 0x80
  {
  }

  lemma {:induction false} CompareAt(a: Call, b: Call, i: nat)
    requires IsNormal(a) && IsNormal(b) && i <= 7
    ensures var k := Differ(a, b, i); CompareFrom(a, b, i) == if k == 7 then 0 else Sign(a[k], b[k])
    decreases 7 - i
  {
    hide Sign, IsNormal;
    if i < 7 {
      NormalIsEven(a, i);
      NormalIsEven(b, i);
      if a[i] == b[i] {
        SignOfSame(a[i]);
        CompareAt(a, b, i + 1);
      } else {
        DifferentSign(a[i], b[i]);
      }
    }
  }

  lemma DifferentSign(x: bv8, y: bv8)
    requires x & 1 == 0 && y & 1 == 0 && x != y
    ensures Sign(x, y) != 0
  {
    SignOfClose(x, y);
  }

  /** The comparison agrees with the lexicographic order on exactly the pairs whose first
      different octets are close. */
  lemma CompareIsLexicographic(a: Call, b: Call)
    requires IsNormal(a) && IsNormal(b)
    ensures Compare(a, b) == Lexicographic(a, b) <==> var k := Differ(a, b, 0); k == 7 || Close(a[k], b[k])
  {
    hide Sign, IsNormal, Close;
    var k := Differ(a, b, 0);
    CompareAt(a, b, 0);
    if k < 7 {
      NormalIsEven(a, k);
      NormalIsEven(b, k);
      SignOfClose(a[k], b[k]);
    }
  }

  /** Letters, digits and the space, shifted as on the air; an SSID octet is one of them. */
  predicate InAlphabet(c: Call) {
    forall i | 0 <= i < 7 :: 0x40 <= c[i] <= 0xb4
  }

  lemma AlphabetIsClose(x: bv8, y: bv8)
    requires 0x40 <= x <= 0xb4 && 0x40 <= y <= 0xb4 && x != y
    ensures Close(x, y)
  {
  }

  /** On callsigns of letters, digits and spaces it is the lexicographic order. */
  lemma CompareOfCallsigns(a: Call, b: Call)
    requires IsNormal(a) && IsNormal(b) && InAlphabet(a) && InAlphabet(b)
    ensures Compare(a, b) == Lexicographic(a, b)
  {
    hide IsNormal, Close, Compare;
    CompareIsLexicographic(a, b);
    var k := Differ(a, b, 0);
    if k < 7 { AlphabetIsClose(a[k], b[k]); }
  }

  /** Which is an order. */
  lemma LexicographicIsOrder(a: Call, b: Call, c: Call)
    ensures Lexicographic(a, b) == 0 <==> a == b
    ensures Lexicographic(b, a) == -Lexicographic(a, b)
    ensures Lexicographic(a, b) > 0 && Lexicographic(b, c) > 0 ==> Lexicographic(a, c) > 0
  {
    hide Lexicographic, Differ;
    Antisymmetric(a, b);
    if Lexicographic(a, b) > 0 && Lexicographic(b, c) > 0 { Transitive(a, b, c); }
  }

  lemma Antisymmetric(a: Call, b: Call)
    ensures Lexicographic(a, b) == 0 <==> a == b
    ensures Lexicographic(b, a) == -Lexicographic(a, b)
  {
    hide Differ;
    var k := Differ(a, b, 0);
    DifferIs(a, b, k);
    DifferIs(b, a, k);
    if k < 7 { OneIsGreater(a[k], b[k]); }
  }

  lemma Transitive(a: Call, b: Call, c: Call)
    requires Lexicographic(a, b) > 0 && Lexicographic(b, c) > 0
    ensures Lexicographic(a, c) > 0
  {
    hide Differ;
    var k, m := Differ(a, b, 0), Differ(b, c, 0);
    if k == m {
      GreaterStill(a[k], b[k], c[k]);
      DifferIs(a, c, k);
    } else {
      DifferIs(a, c, if k < m then k else m);
    }
  }

  lemma OneIsGreater(x: bv8, y: bv8)
    requires x != y
    ensures x > y <==> !(y > x)
  {
  }

  lemma GreaterStill(x: bv8, y: bv8, z: bv8)
    requires x > y && y > z
    ensures x > z && x != z
  {
  }

  lemma DifferIs(a: Call, b: Call, k: nat)
    requires k <= 7 && (forall m | 0 <= m < k :: a[m] == b[m]) && (k < 7 ==> a[k] != b[k])
    ensures Differ(a, b, 0) == k && (k == 7 <==> a == b)
  {
    hide Differ;
    var d := Differ(a, b, 0);
    assert d >= k && d <= k;
  }

  // ----- what counts in a callsign

  /** Two callsigns are the same without their flag bits exactly when they agree in the upper
      seven bits of the first six octets and in the four bits of the SSID. */
  lemma NormalisedIsSame(a: Call, b: Call)
    ensures Normalised(a) == Normalised(b) <==>
            (forall i | 0 <= i < 6 :: a[i] | 0x01 == b[i] | 0x01) && a[6] | 0xe1 == b[6] | 0xe1
    ensures (forall i | 0 <= i < 6 :: Normalised(a)[i] & 0x01 == 0) && Normalised(a)[6] & 0xe1 == 0x60
  {
    forall i | 0 <= i < 6 ensures a[i] & 0xfe == b[i] & 0xfe <==> a[i] | 0x01 == b[i] | 0x01 { EvenPart(a[i], b[i]); }
    forall i | 0 <= i < 6 ensures (a[i] & 0xfe) & 0x01 == 0 { EvenPart(a[i], a[i]); }
    SsidPart(a[6], b[6]);
    var m, n := Normalised(a), Normalised(b);
    if m == n {
      forall i | 0 <= i < 6 ensures a[i] & 0xfe == b[i] & 0xfe { assert m[i] == n[i]; }
      assert m[6] == n[6];
    }
  }

  lemma EvenPart(x: bv8, y: bv8)
    ensures x & 0xfe == y & 0xfe <==> x | 0x01 == y | 0x01
    ensures (x & 0xfe) & 0x01 == 0
  {
  }

  lemma SsidPart(x: bv8, y: bv8)
    ensures (x & 0x1e) | 0x60 == (y & 0x1e) | 0x60 <==> x | 0xe1 == y | 0xe1
    ensures ((x & 0x1e) | 0x60) & 0xe1 == 0x60
  {
  }

  /** A callsign matches an entry of the tables exactly when the letters are the same and the
      SSID is, or the entry has none. */
  lemma MatchIs(a: Call, b: Call)
    requires IsNormal(a) && IsNormal(b)
    ensures Match(a, b) <==> a[0] != 0 && b[0] != 0 && a[..6] == b[..6] && (b[6] == 0x60 || a[6] == b[6])
  {
    hide IsNormal;
    forall i | 0 <= i < 6 ensures (a[i] ^ b[i]) & 0xfe == 0 <==> a[i] == b[i] {
      NormalIsEven(a, i);
      NormalIsEven(b, i);
      EvenDiffers(a[i], b[i]);
    }
    NormalSsid(a);
    NormalSsid(b);
    SsidDiffers(a[6], b[6]);
    if a[..6] == b[..6] {
      forall i | 0 <= i < 6 ensures a[i] == b[i] { assert a[..6][i] == b[..6][i]; }
    }
  }

  lemma EvenDiffers(x: bv8, y: bv8)
    requires x & 1 == 0 && y & 1 == 0
    ensures (x ^ y) & 0xfe == 0 <==> x == y
  {
  }

  lemma NormalSsid(c: Call)
    requires IsNormal(c)
    ensures c[6] == (c[6] & 0x1e) | 0x60
  {
    assert Normalised(c)[6] == c[6];
  }

  lemma SsidDiffers(x: bv8, y: bv8)
    requires x == (x & 0x1e) | 0x60 && y == (y & 0x1e) | 0x60
    ensures (x ^ y) & 0x1e == 0 <==> x == y
    ensures y & 0x1e == 0 <==> y == 0x60
  {
  }
}
