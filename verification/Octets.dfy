/**
 Bytes as numbers, and the eight-bit sums some of the protocols use as a checksum.
 */
module Octets {
  function Val(b: bv8): (n: nat)
    ensures n < 256
  {
    b as nat
  }

  /** The sum of some bytes; an eight-bit sum is this modulo 256. */
  function Sum(s: seq<bv8>): nat {
    if s == [] then 0 else Sum(s[..|s| - 1]) + Val(s[|s| - 1])
  }

  lemma SumSnoc(s: seq<bv8>, x: bv8)
    ensures Sum(s + [x]) == Sum(s) + Val(x)
  {
    hide Val;
    assert (s + [x])[..|s|] == s;
  }

  lemma {:induction false} SumReplaced(s: seq<bv8>, i: nat, x: bv8)
    requires i < |s|
    ensures Sum(s[i := x]) == Sum(s) - Val(s[i]) + Val(x)
  {
    hide Val;
    var front, last := s[..|s| - 1], s[|s| - 1];
    if i == |s| - 1 {
      assert s[i := x][..i] == front;
    } else {
      SumReplaced(front, i, x);
      assert s[i := x][..|s| - 1] == front[i := x];
    }
  }

  /** One byte replaced by another always shows in the eight-bit sum. */
  lemma SumSeesOneByte(s: seq<bv8>, i: nat, x: bv8)
    requires i < |s| && x != s[i]
    ensures Sum(s[i := x]) % 256 != Sum(s) % 256
  {
    hide Sum, Val;
    SumReplaced(s, i, x);
    SameByte(x, s[i]);
    Apart(Sum(s), Sum(s[i := x]));
  }

  lemma Apart(a: nat, b: nat)
    requires a != b && -256 < a - b < 256
    ensures a % 256 != b % 256
  {
  }

  lemma NoBytes()
    ensures Sum([]) == 0
  {
  }

  lemma SumWraps(a: nat, b: nat)
    ensures (a % 256 + b) % 256 == (a + b) % 256
  {
  }

  lemma OfByte(n: nat)
    requires n < 256
    ensures Val(n as bv8) == n
  {
    assert n == n % 256;
  }

  lemma SameByte(a: bv8, b: bv8)
    ensures Val(a) == Val(b) <==> a == b
  {
  }
}
