/**
 The byte stuffing KISS takes from SLIP, common to the KISS programs of the repository.
 */
module KissBytes {
  const FEND: bv8 := 0xc0
  const FESC: bv8 := 0xdb
  const TFEND: bv8 := 0xdc
  const TFESC: bv8 := 0xdd

  function Escape(c: bv8): seq<bv8> {
    if c == FEND then [FESC, TFEND] else if c == FESC then [FESC, TFESC] else [c]
  }

  function Escaped(s: seq<bv8>): seq<bv8>
    decreases |s|
  {
    if s == [] then [] else Escape(s[0]) + Escaped(s[1..])
  }

  lemma {:induction false} EscapedConcat(a: seq<bv8>, b: seq<bv8>)
    ensures Escaped(a + b) == Escaped(a) + Escaped(b)
    decreases |a|
  {
    if a == [] {
      assert a + b == b;
    } else {
      assert (a + b)[1..] == a[1..] + b;
      EscapedConcat(a[1..], b);
    }
  }

  lemma EscapedSnoc(a: seq<bv8>, c: bv8)
    ensures Escaped(a + [c]) == Escaped(a) + Escape(c)
  {
    hide Escape;
    EscapedConcat(a, [c]);
    assert [c][1..] == [];
    assert Escaped([c]) == Escape(c) + Escaped([]);
  }

  lemma {:induction false} NoFendInside(s: seq<bv8>)
    ensures FEND !in Escaped(s)
    decreases |s|
  {
    if s != [] { NoFendInside(s[1..]); }
  }
}
