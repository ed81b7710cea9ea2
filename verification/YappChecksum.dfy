/**
 The checksum of YAPP C: the sum of the data octets modulo 256, which catches every octet of a
 block that another has replaced.
 */
module YappChecksum {
  import opened Yapp
  import opened YappSafety
  import opened YappCut

  /** All octets added up. */
  function Total(s: seq<Byte>): nat {
    if s == [] then 0 else s[0] + Total(s[1..])
  }

  lemma {:induction false} SumIsTotal(s: seq<Byte>)
    ensures Sum(s) == Total(s) % 256
  {
    hide Sum;
    if s == [] {
      NoSum();
    } else {
      SumIsTotal(s[1..]);
      assert s == [s[0]] + s[1..];
      SumConcat([s[0]], s[1..]);
      SumOfOne(s[0]);
      ModuloOnce(s[0], Total(s[1..]));
    }
  }

  lemma SumOfOne(x: Byte)
    ensures Sum([x]) == x
  {
    assert [x][..0] == [];
  }

  lemma ModuloOnce(x: nat, n: nat)
    ensures (x + n % 256) % 256 == (x + n) % 256
  {
  }

  lemma {:induction false} TotalReplaced(s: seq<Byte>, k: nat, c: Byte)
    requires k < |s|
    ensures Total(s[k := c]) == Total(s) - s[k] + c
  {
    if k == 0 {
      assert s[0 := c][1..] == s[1..];
    } else {
      assert s[k := c][1..] == s[1..][k - 1 := c];
      TotalReplaced(s[1..], k - 1, c);
    }
  }

  lemma SumReplaced(s: seq<Byte>, k: nat, c: Byte)
    requires k < |s| && c != s[k]
    ensures Sum(s[k := c]) != Sum(s)
  {
    hide Sum, Total;
    SumIsTotal(s);
    SumIsTotal(s[k := c]);
    TotalReplaced(s, k, c);
    NotCongruent(Total(s), c - s[k]);
  }

  lemma NotCongruent(n: nat, d: int)
    requires n + d >= 0 && d != 0 && -256 < d < 256
    ensures (n + d) % 256 != n % 256
  {
  }

  /** A receiver in YAPP C mode takes a block as it was sent, and refuses it, with nothing written,
      when any one data octet or the checksum octet has become another. */
  lemma BlockWithOneOctetChanged(d: Down, j: Job, data: seq<Byte>, k: nat, c: Byte)
    requires j.Valid() && j.Checked() && 1 <= |data| <= 253
    requires d.status == Running && d.state == RD && d.yappc && 2 <= k <= |data| + 2
    ensures var m := Block(j, data);
            && |m| == |data| + 3 && Framed(m[k := c], 1)
            && if c == m[k] then DownData(d, j, m[k := c]) == d.(total := d.total + |data|, disk := d.disk + data)
               else
                 var e := DownData(d, j, m[k := c]);
                 e.status == Aborted(BadChecksum) && e.disk == d.disk && e.tx == d.tx + Cancel(BAD_CHECKSUM)
  {
    hide Sum, Cancel;
    var m := Block(j, data);
    var m' := m[k := c];
    if c == m[k] {
      assert m' == m;
      BlockAccepted(d, j, data);
    } else if k < |data| + 2 {
      assert m'[2..|data| + 2] == data[k - 2 := c];
      SumReplaced(data, k - 2, c);
    } else {
      assert m'[2..|data| + 2] == data;
    }
  }
}
