/**
 The address field of an AX.25 frame (section 3.12 of AX.25 v2.2) as ax25ipd walks it:
 destination, source and up to eight digipeaters of seven octets, the last flagged by the E bit.
 */
module Digipeat {
  import opened Callsigns

  const MAX_DIGIS := 8

  predicate LastBit(ssid: bv8) { ssid & 0x01 != 0 }

  predicate RepeatedBit(ssid: bv8) { ssid & 0x80 != 0 }

  /** Address k: 0 is the destination, 1 the source, digipeaters follow. */
  predicate IsLast(f: seq<bv8>, k: nat)
    requires 7 * k + 6 < |f|
  {
    LastBit(f[7 * k + 6])
  }

  predicate Repeated(f: seq<bv8>, k: nat)
    requires 7 * k + 6 < |f|
  {
    RepeatedBit(f[7 * k + 6])
  }

  function CallAt(f: seq<bv8>, k: nat): Call
    requires 7 * k + 6 < |f|
  {
    f[7 * k..7 * k + 7]
  }

  /** f has n addresses, all inside and followed by a control octet. */
  predicate HasAddresses(f: seq<bv8>, n: nat) {
    && 2 <= n <= 2 + MAX_DIGIS && 7 * n + 1 <= |f| && IsLast(f, n - 1)
    && forall k | 1 <= k < n - 1 :: !IsLast(f, k)
  }

  predicate AddressField(f: seq<bv8>) {
    exists n | 2 <= n <= 2 + MAX_DIGIS :: HasAddresses(f, n)
  }

  lemma OneCount(f: seq<bv8>, m: nat, n: nat)
    requires HasAddresses(f, m) && HasAddresses(f, n)
    ensures m == n
  {
  }

  method AddrFieldOk(buf: array<bv8>, l: nat) returns (ok: bool)
    requires l <= buf.Length
    ensures ok <==> AddressField(buf[..l])
  {
    hide LastBit;
    ghost var f := buf[..l];
    var n := 2;
    while n <= 2 + MAX_DIGIS
      invariant 2 <= n <= 3 + MAX_DIGIS
      invariant n > 2 ==> 7 * (n - 1) + 1 <= l
      invariant forall k | 1 <= k < n - 1 :: !IsLast(f, k)
    {
      if l < n * 7 + 1 {
        NoneLonger(f, n);
        return false;
      }
      if LastBit(buf[(n - 1) * 7 + 6]) {
        assert HasAddresses(f, n);
        return true;
      }
      n := n + 1;
    }
    NoneLonger(f, n);
    ok := false;
  }

  lemma NoneLonger(f: seq<bv8>, n: nat)
    requires n >= 2 && (n == 2 || 7 * (n - 1) + 1 <= |f|) && (|f| < 7 * n + 1 || n > 2 + MAX_DIGIS)
    requires forall k | 1 <= k < n - 1 :: !IsLast(f, k)
    ensures !AddressField(f)
  {
    hide LastBit;
    forall m | 2 <= m <= 2 + MAX_DIGIS && 7 * m + 1 <= |f| ensures !HasAddresses(f, m) {
      assert m < n && (1 <= m - 1 < n - 1 ==> !IsLast(f, m - 1));
    }
  }

  // ----- the next station

  /** The first digipeater from k on that has not repeated the frame, or the destination. */
  function NextFrom(f: seq<bv8>, n: nat, k: nat): (r: nat)
    requires n >= 2 && 7 * n <= |f| && 2 <= k <= n
    ensures r == 0 || k <= r < n
    decreases n - k
  {
    if k == n then 0 else if !Repeated(f, k) then k else NextFrom(f, n, k + 1)
  }

  /** next_addr walks until the E bit. */
  method NextAddr(buf: array<bv8>, ghost l: nat, ghost n: nat) returns (a: nat)
    requires l <= buf.Length && HasAddresses(buf[..l], n)
    ensures a == 7 * NextFrom(buf[..l], n, 2)
  {
    hide LastBit, RepeatedBit;
    ghost var f := buf[..l];
    if LastBit(buf[13]) {
      AtLast(f, n, 1);
      return 0;
    }
    a := 7;
    ghost var k := 1;
    NotAtLast(f, n, 1);
    while true
      invariant a == 7 * k && 1 <= k < n - 1 && NextFrom(f, n, 2) == NextFrom(f, n, k + 1)
      decreases n - k
    {
      a := a + 7;
      k := k + 1;
      if !RepeatedBit(buf[a + 6]) { return; }
      if LastBit(buf[a + 6]) {
        AtLast(f, n, k);
        return 0;
      }
      NotAtLast(f, n, k);
    }
  }

  lemma AtLast(f: seq<bv8>, n: nat, k: nat)
    requires HasAddresses(f, n) && 1 <= k < n && IsLast(f, k)
    ensures k == n - 1
  {
  }

  lemma NotAtLast(f: seq<bv8>, n: nat, k: nat)
    requires HasAddresses(f, n) && 1 <= k < n && !IsLast(f, k)
    ensures k < n - 1
  {
  }

  // ----- the previous station

  /** The address before the first digipeater from k on that has not repeated the frame. */
  function RunEnd(f: seq<bv8>, n: nat, k: nat): (r: nat)
    requires n >= 2 && 7 * n <= |f| && 2 <= k <= n
    ensures k - 1 <= r < n
    decreases n - k
  {
    if k == n || !Repeated(f, k) then k - 1 else RunEnd(f, n, k + 1)
  }

  /** from_addr: in TNC mode the end of the run of digipeaters that have repeated the frame; in
      digi mode one less, unless the run stops before the last digipeater. */
  function FromIndex(f: seq<bv8>, n: nat, digi: bool): (r: nat)
    requires n >= 2 && 7 * n <= |f|
    ensures r < n
  {
    var e := RunEnd(f, n, 2);
    if n == 2 then 1 else if digi && e == n - 1 then e - 1 else e
  }

  method FromAddr(buf: array<bv8>, ghost l: nat, ghost n: nat, digi: bool) returns (a: nat)
    requires l <= buf.Length && HasAddresses(buf[..l], n)
    ensures a == 7 * FromIndex(buf[..l], n, digi)
  {
    hide LastBit, RepeatedBit;
    ghost var f := buf[..l];
    a := 7;
    if LastBit(buf[13]) {
      AtLast(f, n, 1);
      return;
    }
    NotAtLast(f, n, 1);
    a := a + 7;
    ghost var k := 2;
    while !LastBit(buf[a + 6]) && RepeatedBit(buf[a + 6])
      invariant a == 7 * k && 2 <= k < n && RunEnd(f, n, 2) == RunEnd(f, n, k)
      decreases n - k
    {
      NotAtLast(f, n, k);
      a := a + 7;
      k := k + 1;
    }
    if LastBit(buf[a + 6]) { AtLast(f, n, k); }
    if digi || !RepeatedBit(buf[a + 6]) { a := a - 7; }
  }

  /** The last digipeater that has repeated the frame, or the source. */
  function LastRepeater(f: seq<bv8>, n: nat): (r: nat)
    requires n >= 2 && 7 * n <= |f|
    ensures 1 <= r < n
    decreases n
  {
    if n == 2 then 1 else if Repeated(f, n - 1) then n - 1 else LastRepeater(f, n - 1)
  }

  /** The digipeaters that have repeated the frame come first. */
  predicate InOrder(f: seq<bv8>, n: nat)
    requires n >= 2 && 7 * n <= |f|
  {
    forall i, k | 2 <= i < k < n && Repeated(f, k) :: Repeated(f, i)
  }

  lemma {:induction false} RunEndIs(f: seq<bv8>, n: nat, k: nat)
    requires n >= 2 && 7 * n <= |f| && 2 <= k <= n
    ensures var e := RunEnd(f, n, k);
            (forall i | k <= i <= e :: Repeated(f, i)) && (e + 1 < n ==> !Repeated(f, e + 1))
    decreases n - k
  {
    hide RepeatedBit;
    if k < n && Repeated(f, k) { RunEndIs(f, n, k + 1); }
  }

  lemma {:induction false} LastRepeaterIs(f: seq<bv8>, n: nat)
    requires n >= 2 && 7 * n <= |f|
    ensures var r := LastRepeater(f, n);
            1 <= r < n && (r > 1 ==> Repeated(f, r)) && forall i | r < i < n :: !Repeated(f, i)
    decreases n
  {
    hide RepeatedBit;
    if n > 2 && !Repeated(f, n - 1) { LastRepeaterIs(f, n - 1); }
  }

  /** In TNC mode from_addr finds the station the frame came from, exactly when the repeated
      digipeaters form a prefix. */
  lemma TncFrom(f: seq<bv8>, n: nat)
    requires HasAddresses(f, n)
    ensures FromIndex(f, n, false) == LastRepeater(f, n) <==> InOrder(f, n)
  {
    hide RepeatedBit, HasAddresses, RunEnd, LastRepeater;
    AddressesFit(f, n);
    var e, r := RunEnd(f, n, 2), LastRepeater(f, n);
    RunEndIs(f, n, 2);
    LastRepeaterIs(f, n);
    assert e >= 2 ==> Repeated(f, e);
    if e == r { assert forall i | 2 <= i < n :: Repeated(f, i) <==> i <= e; }
  }

  lemma AddressesFit(f: seq<bv8>, n: nat)
    requires HasAddresses(f, n)
    ensures n >= 2 && 7 * n < |f|
  {
  }

  // ----- repeating a frame

  function SetRepeated(f: seq<bv8>, k: nat): (g: seq<bv8>)
    requires 7 * k + 6 < |f|
    ensures |g| == |f|
  {
    f[7 * k + 6 := f[7 * k + 6] | 0x80]
  }

  lemma SetBit(x: bv8)
    ensures RepeatedBit(x | 0x80) && LastBit(x | 0x80) == LastBit(x) && (x | 0x80) & 0x7f == x & 0x7f
  {
  }

  /** Repeating changes one bit of one address and keeps the address field. */
  lemma SetRepeatedKeeps(f: seq<bv8>, n: nat, k: nat)
    requires HasAddresses(f, n) && k < n
    ensures HasAddresses(SetRepeated(f, k), n) && Repeated(SetRepeated(f, k), k)
    ensures forall i | 0 <= i < n && i != k :: Repeated(SetRepeated(f, k), i) == Repeated(f, i)
  {
    hide LastBit, RepeatedBit;
    var g := SetRepeated(f, k);
    SetBit(f[7 * k + 6]);
    forall i | 0 <= i < n ensures IsLast(g, i) == IsLast(f, i) && (i != k ==> Repeated(g, i) == Repeated(f, i)) {
      assert i != k ==> g[7 * i + 6] == f[7 * i + 6];
    }
  }

  /** The digipeaters that have yet to repeat the frame, in the order of the address field. */
  function Pending(f: seq<bv8>, n: nat, k: nat): seq<nat>
    requires n >= 2 && 7 * n <= |f| && 2 <= k <= n
    decreases n - k
  {
    if k == n then [] else (if Repeated(f, k) then [] else [k]) + Pending(f, n, k + 1)
  }

  lemma {:induction false} PendingUnfold(f: seq<bv8>, n: nat, j: nat)
    requires HasAddresses(f, n) && 2 <= j <= n
    ensures var k := NextFrom(f, n, j);
            if k == 0 then Pending(f, n, j) == []
            else Pending(f, n, j) == [k] + Pending(f, n, k + 1) && Pending(SetRepeated(f, k), n, j) == Pending(f, n, k + 1)
    decreases n - j
  {
    hide HasAddresses, IsLast, Repeated;
    AddressesFit(f, n);
    var k := NextFrom(f, n, j);
    if j < n {
      if k != 0 { SetRepeatedKeeps(f, n, k); }
      if Repeated(f, j) {
        PendingUnfold(f, n, j + 1);
        assert [] + Pending(f, n, j + 1) == Pending(f, n, j + 1);
        if k != 0 {
          var g := SetRepeated(f, k);
          assert [] + Pending(g, n, j + 1) == Pending(g, n, j + 1);
        }
      } else {
        var g := SetRepeated(f, j);
        SamePending(f, g, n, j + 1);
        assert [] + Pending(g, n, j + 1) == Pending(g, n, j + 1);
      }
    }
  }

  lemma {:induction false} SamePending(f: seq<bv8>, g: seq<bv8>, n: nat, j: nat)
    requires n >= 2 && 7 * n <= |f| && |f| == |g| && 2 <= j <= n
    requires forall i | j <= i < n :: Repeated(f, i) == Repeated(g, i)
    ensures Pending(f, n, j) == Pending(g, n, j)
    decreases n - j
  {
    hide Repeated;
    if j < n { SamePending(f, g, n, j + 1); }
  }

  /** The stations next_addr names when each in turn sets its bit, until it names the destination. */
  function Visits(f: seq<bv8>, n: nat): seq<nat>
    requires HasAddresses(f, n)
    decreases |Pending(f, n, 2)|
  {
    hide HasAddresses, Pending, SetRepeated;
    AddressesFit(f, n);
    var k := NextFrom(f, n, 2);
    if k == 0 then []
    else
      SetRepeatedKeeps(f, n, k);
      PendingUnfold(f, n, 2);
      [k] + Visits(SetRepeated(f, k), n)
  }

  /** The frame when all of them have repeated it. */
  function AllRepeated(f: seq<bv8>, n: nat): seq<bv8>
    requires HasAddresses(f, n)
    decreases |Pending(f, n, 2)|
  {
    hide HasAddresses, Pending, SetRepeated;
    AddressesFit(f, n);
    var k := NextFrom(f, n, 2);
    if k == 0 then f
    else
      SetRepeatedKeeps(f, n, k);
      PendingUnfold(f, n, 2);
      AllRepeated(SetRepeated(f, k), n)
  }

  /** Every digipeater that has not repeated the frame is visited once, in order. */
  lemma {:induction false} VisitsArePending(f: seq<bv8>, n: nat)
    requires HasAddresses(f, n)
    ensures Visits(f, n) == Pending(f, n, 2)
    decreases |Pending(f, n, 2)|
  {
    hide HasAddresses, Pending, SetRepeated;
    AddressesFit(f, n);
    var k := NextFrom(f, n, 2);
    PendingUnfold(f, n, 2);
    if k != 0 {
      SetRepeatedKeeps(f, n, k);
      VisitsArePending(SetRepeated(f, k), n);
    }
  }

  predicate SsidOfDigi(j: nat, n: nat) {
    j % 7 == 6 && 2 <= j / 7 < n
  }

  /** Then the next station is the destination, and only their bits have changed. */
  lemma {:induction false} AfterAllRepeated(f: seq<bv8>, n: nat)
    requires HasAddresses(f, n)
    ensures var g := AllRepeated(f, n);
            && |g| == |f| && HasAddresses(g, n) && NextFrom(g, n, 2) == 0
            && forall j | 0 <= j < |f| :: g[j] == if SsidOfDigi(j, n) then f[j] | 0x80 else f[j]
    decreases |Pending(f, n, 2)|
  {
    hide HasAddresses, Pending, RepeatedBit, NextFrom;
    AddressesFit(f, n);
    var k := NextFrom(f, n, 2);
    PendingUnfold(f, n, 2);
    if k != 0 {
      var g := SetRepeated(f, k);
      SetRepeatedKeeps(f, n, k);
      AfterAllRepeated(g, n);
      SetTwice(f[7 * k + 6]);
      assert SsidOfDigi(7 * k + 6, n);
    } else {
      forall j | 0 <= j < |f| && SsidOfDigi(j, n) ensures f[j] | 0x80 == f[j] {
        NoneLeft(f, n, 2, j / 7);
        AlreadySet(f[j]);
      }
    }
  }

  lemma SetTwice(x: bv8)
    ensures (x | 0x80) | 0x80 == x | 0x80
  {
  }

  lemma AlreadySet(x: bv8)
    requires RepeatedBit(x)
    ensures x | 0x80 == x
  {
  }

  lemma {:induction false} NoneLeft(f: seq<bv8>, n: nat, k: nat, i: nat)
    requires n >= 2 && 7 * n <= |f| && 2 <= k <= i < n && NextFrom(f, n, k) == 0
    ensures Repeated(f, i)
    decreases n - k
  {
    if k < i { NoneLeft(f, n, k + 1, i); }
  }

  /** In digi mode, after setting our own bit in slot k, from_addr finds the station before ours
      exactly when we are the last digipeater. Otherwise it finds the end of the run of digipeaters
      behind us that have repeated the frame, not counting the last digipeater: our own slot
      exactly when that run is empty. */
  lemma DigiFrom(f: seq<bv8>, n: nat)
    requires HasAddresses(f, n) && NextFrom(f, n, 2) != 0
    ensures var k, r := NextFrom(f, n, 2), FromIndex(SetRepeated(f, NextFrom(f, n, 2)), n, true);
            && (r == k - 1 <==> k == n - 1)
            && (k < n - 1 ==>
                  && k <= r <= n - 2 && (forall i | k < i <= r :: Repeated(f, i))
                  && (r < n - 2 ==> !Repeated(f, r + 1))
                  && (r == k <==> k == n - 2 || !Repeated(f, k + 1)))
  {
    hide HasAddresses, RunEnd, NextFrom, RepeatedBit, SetRepeated;
    AddressesFit(f, n);
    var k := NextFrom(f, n, 2);
    var g := SetRepeated(f, k);
    SetRepeatedKeeps(f, n, k);
    NextIsFirst(f, n, 2);
    RunEndIs(g, n, 2);
    var e := RunEnd(g, n, 2);
    assert e + 1 < n ==> !Repeated(g, e + 1);
    assert forall i | 2 <= i <= k :: Repeated(g, i);
    assert forall i | k < i < n :: Repeated(g, i) == Repeated(f, i);
  }

  lemma {:induction false} NextIsFirst(f: seq<bv8>, n: nat, k: nat)
    requires n >= 2 && 7 * n <= |f| && 2 <= k <= n && NextFrom(f, n, k) != 0
    ensures !Repeated(f, NextFrom(f, n, k)) && forall i | k <= i < NextFrom(f, n, k) :: Repeated(f, i)
    decreases n - k
  {
    if Repeated(f, k) { NextIsFirst(f, n, k + 1); }
  }
}
