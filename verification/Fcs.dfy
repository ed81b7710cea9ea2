/**
 The frame check sequence of ax25ipd: the table-driven PPP/AX.25 CRC, its
 meaning as bit-at-a-time division, and what the check detects.
 */
module Fcs {

  const INIT_FCS: bv16 := 0xffff
  const GOOD_FCS: bv16 := 0xf0b8

  /** Selects one of eight consecutive table entries by the low bits of the index. */
  function Pick(i: bv8, e0: bv16, e1: bv16, e2: bv16, e3: bv16, e4: bv16, e5: bv16, e6: bv16, e7: bv16): bv16 {
    if i & 4 == 0 then
      if i & 2 == 0 then if i & 1 == 0 then e0 else e1 else if i & 1 == 0 then e2 else e3
    else
      if i & 2 == 0 then if i & 1 == 0 then e4 else e5 else if i & 1 == 0 then e6 else e7
  }

  /** The literal lookup table, eight entries to a row. */
  function FcsTab(i: bv8): bv16 {
    if i < 0x08 then Pick(i, 0x0000, 0x1189, 0x2312, 0x329b, 0x4624, 0x57ad, 0x6536, 0x74bf)
    else if i < 0x10 then Pick(i, 0x8c48, 0x9dc1, 0xaf5a, 0xbed3, 0xca6c, 0xdbe5, 0xe97e, 0xf8f7)
    else if i < 0x18 then Pick(i, 0x1081, 0x0108, 0x3393, 0x221a, 0x56a5, 0x472c, 0x75b7, 0x643e)
    else if i < 0x20 then Pick(i, 0x9cc9, 0x8d40, 0xbfdb, 0xae52, 0xdaed, 0xcb64, 0xf9ff, 0xe876)
    else if i < 0x28 then Pick(i, 0x2102, 0x308b, 0x0210, 0x1399, 0x6726, 0x76af, 0x4434, 0x55bd)
    else if i < 0x30 then Pick(i, 0xad4a, 0xbcc3, 0x8e58, 0x9fd1, 0xeb6e, 0xfae7, 0xc87c, 0xd9f5)
    else if i < 0x38 then Pick(i, 0x3183, 0x200a, 0x1291, 0x0318, 0x77a7, 0x662e, 0x54b5, 0x453c)
    else if i < 0x40 then Pick(i, 0xbdcb, 0xac42, 0x9ed9, 0x8f50, 0xfbef, 0xea66, 0xd8fd, 0xc974)
    else if i < 0x48 then Pick(i, 0x4204, 0x538d, 0x6116, 0x709f, 0x0420, 0x15a9, 0x2732, 0x36bb)
    else if i < 0x50 then Pick(i, 0xce4c, 0xdfc5, 0xed5e, 0xfcd7, 0x8868, 0x99e1, 0xab7a, 0xbaf3)
    else if i < 0x58 then Pick(i, 0x5285, 0x430c, 0x7197, 0x601e, 0x14a1, 0x0528, 0x37b3, 0x263a)
    else if i < 0x60 then Pick(i, 0xdecd, 0xcf44, 0xfddf, 0xec56, 0x98e9, 0x8960, 0xbbfb, 0xaa72)
    else if i < 0x68 then Pick(i, 0x6306, 0x728f, 0x4014, 0x519d, 0x2522, 0x34ab, 0x0630, 0x17b9)
    else if i < 0x70 then Pick(i, 0xef4e, 0xfec7, 0xcc5c, 0xddd5, 0xa96a, 0xb8e3, 0x8a78, 0x9bf1)
    else if i < 0x78 then Pick(i, 0x7387, 0x620e, 0x5095, 0x411c, 0x35a3, 0x242a, 0x16b1, 0x0738)
    else if i < 0x80 then Pick(i, 0xffcf, 0xee46, 0xdcdd, 0xcd54, 0xb9eb, 0xa862, 0x9af9, 0x8b70)
    else if i < 0x88 then Pick(i, 0x8408, 0x9581, 0xa71a, 0xb693, 0xc22c, 0xd3a5, 0xe13e, 0xf0b7)
    else if i < 0x90 then Pick(i, 0x0840, 0x19c9, 0x2b52, 0x3adb, 0x4e64, 0x5fed, 0x6d76, 0x7cff)
    else if i < 0x98 then Pick(i, 0x9489, 0x8500, 0xb79b, 0xa612, 0xd2ad, 0xc324, 0xf1bf, 0xe036)
    else if i < 0xa0 then Pick(i, 0x18c1, 0x0948, 0x3bd3, 0x2a5a, 0x5ee5, 0x4f6c, 0x7df7, 0x6c7e)
    else if i < 0xa8 then Pick(i, 0xa50a, 0xb483, 0x8618, 0x9791, 0xe32e, 0xf2a7, 0xc03c, 0xd1b5)
    else if i < 0xb0 then Pick(i, 0x2942, 0x38cb, 0x0a50, 0x1bd9, 0x6f66, 0x7eef, 0x4c74, 0x5dfd)
    else if i < 0xb8 then Pick(i, 0xb58b, 0xa402, 0x9699, 0x8710, 0xf3af, 0xe226, 0xd0bd, 0xc134)
    else if i < 0xc0 then Pick(i, 0x39c3, 0x284a, 0x1ad1, 0x0b58, 0x7fe7, 0x6e6e, 0x5cf5, 0x4d7c)
    else if i < 0xc8 then Pick(i, 0xc60c, 0xd785, 0xe51e, 0xf497, 0x8028, 0x91a1, 0xa33a, 0xb2b3)
    else if i < 0xd0 then Pick(i, 0x4a44, 0x5bcd, 0x6956, 0x78df, 0x0c60, 0x1de9, 0x2f72, 0x3efb)
    else if i < 0xd8 then Pick(i, 0xd68d, 0xc704, 0xf59f, 0xe416, 0x90a9, 0x8120, 0xb3bb, 0xa232)
    else if i < 0xe0 then Pick(i, 0x5ac5, 0x4b4c, 0x79d7, 0x685e, 0x1ce1, 0x0d68, 0x3ff3, 0x2e7a)
    else if i < 0xe8 then Pick(i, 0xe70e, 0xf687, 0xc41c, 0xd595, 0xa12a, 0xb0a3, 0x8238, 0x93b1)
    else if i < 0xf0 then Pick(i, 0x6b46, 0x7acf, 0x4854, 0x59dd, 0x2d62, 0x3ceb, 0x0e70, 0x1ff9)
    else if i < 0xf8 then Pick(i, 0xf78f, 0xe606, 0xd49d, 0xc514, 0xb1ab, 0xa022, 0x92b9, 0x8330)
    else Pick(i, 0x7bc7, 0x6a4e, 0x58d5, 0x495c, 0x3de3, 0x2c6a, 0x1ef1, 0x0f78)
  }

  // ----- specification: division by the reflected polynomial, one bit at a time

  /** One division step: shift out the low bit and subtract the polynomial when it was set. */
  function Step(x: bv16): bv16 {
    if x & 1 == 1 then (x >> 1) ^ 0x8408 else x >> 1
  }

  /** The step that shifts in one message bit. */
  function Shift(x: bv16, bit: bool): bv16 {
    Step(if bit then x ^ 1 else x)
  }

  /** The remainder after shifting the bits of a message into x, first bit first. */
  function Divide(x: bv16, bits: seq<bool>): bv16
    decreases |bits|
  {
    if bits == [] then x else Divide(Shift(x, bits[0]), bits[1..])
  }

  /** The n low bits of c, least significant first: the order of transmission. */
  function LowBits(c: bv16, n: nat): (r: seq<bool>)
    ensures |r| == n
    decreases n
  {
    if n == 0 then [] else [c & 1 == 1] + LowBits(c >> 1, n - 1)
  }

  function ByteBits(c: bv8): (r: seq<bool>)
    ensures |r| == 8
  {
    LowBits(c as bv16, 8)
  }

  function Bits(s: seq<bv8>): (r: seq<bool>)
    ensures |r| == 8 * |s|
  {
    if s == [] then [] else ByteBits(s[0]) + Bits(s[1..])
  }

  function Remainder(x: bv16, s: seq<bv8>): bv16 {
    Divide(x, Bits(s))
  }

  predicate GoodFrame(s: seq<bv8>) {
    Remainder(INIT_FCS, s) == GOOD_FCS
  }

  /** The two octets add_crc appends: the complemented remainder, low octet first. */
  function CrcTail(s: seq<bv8>): seq<bv8> {
    Tail(Remainder(INIT_FCS, s) ^ 0xffff)
  }

  function Tail(u: bv16): seq<bv8> {
    [(u & 0xff) as bv8, (u >> 8) as bv8]
  }

  lemma TailOctets(u: bv16, lo: bv8, hi: bv8)
    requires lo == (u & 0xff) as bv8 && hi == ((u >> 8) & 0xff) as bv8
    ensures [lo, hi] == Tail(u)
  {
  }

  // ----- the routines

  /** For every buffer and starting value the table method computes the division. */
  method Pppfcs(init: bv16, cp: array<bv8>, len: nat) returns (fcs: bv16)
    requires len <= cp.Length
    ensures fcs == Remainder(init, cp[..len])
  {
    hide ByteBits, FcsTab;
    fcs := init;
    var i := 0;
    while i < len
      invariant i <= len
      invariant Remainder(fcs, cp[i..len]) == Remainder(init, cp[..len])
    {
      DivideConcat(fcs, ByteBits(cp[i]), Bits(cp[i + 1..len]));
      TableStep(fcs, cp[i]);
      assert cp[i..len][1..] == cp[i + 1..len];
      fcs := (fcs >> 8) ^ FcsTab(((fcs ^ (cp[i] as bv16)) & 0xff) as bv8);
      i := i + 1;
    }
  }

  method ComputeCrc(buf: array<bv8>, l: nat) returns (fcs: bv16)
    requires l <= buf.Length
    ensures fcs == Remainder(INIT_FCS, buf[..l]) ^ 0xffff
  {
    fcs := Pppfcs(INIT_FCS, buf, l);
    fcs := fcs ^ 0xffff;
  }

  method OkCrc(buf: array<bv8>, l: nat) returns (ok: bool)
    requires l <= buf.Length
    ensures ok <==> GoodFrame(buf[..l])
  {
    var fcs := Pppfcs(INIT_FCS, buf, l);
    ok := fcs == GOOD_FCS;
  }

  method AddCrc(buf: array<bv8>, l: nat)
    requires l + 2 <= buf.Length
    modifies buf
    ensures buf[..] == old(buf[..l] + CrcTail(buf[..l]) + buf[l + 2..])
    ensures GoodFrame(buf[..l + 2])
  {
    hide Remainder, GoodFrame;
    var u := ComputeCrc(buf, l);
    ghost var s := buf[..l];
    var lo, hi := (u & 0xff) as bv8, ((u >> 8) & 0xff) as bv8;
    TailOctets(u, lo, hi);
    hide Tail;
    buf[l] := lo;
    buf[l + 1] := hi;
    CrcTailIsGood(s);
    assert buf[..l + 2] == s + [lo, hi];
  }

  // ----- the table computes the division

  function Step8(x: bv16): bv16 {
    Step(Step(Step(Step(Step(Step(Step(Step(x))))))))
  }

  lemma TableStep(fcs: bv16, c: bv8)
    ensures (fcs >> 8) ^ FcsTab(((fcs ^ (c as bv16)) & 0xff) as bv8) == Divide(fcs, ByteBits(c))
  {
    hide Step8, FcsTab, Divide, ByteBits;
    var i := ((fcs ^ (c as bv16)) & 0xff) as bv8;
    TableEntry(i);
    LowOctetSteps(fcs ^ (c as bv16), i);
    assert fcs >> 8 == (fcs ^ (c as bv16)) >> 8;
    ByteSteps(fcs, c);
  }

  lemma TableEntry(i: bv8)
    ensures FcsTab(i) == Step8(i as bv16)
  {
  }

  lemma LowOctetSteps(x: bv16, i: bv8)
    requires i == (x & 0xff) as bv8
    ensures Step8(x) == (x >> 8) ^ Step8(i as bv16)
  {
  }

  function Steps(x: bv16, n: nat): bv16
    decreases n
  {
    if n == 0 then x else Steps(Step(x), n - 1)
  }

  function DropBits(c: bv16, n: nat): bv16
    decreases n
  {
    if n == 0 then c else DropBits(c >> 1, n - 1)
  }

  lemma ByteSteps(x: bv16, c: bv8)
    ensures Divide(x, ByteBits(c)) == Step8(x ^ (c as bv16))
  {
    hide Step, Divide, LowBits;
    DropOctet(c);
    ShiftingIsStepping(x, c as bv16, 8);
    StepsEight(x ^ (c as bv16));
  }

  lemma DropOctet(c: bv8)
    ensures DropBits(c as bv16, 8) == 0
  {
    var d := c as bv16;
    assert d >> 1 >> 1 >> 1 >> 1 >> 1 >> 1 >> 1 >> 1 == 0;
    DropFour(d);
    DropFour(d >> 1 >> 1 >> 1 >> 1);
  }

  lemma DropFour(d: bv16)
    ensures forall n {:trigger DropBits(d, n)} | n >= 4 :: DropBits(d, n) == DropBits(d >> 1 >> 1 >> 1 >> 1, n - 4)
  {
    forall n | n >= 4
      ensures DropBits(d, n) == DropBits(d >> 1 >> 1 >> 1 >> 1, n - 4)
    {
      assert DropBits(d >> 1, n - 1) == DropBits(d >> 1 >> 1, n - 2);
      assert DropBits(d >> 1 >> 1, n - 2) == DropBits(d >> 1 >> 1 >> 1, n - 3);
    }
  }

  lemma StepsEight(x: bv16)
    ensures Steps(x, 8) == Step8(x)
  {
    hide Step;
    var x4 := Step(Step(Step(Step(x))));
    assert Steps(x, 8) == Steps(Step(Step(x)), 6) == Steps(x4, 4);
    assert Steps(x4, 4) == Steps(Step(Step(x4)), 2) == Steps(Step(Step(Step(Step(x4)))), 0);
  }

  lemma {:induction false} ShiftingIsStepping(x: bv16, c: bv16, n: nat)
    requires DropBits(c, n) == 0
    ensures Divide(x, LowBits(c, n)) == Steps(x ^ c, n)
    decreases n
  {
    if n > 0 {
      hide Step, Shift;
      ShiftingIsStepping(Shift(x, c & 1 == 1), c >> 1, n - 1);
      ShiftStep(x, c);
      assert LowBits(c, n)[1..] == LowBits(c >> 1, n - 1);
    }
  }

  lemma ShiftStep(x: bv16, c: bv16)
    ensures Step(x ^ c) == Shift(x, c & 1 == 1) ^ (c >> 1)
  {
    LowBitOfXor(x, c);
    if c & 1 == 1 {
      assert (x ^ 1) & 1 == 1 <==> x & 1 != 1;
      assert (x ^ 1) >> 1 == x >> 1;
      if x & 1 == 1 {} else {}
    } else {
      if x & 1 == 1 {} else {}
    }
  }

  lemma LowBitOfXor(x: bv16, y: bv16)
    ensures (x ^ y) & 1 == 1 <==> (x & 1 == 1) != (y & 1 == 1)
  {
  }

  lemma {:induction false} DivideConcat(x: bv16, a: seq<bool>, b: seq<bool>)
    ensures Divide(x, a + b) == Divide(Divide(x, a), b)
    decreases |a|
  {
    if a == [] {
      assert a + b == b;
    } else {
      hide Shift;
      assert (a + b)[1..] == a[1..] + b;
      DivideConcat(Shift(x, a[0]), a[1..], b);
    }
  }

  // ----- completing a frame

  lemma {:induction false} BitsConcat(s: seq<bv8>, t: seq<bv8>)
    ensures Bits(s + t) == Bits(s) + Bits(t)
  {
    if s == [] {
      assert s + t == t;
    } else {
      assert (s + t)[1..] == s[1..] + t;
      BitsConcat(s[1..], t);
    }
  }

  /** Among all two-octet endings, exactly the one add_crc writes makes a frame good. */
  lemma CrcTailIsUnique(s: seq<bv8>, lo: bv8, hi: bv8)
    ensures GoodFrame(s + [lo, hi]) <==> [lo, hi] == CrcTail(s)
  {
    hide GoodFrame, CrcTail;
    CrcTailIsGood(s);
    if [lo, hi] != CrcTail(s) {
      assert (s + [lo, hi])[|s|..] == [lo, hi];
      assert (s + CrcTail(s))[|s|..] == CrcTail(s);
      CrcTailLength(s);
      TwoOctetsAreDetected(s + CrcTail(s), s + [lo, hi], |s|);
    }
  }

  lemma CrcTailLength(s: seq<bv8>)
    ensures |CrcTail(s)| == 2
  {
  }

  lemma CrcTailIsGood(s: seq<bv8>)
    ensures GoodFrame(s + CrcTail(s))
  {
    hide Step8, Divide, ByteBits;
    var f := Remainder(INIT_FCS, s);
    var lo, hi := ((f ^ 0xffff) & 0xff) as bv8, ((f ^ 0xffff) >> 8) as bv8;
    BitsConcat(s, [lo, hi]);
    assert [lo, hi][1..] == [hi] && [hi][1..] == [];
    assert Bits([hi]) == ByteBits(hi) + [] == ByteBits(hi);
    DivideConcat(INIT_FCS, Bits(s), Bits([lo, hi]));
    DivideConcat(f, ByteBits(lo), ByteBits(hi));
    ResidueOfTail(f, lo, hi);
  }

  lemma ResidueOfTail(f: bv16, lo: bv8, hi: bv8)
    requires lo == ((f ^ 0xffff) & 0xff) as bv8 && hi == ((f ^ 0xffff) >> 8) as bv8
    ensures Divide(Divide(f, ByteBits(lo)), ByteBits(hi)) == GOOD_FCS
  {
    hide Divide, ByteBits;
    ByteSteps(f, lo);
    ByteSteps(Divide(f, ByteBits(lo)), hi);
  }

  // ----- what the check detects

  /** Which bits two messages of one length differ in. */
  function Flips(a: seq<bool>, b: seq<bool>): (e: seq<bool>)
    requires |a| == |b|
    ensures |e| == |a|
    ensures forall k | 0 <= k < |e| :: e[k] <==> a[k] != b[k]
  {
    seq(|a|, i requires 0 <= i < |a| => a[i] != b[i])
  }

  predicate OddlyMany(e: seq<bool>) {
    if e == [] then false else e[0] != OddlyMany(e[1..])
  }

  /** Every set bit lies within sixteen consecutive positions starting at p. */
  predicate BurstAt(e: seq<bool>, p: nat) {
    forall k | 0 <= k < |e| && e[k] :: p <= k < p + 16
  }

  /** A corrupted frame of the same length is rejected when the corruption flips an odd
      number of bits anywhere in it, or any bits inside a window of sixteen. */
  lemma ErrorsAreDetected(a: seq<bv8>, b: seq<bv8>, p: nat)
    requires |a| == |b| && a != b
    requires OddlyMany(Flips(Bits(a), Bits(b))) || BurstAt(Flips(Bits(a), Bits(b)), p)
    requires GoodFrame(a)
    ensures !GoodFrame(b)
  {
    if OddlyMany(Flips(Bits(a), Bits(b))) {
      OddFlipsChangeParity(INIT_FCS, Bits(a), Bits(b));
    } else {
      BitsAreInjective(a, b);
      BurstChangesRemainder(INIT_FCS, Bits(a), Bits(b), p);
    }
  }

  /** Changing one octet, or two adjacent octets, is such a burst. */
  lemma TwoOctetsAreDetected(a: seq<bv8>, b: seq<bv8>, i: nat)
    requires |a| == |b| && a != b
    requires forall k | 0 <= k < |a| && k != i && k != i + 1 :: a[k] == b[k]
    requires GoodFrame(a)
    ensures !GoodFrame(b)
  {
    hide GoodFrame;
    var e := Flips(Bits(a), Bits(b));
    forall k | 0 <= k < |e| && e[k] ensures 8 * i <= k < 8 * i + 16 {
      BitAt(a, k);
      BitAt(b, k);
    }
    ErrorsAreDetected(a, b, 8 * i);
  }

  predicate EvenOctet(x: bv16) {
    x & 1 == 0 <==> x & 2 == 0 <==> x & 4 == 0 <==> x & 8 == 0 <==> x & 16 == 0 <==> x & 32 == 0 <==> x & 64 == 0 <==> x & 128 == 0
  }

  /** Whether an even number of bits is set. */
  predicate Even(x: bv16) {
    EvenOctet(x) <==> EvenOctet(x >> 8)
  }

  lemma OddFlipsChangeParity(x: bv16, a: seq<bool>, b: seq<bool>)
    requires |a| == |b| && OddlyMany(Flips(a, b))
    ensures Divide(x, a) != Divide(x, b)
  {
    hide Divide, Even;
    ParityIsKept(x, a);
    ParityIsKept(x, b);
    ParityOfFlips(a, b);
  }

  lemma {:induction false} ParityOfFlips(a: seq<bool>, b: seq<bool>)
    requires |a| == |b|
    ensures OddlyMany(Flips(a, b)) <==> (OddlyMany(a) != OddlyMany(b))
  {
    if a != [] {
      assert Flips(a, b)[1..] == Flips(a[1..], b[1..]);
      ParityOfFlips(a[1..], b[1..]);
    }
  }

  /** The polynomial is a multiple of x + 1, so a remainder keeps the parity of the message. */
  lemma {:induction false} ParityIsKept(x: bv16, e: seq<bool>)
    ensures Even(Divide(x, e)) <==> (Even(x) != OddlyMany(e))
    decreases |e|
  {
    if e != [] {
      hide Shift, Even;
      ParityStep(x, e[0]);
      ParityIsKept(Shift(x, e[0]), e[1..]);
    }
  }

  lemma ParityStep(x: bv16, b: bool)
    ensures Even(Shift(x, b)) <==> Even(x) != b
  {
  }

  /** Different messages that agree outside sixteen consecutive bits leave different remainders. */
  lemma {:induction false} BurstChangesRemainder(x: bv16, a: seq<bool>, b: seq<bool>, p: nat)
    requires |a| == |b| && a != b
    requires BurstAt(Flips(a, b), p)
    ensures Divide(x, a) != Divide(x, b)
    decreases |a|
  {
    hide Shift;
    var e := Flips(a, b);
    if a[0] == b[0] {
      assert Flips(a[1..], b[1..]) == e[1..];
      assert forall j | 0 <= j < |e[1..]| :: e[1..][j] == e[j + 1];
      assert a == [a[0]] + a[1..] && b == [b[0]] + b[1..];
      BurstChangesRemainder(Shift(x, a[0]), a[1..], b[1..], if p == 0 then 0 else p - 1);
    } else {
      assert e[0];
      var n := if |a| < 16 then |a| else 16;
      var x1, y1 := Shift(x, a[0]), Shift(x, b[0]);
      assert a[1..] == a[1..n] + a[n..] && b[1..] == b[1..n] + b[n..];
      assert forall j | n <= j < |a| :: !e[j];
      assert a[n..] == b[n..];
      DivideConcat(x1, a[1..n], a[n..]);
      DivideConcat(y1, b[1..n], b[n..]);
      FirstBitShows(x, a[0], b[0]);
      ShortInputsDiffer(x1, y1, a[1..n], b[1..n]);
      DifferenceSurvives(Divide(x1, a[1..n]), Divide(y1, b[1..n]), a[n..]);
    }
  }

  /** The bits that n steps leave untouched by their input. */
  function HighBits(n: nat): bv16
    requires n <= 15
  {
    if n == 0 then 0xffff else HighBits(n - 1) << 1
  }

  lemma HighBitsHaveTop(n: nat)
    requires n <= 15
    ensures HighBits(n) & 0x8000 == 0x8000
  {
    assert HighBits(1) == 0xfffe && HighBits(2) == 0xfffc && HighBits(3) == 0xfff8 && HighBits(4) == 0xfff0;
    assert HighBits(5) == 0xffe0 && HighBits(6) == 0xffc0 && HighBits(7) == 0xff80 && HighBits(8) == 0xff00;
    assert HighBits(9) == 0xfe00 && HighBits(10) == 0xfc00 && HighBits(11) == 0xf800 && HighBits(12) == 0xf000;
    assert HighBits(13) == 0xe000 && HighBits(14) == 0xc000 && HighBits(15) == 0x8000;
  }

  lemma FirstBitShows(x: bv16, a: bool, b: bool)
    requires a != b
    ensures Shift(x, a) & 0x8000 != Shift(x, b) & 0x8000
  {
  }

  predicate AgreeAbove(x: bv16, y: bv16, n: nat)
    requires n <= 15
  {
    x & HighBits(n) == y & HighBits(n)
  }

  /** Fewer than sixteen bits cannot cancel a difference in the top bit. */
  lemma ShortInputsDiffer(x: bv16, y: bv16, a: seq<bool>, b: seq<bool>)
    requires |a| == |b| <= 15
    requires x & 0x8000 != y & 0x8000
    ensures Divide(x, a) != Divide(y, b)
  {
    hide Divide, AgreeAbove;
    if Divide(x, a) == Divide(y, b) {
      CommonRemainder(x, y, a, b);
      AgreementShowsTop(x, y, |a|);
    }
  }

  lemma AgreementShowsTop(x: bv16, y: bv16, n: nat)
    requires n <= 15
    requires AgreeAbove(x, y, n)
    ensures x & 0x8000 == y & 0x8000
  {
    hide HighBits;
    HighBitsHaveTop(n);
    var m := HighBits(n);
    assert x & 0x8000 == x & m & 0x8000;
    assert y & 0x8000 == y & m & 0x8000;
  }

  /** If n input bits lead two registers to one remainder, they agreed above bit n. */
  lemma {:induction false} CommonRemainder(x: bv16, y: bv16, a: seq<bool>, b: seq<bool>)
    requires |a| == |b| <= 15
    requires Divide(x, a) == Divide(y, b)
    ensures AgreeAbove(x, y, |a|)
    decreases |a|
  {
    if a != [] {
      hide Shift, AgreeAbove;
      CommonRemainder(Shift(x, a[0]), Shift(y, b[0]), a[1..], b[1..]);
      AgreementBefore(x, y, a[0], b[0], |a| - 1);
    }
  }

  lemma AgreementBefore(x: bv16, y: bv16, a: bool, b: bool, n: nat)
    requires n < 15
    requires AgreeAbove(Shift(x, a), Shift(y, b), n)
    ensures AgreeAbove(x, y, n + 1)
  {
    hide Shift;
    HighBitsHaveTop(n);
    AgreementStep(x, y, a, b, HighBits(n));
  }

  lemma AgreementStep(x: bv16, y: bv16, a: bool, b: bool, m: bv16)
    requires m & 0x8000 == 0x8000
    requires Shift(x, a) & m == Shift(y, b) & m
    ensures x & (m << 1) == y & (m << 1)
  {
  }

  lemma {:induction false} DifferenceSurvives(x: bv16, y: bv16, s: seq<bool>)
    requires x != y
    ensures Divide(x, s) != Divide(y, s)
    decreases |s|
  {
    if s != [] {
      hide Shift;
      ShiftIsInjective(x, y, s[0]);
      DifferenceSurvives(Shift(x, s[0]), Shift(y, s[0]), s[1..]);
    }
  }

  lemma ShiftIsInjective(x: bv16, y: bv16, b: bool)
    requires x != y
    ensures Shift(x, b) != Shift(y, b)
  {
  }

  lemma {:induction false} BitAt(s: seq<bv8>, k: nat)
    requires k < 8 * |s|
    ensures Bits(s)[k] == ByteBits(s[k / 8])[k % 8]
  {
    hide ByteBits;
    if k >= 8 {
      BitAt(s[1..], k - 8);
    }
  }

  lemma {:induction false} BitsAreInjective(a: seq<bv8>, b: seq<bv8>)
    requires |a| == |b| && a != b
    ensures Bits(a) != Bits(b)
  {
    hide ByteBits;
    if a[0] == b[0] {
      assert a == [a[0]] + a[1..] && b == [b[0]] + b[1..];
      BitsAreInjective(a[1..], b[1..]);
      assert Bits(a)[8..] == Bits(a[1..]) && Bits(b)[8..] == Bits(b[1..]);
    } else {
      ByteBitsDiffer(a[0], b[0]);
      assert Bits(a)[..8] == ByteBits(a[0]) && Bits(b)[..8] == ByteBits(b[0]);
    }
  }

  lemma ByteBitsDiffer(c: bv8, d: bv8)
    requires c != d
    ensures ByteBits(c) != ByteBits(d)
  {
    hide LowBits, DropBits;
    DropOctet(c);
    DropOctet(d);
    if ByteBits(c) == ByteBits(d) {
      LowBitsDetermine(c as bv16, d as bv16, 8);
    }
  }

  lemma {:induction false} LowBitsDetermine(c: bv16, d: bv16, n: nat)
    requires LowBits(c, n) == LowBits(d, n)
    requires DropBits(c, n) == DropBits(d, n)
    ensures c == d
    decreases n
  {
    hide LowBits, DropBits;
    if n == 0 {
      DropNothing(c);
      DropNothing(d);
    } else {
      LowBitsUnfold(c, n);
      LowBitsUnfold(d, n);
      LowBitsDetermine(c >> 1, d >> 1, n - 1);
      HalvesDetermine(c, d);
    }
  }

  lemma DropNothing(c: bv16)
    ensures DropBits(c, 0) == c
  {
  }

  lemma LowBitsUnfold(c: bv16, n: nat)
    requires n > 0
    ensures LowBits(c, n)[0] <==> c & 1 == 1
    ensures LowBits(c, n)[1..] == LowBits(c >> 1, n - 1)
    ensures DropBits(c, n) == DropBits(c >> 1, n - 1)
  {
  }

  lemma HalvesDetermine(c: bv16, d: bv16)
    requires c & 1 == 1 <==> d & 1 == 1
    requires c >> 1 == d >> 1
    ensures c == d
  {
  }
}
