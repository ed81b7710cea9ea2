/**
 MD5 of a message that comes in pieces: padding and length field of RFC 1321, sections 3.1 to
 3.3, and the context of md5.c that buffers up to a block and counts bits in two words.
 */
module Md5Stream {
  import opened Md5

  const W := 0x1_0000_0000
  const BLOCK := 64

  // ----- the digest of a whole message

  function Word(b: seq<bv8>): bv32
    requires |b| == 4
  {
    ((b[3] as bv32) << 24) | ((b[2] as bv32) << 16) | ((b[1] as bv32) << 8) | (b[0] as bv32)
  }

  /** Low-order byte first. */
  function WordBytes(w: bv32): (b: seq<bv8>)
    ensures |b| == 4
  {
    [(w & 0xff) as bv8, ((w >> 8) & 0xff) as bv8, ((w >> 16) & 0xff) as bv8, ((w >> 24) & 0xff) as bv8]
  }

  lemma WordOfBytes(w: bv32)
    ensures Word(WordBytes(w)) == w
  {
  }

  function Words(b: seq<bv8>): (x: seq<bv32>)
    requires |b| == BLOCK
    ensures |x| == 16
  {
    seq(16, i requires 0 <= i < 16 => Word(b[4 * i..4 * i + 4]))
  }

  function Init(): Regs {
    Regs(0x67452301, 0xefcdab89, 0x98badcfe, 0x10325476)
  }

  /** The registers after all blocks of s. */
  function Chain(s: seq<bv8>): Regs {
    if |s| < BLOCK then Init()
    else
      var n := |s| - BLOCK;
      Compress(Chain(s[..n]), Words(s[n..]))
  }

  /** Pad to 56 modulo 64, with at least one byte. */
  function PadLength(n: nat): nat {
    if n % BLOCK < 56 then 56 - n % BLOCK else 120 - n % BLOCK
  }

  lemma PadLengthIsLeast(n: nat)
    ensures 1 <= PadLength(n) <= BLOCK && (n + PadLength(n)) % BLOCK == 56
  {
  }

  function Padding(k: nat): (s: seq<bv8>)
    requires k >= 1
    ensures |s| == k
  {
    [0x80] + seq(k - 1, _ => 0)
  }

  function ToWord(n: nat): bv32
    requires n < W
  {
    n as bv32
  }

  /** The two words of the length of n bytes in bits, modulo 2^64. */
  function LowWord(n: nat): (w: nat)
    ensures w < W
  {
    8 * n % W
  }

  function HighWord(n: nat): (w: nat)
    ensures w < W
  {
    8 * n / W % W
  }

  /** Unsigned 32-bit arithmetic: a sum, and the two halves of a length times eight. */
  function Add32(a: nat, b: nat): (w: nat)
    ensures w < W
  {
    (a + b) % W
  }

  function Shl3(n: nat): (w: nat)
    ensures w < W
  {
    8 * n % W
  }

  function Shr29(n: nat): nat {
    n / 0x2000_0000
  }

  /** The length in bits modulo 2^64, low-order word first. */
  function LengthField(n: nat): (s: seq<bv8>)
    ensures |s| == 8
  {
    WordBytes(ToWord(LowWord(n))) + WordBytes(ToWord(HighWord(n)))
  }

  function Padded(msg: seq<bv8>): seq<bv8> {
    msg + Padding(PadLength(|msg|)) + LengthField(|msg|)
  }

  function RegBytes(r: Regs): seq<bv8> {
    WordBytes(r.a) + WordBytes(r.b) + WordBytes(r.c) + WordBytes(r.d)
  }

  function Digest(msg: seq<bv8>): seq<bv8> {
    RegBytes(Chain(Padded(msg)))
  }

  // ----- one byte more, one block more

  function Whole(n: nat): nat {
    n - n % BLOCK
  }

  /** Registers and buffer stand for the message m. */
  ghost predicate Absorbed(r: Regs, inb: seq<bv8>, m: seq<bv8>) {
    && |inb| == BLOCK
    && r == Chain(m[..Whole(|m|)])
    && inb[..|m| % BLOCK] == m[Whole(|m|)..]
  }

  lemma AbsorbByte(r: Regs, inb: seq<bv8>, m: seq<bv8>, c: bv8)
    requires Absorbed(r, inb, m)
    ensures var k := |m| % BLOCK;
            if k + 1 < BLOCK then Absorbed(r, inb[k := c], m + [c])
            else Absorbed(Compress(r, Words(inb[k := c])), inb[k := c], m + [c])
  {
    hide Chain, Compress, Words;
    var k, n := |m| % BLOCK, Whole(|m|);
    var m' := m + [c];
    if k + 1 < BLOCK {
      assert Whole(|m'|) == n && |m'| % BLOCK == k + 1;
      assert m'[..n] == m[..n];
      assert inb[k := c][..k + 1] == inb[..k] + [c] == m'[n..];
    } else {
      assert Whole(|m'|) == n + BLOCK == |m'|;
      assert m'[..n] == m[..n] && m'[..|m'|] == m';
      assert inb[k := c] == m'[n..];
      OneBlock(m');
    }
  }

  lemma OneBlock(s: seq<bv8>)
    requires |s| >= BLOCK
    ensures Chain(s) == Compress(Chain(s[..|s| - BLOCK]), Words(s[|s| - BLOCK..]))
  {
    hide Compress, Words;
  }

  /** The words of the last block: fourteen from the buffer, two from the counter. */
  lemma LastWords(inb: seq<bv8>, x: seq<bv32>, n: nat)
    requires |inb| == BLOCK && |x| == 16
    requires forall i | 0 <= i < 14 :: x[i] == Word(inb[4 * i..4 * i + 4])
    requires x[14] == ToWord(LowWord(n)) && x[15] == ToWord(HighWord(n))
    ensures x == Words(inb[..56] + LengthField(n))
  {
    hide Word, WordBytes, ToWord, LowWord, HighWord;
    var b := inb[..56] + LengthField(n);
    var lo, hi := ToWord(LowWord(n)), ToWord(HighWord(n));
    forall i | 0 <= i < 14 ensures b[4 * i..4 * i + 4] == inb[4 * i..4 * i + 4] {
    }
    assert b[56..60] == WordBytes(lo) && b[60..64] == WordBytes(hi);
    WordOfBytes(lo);
    WordOfBytes(hi);
    forall i | 0 <= i < 16 ensures x[i] == Words(b)[i] {
      if i == 14 { assert b[4 * i..4 * i + 4] == WordBytes(lo); }
      if i == 15 { assert b[4 * i..4 * i + 4] == WordBytes(hi); }
    }
  }

  /** The two-word bit counter of n bytes after len more, carry and truncations included. */
  lemma CountBits(n: nat, len: nat)
    requires len < W
    ensures LowWord(n + len) == Add32(LowWord(n), Shl3(len))
    ensures HighWord(n + len) ==
            Add32(if LowWord(n + len) < LowWord(n) then Add32(HighWord(n), 1) else HighWord(n), Shr29(len))
  {
    var t := 8 * n;
    var q, i0 := t / W, t % W;
    var p, s := 8 * len / W, 8 * len % W;
    var carry := if i0 + s < W then 0 else 1;
    EighthOf(len);
    CarryOut(i0, s);
    assert 8 * (n + len) == (q + p + carry) * W + (i0 + s - carry * W);
    QuotientIs(8 * (n + len), q + p + carry, i0 + s - carry * W);
    ModuloSum(q, p, carry);
  }

  lemma EighthOf(len: nat)
    ensures 8 * len / W == len / 0x2000_0000
  {
  }

  /** The sum of two words wraps exactly when it comes out less than the first. */
  lemma CarryOut(a: nat, b: nat)
    requires a < W && b < W
    ensures (a + b) % W == if a + b < W then a + b else a + b - W
  {
    QuotientIs(a + b, if a + b < W then 0 else 1, if a + b < W then a + b else a + b - W);
  }

  lemma QuotientIs(n: nat, q: nat, r: nat)
    requires n == q * W + r && r < W
    ensures n / W == q && n % W == r
  {
  }

  lemma ModuloSum(q: nat, p: nat, carry: nat)
    ensures (q + p + carry) % W == ((q % W + carry) % W + p) % W
  {
  }

  // ----- the context

  class Context {
    var i0: nat
    var i1: nat
    const buf: array<bv32>
    const inb: array<bv8>
    const digest: array<bv8>
    ghost var msg: seq<bv8>

    ghost predicate Buffers()
      reads this
    {
      buf.Length == 4 && inb.Length == BLOCK && digest.Length == 16 && inb != digest
    }

    /** The context stands for the bytes received so far. */
    ghost predicate Valid()
      reads this, buf, inb
    {
      && Buffers()
      && i0 == LowWord(|msg|) && i1 == HighWord(|msg|)
      && Absorbed(RegsOf(buf), inb[..], msg)
    }

    constructor ()
      ensures Valid() && msg == [] && fresh(buf) && fresh(inb) && fresh(digest)
    {
      i0, i1 := 0, 0;
      buf := new bv32[4];
      inb := new bv8[BLOCK];
      digest := new bv8[16];
      msg := [];
      new;
      buf[0], buf[1], buf[2], buf[3] := 0x67452301, 0xefcdab89, 0x98badcfe, 0x10325476;
    }

    /** Whatever the piece, the context stands for the message with the piece appended. */
    method Update(inBuf: array<bv8>, inLen: nat)
      requires Valid() && inLen <= inBuf.Length && inLen < W && inBuf != inb
      modifies this`i0, this`i1, this`msg, buf, inb
      ensures Valid() && msg == old(msg) + inBuf[..inLen]
    {
      hide Absorbed, LowWord, HighWord;
      var mdi := i0 / 8 % 0x40;
      BytesOfBits(|msg|);
      Count(inLen);
      var k := 0;
      assert msg + inBuf[..0] == msg;
      while k < inLen
        invariant msg == old(msg) && inBuf[..inLen] == old(inBuf[..inLen])
        invariant i0 == LowWord(|msg| + inLen) && i1 == HighWord(|msg| + inLen)
        invariant Buffers() && k <= inLen && mdi == (|msg| + k) % BLOCK
        invariant Absorbed(RegsOf(buf), inb[..], msg + inBuf[..k])
      {
        assert msg + inBuf[..k + 1] == (msg + inBuf[..k]) + [inBuf[k]];
        mdi := Take(inBuf[k], mdi, msg + inBuf[..k]);
        k := k + 1;
      }
      msg := msg + inBuf[..inLen];
    }

    method Count(inLen: nat)
      requires i0 == LowWord(|msg|) && i1 == HighWord(|msg|) && inLen < W
      modifies this`i0, this`i1
      ensures i0 == LowWord(|msg| + inLen) && i1 == HighWord(|msg| + inLen)
    {
      hide LowWord, HighWord, Add32, Shl3, Shr29;
      CountBits(|msg|, inLen);
      if Add32(i0, Shl3(inLen)) < i0 { i1 := Add32(i1, 1); }
      i0 := Add32(i0, Shl3(inLen));
      i1 := Add32(i1, Shr29(inLen));
    }

    /** One byte into the buffer, and a transformation when the buffer is full. */
    method Take(c: bv8, mdi: nat, ghost m: seq<bv8>) returns (mdi': nat)
      requires Buffers() && mdi == |m| % BLOCK && Absorbed(RegsOf(buf), inb[..], m)
      modifies buf, inb
      ensures Absorbed(RegsOf(buf), inb[..], m + [c]) && mdi' == (|m| + 1) % BLOCK
    {
      hide Absorbed, Compress, Word;
      AbsorbByte(RegsOf(buf), inb[..], m, c);
      inb[mdi] := c;
      mdi' := mdi + 1;
      if mdi' == 0x40 {
        var x := new bv32[16];
        Load(x, 16);
        assert x[..] == Words(inb[..]);
        Transform(buf, x);
        mdi' := 0;
      }
    }

    /** Gather the first words of the buffer. */
    method Load(x: array<bv32>, n: nat)
      requires Buffers() && x.Length == 16 && n <= 16
      modifies x
      ensures forall i | 0 <= i < n :: x[i] == Word(inb[..][4 * i..4 * i + 4])
      ensures forall i | n <= i < 16 :: x[i] == old(x[i])
    {
      var i, ii := 0, 0;
      while i < n
        invariant i <= n && ii == 4 * i
        invariant forall k | 0 <= k < i :: x[k] == Word(inb[..][4 * k..4 * k + 4])
        invariant forall k | i <= k < 16 :: x[k] == old(x[k])
      {
        x[i] := LoadWord(ii);
        i, ii := i + 1, ii + 4;
      }
    }

    method LoadWord(ii: nat) returns (w: bv32)
      requires Buffers() && ii + 4 <= BLOCK
      ensures w == Word(inb[..][ii..ii + 4])
    {
      w := ((inb[ii + 3] as bv32) << 24) | ((inb[ii + 2] as bv32) << 16) | ((inb[ii + 1] as bv32) << 8) | (inb[ii] as bv32);
    }

    /** The digest of everything received, however it was cut. */
    method Final()
      requires Valid()
      modifies this`i0, this`i1, this`msg, buf, inb, digest
      ensures digest[..] == Digest(old(msg))
    {
      hide Absorbed, Chain, Compress, Word, ToWord, Padding, LengthField, LowWord, HighWord, PadLength;
      ghost var was := msg;
      var x := new bv32[16];
      x[14] := CounterWord(i0);
      x[15] := CounterWord(i1);
      Pad();
      Load(x, 14);
      LastWords(inb[..], x[..], |was|);
      LastBlock(RegsOf(buf), inb[..], was);
      Transform(buf, x);
      StoreDigest();
    }

    /** Pad out to 56 modulo 64. */
    method Pad()
      requires Valid()
      modifies this`i0, this`i1, this`msg, buf, inb
      ensures Valid() && msg == old(msg) + Padding(PadLength(|old(msg)|))
    {
      hide Absorbed, Padding, LowWord, HighWord;
      var mdi := i0 / 8 % 0x40;
      BytesOfBits(|msg|);
      var padLen := if mdi < 56 then 56 - mdi else 120 - mdi;
      PadLengthIsLeast(|msg|);
      var padding := new bv8[64](i => if i == 0 then 0x80 else 0);
      PaddingPrefix(padding[..], padLen);
      Update(padding, padLen);
    }

    method StoreDigest()
      requires Buffers()
      modifies digest
      ensures digest[..] == RegBytes(RegsOf(buf))
    {
      hide WordBytes;
      StoreWord(0, buf[0]);
      StoreWord(4, buf[1]);
      StoreWord(8, buf[2]);
      StoreWord(12, buf[3]);
      assert digest[..] == digest[..16];
    }

    method StoreWord(ii: nat, w: bv32)
      requires Buffers() && ii + 4 <= 16
      modifies digest
      ensures digest[..ii + 4] == old(digest[..ii]) + WordBytes(w)
    {
      digest[ii] := (w & 0xff) as bv8;
      digest[ii + 1] := ((w >> 8) & 0xff) as bv8;
      digest[ii + 2] := ((w >> 16) & 0xff) as bv8;
      digest[ii + 3] := ((w >> 24) & 0xff) as bv8;
    }
  }

  method CounterWord(n: nat) returns (w: bv32)
    requires n < W
    ensures w == ToWord(n)
  {
    w := n as bv32;
  }

  /** The counter gives the place in the block although it has wrapped. */
  lemma BytesOfBits(n: nat)
    ensures LowWord(n) / 8 % 0x40 == n % BLOCK
  {
    var q, m := n / 0x2000_0000, n % 0x2000_0000;
    QuotientIs(8 * n, q, 8 * m);
    assert n == m + 64 * (q * 0x80_0000);
    SameRemainder(m, q * 0x80_0000);
  }

  lemma SameRemainder(m: nat, k: nat)
    ensures (m + 64 * k) % 64 == m % 64
  {
  }

  lemma PaddingPrefix(p: seq<bv8>, k: nat)
    requires |p| == 64 && 1 <= k <= 64 && p[0] == 0x80 && forall i | 1 <= i < 64 :: p[i] == 0
    ensures p[..k] == Padding(k)
  {
  }

  lemma LastBlock(r: Regs, inb: seq<bv8>, msg: seq<bv8>)
    requires Absorbed(r, inb, msg + Padding(PadLength(|msg|)))
    ensures Chain(Padded(msg)) == Compress(r, Words(inb[..56] + LengthField(|msg|)))
  {
    hide Chain, Compress, Words, Padding, LengthField;
    var m := msg + Padding(PadLength(|msg|));
    PadLengthIsLeast(|msg|);
    var s := Padded(msg);
    assert s == m + LengthField(|msg|) && |s| - BLOCK == Whole(|m|);
    OneBlock(s);
    assert s[..|s| - BLOCK] == m[..Whole(|m|)];
    assert s[|s| - BLOCK..] == m[Whole(|m|)..] + LengthField(|msg|);
  }
}
