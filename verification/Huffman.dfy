/**
 The static Huffman codec of axspawn: the bit-packing encoder with its raw-copy
 fallback, the table-walking decoder, and the round trip between them.
 */
module Huffman {
  import opened HuffmanTables

  // ----- bits of octets and codes

  /** mask8tab: the k-th bit of an octet counted from the top; shifted out it is zero. */
  function Mask8(k: nat): bv8 {
    if k == 0 then 0x80 else if k == 1 then 0x40 else if k == 2 then 0x20 else if k == 3 then 0x10
    else if k == 4 then 0x08 else if k == 5 then 0x04 else if k == 6 then 0x02 else if k == 7 then 0x01 else 0
  }

  /** mask16tab: the i-th bit of a code counted from the top. */
  function Mask16(i: nat): bv16 {
    if i == 0 then 0x8000 else if i == 1 then 0x4000 else if i == 2 then 0x2000 else if i == 3 then 0x1000
    else if i == 4 then 0x0800 else if i == 5 then 0x0400 else if i == 6 then 0x0200 else if i == 7 then 0x0100
    else if i == 8 then 0x0080 else if i == 9 then 0x0040 else if i == 10 then 0x0020 else if i == 11 then 0x0010
    else if i == 12 then 0x0008 else if i == 13 then 0x0004 else if i == 14 then 0x0002 else 0x0001
  }

  predicate BitOf(c: bv8, k: nat) {
    c & Mask8(k) != 0
  }

  predicate CodeBit(code: bv16, i: nat) {
    code & Mask16(i) != 0
  }

  /** Bit p of a packed bit string. */
  predicate BitAt(s: seq<bv8>, p: nat)
    requires p < 8 * |s|
  {
    BitOf(s[p / 8], p % 8)
  }

  /** The k leading bits of a code. */
  function CodeBits(code: bv16, k: nat): (r: seq<bool>)
    ensures |r| == k
    decreases k
  {
    if k == 0 then [] else [code & 0x8000 != 0] + CodeBits(code << 1, k - 1)
  }

  function SymbolBits(b: bv8): (r: seq<bool>)
    ensures 1 <= |r| <= 15
  {
    TablesAgree(b as nat);
    var e := EncodeTab(b as nat);
    CodeBits(e.code, e.len)
  }

  /** The concatenated codes of a message. */
  function MessageBits(s: seq<bv8>): seq<bool> {
    if s == [] then [] else MessageBits(s[..|s| - 1]) + SymbolBits(s[|s| - 1])
  }

  /** The octets hold the bits in order; the bits behind them are zero. */
  predicate Holds(s: seq<bv8>, bits: seq<bool>) {
    |bits| <= 8 * |s| &&
    forall p | 0 <= p < 8 * |s| :: BitAt(s, p) == (p < |bits| && bits[p])
  }

  /** What the encoder must produce: a copy marked 255 when the codes need at least as many
      octets as the message has, otherwise the packed codes behind the length marker. */
  predicate Encoded(src: seq<bv8>, out: seq<bv8>)
    requires 1 <= |src| <= 255
  {
    var bits := MessageBits(src);
    if |bits| >= 8 * |src| then
      out == [255] + src
    else
      |out| == 1 + (|bits| + 7) / 8 && out[0] as nat == |src| - 1 && Holds(out[1..], bits)
  }

  // ----- the encoder

  method EncStatHuf(src: array<bv8>, srclen: nat, dest: array<bv8>) returns (failed: bool, destlen: nat)
    requires src != dest
    requires 1 <= srclen <= src.Length && srclen < dest.Length
    modifies dest
    ensures failed <==> srclen > 255
    ensures !failed ==> 1 <= destlen <= srclen + 1 && Encoded(src[..srclen], dest[..destlen])
  {
    hide *;
    failed, destlen := srclen > 255, 0;
    if failed { return; }
    ghost var msg := src[..srclen];
    var wrklen, bit8, bit16 := 0, 0, 0;
    ClearOctet(dest, 1, []);
    FirstSymbol(msg);
    var e := EncodeTab(src[0] as nat);
    ghost var bits: seq<bool> := [];
    while true
      invariant wrklen < srclen && bit8 < 8 && destlen < srclen
      invariant bit16 < e.len <= 15
      invariant Progress(msg, wrklen, e, bit16, bits)
      invariant |bits| == 8 * destlen + bit8
      invariant Wrote(dest, destlen + 1, bits)
      decreases srclen - wrklen, 16 - bit16
    {
      NextBit(msg, wrklen, e, bit16, bits);
      ghost var bit := CodeBit(e.code, bit16);
      if CodeBit(e.code, bit16) {
        SetBit(dest, destlen + 1, bit8, bits);
      } else {
        KeepBit(dest, destlen + 1, bits);
      }
      bits := bits + [bit];
      bit8 := bit8 + 1;
      if bit8 > 7 {
        destlen := destlen + 1;
        if destlen >= srclen {
          // coding is not effective, use copy
          MemCpy(dest, 1, src, 0, srclen);
          dest[0] := 255;
          destlen := srclen + 1;
          assert dest[..destlen] == [255] + dest[1..destlen] == [255] + msg;
          CopyIsEncoded(msg);
          return;
        }
        bit8 := 0;
        ClearOctet(dest, destlen + 1, bits);
      }
      bit16 := bit16 + 1;
      if bit16 == e.len {
        NextSymbol(msg, wrklen, e, bits);
        wrklen := wrklen + 1;
        if wrklen == srclen { break; }
        e := EncodeTab(src[wrklen] as nat);
        bit16 := 0;
      }
    }
    destlen := Seal(srclen, msg, dest, destlen, bit8);
  }

  /** The bits written once the encoder is bit16 bits into the code e of octet number wrklen. */
  ghost predicate Progress(msg: seq<bv8>, wrklen: nat, e: EncodeEntry, bit16: nat, bits: seq<bool>)
    requires wrklen < |msg|
  {
    SymbolBits(msg[wrklen]) == CodeBits(e.code, e.len) && bit16 <= e.len &&
    bits == MessageBits(msg[..wrklen]) + SymbolBits(msg[wrklen])[..bit16]
  }

  lemma FirstSymbol(msg: seq<bv8>)
    requires msg != []
    ensures var e := EncodeTab(msg[0] as nat); 1 <= e.len <= 15 && Progress(msg, 0, e, 0, [])
  {
    SymbolIs(msg[0]);
  }

  lemma NextBit(msg: seq<bv8>, wrklen: nat, e: EncodeEntry, bit16: nat, bits: seq<bool>)
    requires wrklen < |msg| && bit16 < e.len <= 15
    requires Progress(msg, wrklen, e, bit16, bits)
    ensures Progress(msg, wrklen, e, bit16 + 1, bits + [CodeBit(e.code, bit16)])
    ensures bits + [CodeBit(e.code, bit16)] <= MessageBits(msg)
  {
    hide CodeBit, SymbolBits, MessageBits, CodeBits;
    CodeBitIs(e.code, e.len, bit16);
    MessageStep(msg, wrklen);
    PrefixBits(msg, wrklen + 1);
    TakeOneMore(MessageBits(msg[..wrklen]), SymbolBits(msg[wrklen]), bit16);
  }

  lemma TakeOneMore(a: seq<bool>, b: seq<bool>, k: nat)
    requires k < |b|
    ensures a + b[..k] + [b[k]] == a + b[..k + 1]
    ensures a + b[..k + 1] <= a + b
  {
  }

  lemma NextSymbol(msg: seq<bv8>, wrklen: nat, e: EncodeEntry, bits: seq<bool>)
    requires wrklen < |msg|
    requires Progress(msg, wrklen, e, e.len, bits)
    ensures bits == MessageBits(msg[..wrklen + 1])
    ensures wrklen + 1 == |msg| ==> bits == MessageBits(msg)
    ensures wrklen + 1 < |msg| ==>
              var f := EncodeTab(msg[wrklen + 1] as nat); 1 <= f.len <= 15 && Progress(msg, wrklen + 1, f, 0, bits)
  {
    hide SymbolBits;
    if wrklen + 1 < |msg| { SymbolIs(msg[wrklen + 1]); }
    MessageStep(msg, wrklen);
    assert wrklen + 1 == |msg| ==> msg[..wrklen + 1] == msg;
  }

  /** The first at octets behind the marker hold the bits. */
  ghost predicate Wrote(dest: array<bv8>, at: nat, bits: seq<bool>)
    reads dest
  {
    at < dest.Length && Holds(dest[1..at + 1], bits)
  }

  method SetBit(dest: array<bv8>, at: nat, bit8: nat, ghost bits: seq<bool>)
    requires 1 <= at < dest.Length && bit8 < 8
    requires |bits| == 8 * (at - 1) + bit8 && Wrote(dest, at, bits)
    modifies dest
    ensures Wrote(dest, at, bits + [true])
  {
    hide Holds, Mask8;
    ghost var was := dest[1..at + 1];
    dest[at] := dest[at] | Mask8(bit8);
    assert dest[1..at + 1] == was[at - 1 := was[at - 1] | Mask8(bit8)];
    BitIsSet(was, bits);
  }

  method ClearOctet(dest: array<bv8>, at: nat, ghost bits: seq<bool>)
    requires 1 <= at < dest.Length
    requires |bits| == 8 * (at - 1) && (bits == [] || Wrote(dest, at - 1, bits))
    modifies dest
    ensures Wrote(dest, at, bits)
  {
    hide Holds;
    StartOctet(dest[1..at], bits);
    dest[at] := 0;
    assert dest[1..at + 1] == dest[1..at] + [0];
  }

  /** The end of the encoder: count the last octet if it holds bits, and set the marker. */
  method Seal(srclen: nat, ghost msg: seq<bv8>, dest: array<bv8>, octets: nat, bit8: nat) returns (destlen: nat)
    requires srclen == |msg| && 1 <= |msg| <= 255 && octets < |msg| < dest.Length && bit8 < 8
    requires |MessageBits(msg)| == 8 * octets + bit8
    requires Wrote(dest, octets + 1, MessageBits(msg))
    modifies dest
    ensures 1 <= destlen <= |msg| + 1 && Encoded(msg, dest[..destlen])
  {
    hide Holds, MessageBits;
    destlen := octets;
    if bit8 != 0 {
      destlen := destlen + 1;
    } else {
      DropEmptyOctet(dest[1..octets + 2], MessageBits(msg));
      assert dest[1..octets + 2][..octets] == dest[1..octets + 1];
    }
    destlen := destlen + 1;
    assert Holds(dest[1..destlen], MessageBits(msg));
    dest[0] := (srclen - 1) as bv8;
    assert dest[..destlen][1..] == dest[1..destlen];
    PackedIsEncoded(msg, dest[..destlen]);
  }

  method MemCpy(dest: array<bv8>, at: nat, src: array<bv8>, from: nat, n: nat)
    requires src != dest
    requires at + n <= dest.Length && from + n <= src.Length
    modifies dest
    ensures dest[at..at + n] == src[from..from + n]
    ensures forall i | 0 <= i < dest.Length && !(at <= i < at + n) :: dest[i] == old(dest[i])
  {
    forall i | 0 <= i < n {
      dest[at + i] := src[from + i];
    }
  }

  lemma SymbolIs(b: bv8)
    ensures var e := EncodeTab(b as nat); 1 <= e.len <= 15 && SymbolBits(b) == CodeBits(e.code, e.len)
  {
    TablesAgree(b as nat);
  }


  lemma CopyIsEncoded(src: seq<bv8>)
    requires 1 <= |src| <= 255 && |MessageBits(src)| >= 8 * |src|
    ensures Encoded(src, [255] + src)
  {
  }

  lemma PackedIsEncoded(src: seq<bv8>, out: seq<bv8>)
    requires 1 <= |src| <= 255 && |MessageBits(src)| < 8 * |src|
    requires |out| == 1 + (|MessageBits(src)| + 7) / 8
    requires out[0] == (|src| - 1) as bv8 && Holds(out[1..], MessageBits(src))
    ensures Encoded(src, out)
  {
    MarkerIs(|src| - 1);
  }

  lemma MarkerIs(n: nat)
    requires n < 256
    ensures (n as bv8) as nat == n
  {
    assert n == n % 256;
  }

  lemma BitIsSet(s: seq<bv8>, bits: seq<bool>)
    requires 8 * (|s| - 1) <= |bits| < 8 * |s| && Holds(s, bits)
    ensures Holds(s[|s| - 1 := s[|s| - 1] | Mask8(|bits| - 8 * (|s| - 1))], bits + [true])
  {
    hide BitAt, Mask8;
    var t := s[|s| - 1 := s[|s| - 1] | Mask8(|bits| - 8 * (|s| - 1))];
    forall p | 0 <= p < 8 * |t|
      ensures BitAt(t, p) == (p <= |bits| && (bits + [true])[p])
    {
      BitAfterSet(s, |bits|, p);
      assert BitAt(s, p) == (p < |bits| && bits[p]);
    }
  }

  lemma BitAfterSet(s: seq<bv8>, n: nat, p: nat)
    requires 8 * (|s| - 1) <= n < 8 * |s| && p < 8 * |s|
    ensures BitAt(s[|s| - 1 := s[|s| - 1] | Mask8(n - 8 * (|s| - 1))], p) <==> BitAt(s, p) || p == n
  {
    hide BitOf, Mask8;
    if p / 8 == |s| - 1 {
      OrMask(s[|s| - 1], n - 8 * (|s| - 1), p % 8);
    }
  }

  lemma KeepBit(dest: array<bv8>, at: nat, bits: seq<bool>)
    requires 1 <= at < dest.Length && 8 * (at - 1) <= |bits| < 8 * at && Wrote(dest, at, bits)
    ensures Wrote(dest, at, bits + [false])
  {
    hide BitAt;
    var s := dest[1..at + 1];
    forall p | 0 <= p < 8 * |s|
      ensures BitAt(s, p) == (p <= |bits| && (bits + [false])[p])
    {
    }
  }

  lemma StartOctet(s: seq<bv8>, bits: seq<bool>)
    requires |bits| == 8 * |s| && (bits == [] || Holds(s, bits))
    ensures Holds(s + [0], bits)
  {
    hide Mask8;
    forall p | 0 <= p < 8 * |s + [0]|
      ensures BitAt(s + [0], p) == (p < |bits| && bits[p])
    {
      if p < |bits| {
        assert BitAt(s, p) == bits[p];
      } else {
        assert !BitOf(0, p % 8);
      }
    }
  }

  lemma DropEmptyOctet(s: seq<bv8>, bits: seq<bool>)
    requires s != [] && Holds(s, bits) && |bits| == 8 * (|s| - 1)
    ensures Holds(s[..|s| - 1], bits)
  {
    hide BitOf;
    var t := s[..|s| - 1];
    forall p | 0 <= p < 8 * |t| ensures BitAt(t, p) == (p < |bits| && bits[p]) {
      assert BitAt(t, p) == BitAt(s, p);
    }
  }

  lemma OrMask(c: bv8, i: nat, k: nat)
    requires i < 8 && k < 8
    ensures BitOf(c | Mask8(i), k) <==> BitOf(c, k) || i == k
  {
  }

  /** Testing a code against mask16tab reads its bits in order. */
  lemma {:induction false} CodeBitIs(code: bv16, k: nat, i: nat)
    requires i < k <= 16
    ensures CodeBits(code, k)[i] <==> CodeBit(code, i)
    decreases i
  {
    if i > 0 {
      hide CodeBit;
      CodeBitIs(code << 1, k - 1, i - 1);
      ShiftedBit(code, i - 1);
    }
  }

  lemma ShiftedBit(code: bv16, i: nat)
    requires i < 15
    ensures CodeBit(code << 1, i) <==> CodeBit(code, i + 1)
  {
  }

  // ----- the bits of a message

  lemma MessageStep(s: seq<bv8>, i: nat)
    requires i < |s|
    ensures MessageBits(s[..i + 1]) == MessageBits(s[..i]) + SymbolBits(s[i])
  {
    assert s[..i + 1][..i] == s[..i];
  }

  lemma {:induction false} PrefixBits(s: seq<bv8>, i: nat)
    requires i <= |s|
    ensures MessageBits(s[..i]) <= MessageBits(s)
    decreases |s| - i
  {
    if i == |s| {
      assert s[..i] == s;
    } else {
      MessageStep(s, i);
      PrefixBits(s, i + 1);
    }
  }


  // ----- the decoder

  datatype Outcome = Stuck | Decoded(bytes: seq<bv8>)

  function Octet(n: nat): bv8
    requires n < 256
  {
    n as bv8
  }

  /** The walk of the decoder from bit p of s at a node. Leaves and missing children are
      noticed with the next bit in sight, but consume none. */
  function Unpack(s: seq<bv8>, p: nat, node: nat, out: seq<bv8>, limit: nat): (r: Outcome)
    requires node < NODES && |out| < limit
    ensures r.Decoded? ==> |r.bytes| == limit && out <= r.bytes
    decreases 8 * |s| - p, if node == 0 then 0 else 1
  {
    TableIsClosed(node);
    RootEntry();
    if p >= 8 * |s| then Stuck
    else
      var e := DecodeTab(node);
      if e.node2 == 0 then
        var out' := out + [Octet(e.node1)];
        if |out'| >= limit then Decoded(out') else Unpack(s, p, 0, out', limit)
      else
        var next := if BitAt(s, p) then e.node2 else e.node1;
        if next == 0 then Unpack(s, p, 0, out, limit) else Unpack(s, p + 1, next, out, limit)
  }

  function Min(a: nat, b: nat): nat {
    if a < b then a else b
  }

  /** How many octets the length marker in front announces. */
  function Announced(marker: bv8): (n: nat)
    ensures n >= 1
  {
    marker as nat + 1
  }

  /** What decstathuf makes of a buffer and the one octet behind it. */
  function Decode(buf: seq<bv8>, peek: bv8, destsize: nat): Outcome
    requires buf != [] && destsize >= 1
  {
    if |buf| == 1 then Stuck
    else if buf[0] == 255 then Decoded(buf[1..][..Min(|buf| - 1, destsize)])
    else Unpack(buf[1..] + [peek], 0, 0, [], Min(Announced(buf[0]), destsize))
  }

  method DecStatHuf(src: array<bv8>, srclen: nat, dest: array<bv8>, destsize: nat) returns (failed: bool, destlen: nat)
    requires src != dest
    requires 1 <= srclen < src.Length && 1 <= destsize <= dest.Length
    modifies dest
    ensures var r := Decode(old(src[..srclen]), old(src[srclen]), destsize);
            && (failed <==> r.Stuck?)
            && (r.Decoded? ==> r.bytes <= dest[..destsize] && destlen == |r.bytes| % 256)
    ensures old(src[0]) == 255 || Untouched(old(dest[..]), dest[..], Min(Announced(old(src[0])), destsize))
  {
    hide *;
    DecodeIs(src[..srclen], src[srclen], destsize);
    if srclen - 1 == 0 {
      SameIsUntouched(dest[..], Min(Announced(src[0]), destsize));
      failed, destlen := true, Announced(src[0]);
    } else if src[0] == 255 {
      // no compression, only copy
      var n := if srclen - 1 > destsize then destsize else srclen - 1;
      assert src[1..1 + n] == src[..srclen][1..][..n];
      MemCpy(dest, 0, src, 1, n);
      assert dest[..destsize][..n] == dest[0..n];
      failed, destlen := false, n % 256;
    } else {
      assert src[1..srclen + 1] == src[..srclen][1..] + [src[srclen]];
      failed, destlen := DecodeBits(src, srclen, dest, destsize);
      assert !failed ==> dest[..destsize][..destlen] == dest[..destlen];
    }
  }

  /** Beyond the announced length, or the size of the destination, nothing is written. */
  predicate Untouched(before: seq<bv8>, after: seq<bv8>, limit: nat) {
    |before| == |after| && forall i | limit <= i < |after| :: after[i] == before[i]
  }

  lemma SameIsUntouched(s: seq<bv8>, limit: nat)
    ensures Untouched(s, s, limit)
  {
  }

  /** The bit loop of decstathuf over all octets. */
  method DecodeBits(src: array<bv8>, srclen: nat, dest: array<bv8>, destsize: nat) returns (failed: bool, destlen: nat)
    requires src != dest && src.Length > 0
    requires 2 <= srclen < src.Length && 1 <= destsize <= dest.Length
    modifies dest
    ensures var r := Unpack(old(src[1..srclen + 1]), 0, 0, [], Min(Announced(old(src[0])), destsize));
            && (failed <==> r.Stuck?)
            && (r.Decoded? ==> destlen <= destsize && r == Decoded(dest[..destlen]))
    ensures Untouched(old(dest[..]), dest[..], Min(Announced(old(src[0])), destsize))
  {
    hide *;
    failed, destlen := false, Announced(src[0]);
    ghost var s, limit := src[1..srclen + 1], Min(destlen, destsize);
    MinIs(destlen, destsize);
    ghost var r := StartOfRest(s, limit);
    SameIsUntouched(dest[..], limit);
    var left, at, wrklen: nat, decod: nat := srclen - 1, 0, 0, 0;
    while true
      invariant 0 <= at && at + left + 1 == srclen && wrklen <= destsize
      invariant Rest(r, s, 8 * at, decod, dest[..wrklen], limit)
      invariant Untouched(old(dest[..]), dest[..], limit)
      decreases left
    {
      wrklen, decod := DecodeOctet(src[1 + at], dest, destlen, destsize, wrklen, decod, r, s, at, limit, old(dest[..]));
      if wrklen >= destlen || wrklen >= destsize { break; }
      at := at + 1;
      if left == 0 {
        RestIsStuck(r, s, at, decod, dest[..wrklen], limit);
        failed := true;
        return;
      }
      left := left - 1;
    }
    destlen := wrklen;
  }

  /** What is left to decode from bit p on completes out to the whole result r. */
  ghost predicate Rest(r: Outcome, s: seq<bv8>, p: nat, node: nat, out: seq<bv8>, limit: nat) {
    node < NODES && |out| < limit && r == Unpack(s, p, node, out, limit)
  }

  /** The bit loop of decstathuf over the octet c, which is number at of s. */
  method DecodeOctet(c: bv8, dest: array<bv8>, destlen: nat, destsize: nat, wrklen0: nat, decod0: nat,
                     ghost r: Outcome, ghost s: seq<bv8>, ghost at: nat, ghost limit: nat, ghost before: seq<bv8>)
    returns (wrklen: nat, decod: nat)
    requires at < |s| && c == s[at] && limit == Min(destlen, destsize)
    requires wrklen0 <= destsize <= dest.Length
    requires Rest(r, s, 8 * at, decod0, dest[..wrklen0], limit)
    requires Untouched(before, dest[..], limit)
    modifies dest
    ensures wrklen <= destsize
    ensures if wrklen >= destlen || wrklen >= destsize then r == Decoded(dest[..wrklen])
            else Rest(r, s, 8 * at + 8, decod, dest[..wrklen], limit)
    ensures Untouched(before, dest[..], limit)
  {
    hide *;
    wrklen, decod := wrklen0, decod0;
    MinIs(destlen, destsize);
    RestIs(r, s, 8 * at, decod, dest[..wrklen], limit);
    var bitmask: bv8 := 0x80;
    ghost var k := 0;
    MaskStep(0);
    while bitmask > 0
      invariant 0 <= k <= 8 && bitmask == Mask8(k) && (bitmask > 0 <==> k < 8)
      invariant decod < NODES && wrklen < limit
      invariant Rest(r, s, 8 * at + k, decod, dest[..wrklen], limit)
      invariant Untouched(before, dest[..], limit)
      decreases 8 - k, if decod == 0 then 0 else 1
    {
      MaskStep(k);
      wrklen, decod := DecodeBit(c, bitmask, dest, wrklen, decod, r, s, at, k, limit, before);
      if wrklen >= destlen || wrklen >= destsize { break; }
      if decod != 0 {
        bitmask := bitmask >> 1;
        k := k + 1;
      }
    }
  }

  /** One look at the table: a leaf emits its octet, an inner node takes the bit. */
  method DecodeBit(c: bv8, bitmask: bv8, dest: array<bv8>, wrklen0: nat, decod0: nat,
                   ghost r: Outcome, ghost s: seq<bv8>, ghost at: nat, ghost k: nat, ghost limit: nat, ghost before: seq<bv8>)
    returns (wrklen: nat, decod: nat)
    requires at < |s| && c == s[at] && k < 8 && bitmask == Mask8(k)
    requires wrklen0 < limit <= dest.Length && decod0 < NODES
    requires Rest(r, s, 8 * at + k, decod0, dest[..wrklen0], limit)
    requires Untouched(before, dest[..], limit)
    modifies dest
    ensures wrklen <= limit && decod < NODES
    ensures if wrklen == limit then r == Decoded(dest[..wrklen])
            else
              && Rest(r, s, if decod == 0 then 8 * at + k else 8 * at + k + 1, decod, dest[..wrklen], limit)
              && (decod == 0 ==> decod0 != 0)
    ensures Untouched(before, dest[..], limit)
  {
    hide *;
    ghost var out := dest[..wrklen0];
    RestStep(r, s, at, k, decod0, out, limit);
    wrklen, decod := wrklen0, 0;
    var e := DecodeTab(decod0);
    if e.node2 == 0 {
      Emit(dest, wrklen, Octet(e.node1), limit, before);
      wrklen := wrklen + 1;
    } else {
      decod := if c & bitmask != 0 then e.node2 else e.node1;
    }
  }

  lemma RestIs(r: Outcome, s: seq<bv8>, p: nat, node: nat, out: seq<bv8>, limit: nat)
    requires Rest(r, s, p, node, out, limit)
    ensures node < NODES && |out| < limit
  {
  }

  lemma RestStep(r: Outcome, s: seq<bv8>, at: nat, k: nat, node: nat, out: seq<bv8>, limit: nat)
    requires at < |s| && k < 8 && Rest(r, s, 8 * at + k, node, out, limit)
    ensures node < NODES && 0 < NODES
    ensures var e := DecodeTab(node);
            if e.node2 == 0 then
              node != 0 && e.node1 < 256 &&
              (if |out| + 1 >= limit then r == Decoded(out + [Octet(e.node1)])
               else Rest(r, s, 8 * at + k, 0, out + [Octet(e.node1)], limit))
            else
              var next := if s[at] & Mask8(k) != 0 then e.node2 else e.node1;
              next < NODES && (next == 0 ==> node != 0) &&
              Rest(r, s, if next == 0 then 8 * at + k else 8 * at + k + 1, next, out, limit)
  {
    hide DecodeTab, Mask8, Octet;
    TableIsClosed(node);
    RootEntry();
    assert (8 * at + k) / 8 == at && (8 * at + k) % 8 == k;
  }

  method Emit(dest: array<bv8>, at: nat, c: bv8, ghost limit: nat, ghost before: seq<bv8>)
    requires at < dest.Length && at < limit
    requires Untouched(before, dest[..], limit)
    modifies dest
    ensures dest[..at + 1] == old(dest[..at]) + [c]
    ensures Untouched(before, dest[..], limit)
  {
    dest[at] := c;
  }

  lemma MinIs(a: nat, b: nat)
    ensures Min(a, b) <= a && Min(a, b) <= b && (Min(a, b) == a || Min(a, b) == b)
  {
  }

  lemma MaskStep(k: nat)
    ensures k < 8 ==> Mask8(k) > 0 && Mask8(k + 1) == Mask8(k) >> 1 && (Mask8(k + 1) > 0 <==> k < 7)
    ensures Mask8(0) == 0x80
  {
  }

  lemma DecodeIs(buf: seq<bv8>, peek: bv8, destsize: nat)
    requires buf != [] && destsize >= 1
    ensures var r := Decode(buf, peek, destsize);
            if |buf| == 1 then r.Stuck?
            else if buf[0] == 255 then
              r == Decoded(buf[1..][..if |buf| - 1 > destsize then destsize else |buf| - 1])
            else
              && 1 <= Min(Announced(buf[0]), destsize) <= 255
              && r == Unpack(buf[1..] + [peek], 0, 0, [], Min(Announced(buf[0]), destsize))
  {
    hide Unpack;
    if buf[0] != 255 { MarkerBelow(buf[0]); }
  }

  lemma MarkerBelow(c: bv8)
    requires c != 255
    ensures c as nat < 255
  {
    assert c == (c as nat) as bv8;
  }

  lemma StartOfRest(s: seq<bv8>, limit: nat) returns (r: Outcome)
    requires limit > 0
    ensures r == Unpack(s, 0, 0, [], limit) && Rest(r, s, 0, 0, [], limit)
  {
    hide Unpack;
    r := Unpack(s, 0, 0, [], limit);
  }

  lemma RestIsStuck(r: Outcome, s: seq<bv8>, at: nat, node: nat, out: seq<bv8>, limit: nat)
    requires at >= |s| && Rest(r, s, 8 * at, node, out, limit)
    ensures r == Stuck
  {
    hide DecodeTab;
  }

  // ----- the round trip

  /** The bits are the leading bits of s, and at least one more bit of s is in sight. */
  predicate Carries(s: seq<bv8>, bits: seq<bool>) {
    |bits| < 8 * |s| && forall p | 0 <= p < |bits| :: BitAt(s, p) == bits[p]
  }

  /** Whatever octet follows the encoded form, decoding gives the message back, cut to the
      size of the destination. */
  lemma RoundTrip(src: seq<bv8>, out: seq<bv8>, peek: bv8, destsize: nat)
    requires 1 <= |src| <= 255 && destsize >= 1
    requires Encoded(src, out)
    ensures Decode(out, peek, destsize) == Decoded(src[..Min(|src|, destsize)])
  {
    hide Unpack, MessageBits, BitAt, Carries;
    if |MessageBits(src)| < 8 * |src| {
      MessageIsNotEmpty(src);
      MarkerAbove(out[0]);
      CarriesBehind(out[1..], peek, MessageBits(src));
      UnpackSymbols(src, out[1..] + [peek], 0, Min(|src|, destsize));
      EmptyMessage(src);
    } else {
      assert out[1..] == src;
    }
  }

  lemma MarkerAbove(c: bv8)
    requires c as nat < 255
    ensures c != 255
  {
  }

  lemma EmptyMessage(src: seq<bv8>)
    ensures src[..0] == [] && MessageBits(src[..0]) == []
  {
  }

  lemma MessageIsNotEmpty(src: seq<bv8>)
    requires src != []
    ensures MessageBits(src) != []
  {
  }

  lemma CarriesBehind(s: seq<bv8>, peek: bv8, bits: seq<bool>)
    requires Holds(s, bits)
    ensures Carries(s + [peek], bits)
  {
    hide BitOf;
    forall p | 0 <= p < |bits| ensures BitAt(s + [peek], p) == bits[p] {
      assert BitAt(s + [peek], p) == BitAt(s, p);
    }
  }

  lemma {:induction false} UnpackSymbols(src: seq<bv8>, s: seq<bv8>, i: nat, limit: nat)
    requires i < limit <= |src|
    requires Carries(s, MessageBits(src))
    ensures Unpack(s, |MessageBits(src[..i])|, 0, src[..i], limit) == Decoded(src[..limit])
    decreases limit - i
  {
    hide Unpack, MessageBits, BitAt, SymbolBits, CodeBits, EncodeTab, Leads;
    var p, e := |MessageBits(src[..i])|, EncodeTab(src[i] as nat);
    SymbolIs(src[i]);
    TablesAgree(src[i] as nat);
    MessageStep(src, i);
    PrefixBits(src, i + 1);
    forall j | 0 <= j < e.len ensures BitAt(s, p + j) == CodeBits(e.code, e.len)[j] {
      assert MessageBits(src[..i + 1])[p + j] == MessageBits(src)[p + j];
    }
    FollowCode(s, p, 0, e.code, e.len, src[i], src[..i], limit);
    assert src[..i] + [src[i]] == src[..i + 1];
    if i + 1 < limit {
      UnpackSymbols(src, s, i + 1, limit);
    }
  }

  /** Reading a code from a node above its leaf emits the octet of that leaf. */
  lemma {:induction false} FollowCode(s: seq<bv8>, p: nat, node: nat, code: bv16, k: nat, b: bv8, out: seq<bv8>, limit: nat)
    requires node < NODES && |out| < limit
    requires Leads(node, code, k, b as nat)
    requires p + k < 8 * |s|
    requires forall j {:trigger CodeBits(code, k)[j]} | 0 <= j < k :: BitAt(s, p + j) == CodeBits(code, k)[j]
    ensures Unpack(s, p, node, out, limit) ==
            if |out| + 1 >= limit then Decoded(out + [b]) else Unpack(s, p + k, 0, out + [b], limit)
    decreases k
  {
    hide DecodeTab, BitAt, CodeBits;
    if k == 0 {
      assert Octet(b as nat) == b;
    } else {
      RestOfCode(s, p, code, k);
      var next := if code & 0x8000 != 0 then DecodeTab(node).node2 else DecodeTab(node).node1;
      FollowCode(s, p + 1, next, code << 1, k - 1, b, out, limit);
    }
  }

  lemma RestOfCode(s: seq<bv8>, p: nat, code: bv16, k: nat)
    requires k > 0 && p + k < 8 * |s|
    requires forall j {:trigger CodeBits(code, k)[j]} | 0 <= j < k :: BitAt(s, p + j) == CodeBits(code, k)[j]
    ensures BitAt(s, p) == (code & 0x8000 != 0)
    ensures forall j {:trigger CodeBits(code << 1, k - 1)[j]} | 0 <= j < k - 1 ::
              BitAt(s, p + 1 + j) == CodeBits(code << 1, k - 1)[j]
  {
    hide BitAt;
    assert CodeBits(code, k)[0] == (code & 0x8000 != 0);
    assert BitAt(s, p + 0) == CodeBits(code, k)[0];
    forall j {:trigger CodeBits(code << 1, k - 1)[j]} | 0 <= j < k - 1
      ensures BitAt(s, p + 1 + j) == CodeBits(code << 1, k - 1)[j]
    {
      assert BitAt(s, p + (j + 1)) == CodeBits(code, k)[j + 1];
    }
  }
}
