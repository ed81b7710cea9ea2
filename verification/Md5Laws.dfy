/**
 The parts of MD5 that its code and its reference definition have in common, against the words of
 RFC 1321: the four functions bit by bit, the rotation, the start registers and the padding.
 */
module Md5Laws {
  import opened Md5
  import opened Md5Stream

  // A mask picks out some bits; where a word has only ones, or only zeros, behind the mask, the
  // laws below say what the function has there. A single bit is the mask of that bit.

  predicate Ones(w: bv32, mask: bv32) { w & mask == mask }

  predicate Zeros(w: bv32, mask: bv32) { w & mask == 0 }

  /** Behind the mask the two words have the same bits. */
  predicate Same(v: bv32, w: bv32, mask: bv32) { v & mask == w & mask }

  /** If x then y else z. */
  lemma FSelects(x: bv32, y: bv32, z: bv32, mask: bv32)
    ensures Ones(x, mask) ==> Same(F(x, y, z), y, mask)
    ensures Zeros(x, mask) ==> Same(F(x, y, z), z, mask)
  {
  }

  /** If z then x else y. */
  lemma GSelects(x: bv32, y: bv32, z: bv32, mask: bv32)
    ensures Ones(z, mask) ==> Same(G(x, y, z), x, mask)
    ensures Zeros(z, mask) ==> Same(G(x, y, z), y, mask)
  {
  }

  /** Whether an odd number of the three is one: two equal bits drop out, and two different ones
      turn the third. */
  lemma HIsParity(x: bv32, y: bv32, z: bv32, mask: bv32)
    ensures Same(x, y, mask) ==> Same(H(x, y, z), z, mask)
    ensures Same(x, !y, mask) ==> Same(H(x, y, z), !z, mask)
  {
  }

  /** The table of the last one: y as it is where x is zero and z is one, and turned elsewhere. */
  lemma ITable(x: bv32, y: bv32, z: bv32, mask: bv32)
    ensures Zeros(x, mask) && Ones(z, mask) ==> Same(I(x, y, z), y, mask)
    ensures Ones(x, mask) || Zeros(z, mask) ==> Same(I(x, y, z), !y, mask)
  {
  }

  /** The registers start with the bytes 01 to 10, low-order byte first. */
  lemma StartBytes()
    ensures RegBytes(Init()) == [0x01, 0x23, 0x45, 0x67, 0x89, 0xab, 0xcd, 0xef,
                                 0xfe, 0xdc, 0xba, 0x98, 0x76, 0x54, 0x32, 0x10]
  {
  }

  // ----- padding

  /** The padded message is a whole number of blocks: the message, one byte of 0x80, fewer than 64
      bytes of zero, and the length in bits modulo 2^64 as two words, low-order word first. */
  lemma PaddedIs(msg: seq<bv8>)
    ensures var p := Padded(msg);
            var zeros := |p| - |msg| - 9;
            && |p| % 64 == 0 && 0 <= zeros < 64
            && p[..|msg|] == msg && p[|msg|] == 0x80
            && (forall i | |msg| < i < |p| - 8 :: p[i] == 0)
            && p[|p| - 8..] == WordBytes(ToWord(LowWord(|msg|))) + WordBytes(ToWord(HighWord(|msg|)))
            && LowWord(|msg|) + 0x1_0000_0000 * HighWord(|msg|) == 8 * |msg| % 0x1_0000_0000_0000_0000
  {
    hide LengthField, ToWord, WordBytes, LowWord, HighWord;
    var k := PadLength(|msg|);
    PadLengthIsLeast(|msg|);
    LengthIs(|msg|);
    Ends(|msg| + k);
    assert Padded(msg)[|msg| + k..] == LengthField(|msg|);
    LengthBytes(|msg|);
  }

  lemma Ends(n: nat)
    requires n % 64 == 56
    ensures (n + 8) % 64 == 0
  {
  }

  lemma LengthBytes(n: nat)
    ensures LengthField(n) == WordBytes(ToWord(LowWord(n))) + WordBytes(ToWord(HighWord(n)))
  {
    hide ToWord, WordBytes, LowWord, HighWord;
  }

  lemma LengthIs(n: nat)
    ensures LowWord(n) + 0x1_0000_0000 * HighWord(n) == 8 * n % 0x1_0000_0000_0000_0000
  {
    var t := 8 * n;
    var q, r := t / W, t % W;
    var h, l := q / W, q % W;
    assert t == W * q + r && q == W * h + l;
    assert t == h * 0x1_0000_0000_0000_0000 + (W * l + r);
    RemainderIs(t, h, W * l + r);
  }

  lemma RemainderIs(n: nat, q: nat, r: nat)
    requires n == q * 0x1_0000_0000_0000_0000 + r && r < 0x1_0000_0000_0000_0000
    ensures n % 0x1_0000_0000_0000_0000 == r
  {
  }
}
