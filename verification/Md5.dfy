/**
 The MD5 compression function: the reference definition of RFC 1321, section 3.4, as sixteen
 operations to a round, and the unrolled Transform proved equal to it.
 */
module Md5 {

  datatype Regs = Regs(a: bv32, b: bv32, c: bv32, d: bv32)

  function F(x: bv32, y: bv32, z: bv32): bv32 { (x & y) | (!x & z) }
  function G(x: bv32, y: bv32, z: bv32): bv32 { (x & z) | (y & !z) }
  function H(x: bv32, y: bv32, z: bv32): bv32 { x ^ y ^ z }
  function I(x: bv32, y: bv32, z: bv32): bv32 { y ^ (x | !z) }

  function RotateLeft(x: bv32, n: nat): bv32
    requires n <= 32
  {
    (x << n) | (x >> (32 - n))
  }

  // ----- the reference: operation i of 64

  function Aux(round: nat, x: bv32, y: bv32, z: bv32): bv32 {
    match round
    case 0 => F(x, y, z)
    case 1 => G(x, y, z)
    case 2 => H(x, y, z)
    case _ => I(x, y, z)
  }

  /** Which word of the block operation i takes. */
  function Index(i: nat): (k: nat)
    ensures k < 16
  {
    match i / 16
    case 0 => i % 16
    case 1 => (5 * i + 1) % 16
    case 2 => (3 * i + 5) % 16
    case _ => 7 * i % 16
  }

  function Pick4(n: nat, s0: nat, s1: nat, s2: nat, s3: nat): nat {
    match n % 4
    case 0 => s0
    case 1 => s1
    case 2 => s2
    case _ => s3
  }

  function Shift(i: nat): (s: nat)
    ensures s <= 32
  {
    match i / 16
    case 0 => Pick4(i, 7, 12, 17, 22)
    case 1 => Pick4(i, 5, 9, 14, 20)
    case 2 => Pick4(i, 4, 11, 16, 23)
    case _ => Pick4(i, 6, 10, 15, 21)
  }

  /** Element i + 1 of the table T of RFC 1321: the integer part of 4294967296 times the absolute
      value of the sine of i + 1. */
  function T(i: nat): bv32 {
    match i / 16
    case 0 => T1(i % 16)
    case 1 => T2(i % 16)
    case 2 => T3(i % 16)
    case _ => T4(i % 16)
  }

  function T1(i: nat): bv32 {
    match i
    case 0 => 0xd76aa478
    case 1 => 0xe8c7b756
    case 2 => 0x242070db
    case 3 => 0xc1bdceee
    case 4 => 0xf57c0faf
    case 5 => 0x4787c62a
    case 6 => 0xa8304613
    case 7 => 0xfd469501
    case 8 => 0x698098d8
    case 9 => 0x8b44f7af
    case 10 => 0xffff5bb1
    case 11 => 0x895cd7be
    case 12 => 0x6b901122
    case 13 => 0xfd987193
    case 14 => 0xa679438e
    case 15 => 0x49b40821
    case _ => 0
  }

  function T2(i: nat): bv32 {
    match i
    case 0 => 0xf61e2562
    case 1 => 0xc040b340
    case 2 => 0x265e5a51
    case 3 => 0xe9b6c7aa
    case 4 => 0xd62f105d
    case 5 => 0x02441453
    case 6 => 0xd8a1e681
    case 7 => 0xe7d3fbc8
    case 8 => 0x21e1cde6
    case 9 => 0xc33707d6
    case 10 => 0xf4d50d87
    case 11 => 0x455a14ed
    case 12 => 0xa9e3e905
    case 13 => 0xfcefa3f8
    case 14 => 0x676f02d9
    case 15 => 0x8d2a4c8a
    case _ => 0
  }

  function T3(i: nat): bv32 {
    match i
    case 0 => 0xfffa3942
    case 1 => 0x8771f681
    case 2 => 0x6d9d6122
    case 3 => 0xfde5380c
    case 4 => 0xa4beea44
    case 5 => 0x4bdecfa9
    case 6 => 0xf6bb4b60
    case 7 => 0xbebfbc70
    case 8 => 0x289b7ec6
    case 9 => 0xeaa127fa
    case 10 => 0xd4ef3085
    case 11 => 0x04881d05
    case 12 => 0xd9d4d039
    case 13 => 0xe6db99e5
    case 14 => 0x1fa27cf8
    case 15 => 0xc4ac5665
    case _ => 0
  }

  function T4(i: nat): bv32 {
    match i
    case 0 => 0xf4292244
    case 1 => 0x432aff97
    case 2 => 0xab9423a7
    case 3 => 0xfc93a039
    case 4 => 0x655b59c3
    case 5 => 0x8f0ccc92
    case 6 => 0xffeff47d
    case 7 => 0x85845dd1
    case 8 => 0x6fa87e4f
    case 9 => 0xfe2ce6e0
    case 10 => 0xa3014314
    case 11 => 0x4e0811a1
    case 12 => 0xf7537e82
    case 13 => 0xbd3af235
    case 14 => 0x2ad7d2bb
    case 15 => 0xeb86d391
    case _ => 0
  }


  function Mix(a: bv32, f: bv32, x: bv32, s: nat, ac: bv32, b: bv32): bv32
    requires s <= 32
  {
    RotateLeft(a + (f + x + ac), s) + b
  }

  /** [abcd k s i]: a = b + ((a + f(b,c,d) + X[k] + T[i]) <<< s). */
  function Op(i: nat, r: Regs, x: seq<bv32>): bv32
    requires |x| == 16
  {
    Mix(r.a, Aux(i / 16, r.b, r.c, r.d), x[Index(i)], Shift(i), T(i), r.b)
  }

  /** After an operation the registers change places. */
  function Turn(i: nat, r: Regs, x: seq<bv32>): Regs
    requires |x| == 16
  {
    Regs(r.d, Op(i, r, x), r.b, r.c)
  }

  function Turns(n: nat, r: Regs, x: seq<bv32>): Regs
    requires |x| == 16
  {
    if n == 0 then r else Turn(n - 1, Turns(n - 1, r, x), x)
  }

  function Plus(x: bv32, y: bv32): bv32 { x + y }

  function Compress(r: Regs, x: seq<bv32>): Regs
    requires |x| == 16
  {
    var s := Turns(64, r, x);
    Regs(Plus(r.a, s.a), Plus(r.b, s.b), Plus(r.c, s.c), Plus(r.d, s.d))
  }

  // ----- the unrolled code

  function FF(a: bv32, b: bv32, c: bv32, d: bv32, x: bv32, s: nat, ac: bv32): bv32
    requires s <= 32
  {
    Mix(a, F(b, c, d), x, s, ac, b)
  }

  function GG(a: bv32, b: bv32, c: bv32, d: bv32, x: bv32, s: nat, ac: bv32): bv32
    requires s <= 32
  {
    Mix(a, G(b, c, d), x, s, ac, b)
  }

  function HH(a: bv32, b: bv32, c: bv32, d: bv32, x: bv32, s: nat, ac: bv32): bv32
    requires s <= 32
  {
    Mix(a, H(b, c, d), x, s, ac, b)
  }

  function II(a: bv32, b: bv32, c: bv32, d: bv32, x: bv32, s: nat, ac: bv32): bv32
    requires s <= 32
  {
    Mix(a, I(b, c, d), x, s, ac, b)
  }

  lemma Op1(i: nat, r: Regs, x: seq<bv32>)
    requires |x| == 16 && 0 <= i < 16
    ensures Op(i, r, x) == FF(r.a, r.b, r.c, r.d, x[Index(i)], Shift(i), T(i))
  {
    hide Index, Shift, T, F, G, H, I, Mix;
    assert i / 16 == 0;
  }

  /** Four operations of round 1, for a whole turn of the registers. */
  lemma Four1(i: nat, r: Regs, x: seq<bv32>)
    requires |x| == 16 && 0 <= i <= 12
    ensures var a := FF(r.a, r.b, r.c, r.d, x[Index(i)], Shift(i), T(i));
            var d := FF(r.d, a, r.b, r.c, x[Index(i + 1)], Shift(i + 1), T(i + 1));
            var c := FF(r.c, d, a, r.b, x[Index(i + 2)], Shift(i + 2), T(i + 2));
            var b := FF(r.b, c, d, a, x[Index(i + 3)], Shift(i + 3), T(i + 3));
            Turn(i + 3, Turn(i + 2, Turn(i + 1, Turn(i, r, x), x), x), x) == Regs(a, b, c, d)
  {
    hide Index, Shift, T, Op, FF;
    var r1 := Turn(i, r, x);
    var r2 := Turn(i + 1, r1, x);
    var r3 := Turn(i + 2, r2, x);
    Op1(i, r, x);
    Op1(i + 1, r1, x);
    Op1(i + 2, r2, x);
    Op1(i + 3, r3, x);
  }

  /** The words, shifts and constants of round 1. */
  lemma Row1()
    ensures Index(0) == 0 && Shift(0) == 7 && T(0) == 3614090360
    ensures Index(1) == 1 && Shift(1) == 12 && T(1) == 3905402710
    ensures Index(2) == 2 && Shift(2) == 17 && T(2) == 606105819
    ensures Index(3) == 3 && Shift(3) == 22 && T(3) == 3250441966
    ensures Index(4) == 4 && Shift(4) == 7 && T(4) == 4118548399
    ensures Index(5) == 5 && Shift(5) == 12 && T(5) == 1200080426
    ensures Index(6) == 6 && Shift(6) == 17 && T(6) == 2821735955
    ensures Index(7) == 7 && Shift(7) == 22 && T(7) == 4249261313
    ensures Index(8) == 8 && Shift(8) == 7 && T(8) == 1770035416
    ensures Index(9) == 9 && Shift(9) == 12 && T(9) == 2336552879
    ensures Index(10) == 10 && Shift(10) == 17 && T(10) == 4294925233
    ensures Index(11) == 11 && Shift(11) == 22 && T(11) == 2304563134
    ensures Index(12) == 12 && Shift(12) == 7 && T(12) == 1804603682
    ensures Index(13) == 13 && Shift(13) == 12 && T(13) == 4254626195
    ensures Index(14) == 14 && Shift(14) == 17 && T(14) == 2792965006
    ensures Index(15) == 15 && Shift(15) == 22 && T(15) == 1236535329
  {
    hide T;
    Constants1();
  }

  lemma Constants1()
    ensures T(0) == 3614090360
    ensures T(1) == 3905402710
    ensures T(2) == 606105819
    ensures T(3) == 3250441966
    ensures T(4) == 4118548399
    ensures T(5) == 1200080426
    ensures T(6) == 2821735955
    ensures T(7) == 4249261313
    ensures T(8) == 1770035416
    ensures T(9) == 2336552879
    ensures T(10) == 4294925233
    ensures T(11) == 2304563134
    ensures T(12) == 1804603682
    ensures T(13) == 4254626195
    ensures T(14) == 2792965006
    ensures T(15) == 1236535329
  {
    assert
      && T(0) == T1(0) && T(1) == T1(1) && T(2) == T1(2) && T(3) == T1(3)
      && T(4) == T1(4) && T(5) == T1(5) && T(6) == T1(6) && T(7) == T1(7)
      && T(8) == T1(8) && T(9) == T1(9) && T(10) == T1(10) && T(11) == T1(11)
      && T(12) == T1(12) && T(13) == T1(13) && T(14) == T1(14) && T(15) == T1(15)
      by { hide T1; }
  }

  lemma Op2(i: nat, r: Regs, x: seq<bv32>)
    requires |x| == 16 && 16 <= i < 32
    ensures Op(i, r, x) == GG(r.a, r.b, r.c, r.d, x[Index(i)], Shift(i), T(i))
  {
    hide Index, Shift, T, F, G, H, I, Mix;
    assert i / 16 == 1;
  }

  /** Four operations of round 2, for a whole turn of the registers. */
  lemma Four2(i: nat, r: Regs, x: seq<bv32>)
    requires |x| == 16 && 16 <= i <= 28
    ensures var a := GG(r.a, r.b, r.c, r.d, x[Index(i)], Shift(i), T(i));
            var d := GG(r.d, a, r.b, r.c, x[Index(i + 1)], Shift(i + 1), T(i + 1));
            var c := GG(r.c, d, a, r.b, x[Index(i + 2)], Shift(i + 2), T(i + 2));
            var b := GG(r.b, c, d, a, x[Index(i + 3)], Shift(i + 3), T(i + 3));
            Turn(i + 3, Turn(i + 2, Turn(i + 1, Turn(i, r, x), x), x), x) == Regs(a, b, c, d)
  {
    hide Index, Shift, T, Op, GG;
    var r1 := Turn(i, r, x);
    var r2 := Turn(i + 1, r1, x);
    var r3 := Turn(i + 2, r2, x);
    Op2(i, r, x);
    Op2(i + 1, r1, x);
    Op2(i + 2, r2, x);
    Op2(i + 3, r3, x);
  }

  /** The words, shifts and constants of round 2. */
  lemma Row2()
    ensures Index(16) == 1 && Shift(16) == 5 && T(16) == 4129170786
    ensures Index(17) == 6 && Shift(17) == 9 && T(17) == 3225465664
    ensures Index(18) == 11 && Shift(18) == 14 && T(18) == 643717713
    ensures Index(19) == 0 && Shift(19) == 20 && T(19) == 3921069994
    ensures Index(20) == 5 && Shift(20) == 5 && T(20) == 3593408605
    ensures Index(21) == 10 && Shift(21) == 9 && T(21) == 38016083
    ensures Index(22) == 15 && Shift(22) == 14 && T(22) == 3634488961
    ensures Index(23) == 4 && Shift(23) == 20 && T(23) == 3889429448
    ensures Index(24) == 9 && Shift(24) == 5 && T(24) == 568446438
    ensures Index(25) == 14 && Shift(25) == 9 && T(25) == 3275163606
    ensures Index(26) == 3 && Shift(26) == 14 && T(26) == 4107603335
    ensures Index(27) == 8 && Shift(27) == 20 && T(27) == 1163531501
    ensures Index(28) == 13 && Shift(28) == 5 && T(28) == 2850285829
    ensures Index(29) == 2 && Shift(29) == 9 && T(29) == 4243563512
    ensures Index(30) == 7 && Shift(30) == 14 && T(30) == 1735328473
    ensures Index(31) == 12 && Shift(31) == 20 && T(31) == 2368359562
  {
    hide T;
    Constants2();
  }

  lemma Constants2()
    ensures T(16) == 4129170786
    ensures T(17) == 3225465664
    ensures T(18) == 643717713
    ensures T(19) == 3921069994
    ensures T(20) == 3593408605
    ensures T(21) == 38016083
    ensures T(22) == 3634488961
    ensures T(23) == 3889429448
    ensures T(24) == 568446438
    ensures T(25) == 3275163606
    ensures T(26) == 4107603335
    ensures T(27) == 1163531501
    ensures T(28) == 2850285829
    ensures T(29) == 4243563512
    ensures T(30) == 1735328473
    ensures T(31) == 2368359562
  {
    assert
      && T(16) == T2(0) && T(17) == T2(1) && T(18) == T2(2) && T(19) == T2(3)
      && T(20) == T2(4) && T(21) == T2(5) && T(22) == T2(6) && T(23) == T2(7)
      && T(24) == T2(8) && T(25) == T2(9) && T(26) == T2(10) && T(27) == T2(11)
      && T(28) == T2(12) && T(29) == T2(13) && T(30) == T2(14) && T(31) == T2(15)
      by { hide T2; }
  }

  lemma Op3(i: nat, r: Regs, x: seq<bv32>)
    requires |x| == 16 && 32 <= i < 48
    ensures Op(i, r, x) == HH(r.a, r.b, r.c, r.d, x[Index(i)], Shift(i), T(i))
  {
    hide Index, Shift, T, F, G, H, I, Mix;
    assert i / 16 == 2;
  }

  /** Four operations of round 3, for a whole turn of the registers. */
  lemma Four3(i: nat, r: Regs, x: seq<bv32>)
    requires |x| == 16 && 32 <= i <= 44
    ensures var a := HH(r.a, r.b, r.c, r.d, x[Index(i)], Shift(i), T(i));
            var d := HH(r.d, a, r.b, r.c, x[Index(i + 1)], Shift(i + 1), T(i + 1));
            var c := HH(r.c, d, a, r.b, x[Index(i + 2)], Shift(i + 2), T(i + 2));
            var b := HH(r.b, c, d, a, x[Index(i + 3)], Shift(i + 3), T(i + 3));
            Turn(i + 3, Turn(i + 2, Turn(i + 1, Turn(i, r, x), x), x), x) == Regs(a, b, c, d)
  {
    hide Index, Shift, T, Op, HH;
    var r1 := Turn(i, r, x);
    var r2 := Turn(i + 1, r1, x);
    var r3 := Turn(i + 2, r2, x);
    Op3(i, r, x);
    Op3(i + 1, r1, x);
    Op3(i + 2, r2, x);
    Op3(i + 3, r3, x);
  }

  /** The words, shifts and constants of round 3. */
  lemma Row3()
    ensures Index(32) == 5 && Shift(32) == 4 && T(32) == 4294588738
    ensures Index(33) == 8 && Shift(33) == 11 && T(33) == 2272392833
    ensures Index(34) == 11 && Shift(34) == 16 && T(34) == 1839030562
    ensures Index(35) == 14 && Shift(35) == 23 && T(35) == 4259657740
    ensures Index(36) == 1 && Shift(36) == 4 && T(36) == 2763975236
    ensures Index(37) == 4 && Shift(37) == 11 && T(37) == 1272893353
    ensures Index(38) == 7 && Shift(38) == 16 && T(38) == 4139469664
    ensures Index(39) == 10 && Shift(39) == 23 && T(39) == 3200236656
    ensures Index(40) == 13 && Shift(40) == 4 && T(40) == 681279174
    ensures Index(41) == 0 && Shift(41) == 11 && T(41) == 3936430074
    ensures Index(42) == 3 && Shift(42) == 16 && T(42) == 3572445317
    ensures Index(43) == 6 && Shift(43) == 23 && T(43) == 76029189
    ensures Index(44) == 9 && Shift(44) == 4 && T(44) == 3654602809
    ensures Index(45) == 12 && Shift(45) == 11 && T(45) == 3873151461
    ensures Index(46) == 15 && Shift(46) == 16 && T(46) == 530742520
    ensures Index(47) == 2 && Shift(47) == 23 && T(47) == 3299628645
  {
    hide T;
    Constants3();
  }

  lemma Constants3()
    ensures T(32) == 4294588738
    ensures T(33) == 2272392833
    ensures T(34) == 1839030562
    ensures T(35) == 4259657740
    ensures T(36) == 2763975236
    ensures T(37) == 1272893353
    ensures T(38) == 4139469664
    ensures T(39) == 3200236656
    ensures T(40) == 681279174
    ensures T(41) == 3936430074
    ensures T(42) == 3572445317
    ensures T(43) == 76029189
    ensures T(44) == 3654602809
    ensures T(45) == 3873151461
    ensures T(46) == 530742520
    ensures T(47) == 3299628645
  {
    assert
      && T(32) == T3(0) && T(33) == T3(1) && T(34) == T3(2) && T(35) == T3(3)
      && T(36) == T3(4) && T(37) == T3(5) && T(38) == T3(6) && T(39) == T3(7)
      && T(40) == T3(8) && T(41) == T3(9) && T(42) == T3(10) && T(43) == T3(11)
      && T(44) == T3(12) && T(45) == T3(13) && T(46) == T3(14) && T(47) == T3(15)
      by { hide T3; }
  }

  lemma Op4(i: nat, r: Regs, x: seq<bv32>)
    requires |x| == 16 && 48 <= i < 64
    ensures Op(i, r, x) == II(r.a, r.b, r.c, r.d, x[Index(i)], Shift(i), T(i))
  {
    hide Index, Shift, T, F, G, H, I, Mix;
    assert i / 16 == 3;
  }

  /** Four operations of round 4, for a whole turn of the registers. */
  lemma Four4(i: nat, r: Regs, x: seq<bv32>)
    requires |x| == 16 && 48 <= i <= 60
    ensures var a := II(r.a, r.b, r.c, r.d, x[Index(i)], Shift(i), T(i));
            var d := II(r.d, a, r.b, r.c, x[Index(i + 1)], Shift(i + 1), T(i + 1));
            var c := II(r.c, d, a, r.b, x[Index(i + 2)], Shift(i + 2), T(i + 2));
            var b := II(r.b, c, d, a, x[Index(i + 3)], Shift(i + 3), T(i + 3));
            Turn(i + 3, Turn(i + 2, Turn(i + 1, Turn(i, r, x), x), x), x) == Regs(a, b, c, d)
  {
    hide Index, Shift, T, Op, II;
    var r1 := Turn(i, r, x);
    var r2 := Turn(i + 1, r1, x);
    var r3 := Turn(i + 2, r2, x);
    Op4(i, r, x);
    Op4(i + 1, r1, x);
    Op4(i + 2, r2, x);
    Op4(i + 3, r3, x);
  }

  /** The words, shifts and constants of round 4. */
  lemma Row4()
    ensures Index(48) == 0 && Shift(48) == 6 && T(48) == 4096336452
    ensures Index(49) == 7 && Shift(49) == 10 && T(49) == 1126891415
    ensures Index(50) == 14 && Shift(50) == 15 && T(50) == 2878612391
    ensures Index(51) == 5 && Shift(51) == 21 && T(51) == 4237533241
    ensures Index(52) == 12 && Shift(52) == 6 && T(52) == 1700485571
    ensures Index(53) == 3 && Shift(53) == 10 && T(53) == 2399980690
    ensures Index(54) == 10 && Shift(54) == 15 && T(54) == 4293915773
    ensures Index(55) == 1 && Shift(55) == 21 && T(55) == 2240044497
    ensures Index(56) == 8 && Shift(56) == 6 && T(56) == 1873313359
    ensures Index(57) == 15 && Shift(57) == 10 && T(57) == 4264355552
    ensures Index(58) == 6 && Shift(58) == 15 && T(58) == 2734768916
    ensures Index(59) == 13 && Shift(59) == 21 && T(59) == 1309151649
    ensures Index(60) == 4 && Shift(60) == 6 && T(60) == 4149444226
    ensures Index(61) == 11 && Shift(61) == 10 && T(61) == 3174756917
    ensures Index(62) == 2 && Shift(62) == 15 && T(62) == 718787259
    ensures Index(63) == 9 && Shift(63) == 21 && T(63) == 3951481745
  {
    hide T;
    Constants4();
  }

  lemma Constants4()
    ensures T(48) == 4096336452
    ensures T(49) == 1126891415
    ensures T(50) == 2878612391
    ensures T(51) == 4237533241
    ensures T(52) == 1700485571
    ensures T(53) == 2399980690
    ensures T(54) == 4293915773
    ensures T(55) == 2240044497
    ensures T(56) == 1873313359
    ensures T(57) == 4264355552
    ensures T(58) == 2734768916
    ensures T(59) == 1309151649
    ensures T(60) == 4149444226
    ensures T(61) == 3174756917
    ensures T(62) == 718787259
    ensures T(63) == 3951481745
  {
    assert
      && T(48) == T4(0) && T(49) == T4(1) && T(50) == T4(2) && T(51) == T4(3)
      && T(52) == T4(4) && T(53) == T4(5) && T(54) == T4(6) && T(55) == T4(7)
      && T(56) == T4(8) && T(57) == T4(9) && T(58) == T4(10) && T(59) == T4(11)
      && T(60) == T4(12) && T(61) == T4(13) && T(62) == T4(14) && T(63) == T4(15)
      by { hide T4; }
  }

  lemma FourTurns(n: nat, r: Regs, x: seq<bv32>)
    requires |x| == 16
    ensures Turns(n + 4, r, x) == Turn(n + 3, Turn(n + 2, Turn(n + 1, Turn(n, Turns(n, r, x), x), x), x), x)
  {
    hide Turn;
    assert Turns(n + 2, r, x) == Turn(n + 1, Turns(n + 1, r, x), x);
    assert Turns(n + 4, r, x) == Turn(n + 3, Turns(n + 3, r, x), x);
  }

  /** The first half of round 1. */
  method Round1Front(ghost was: Regs, x: array<bv32>, a0: bv32, b0: bv32, c0: bv32, d0: bv32)
    returns (a: bv32, b: bv32, c: bv32, d: bv32)
    requires x.Length == 16 && Regs(a0, b0, c0, d0) == Turns(0, was, x[..])
    ensures Regs(a, b, c, d) == Turns(8, was, x[..])
  {
    hide Turns, Turn, Index, Shift, T, FF;
    Row1();
    a, b, c, d := a0, b0, c0, d0;
    FourTurns(0, was, x[..]);
    Four1(0, Regs(a, b, c, d), x[..]);
    a := FF(a, b, c, d, x[0], 7, 3614090360);
    d := FF(d, a, b, c, x[1], 12, 3905402710);
    c := FF(c, d, a, b, x[2], 17, 606105819);
    b := FF(b, c, d, a, x[3], 22, 3250441966);
    FourTurns(4, was, x[..]);
    Four1(4, Regs(a, b, c, d), x[..]);
    a := FF(a, b, c, d, x[4], 7, 4118548399);
    d := FF(d, a, b, c, x[5], 12, 1200080426);
    c := FF(c, d, a, b, x[6], 17, 2821735955);
    b := FF(b, c, d, a, x[7], 22, 4249261313);
  }

  /** The second half of round 1. */
  method Round1Back(ghost was: Regs, x: array<bv32>, a0: bv32, b0: bv32, c0: bv32, d0: bv32)
    returns (a: bv32, b: bv32, c: bv32, d: bv32)
    requires x.Length == 16 && Regs(a0, b0, c0, d0) == Turns(8, was, x[..])
    ensures Regs(a, b, c, d) == Turns(16, was, x[..])
  {
    hide Turns, Turn, Index, Shift, T, FF;
    Row1();
    a, b, c, d := a0, b0, c0, d0;
    FourTurns(8, was, x[..]);
    Four1(8, Regs(a, b, c, d), x[..]);
    a := FF(a, b, c, d, x[8], 7, 1770035416);
    d := FF(d, a, b, c, x[9], 12, 2336552879);
    c := FF(c, d, a, b, x[10], 17, 4294925233);
    b := FF(b, c, d, a, x[11], 22, 2304563134);
    FourTurns(12, was, x[..]);
    Four1(12, Regs(a, b, c, d), x[..]);
    a := FF(a, b, c, d, x[12], 7, 1804603682);
    d := FF(d, a, b, c, x[13], 12, 4254626195);
    c := FF(c, d, a, b, x[14], 17, 2792965006);
    b := FF(b, c, d, a, x[15], 22, 1236535329);
  }

  /** The first half of round 2. */
  method Round2Front(ghost was: Regs, x: array<bv32>, a0: bv32, b0: bv32, c0: bv32, d0: bv32)
    returns (a: bv32, b: bv32, c: bv32, d: bv32)
    requires x.Length == 16 && Regs(a0, b0, c0, d0) == Turns(16, was, x[..])
    ensures Regs(a, b, c, d) == Turns(24, was, x[..])
  {
    hide Turns, Turn, Index, Shift, T, GG;
    Row2();
    a, b, c, d := a0, b0, c0, d0;
    FourTurns(16, was, x[..]);
    Four2(16, Regs(a, b, c, d), x[..]);
    a := GG(a, b, c, d, x[1], 5, 4129170786);
    d := GG(d, a, b, c, x[6], 9, 3225465664);
    c := GG(c, d, a, b, x[11], 14, 643717713);
    b := GG(b, c, d, a, x[0], 20, 3921069994);
    FourTurns(20, was, x[..]);
    Four2(20, Regs(a, b, c, d), x[..]);
    a := GG(a, b, c, d, x[5], 5, 3593408605);
    d := GG(d, a, b, c, x[10], 9, 38016083);
    c := GG(c, d, a, b, x[15], 14, 3634488961);
    b := GG(b, c, d, a, x[4], 20, 3889429448);
  }

  /** The second half of round 2. */
  method Round2Back(ghost was: Regs, x: array<bv32>, a0: bv32, b0: bv32, c0: bv32, d0: bv32)
    returns (a: bv32, b: bv32, c: bv32, d: bv32)
    requires x.Length == 16 && Regs(a0, b0, c0, d0) == Turns(24, was, x[..])
    ensures Regs(a, b, c, d) == Turns(32, was, x[..])
  {
    hide Turns, Turn, Index, Shift, T, GG;
    Row2();
    a, b, c, d := a0, b0, c0, d0;
    FourTurns(24, was, x[..]);
    Four2(24, Regs(a, b, c, d), x[..]);
    a := GG(a, b, c, d, x[9], 5, 568446438);
    d := GG(d, a, b, c, x[14], 9, 3275163606);
    c := GG(c, d, a, b, x[3], 14, 4107603335);
    b := GG(b, c, d, a, x[8], 20, 1163531501);
    FourTurns(28, was, x[..]);
    Four2(28, Regs(a, b, c, d), x[..]);
    a := GG(a, b, c, d, x[13], 5, 2850285829);
    d := GG(d, a, b, c, x[2], 9, 4243563512);
    c := GG(c, d, a, b, x[7], 14, 1735328473);
    b := GG(b, c, d, a, x[12], 20, 2368359562);
  }

  /** The first half of round 3. */
  method Round3Front(ghost was: Regs, x: array<bv32>, a0: bv32, b0: bv32, c0: bv32, d0: bv32)
    returns (a: bv32, b: bv32, c: bv32, d: bv32)
    requires x.Length == 16 && Regs(a0, b0, c0, d0) == Turns(32, was, x[..])
    ensures Regs(a, b, c, d) == Turns(40, was, x[..])
  {
    hide Turns, Turn, Index, Shift, T, HH;
    Row3();
    a, b, c, d := a0, b0, c0, d0;
    FourTurns(32, was, x[..]);
    Four3(32, Regs(a, b, c, d), x[..]);
    a := HH(a, b, c, d, x[5], 4, 4294588738);
    d := HH(d, a, b, c, x[8], 11, 2272392833);
    c := HH(c, d, a, b, x[11], 16, 1839030562);
    b := HH(b, c, d, a, x[14], 23, 4259657740);
    FourTurns(36, was, x[..]);
    Four3(36, Regs(a, b, c, d), x[..]);
    a := HH(a, b, c, d, x[1], 4, 2763975236);
    d := HH(d, a, b, c, x[4], 11, 1272893353);
    c := HH(c, d, a, b, x[7], 16, 4139469664);
    b := HH(b, c, d, a, x[10], 23, 3200236656);
  }

  /** The second half of round 3. */
  method Round3Back(ghost was: Regs, x: array<bv32>, a0: bv32, b0: bv32, c0: bv32, d0: bv32)
    returns (a: bv32, b: bv32, c: bv32, d: bv32)
    requires x.Length == 16 && Regs(a0, b0, c0, d0) == Turns(40, was, x[..])
    ensures Regs(a, b, c, d) == Turns(48, was, x[..])
  {
    hide Turns, Turn, Index, Shift, T, HH;
    Row3();
    a, b, c, d := a0, b0, c0, d0;
    FourTurns(40, was, x[..]);
    Four3(40, Regs(a, b, c, d), x[..]);
    a := HH(a, b, c, d, x[13], 4, 681279174);
    d := HH(d, a, b, c, x[0], 11, 3936430074);
    c := HH(c, d, a, b, x[3], 16, 3572445317);
    b := HH(b, c, d, a, x[6], 23, 76029189);
    FourTurns(44, was, x[..]);
    Four3(44, Regs(a, b, c, d), x[..]);
    a := HH(a, b, c, d, x[9], 4, 3654602809);
    d := HH(d, a, b, c, x[12], 11, 3873151461);
    c := HH(c, d, a, b, x[15], 16, 530742520);
    b := HH(b, c, d, a, x[2], 23, 3299628645);
  }

  /** The first half of round 4. */
  method Round4Front(ghost was: Regs, x: array<bv32>, a0: bv32, b0: bv32, c0: bv32, d0: bv32)
    returns (a: bv32, b: bv32, c: bv32, d: bv32)
    requires x.Length == 16 && Regs(a0, b0, c0, d0) == Turns(48, was, x[..])
    ensures Regs(a, b, c, d) == Turns(56, was, x[..])
  {
    hide Turns, Turn, Index, Shift, T, II;
    Row4();
    a, b, c, d := a0, b0, c0, d0;
    FourTurns(48, was, x[..]);
    Four4(48, Regs(a, b, c, d), x[..]);
    a := II(a, b, c, d, x[0], 6, 4096336452);
    d := II(d, a, b, c, x[7], 10, 1126891415);
    c := II(c, d, a, b, x[14], 15, 2878612391);
    b := II(b, c, d, a, x[5], 21, 4237533241);
    FourTurns(52, was, x[..]);
    Four4(52, Regs(a, b, c, d), x[..]);
    a := II(a, b, c, d, x[12], 6, 1700485571);
    d := II(d, a, b, c, x[3], 10, 2399980690);
    c := II(c, d, a, b, x[10], 15, 4293915773);
    b := II(b, c, d, a, x[1], 21, 2240044497);
  }

  /** The second half of round 4. */
  method Round4Back(ghost was: Regs, x: array<bv32>, a0: bv32, b0: bv32, c0: bv32, d0: bv32)
    returns (a: bv32, b: bv32, c: bv32, d: bv32)
    requires x.Length == 16 && Regs(a0, b0, c0, d0) == Turns(56, was, x[..])
    ensures Regs(a, b, c, d) == Turns(64, was, x[..])
  {
    hide Turns, Turn, Index, Shift, T, II;
    Row4();
    a, b, c, d := a0, b0, c0, d0;
    FourTurns(56, was, x[..]);
    Four4(56, Regs(a, b, c, d), x[..]);
    a := II(a, b, c, d, x[8], 6, 1873313359);
    d := II(d, a, b, c, x[15], 10, 4264355552);
    c := II(c, d, a, b, x[6], 15, 2734768916);
    b := II(b, c, d, a, x[13], 21, 1309151649);
    FourTurns(60, was, x[..]);
    Four4(60, Regs(a, b, c, d), x[..]);
    a := II(a, b, c, d, x[4], 6, 4149444226);
    d := II(d, a, b, c, x[11], 10, 3174756917);
    c := II(c, d, a, b, x[2], 15, 718787259);
    b := II(b, c, d, a, x[9], 21, 3951481745);
  }

  ghost function RegsOf(buf: array<bv32>): Regs
    reads buf
    requires buf.Length == 4
  {
    Regs(buf[0], buf[1], buf[2], buf[3])
  }

  lemma NoTurns(r: Regs, x: seq<bv32>)
    requires |x| == 16
    ensures Turns(0, r, x) == r
  {
  }

  /** The basic MD5 step. */
  method Transform(buf: array<bv32>, x: array<bv32>)
    requires buf.Length == 4 && x.Length == 16 && buf != x
    modifies buf
    ensures RegsOf(buf) == Compress(old(RegsOf(buf)), x[..])
  {
    hide Turn, Turns, Plus;
    ghost var was := RegsOf(buf);
    NoTurns(was, x[..]);
    var a, b, c, d := buf[0], buf[1], buf[2], buf[3];
    a, b, c, d := Round1Front(was, x, a, b, c, d);
    a, b, c, d := Round1Back(was, x, a, b, c, d);
    a, b, c, d := Round2Front(was, x, a, b, c, d);
    a, b, c, d := Round2Back(was, x, a, b, c, d);
    a, b, c, d := Round3Front(was, x, a, b, c, d);
    a, b, c, d := Round3Back(was, x, a, b, c, d);
    a, b, c, d := Round4Front(was, x, a, b, c, d);
    a, b, c, d := Round4Back(was, x, a, b, c, d);
    buf[0] := Plus(buf[0], a);
    buf[1] := Plus(buf[1], b);
    buf[2] := Plus(buf[2], c);
    buf[3] := Plus(buf[3], d);
  }
}
