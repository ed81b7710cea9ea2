/**
 The first vector of the test suite in appendix A.5 of RFC 1321, worked out operation by operation:
 the digest of the empty message.
 */
module Md5Vector {
  import opened Md5
  import opened Md5Stream

  /** The one block of the padded empty message: the mark, and no length. */
  predicate OnlyMark(x: seq<bv32>) {
    |x| == 16 && x[0] == 0x80 && forall k | 1 <= k < 16 :: x[k] == 0
  }

  lemma Values0()
    ensures FF(0x67452301, 0xefcdab89, 0x98badcfe, 0x10325476, 0x00000080, 7, 3614090360) == 0xa5202774
    ensures FF(0x10325476, 0xa5202774, 0xefcdab89, 0x98badcfe, 0x00000000, 12, 3905402710) == 0xf59592dd
    ensures FF(0x98badcfe, 0xf59592dd, 0xa5202774, 0xefcdab89, 0x00000000, 17, 606105819) == 0xe7f06b23
    ensures FF(0xefcdab89, 0xe7f06b23, 0xf59592dd, 0xa5202774, 0x00000000, 22, 3250441966) == 0x1b163203
  {
  }

  lemma Turns0(n: nat, r: Regs, x: seq<bv32>)
    requires n == 0 && OnlyMark(x) && Turns(n, r, x) == Regs(0x67452301, 0xefcdab89, 0x98badcfe, 0x10325476)
    ensures Turns(n + 4, r, x) == Regs(0xa5202774, 0x1b163203, 0xe7f06b23, 0xf59592dd)
  {
    hide Turn, Turns, Index, Shift, T, FF;
    FourTurns(0, r, x);
    Four1(0, Regs(0x67452301, 0xefcdab89, 0x98badcfe, 0x10325476), x);
    Row1();
    Values0();
  }

  lemma Values1()
    ensures FF(0xa5202774, 0x1b163203, 0xe7f06b23, 0xf59592dd, 0x00000000, 7, 4118548399) == 0x32033344
    ensures FF(0xf59592dd, 0x32033344, 0x1b163203, 0xe7f06b23, 0x00000000, 12, 1200080426) == 0x2f35d494
    ensures FF(0xe7f06b23, 0x2f35d494, 0x32033344, 0x1b163203, 0x00000000, 17, 2821735955) == 0xf5b158db
    ensures FF(0x1b163203, 0xf5b158db, 0x2f35d494, 0x32033344, 0x00000000, 22, 4249261313) == 0x9bc13ce9
  {
  }

  lemma Turns1(n: nat, r: Regs, x: seq<bv32>)
    requires n == 4 && OnlyMark(x) && Turns(n, r, x) == Regs(0xa5202774, 0x1b163203, 0xe7f06b23, 0xf59592dd)
    ensures Turns(n + 4, r, x) == Regs(0x32033344, 0x9bc13ce9, 0xf5b158db, 0x2f35d494)
  {
    hide Turn, Turns, Index, Shift, T, FF;
    FourTurns(4, r, x);
    Four1(4, Regs(0xa5202774, 0x1b163203, 0xe7f06b23, 0xf59592dd), x);
    Row1();
    Values1();
  }

  lemma Values2()
    ensures FF(0x32033344, 0x9bc13ce9, 0xf5b158db, 0x2f35d494, 0x00000000, 7, 1770035416) == 0x3893b991
    ensures FF(0x2f35d494, 0x3893b991, 0x9bc13ce9, 0xf5b158db, 0x00000000, 12, 2336552879) == 0xfce4a312
    ensures FF(0xf5b158db, 0xfce4a312, 0x3893b991, 0x9bc13ce9, 0x00000000, 17, 4294925233) == 0xe1ef0576
    ensures FF(0x9bc13ce9, 0xe1ef0576, 0xfce4a312, 0x3893b991, 0x00000000, 22, 2304563134) == 0x70768a29
  {
  }

  lemma Turns2(n: nat, r: Regs, x: seq<bv32>)
    requires n == 8 && OnlyMark(x) && Turns(n, r, x) == Regs(0x32033344, 0x9bc13ce9, 0xf5b158db, 0x2f35d494)
    ensures Turns(n + 4, r, x) == Regs(0x3893b991, 0x70768a29, 0xe1ef0576, 0xfce4a312)
  {
    hide Turn, Turns, Index, Shift, T, FF;
    FourTurns(8, r, x);
    Four1(8, Regs(0x32033344, 0x9bc13ce9, 0xf5b158db, 0x2f35d494), x);
    Row1();
    Values2();
  }

  lemma Values3()
    ensures FF(0x3893b991, 0x70768a29, 0xe1ef0576, 0xfce4a312, 0x00000000, 7, 1804603682) == 0xf56c7cf1
    ensures FF(0xfce4a312, 0xf56c7cf1, 0x70768a29, 0xe1ef0576, 0x00000000, 12, 4254626195) == 0x374943a7
    ensures FF(0xe1ef0576, 0x374943a7, 0xf56c7cf1, 0x70768a29, 0x00000000, 17, 2792965006) == 0x5aa53f75
    ensures FF(0x70768a29, 0x5aa53f75, 0x374943a7, 0xf56c7cf1, 0x00000000, 22, 1236535329) == 0xd6819c6a
  {
  }

  lemma Turns3(n: nat, r: Regs, x: seq<bv32>)
    requires n == 12 && OnlyMark(x) && Turns(n, r, x) == Regs(0x3893b991, 0x70768a29, 0xe1ef0576, 0xfce4a312)
    ensures Turns(n + 4, r, x) == Regs(0xf56c7cf1, 0xd6819c6a, 0x5aa53f75, 0x374943a7)
  {
    hide Turn, Turns, Index, Shift, T, FF;
    FourTurns(12, r, x);
    Four1(12, Regs(0x3893b991, 0x70768a29, 0xe1ef0576, 0xfce4a312), x);
    Row1();
    Values3();
  }

  lemma Values4()
    ensures GG(0xf56c7cf1, 0xd6819c6a, 0x5aa53f75, 0x374943a7, 0x00000000, 5, 4129170786) == 0x1c7d7513
    ensures GG(0x374943a7, 0x1c7d7513, 0xd6819c6a, 0x5aa53f75, 0x00000000, 9, 3225465664) == 0x7bd57a3a
    ensures GG(0x5aa53f75, 0x7bd57a3a, 0x1c7d7513, 0xd6819c6a, 0x00000000, 14, 643717713) == 0xc095f13a
    ensures GG(0xd6819c6a, 0xc095f13a, 0x7bd57a3a, 0x1c7d7513, 0x00000080, 20, 3921069994) == 0xbd782e17
  {
  }

  lemma Turns4(n: nat, r: Regs, x: seq<bv32>)
    requires n == 16 && OnlyMark(x) && Turns(n, r, x) == Regs(0xf56c7cf1, 0xd6819c6a, 0x5aa53f75, 0x374943a7)
    ensures Turns(n + 4, r, x) == Regs(0x1c7d7513, 0xbd782e17, 0xc095f13a, 0x7bd57a3a)
  {
    hide Turn, Turns, Index, Shift, T, GG;
    FourTurns(16, r, x);
    Four2(16, Regs(0xf56c7cf1, 0xd6819c6a, 0x5aa53f75, 0x374943a7), x);
    Row2();
    Values4();
  }

  lemma Values5()
    ensures GG(0x1c7d7513, 0xbd782e17, 0xc095f13a, 0x7bd57a3a, 0x00000000, 5, 3593408605) == 0x3d1e3e6c
    ensures GG(0x7bd57a3a, 0x3d1e3e6c, 0xbd782e17, 0xc095f13a, 0x00000000, 9, 38016083) == 0x68b7b3e3
    ensures GG(0xc095f13a, 0x68b7b3e3, 0x3d1e3e6c, 0xbd782e17, 0x00000000, 14, 3634488961) == 0xeb41643e
    ensures GG(0xbd782e17, 0xeb41643e, 0x68b7b3e3, 0x3d1e3e6c, 0x00000000, 20, 3889429448) == 0xe422531a
  {
  }

  lemma Turns5(n: nat, r: Regs, x: seq<bv32>)
    requires n == 20 && OnlyMark(x) && Turns(n, r, x) == Regs(0x1c7d7513, 0xbd782e17, 0xc095f13a, 0x7bd57a3a)
    ensures Turns(n + 4, r, x) == Regs(0x3d1e3e6c, 0xe422531a, 0xeb41643e, 0x68b7b3e3)
  {
    hide Turn, Turns, Index, Shift, T, GG;
    FourTurns(20, r, x);
    Four2(20, Regs(0x1c7d7513, 0xbd782e17, 0xc095f13a, 0x7bd57a3a), x);
    Row2();
    Values5();
  }

  lemma Values6()
    ensures GG(0x3d1e3e6c, 0xe422531a, 0xeb41643e, 0x68b7b3e3, 0x00000000, 5, 568446438) == 0x306ec122
    ensures GG(0x68b7b3e3, 0x306ec122, 0xe422531a, 0xeb41643e, 0x00000000, 9, 3275163606) == 0xd28c77c2
    ensures GG(0xeb41643e, 0xd28c77c2, 0x306ec122, 0xe422531a, 0x00000000, 14, 4107603335) == 0xa3c663da
    ensures GG(0xe422531a, 0xa3c663da, 0xd28c77c2, 0x306ec122, 0x00000000, 20, 1163531501) == 0xa0572807
  {
  }

  lemma Turns6(n: nat, r: Regs, x: seq<bv32>)
    requires n == 24 && OnlyMark(x) && Turns(n, r, x) == Regs(0x3d1e3e6c, 0xe422531a, 0xeb41643e, 0x68b7b3e3)
    ensures Turns(n + 4, r, x) == Regs(0x306ec122, 0xa0572807, 0xa3c663da, 0xd28c77c2)
  {
    hide Turn, Turns, Index, Shift, T, GG;
    FourTurns(24, r, x);
    Four2(24, Regs(0x3d1e3e6c, 0xe422531a, 0xeb41643e, 0x68b7b3e3), x);
    Row2();
    Values6();
  }

  lemma Values7()
    ensures GG(0x306ec122, 0xa0572807, 0xa3c663da, 0xd28c77c2, 0x00000000, 5, 2850285829) == 0x13707036
    ensures GG(0xd28c77c2, 0x13707036, 0xa0572807, 0xa3c663da, 0x00000000, 9, 4243563512) == 0xae7813db
    ensures GG(0xa3c663da, 0xae7813db, 0x13707036, 0xa0572807, 0x00000000, 14, 1735328473) == 0x1c31c384
    ensures GG(0xa0572807, 0x1c31c384, 0xae7813db, 0x13707036, 0x00000000, 20, 2368359562) == 0xa2205f1f
  {
  }

  lemma Turns7(n: nat, r: Regs, x: seq<bv32>)
    requires n == 28 && OnlyMark(x) && Turns(n, r, x) == Regs(0x306ec122, 0xa0572807, 0xa3c663da, 0xd28c77c2)
    ensures Turns(n + 4, r, x) == Regs(0x13707036, 0xa2205f1f, 0x1c31c384, 0xae7813db)
  {
    hide Turn, Turns, Index, Shift, T, GG;
    FourTurns(28, r, x);
    Four2(28, Regs(0x306ec122, 0xa0572807, 0xa3c663da, 0xd28c77c2), x);
    Row2();
    Values7();
  }

  lemma Values8()
    ensures HH(0x13707036, 0xa2205f1f, 0x1c31c384, 0xae7813db, 0x00000000, 4, 4294588738) == 0xdf63eaa1
    ensures HH(0xae7813db, 0xdf63eaa1, 0xa2205f1f, 0x1c31c384, 0x00000000, 11, 2272392833) == 0xc3689f5b
    ensures HH(0x1c31c384, 0xc3689f5b, 0xdf63eaa1, 0xa2205f1f, 0x00000000, 16, 1839030562) == 0x12f3e755
    ensures HH(0xa2205f1f, 0x12f3e755, 0xc3689f5b, 0xdf63eaa1, 0x00000000, 23, 4259657740) == 0x004b6669
  {
  }

  lemma Turns8(n: nat, r: Regs, x: seq<bv32>)
    requires n == 32 && OnlyMark(x) && Turns(n, r, x) == Regs(0x13707036, 0xa2205f1f, 0x1c31c384, 0xae7813db)
    ensures Turns(n + 4, r, x) == Regs(0xdf63eaa1, 0x004b6669, 0x12f3e755, 0xc3689f5b)
  {
    hide Turn, Turns, Index, Shift, T, HH;
    FourTurns(32, r, x);
    Four3(32, Regs(0x13707036, 0xa2205f1f, 0x1c31c384, 0xae7813db), x);
    Row3();
    Values8();
  }

  lemma Values9()
    ensures HH(0xdf63eaa1, 0x004b6669, 0x12f3e755, 0xc3689f5b, 0x00000000, 4, 2763975236) == 0x5f7a9b2e
    ensures HH(0xc3689f5b, 0x5f7a9b2e, 0x004b6669, 0x12f3e755, 0x00000000, 11, 1272893353) == 0xabc34e16
    ensures HH(0x12f3e755, 0xabc34e16, 0x5f7a9b2e, 0x004b6669, 0x00000000, 16, 4139469664) == 0x91ca4cb7
    ensures HH(0x004b6669, 0x91ca4cb7, 0xabc34e16, 0x5f7a9b2e, 0x00000000, 23, 3200236656) == 0xc5dc8c15
  {
  }

  lemma Turns9(n: nat, r: Regs, x: seq<bv32>)
    requires n == 36 && OnlyMark(x) && Turns(n, r, x) == Regs(0xdf63eaa1, 0x004b6669, 0x12f3e755, 0xc3689f5b)
    ensures Turns(n + 4, r, x) == Regs(0x5f7a9b2e, 0xc5dc8c15, 0x91ca4cb7, 0xabc34e16)
  {
    hide Turn, Turns, Index, Shift, T, HH;
    FourTurns(36, r, x);
    Four3(36, Regs(0xdf63eaa1, 0x004b6669, 0x12f3e755, 0xc3689f5b), x);
    Row3();
    Values9();
  }

  lemma Values10()
    ensures HH(0x5f7a9b2e, 0xc5dc8c15, 0x91ca4cb7, 0xabc34e16, 0x00000000, 4, 681279174) == 0x4497169d
    ensures HH(0xabc34e16, 0x4497169d, 0xc5dc8c15, 0x91ca4cb7, 0x00000080, 11, 3936430074) == 0x76fd93d4
    ensures HH(0x91ca4cb7, 0x76fd93d4, 0x4497169d, 0xc5dc8c15, 0x00000000, 16, 3572445317) == 0xfd95f243
    ensures HH(0xc5dc8c15, 0xfd95f243, 0x76fd93d4, 0x4497169d, 0x00000000, 23, 76029189) == 0x0fe32453
  {
  }

  lemma Turns10(n: nat, r: Regs, x: seq<bv32>)
    requires n == 40 && OnlyMark(x) && Turns(n, r, x) == Regs(0x5f7a9b2e, 0xc5dc8c15, 0x91ca4cb7, 0xabc34e16)
    ensures Turns(n + 4, r, x) == Regs(0x4497169d, 0x0fe32453, 0xfd95f243, 0x76fd93d4)
  {
    hide Turn, Turns, Index, Shift, T, HH;
    FourTurns(40, r, x);
    Four3(40, Regs(0x5f7a9b2e, 0xc5dc8c15, 0x91ca4cb7, 0xabc34e16), x);
    Row3();
    Values10();
  }

  lemma Values11()
    ensures HH(0x4497169d, 0x0fe32453, 0xfd95f243, 0x76fd93d4, 0x00000000, 4, 3654602809) == 0x3f55edfd
    ensures HH(0x76fd93d4, 0x3f55edfd, 0x0fe32453, 0xfd95f243, 0x00000000, 11, 3873151461) == 0x22a31f54
    ensures HH(0xfd95f243, 0x22a31f54, 0x3f55edfd, 0x0fe32453, 0x00000000, 16, 530742520) == 0x68d84ea2
    ensures HH(0x0fe32453, 0x68d84ea2, 0x22a31f54, 0x3f55edfd, 0x00000000, 23, 3299628645) == 0xca7d2dbd
  {
  }

  lemma Turns11(n: nat, r: Regs, x: seq<bv32>)
    requires n == 44 && OnlyMark(x) && Turns(n, r, x) == Regs(0x4497169d, 0x0fe32453, 0xfd95f243, 0x76fd93d4)
    ensures Turns(n + 4, r, x) == Regs(0x3f55edfd, 0xca7d2dbd, 0x68d84ea2, 0x22a31f54)
  {
    hide Turn, Turns, Index, Shift, T, HH;
    FourTurns(44, r, x);
    Four3(44, Regs(0x4497169d, 0x0fe32453, 0xfd95f243, 0x76fd93d4), x);
    Row3();
    Values11();
  }

  lemma Values12()
    ensures II(0x3f55edfd, 0xca7d2dbd, 0x68d84ea2, 0x22a31f54, 0x00000080, 6, 4096336452) == 0x93aa2577
    ensures II(0x22a31f54, 0x93aa2577, 0xca7d2dbd, 0x68d84ea2, 0x00000000, 10, 1126891415) == 0x1688dc85
    ensures II(0x68d84ea2, 0x1688dc85, 0x93aa2577, 0xca7d2dbd, 0x00000000, 15, 2878612391) == 0xcd85b8cb
    ensures II(0xca7d2dbd, 0xcd85b8cb, 0x1688dc85, 0x93aa2577, 0x00000000, 21, 4237533241) == 0x561e0689
  {
  }

  lemma Turns12(n: nat, r: Regs, x: seq<bv32>)
    requires n == 48 && OnlyMark(x) && Turns(n, r, x) == Regs(0x3f55edfd, 0xca7d2dbd, 0x68d84ea2, 0x22a31f54)
    ensures Turns(n + 4, r, x) == Regs(0x93aa2577, 0x561e0689, 0xcd85b8cb, 0x1688dc85)
  {
    hide Turn, Turns, Index, Shift, T, II;
    FourTurns(48, r, x);
    Four4(48, Regs(0x3f55edfd, 0xca7d2dbd, 0x68d84ea2, 0x22a31f54), x);
    Row4();
    Values12();
  }

  lemma Values13()
    ensures II(0x93aa2577, 0x561e0689, 0xcd85b8cb, 0x1688dc85, 0x00000000, 6, 1700485571) == 0x5625a114
    ensures II(0x1688dc85, 0x5625a114, 0x561e0689, 0xcd85b8cb, 0x00000000, 10, 2399980690) == 0x3450f42b
    ensures II(0xcd85b8cb, 0x3450f42b, 0x5625a114, 0x561e0689, 0x00000000, 15, 4293915773) == 0x392ad0d0
    ensures II(0x561e0689, 0x392ad0d0, 0x3450f42b, 0x5625a114, 0x00000000, 21, 2240044497) == 0x1e77fa61
  {
  }

  lemma Turns13(n: nat, r: Regs, x: seq<bv32>)
    requires n == 52 && OnlyMark(x) && Turns(n, r, x) == Regs(0x93aa2577, 0x561e0689, 0xcd85b8cb, 0x1688dc85)
    ensures Turns(n + 4, r, x) == Regs(0x5625a114, 0x1e77fa61, 0x392ad0d0, 0x3450f42b)
  {
    hide Turn, Turns, Index, Shift, T, II;
    FourTurns(52, r, x);
    Four4(52, Regs(0x93aa2577, 0x561e0689, 0xcd85b8cb, 0x1688dc85), x);
    Row4();
    Values13();
  }

  lemma Values14()
    ensures II(0x5625a114, 0x1e77fa61, 0x392ad0d0, 0x3450f42b, 0x00000000, 6, 1873313359) == 0x474a9c8c
    ensures II(0x3450f42b, 0x474a9c8c, 0x1e77fa61, 0x392ad0d0, 0x00000000, 10, 4264355552) == 0xdfce00bc
    ensures II(0x392ad0d0, 0xdfce00bc, 0x474a9c8c, 0x1e77fa61, 0x00000000, 15, 2734768916) == 0x36594b14
    ensures II(0x1e77fa61, 0x36594b14, 0xdfce00bc, 0x474a9c8c, 0x00000000, 21, 1309151649) == 0x30130182
  {
  }

  lemma Turns14(n: nat, r: Regs, x: seq<bv32>)
    requires n == 56 && OnlyMark(x) && Turns(n, r, x) == Regs(0x5625a114, 0x1e77fa61, 0x392ad0d0, 0x3450f42b)
    ensures Turns(n + 4, r, x) == Regs(0x474a9c8c, 0x30130182, 0x36594b14, 0xdfce00bc)
  {
    hide Turn, Turns, Index, Shift, T, II;
    FourTurns(56, r, x);
    Four4(56, Regs(0x5625a114, 0x1e77fa61, 0x392ad0d0, 0x3450f42b), x);
    Row4();
    Values14();
  }

  lemma Values15()
    ensures II(0x474a9c8c, 0x30130182, 0x36594b14, 0xdfce00bc, 0x00000000, 6, 4149444226) == 0x7246fad3
    ensures II(0xdfce00bc, 0x7246fad3, 0x30130182, 0x36594b14, 0x00000000, 10, 3174756917) == 0x6e10a476
    ensures II(0x36594b14, 0x6e10a476, 0x7246fad3, 0x30130182, 0x00000000, 15, 718787259) == 0xff4ea3eb
    ensures II(0x30130182, 0xff4ea3eb, 0x6e10a476, 0x7246fad3, 0x00000000, 21, 3951481745) == 0x14e45506
  {
  }

  lemma Turns15(n: nat, r: Regs, x: seq<bv32>)
    requires n == 60 && OnlyMark(x) && Turns(n, r, x) == Regs(0x474a9c8c, 0x30130182, 0x36594b14, 0xdfce00bc)
    ensures Turns(n + 4, r, x) == Regs(0x7246fad3, 0x14e45506, 0xff4ea3eb, 0x6e10a476)
  {
    hide Turn, Turns, Index, Shift, T, II;
    FourTurns(60, r, x);
    Four4(60, Regs(0x474a9c8c, 0x30130182, 0x36594b14, 0xdfce00bc), x);
    Row4();
    Values15();
  }

  lemma OneBlockDigest(x: seq<bv32>)
    requires |x| == 16 && OnlyMark(x)
    ensures Compress(Init(), x) == Regs(0xd98c1dd4, 0x04b2008f, 0x980980e9, 0x7e42f8ec)
  {
    hide Turn, Turns, OnlyMark;
    NoTurns(Init(), x);
    Turns0(0, Init(), x);
    Turns1(4, Init(), x);
    Turns2(8, Init(), x);
    Turns3(12, Init(), x);
    Turns4(16, Init(), x);
    Turns5(20, Init(), x);
    Turns6(24, Init(), x);
    Turns7(28, Init(), x);
    Turns8(32, Init(), x);
    Turns9(36, Init(), x);
    Turns10(40, Init(), x);
    Turns11(44, Init(), x);
    Turns12(48, Init(), x);
    Turns13(52, Init(), x);
    Turns14(56, Init(), x);
    Turns15(60, Init(), x);
    Sums();
  }

  lemma Sums()
    ensures Plus(0x67452301, 0x7246fad3) == 0xd98c1dd4 && Plus(0xefcdab89, 0x14e45506) == 0x04b2008f
    ensures Plus(0x98badcfe, 0xff4ea3eb) == 0x980980e9 && Plus(0x10325476, 0x6e10a476) == 0x7e42f8ec
  {
  }

  lemma PaddedEmpty()
    ensures |Padded([])| == BLOCK && OnlyMark(Words(Padded([])))
  {
    hide Words, OnlyMark, LengthField;
    NoLength();
    assert PadLength(0) == 56;
    MarkOnly(Padded([]));
  }

  lemma NoLength()
    ensures LengthField(0) == [0, 0, 0, 0, 0, 0, 0, 0]
  {
  }

  lemma MarkOnly(b: seq<bv8>)
    requires |b| == BLOCK && b[0] == 0x80 && forall k | 1 <= k < BLOCK :: b[k] == 0
    ensures OnlyMark(Words(b))
  {
    hide Word;
    FirstWord(b[..4]);
    forall k | 1 <= k < 16 ensures Words(b)[k] == 0 { ZeroWord(b[4 * k..4 * k + 4]); }
  }

  lemma FirstWord(b: seq<bv8>)
    requires b == [0x80, 0, 0, 0]
    ensures Word(b) == 0x80
  {
  }

  lemma ZeroWord(b: seq<bv8>)
    requires b == [0, 0, 0, 0]
    ensures Word(b) == 0
  {
  }

  lemma ChainOfOne(s: seq<bv8>)
    requires |s| == BLOCK
    ensures Chain(s) == Compress(Init(), Words(s))
  {
    hide Compress, Words, Init;
    assert s[0..] == s;
  }

  /** The digest of the empty message is d41d8cd98f00b204e9800998ecf8427e. */
  lemma EmptyMessage()
    ensures Digest([]) == [0xd4, 0x1d, 0x8c, 0xd9, 0x8f, 0x00, 0xb2, 0x04,
                           0xe9, 0x80, 0x09, 0x98, 0xec, 0xf8, 0x42, 0x7e]
  {
    hide Chain, Words, Compress, Padded, OnlyMark, Init, WordBytes;
    PaddedEmpty();
    ChainOfOne(Padded([]));
    OneBlockDigest(Words(Padded([])));
    DigestBytes();
  }

  lemma DigestBytes()
    ensures WordBytes(0xd98c1dd4) == [0xd4, 0x1d, 0x8c, 0xd9] && WordBytes(0x04b2008f) == [0x8f, 0x00, 0xb2, 0x04]
    ensures WordBytes(0x980980e9) == [0xe9, 0x80, 0x09, 0x98] && WordBytes(0x7e42f8ec) == [0xec, 0xf8, 0x42, 0x7e]
  {
  }
}
