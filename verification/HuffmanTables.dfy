/**
 The literal Huffman tables of axspawn, and the proof that they agree: for every
 octet, following its code through the decoding table ends at the leaf of that octet.
 */
module HuffmanTables {

  datatype EncodeEntry = EncodeEntry(code: bv16, len: nat)

  /** An inner node holds two node numbers; a leaf holds an octet and zero. */
  datatype DecodeEntry = DecodeEntry(node1: nat, node2: nat)

  const NODES := 513

  function Pick<T>(i: nat, e0: T, e1: T, e2: T, e3: T): T {
    if i == 0 then e0 else if i == 1 then e1 else if i == 2 then e2 else e3
  }

  // ----- the encoding table

  function EncodeTab(b: nat): EncodeEntry
    requires b < 256
  {
    if b < 64 then EncodeBlock0(b) else if b < 128 then EncodeBlock1(b)
    else if b < 192 then EncodeBlock2(b) else EncodeBlock3(b)
  }

  function EncodeBlock0(b: nat): EncodeEntry {
    if b < 4 then Pick(b % 4, EncodeEntry(0xab2c, 15), EncodeEntry(0xaa84, 15), EncodeEntry(0x9fc4, 15), EncodeEntry(0xab3c, 15))
    else if b < 8 then Pick(b % 4, EncodeEntry(0xab1c, 15), EncodeEntry(0xaafc, 15), EncodeEntry(0xaaec, 15), EncodeEntry(0xaad4, 15))
    else if b < 12 then Pick(b % 4, EncodeEntry(0xaab4, 15), EncodeEntry(0xf340, 10), EncodeEntry(0xaaa4, 15), EncodeEntry(0x7d64, 15))
    else if b < 16 then Pick(b % 4, EncodeEntry(0xaadc, 15), EncodeEntry(0xf400, 7), EncodeEntry(0xaa94, 15), EncodeEntry(0x9ff4, 15))
    else if b < 20 then Pick(b % 4, EncodeEntry(0x9fd4, 15), EncodeEntry(0x7d74, 15), EncodeEntry(0xab44, 15), EncodeEntry(0xab34, 15))
    else if b < 24 then Pick(b % 4, EncodeEntry(0xab24, 15), EncodeEntry(0xab14, 15), EncodeEntry(0xab04, 15), EncodeEntry(0xaaf4, 15))
    else if b < 28 then Pick(b % 4, EncodeEntry(0xaae4, 15), EncodeEntry(0xab60, 14), EncodeEntry(0xab0c, 15), EncodeEntry(0xaacc, 15))
    else if b < 32 then Pick(b % 4, EncodeEntry(0xaabc, 15), EncodeEntry(0xaaac, 15), EncodeEntry(0xaa9c, 15), EncodeEntry(0xaa8c, 15))
    else if b < 36 then Pick(b % 4, EncodeEntry(0xc000, 3), EncodeEntry(0x3a80, 9), EncodeEntry(0xabc0, 10), EncodeEntry(0x0060, 11))
    else if b < 40 then Pick(b % 4, EncodeEntry(0x7d40, 12), EncodeEntry(0xab5c, 14), EncodeEntry(0x0000, 12), EncodeEntry(0xab58, 14))
    else if b < 44 then Pick(b % 4, EncodeEntry(0x7c00, 9), EncodeEntry(0x3c80, 9), EncodeEntry(0x7d00, 11), EncodeEntry(0x0010, 12))
    else if b < 48 then Pick(b % 4, EncodeEntry(0x1200, 7), EncodeEntry(0x7a00, 7), EncodeEntry(0xb800, 6), EncodeEntry(0x3200, 7))
    else if b < 52 then Pick(b % 4, EncodeEntry(0x2200, 7), EncodeEntry(0xf600, 8), EncodeEntry(0x3d00, 8), EncodeEntry(0x9e00, 9))
    else if b < 56 then Pick(b % 4, EncodeEntry(0xbd80, 9), EncodeEntry(0x7c80, 9), EncodeEntry(0x0080, 9), EncodeEntry(0xaa00, 9))
    else if b < 60 then Pick(b % 4, EncodeEntry(0xbd00, 9), EncodeEntry(0x9f00, 9), EncodeEntry(0x0300, 8), EncodeEntry(0xab78, 13))
    else Pick(b % 4, EncodeEntry(0xab68, 13), EncodeEntry(0x3c00, 9), EncodeEntry(0x3000, 9), EncodeEntry(0x0020, 11))
  }

  function EncodeBlock1(b: nat): EncodeEntry {
    if b < 68 then Pick(b % 4, EncodeEntry(0x7d50, 12), EncodeEntry(0x3800, 7), EncodeEntry(0x7800, 7), EncodeEntry(0x9c00, 7))
    else if b < 72 then Pick(b % 4, EncodeEntry(0xfe00, 7), EncodeEntry(0x2400, 6), EncodeEntry(0xbc00, 8), EncodeEntry(0x0200, 8))
    else if b < 76 then Pick(b % 4, EncodeEntry(0x0100, 8), EncodeEntry(0xf100, 8), EncodeEntry(0x0040, 11), EncodeEntry(0x3100, 8))
    else if b < 80 then Pick(b % 4, EncodeEntry(0xf200, 8), EncodeEntry(0x3400, 7), EncodeEntry(0x1c00, 7), EncodeEntry(0x1e00, 7))
    else if b < 84 then Pick(b % 4, EncodeEntry(0xbe00, 7), EncodeEntry(0xaba0, 11), EncodeEntry(0x3e00, 7), EncodeEntry(0x1400, 6))
    else if b < 88 then Pick(b % 4, EncodeEntry(0x3600, 7), EncodeEntry(0xf380, 9), EncodeEntry(0xf080, 9), EncodeEntry(0x2000, 8))
    else if b < 92 then Pick(b % 4, EncodeEntry(0xfc00, 8), EncodeEntry(0x9f80, 10), EncodeEntry(0x9e80, 9), EncodeEntry(0xab90, 12))
    else if b < 96 then Pick(b % 4, EncodeEntry(0x3b80, 9), EncodeEntry(0xab80, 12), EncodeEntry(0xab54, 14), EncodeEntry(0x3a50, 13))
    else if b < 100 then Pick(b % 4, EncodeEntry(0xab50, 14), EncodeEntry(0xa000, 5), EncodeEntry(0x1800, 6), EncodeEntry(0x9800, 6))
    else if b < 104 then Pick(b % 4, EncodeEntry(0x7000, 5), EncodeEntry(0x4000, 3), EncodeEntry(0x0400, 6), EncodeEntry(0xac00, 6))
    else if b < 108 then Pick(b % 4, EncodeEntry(0xf800, 6), EncodeEntry(0x6000, 4), EncodeEntry(0x3a00, 10), EncodeEntry(0xfd00, 8))
    else if b < 112 then Pick(b % 4, EncodeEntry(0x2800, 5), EncodeEntry(0xb000, 6), EncodeEntry(0x8000, 4), EncodeEntry(0xb400, 6))
    else if b < 116 then Pick(b % 4, EncodeEntry(0x1000, 7), EncodeEntry(0x7d20, 12), EncodeEntry(0xe000, 5), EncodeEntry(0x9000, 5))
    else if b < 120 then Pick(b % 4, EncodeEntry(0xe800, 5), EncodeEntry(0x0800, 5), EncodeEntry(0xf700, 8), EncodeEntry(0xa800, 7))
    else if b < 124 then Pick(b % 4, EncodeEntry(0x7d80, 9), EncodeEntry(0xf300, 10), EncodeEntry(0x7e00, 7), EncodeEntry(0xab48, 14))
    else Pick(b % 4, EncodeEntry(0x3a48, 13), EncodeEntry(0xab4c, 14), EncodeEntry(0x3a60, 12), EncodeEntry(0x9ffc, 15))
  }

  function EncodeBlock2(b: nat): EncodeEntry {
    if b < 132 then Pick(b % 4, EncodeEntry(0x9fec, 15), EncodeEntry(0x2100, 8), EncodeEntry(0x9fdc, 15), EncodeEntry(0x9fcc, 15))
    else if b < 136 then Pick(b % 4, EncodeEntry(0xf000, 9), EncodeEntry(0x7d7c, 15), EncodeEntry(0x7d6c, 15), EncodeEntry(0x3a40, 14))
    else if b < 140 then Pick(b % 4, EncodeEntry(0xab40, 15), EncodeEntry(0xab38, 15), EncodeEntry(0xab30, 15), EncodeEntry(0xab28, 15))
    else if b < 144 then Pick(b % 4, EncodeEntry(0xab20, 15), EncodeEntry(0xab18, 15), EncodeEntry(0xab70, 13), EncodeEntry(0xab10, 15))
    else if b < 148 then Pick(b % 4, EncodeEntry(0xab08, 15), EncodeEntry(0xab00, 15), EncodeEntry(0xaaf8, 15), EncodeEntry(0xaaf0, 15))
    else if b < 152 then Pick(b % 4, EncodeEntry(0x3b00, 9), EncodeEntry(0xaae8, 15), EncodeEntry(0xaae0, 15), EncodeEntry(0xaad8, 15))
    else if b < 156 then Pick(b % 4, EncodeEntry(0xaad0, 15), EncodeEntry(0xab64, 14), EncodeEntry(0x7d30, 12), EncodeEntry(0xaac8, 15))
    else if b < 160 then Pick(b % 4, EncodeEntry(0xaac0, 15), EncodeEntry(0xaab8, 15), EncodeEntry(0xaab0, 15), EncodeEntry(0xaaa8, 15))
    else if b < 164 then Pick(b % 4, EncodeEntry(0xaaa0, 15), EncodeEntry(0xaa98, 15), EncodeEntry(0xaa90, 15), EncodeEntry(0xaa88, 15))
    else if b < 168 then Pick(b % 4, EncodeEntry(0xaa80, 15), EncodeEntry(0x9ff8, 15), EncodeEntry(0x9ff0, 15), EncodeEntry(0x9fe8, 15))
    else if b < 172 then Pick(b % 4, EncodeEntry(0x9fe0, 15), EncodeEntry(0x9fd8, 15), EncodeEntry(0x9fd0, 15), EncodeEntry(0x9fc8, 15))
    else if b < 176 then Pick(b % 4, EncodeEntry(0x9fc0, 15), EncodeEntry(0x7d78, 15), EncodeEntry(0x7d70, 15), EncodeEntry(0x3a58, 13))
    else if b < 180 then Pick(b % 4, EncodeEntry(0x7d68, 15), EncodeEntry(0x7d60, 15), EncodeEntry(0xab46, 15), EncodeEntry(0xab42, 15))
    else if b < 184 then Pick(b % 4, EncodeEntry(0xab3e, 15), EncodeEntry(0xab3a, 15), EncodeEntry(0xab36, 15), EncodeEntry(0xab32, 15))
    else if b < 188 then Pick(b % 4, EncodeEntry(0xab2e, 15), EncodeEntry(0xab2a, 15), EncodeEntry(0xab26, 15), EncodeEntry(0xab22, 15))
    else Pick(b % 4, EncodeEntry(0xab1e, 15), EncodeEntry(0xab1a, 15), EncodeEntry(0xab16, 15), EncodeEntry(0xab12, 15))
  }

  function EncodeBlock3(b: nat): EncodeEntry {
    if b < 196 then Pick(b % 4, EncodeEntry(0xab0e, 15), EncodeEntry(0xab0a, 15), EncodeEntry(0xab06, 15), EncodeEntry(0xab02, 15))
    else if b < 200 then Pick(b % 4, EncodeEntry(0xaafe, 15), EncodeEntry(0xaafa, 15), EncodeEntry(0xaaf6, 15), EncodeEntry(0xaaf2, 15))
    else if b < 204 then Pick(b % 4, EncodeEntry(0xaaee, 15), EncodeEntry(0xaaea, 15), EncodeEntry(0xaae6, 15), EncodeEntry(0xaae2, 15))
    else if b < 208 then Pick(b % 4, EncodeEntry(0xaade, 15), EncodeEntry(0xaada, 15), EncodeEntry(0xaad6, 15), EncodeEntry(0xaad2, 15))
    else if b < 212 then Pick(b % 4, EncodeEntry(0xaace, 15), EncodeEntry(0xaaca, 15), EncodeEntry(0xaac6, 15), EncodeEntry(0xaac2, 15))
    else if b < 216 then Pick(b % 4, EncodeEntry(0xaabe, 15), EncodeEntry(0xaaba, 15), EncodeEntry(0xaab6, 15), EncodeEntry(0xaab2, 15))
    else if b < 220 then Pick(b % 4, EncodeEntry(0xaaae, 15), EncodeEntry(0xaaaa, 15), EncodeEntry(0xaaa6, 15), EncodeEntry(0xaaa2, 15))
    else if b < 224 then Pick(b % 4, EncodeEntry(0xaa9e, 15), EncodeEntry(0x3a70, 12), EncodeEntry(0xaa9a, 15), EncodeEntry(0xaa96, 15))
    else if b < 228 then Pick(b % 4, EncodeEntry(0xaa92, 15), EncodeEntry(0x3080, 9), EncodeEntry(0xaa8e, 15), EncodeEntry(0xaa8a, 15))
    else if b < 232 then Pick(b % 4, EncodeEntry(0xaa86, 15), EncodeEntry(0xaa82, 15), EncodeEntry(0x9ffe, 15), EncodeEntry(0x9ffa, 15))
    else if b < 236 then Pick(b % 4, EncodeEntry(0x9ff6, 15), EncodeEntry(0x9ff2, 15), EncodeEntry(0x9fee, 15), EncodeEntry(0x9fea, 15))
    else if b < 240 then Pick(b % 4, EncodeEntry(0x9fe6, 15), EncodeEntry(0x9fe2, 15), EncodeEntry(0x9fde, 15), EncodeEntry(0x9fda, 15))
    else if b < 244 then Pick(b % 4, EncodeEntry(0x9fd6, 15), EncodeEntry(0x9fd2, 15), EncodeEntry(0x9fce, 15), EncodeEntry(0x9fca, 15))
    else if b < 248 then Pick(b % 4, EncodeEntry(0x9fc6, 15), EncodeEntry(0x9fc2, 15), EncodeEntry(0x7d7e, 15), EncodeEntry(0x7d7a, 15))
    else if b < 252 then Pick(b % 4, EncodeEntry(0x7d76, 15), EncodeEntry(0x7d72, 15), EncodeEntry(0x7d6e, 15), EncodeEntry(0x7d6a, 15))
    else Pick(b % 4, EncodeEntry(0x7d66, 15), EncodeEntry(0x7d62, 15), EncodeEntry(0x3a46, 15), EncodeEntry(0x3a44, 15))
  }

  // ----- the decoding table

  function DecodeTab(n: nat): DecodeEntry
    requires n < NODES
  {
    if n < 64 then DecodeBlock0(n) else if n < 128 then DecodeBlock1(n) else if n < 192 then DecodeBlock2(n)
    else if n < 256 then DecodeBlock3(n) else if n < 320 then DecodeBlock4(n) else if n < 384 then DecodeBlock5(n)
    else if n < 448 then DecodeBlock6(n) else if n < 512 then DecodeBlock7(n) else DecodeBlock8(n)
  }

  function DecodeBlock0(n: nat): DecodeEntry {
    if n < 4 then Pick(n % 4, DecodeEntry(79, 1), DecodeEntry(2, 66), DecodeEntry(24, 3), DecodeEntry(4, 208))
    else if n < 8 then Pick(n % 4, DecodeEntry(292, 5), DecodeEntry(6, 298), DecodeEntry(317, 7), DecodeEntry(16, 8))
    else if n < 12 then Pick(n % 4, DecodeEntry(9, 173), DecodeEntry(10, 116), DecodeEntry(41, 11), DecodeEntry(12, 37))
    else if n < 16 then Pick(n % 4, DecodeEntry(125, 13), DecodeEntry(357, 14), DecodeEntry(15, 438), DecodeEntry(0, 0))
    else if n < 20 then Pick(n % 4, DecodeEntry(229, 17), DecodeEntry(18, 46), DecodeEntry(19, 61), DecodeEntry(20, 99))
    else if n < 24 then Pick(n % 4, DecodeEntry(21, 161), DecodeEntry(404, 22), DecodeEntry(23, 483), DecodeEntry(1, 0))
    else if n < 28 then Pick(n % 4, DecodeEntry(306, 25), DecodeEntry(313, 26), DecodeEntry(294, 27), DecodeEntry(245, 28))
    else if n < 32 then Pick(n % 4, DecodeEntry(221, 29), DecodeEntry(231, 30), DecodeEntry(277, 31), DecodeEntry(32, 103))
    else if n < 36 then Pick(n % 4, DecodeEntry(33, 108), DecodeEntry(34, 339), DecodeEntry(421, 35), DecodeEntry(36, 500))
    else if n < 40 then Pick(n % 4, DecodeEntry(2, 0), DecodeEntry(122, 38), DecodeEntry(353, 39), DecodeEntry(40, 434))
    else if n < 44 then Pick(n % 4, DecodeEntry(3, 0), DecodeEntry(131, 42), DecodeEntry(128, 43), DecodeEntry(361, 44))
    else if n < 48 then Pick(n % 4, DecodeEntry(45, 442), DecodeEntry(4, 0), DecodeEntry(56, 47), DecodeEntry(52, 48))
    else if n < 52 then Pick(n % 4, DecodeEntry(135, 49), DecodeEntry(370, 50), DecodeEntry(51, 450), DecodeEntry(5, 0))
    else if n < 56 then Pick(n % 4, DecodeEntry(138, 53), DecodeEntry(375, 54), DecodeEntry(55, 454), DecodeEntry(6, 0))
    else if n < 60 then Pick(n % 4, DecodeEntry(148, 57), DecodeEntry(58, 94), DecodeEntry(381, 59), DecodeEntry(60, 460))
    else Pick(n % 4, DecodeEntry(7, 0), DecodeEntry(75, 62), DecodeEntry(63, 152), DecodeEntry(392, 64))
  }

  function DecodeBlock1(n: nat): DecodeEntry {
    if n < 68 then Pick(n % 4, DecodeEntry(65, 469), DecodeEntry(8, 0), DecodeEntry(164, 67), DecodeEntry(311, 68))
    else if n < 72 then Pick(n % 4, DecodeEntry(69, 246), DecodeEntry(70, 97), DecodeEntry(253, 71), DecodeEntry(257, 72))
    else if n < 76 then Pick(n % 4, DecodeEntry(73, 270), DecodeEntry(319, 74), DecodeEntry(9, 0), DecodeEntry(76, 155))
    else if n < 80 then Pick(n % 4, DecodeEntry(396, 77), DecodeEntry(78, 473), DecodeEntry(10, 0), DecodeEntry(165, 80))
    else if n < 84 then Pick(n % 4, DecodeEntry(296, 81), DecodeEntry(300, 82), DecodeEntry(295, 83), DecodeEntry(206, 84))
    else if n < 88 then Pick(n % 4, DecodeEntry(85, 320), DecodeEntry(193, 86), DecodeEntry(87, 318), DecodeEntry(199, 88))
    else if n < 92 then Pick(n % 4, DecodeEntry(184, 89), DecodeEntry(90, 112), DecodeEntry(91, 346), DecodeEntry(430, 92))
    else if n < 96 then Pick(n % 4, DecodeEntry(93, 508), DecodeEntry(11, 0), DecodeEntry(379, 95), DecodeEntry(96, 458))
    else if n < 100 then Pick(n % 4, DecodeEntry(12, 0), DecodeEntry(98, 218), DecodeEntry(13, 0), DecodeEntry(100, 158))
    else if n < 104 then Pick(n % 4, DecodeEntry(400, 101), DecodeEntry(102, 478), DecodeEntry(14, 0), DecodeEntry(331, 104))
    else if n < 108 then Pick(n % 4, DecodeEntry(105, 328), DecodeEntry(408, 106), DecodeEntry(107, 487), DecodeEntry(15, 0))
    else if n < 112 then Pick(n % 4, DecodeEntry(109, 336), DecodeEntry(417, 110), DecodeEntry(111, 496), DecodeEntry(16, 0))
    else if n < 116 then Pick(n % 4, DecodeEntry(113, 343), DecodeEntry(425, 114), DecodeEntry(115, 504), DecodeEntry(17, 0))
    else if n < 120 then Pick(n % 4, DecodeEntry(117, 141), DecodeEntry(118, 186), DecodeEntry(119, 321), DecodeEntry(351, 120))
    else if n < 124 then Pick(n % 4, DecodeEntry(121, 432), DecodeEntry(18, 0), DecodeEntry(355, 123), DecodeEntry(124, 436))
    else Pick(n % 4, DecodeEntry(19, 0), DecodeEntry(359, 126), DecodeEntry(127, 440), DecodeEntry(20, 0))
  }

  function DecodeBlock2(n: nat): DecodeEntry {
    if n < 132 then Pick(n % 4, DecodeEntry(364, 129), DecodeEntry(130, 444), DecodeEntry(21, 0), DecodeEntry(132, 145))
    else if n < 136 then Pick(n % 4, DecodeEntry(368, 133), DecodeEntry(134, 448), DecodeEntry(22, 0), DecodeEntry(372, 136))
    else if n < 140 then Pick(n % 4, DecodeEntry(137, 452), DecodeEntry(23, 0), DecodeEntry(377, 139), DecodeEntry(140, 456))
    else if n < 144 then Pick(n % 4, DecodeEntry(24, 0), DecodeEntry(142, 234), DecodeEntry(143, 236), DecodeEntry(144, 383))
    else if n < 148 then Pick(n % 4, DecodeEntry(25, 0), DecodeEntry(366, 146), DecodeEntry(147, 446), DecodeEntry(26, 0))
    else if n < 152 then Pick(n % 4, DecodeEntry(387, 149), DecodeEntry(385, 150), DecodeEntry(151, 462), DecodeEntry(27, 0))
    else if n < 156 then Pick(n % 4, DecodeEntry(390, 153), DecodeEntry(154, 467), DecodeEntry(28, 0), DecodeEntry(394, 156))
    else if n < 160 then Pick(n % 4, DecodeEntry(157, 471), DecodeEntry(29, 0), DecodeEntry(398, 159), DecodeEntry(160, 475))
    else if n < 164 then Pick(n % 4, DecodeEntry(30, 0), DecodeEntry(402, 162), DecodeEntry(163, 481), DecodeEntry(31, 0))
    else if n < 168 then Pick(n % 4, DecodeEntry(32, 0), DecodeEntry(175, 166), DecodeEntry(214, 167), DecodeEntry(211, 168))
    else if n < 172 then Pick(n % 4, DecodeEntry(169, 195), DecodeEntry(243, 170), DecodeEntry(171, 281), DecodeEntry(286, 172))
    else if n < 176 then Pick(n % 4, DecodeEntry(33, 0), DecodeEntry(265, 174), DecodeEntry(34, 0), DecodeEntry(176, 202))
    else if n < 180 then Pick(n % 4, DecodeEntry(177, 315), DecodeEntry(178, 297), DecodeEntry(179, 232), DecodeEntry(180, 252))
    else if n < 184 then Pick(n % 4, DecodeEntry(181, 228), DecodeEntry(189, 182), DecodeEntry(255, 183), DecodeEntry(35, 0))
    else if n < 188 then Pick(n % 4, DecodeEntry(185, 242), DecodeEntry(36, 0), DecodeEntry(284, 187), DecodeEntry(192, 188))
    else Pick(n % 4, DecodeEntry(37, 0), DecodeEntry(190, 241), DecodeEntry(191, 201), DecodeEntry(38, 0))
  }

  function DecodeBlock3(n: nat): DecodeEntry {
    if n < 196 then Pick(n % 4, DecodeEntry(39, 0), DecodeEntry(194, 227), DecodeEntry(40, 0), DecodeEntry(196, 267))
    else if n < 200 then Pick(n % 4, DecodeEntry(197, 220), DecodeEntry(237, 198), DecodeEntry(41, 0), DecodeEntry(200, 309))
    else if n < 204 then Pick(n % 4, DecodeEntry(42, 0), DecodeEntry(43, 0), DecodeEntry(203, 260), DecodeEntry(204, 268))
    else if n < 208 then Pick(n % 4, DecodeEntry(308, 205), DecodeEntry(44, 0), DecodeEntry(244, 207), DecodeEntry(45, 0))
    else if n < 212 then Pick(n % 4, DecodeEntry(304, 209), DecodeEntry(210, 223), DecodeEntry(46, 0), DecodeEntry(212, 258))
    else if n < 216 then Pick(n % 4, DecodeEntry(238, 213), DecodeEntry(47, 0), DecodeEntry(215, 303), DecodeEntry(216, 249))
    else if n < 220 then Pick(n % 4, DecodeEntry(273, 217), DecodeEntry(48, 0), DecodeEntry(219, 316), DecodeEntry(49, 0))
    else if n < 224 then Pick(n % 4, DecodeEntry(50, 0), DecodeEntry(222, 278), DecodeEntry(51, 0), DecodeEntry(224, 264))
    else if n < 228 then Pick(n % 4, DecodeEntry(250, 225), DecodeEntry(230, 226), DecodeEntry(52, 0), DecodeEntry(53, 0))
    else if n < 232 then Pick(n % 4, DecodeEntry(54, 0), DecodeEntry(55, 0), DecodeEntry(56, 0), DecodeEntry(57, 0))
    else if n < 236 then Pick(n % 4, DecodeEntry(251, 233), DecodeEntry(58, 0), DecodeEntry(363, 235), DecodeEntry(59, 0))
    else if n < 240 then Pick(n % 4, DecodeEntry(60, 0), DecodeEntry(61, 0), DecodeEntry(239, 256), DecodeEntry(240, 480))
    else if n < 244 then Pick(n % 4, DecodeEntry(62, 0), DecodeEntry(63, 0), DecodeEntry(64, 0), DecodeEntry(65, 0))
    else if n < 248 then Pick(n % 4, DecodeEntry(66, 0), DecodeEntry(67, 0), DecodeEntry(299, 247), DecodeEntry(275, 248))
    else if n < 252 then Pick(n % 4, DecodeEntry(68, 0), DecodeEntry(69, 0), DecodeEntry(70, 0), DecodeEntry(71, 0))
    else Pick(n % 4, DecodeEntry(72, 0), DecodeEntry(271, 254), DecodeEntry(73, 0), DecodeEntry(74, 0))
  }

  function DecodeBlock4(n: nat): DecodeEntry {
    if n < 260 then Pick(n % 4, DecodeEntry(75, 0), DecodeEntry(76, 0), DecodeEntry(259, 269), DecodeEntry(77, 0))
    else if n < 264 then Pick(n % 4, DecodeEntry(293, 261), DecodeEntry(262, 263), DecodeEntry(78, 0), DecodeEntry(79, 0))
    else if n < 268 then Pick(n % 4, DecodeEntry(80, 0), DecodeEntry(279, 266), DecodeEntry(81, 0), DecodeEntry(82, 0))
    else if n < 272 then Pick(n % 4, DecodeEntry(83, 0), DecodeEntry(84, 0), DecodeEntry(85, 0), DecodeEntry(342, 272))
    else if n < 276 then Pick(n % 4, DecodeEntry(86, 0), DecodeEntry(274, 335), DecodeEntry(87, 0), DecodeEntry(276, 302))
    else if n < 280 then Pick(n % 4, DecodeEntry(88, 0), DecodeEntry(89, 0), DecodeEntry(90, 0), DecodeEntry(283, 280))
    else if n < 284 then Pick(n % 4, DecodeEntry(91, 0), DecodeEntry(374, 282), DecodeEntry(92, 0), DecodeEntry(93, 0))
    else if n < 288 then Pick(n % 4, DecodeEntry(291, 285), DecodeEntry(94, 0), DecodeEntry(301, 287), DecodeEntry(288, 326))
    else if n < 292 then Pick(n % 4, DecodeEntry(323, 289), DecodeEntry(290, 427), DecodeEntry(95, 0), DecodeEntry(96, 0))
    else if n < 296 then Pick(n % 4, DecodeEntry(97, 0), DecodeEntry(98, 0), DecodeEntry(99, 0), DecodeEntry(100, 0))
    else if n < 300 then Pick(n % 4, DecodeEntry(101, 0), DecodeEntry(102, 0), DecodeEntry(103, 0), DecodeEntry(104, 0))
    else if n < 304 then Pick(n % 4, DecodeEntry(105, 0), DecodeEntry(106, 0), DecodeEntry(107, 0), DecodeEntry(108, 0))
    else if n < 308 then Pick(n % 4, DecodeEntry(305, 307), DecodeEntry(109, 0), DecodeEntry(110, 0), DecodeEntry(111, 0))
    else if n < 312 then Pick(n % 4, DecodeEntry(112, 0), DecodeEntry(310, 384), DecodeEntry(113, 0), DecodeEntry(312, 314))
    else if n < 316 then Pick(n % 4, DecodeEntry(114, 0), DecodeEntry(115, 0), DecodeEntry(116, 0), DecodeEntry(117, 0))
    else Pick(n % 4, DecodeEntry(118, 0), DecodeEntry(119, 0), DecodeEntry(120, 0), DecodeEntry(121, 0))
  }

  function DecodeBlock5(n: nat): DecodeEntry {
    if n < 324 then Pick(n % 4, DecodeEntry(122, 0), DecodeEntry(322, 325), DecodeEntry(123, 0), DecodeEntry(349, 324))
    else if n < 328 then Pick(n % 4, DecodeEntry(124, 0), DecodeEntry(125, 0), DecodeEntry(327, 476), DecodeEntry(126, 0))
    else if n < 332 then Pick(n % 4, DecodeEntry(406, 329), DecodeEntry(330, 485), DecodeEntry(127, 0), DecodeEntry(412, 332))
    else if n < 336 then Pick(n % 4, DecodeEntry(410, 333), DecodeEntry(334, 489), DecodeEntry(128, 0), DecodeEntry(129, 0))
    else if n < 340 then Pick(n % 4, DecodeEntry(415, 337), DecodeEntry(338, 494), DecodeEntry(130, 0), DecodeEntry(419, 340))
    else if n < 344 then Pick(n % 4, DecodeEntry(341, 498), DecodeEntry(131, 0), DecodeEntry(132, 0), DecodeEntry(423, 344))
    else if n < 348 then Pick(n % 4, DecodeEntry(345, 502), DecodeEntry(133, 0), DecodeEntry(428, 347), DecodeEntry(348, 506))
    else if n < 352 then Pick(n % 4, DecodeEntry(134, 0), DecodeEntry(350, 510), DecodeEntry(135, 0), DecodeEntry(352, 433))
    else if n < 356 then Pick(n % 4, DecodeEntry(136, 0), DecodeEntry(354, 435), DecodeEntry(137, 0), DecodeEntry(356, 437))
    else if n < 360 then Pick(n % 4, DecodeEntry(138, 0), DecodeEntry(358, 439), DecodeEntry(139, 0), DecodeEntry(360, 441))
    else if n < 364 then Pick(n % 4, DecodeEntry(140, 0), DecodeEntry(362, 443), DecodeEntry(141, 0), DecodeEntry(142, 0))
    else if n < 368 then Pick(n % 4, DecodeEntry(365, 445), DecodeEntry(143, 0), DecodeEntry(367, 447), DecodeEntry(144, 0))
    else if n < 372 then Pick(n % 4, DecodeEntry(369, 449), DecodeEntry(145, 0), DecodeEntry(371, 451), DecodeEntry(146, 0))
    else if n < 376 then Pick(n % 4, DecodeEntry(373, 453), DecodeEntry(147, 0), DecodeEntry(148, 0), DecodeEntry(376, 455))
    else if n < 380 then Pick(n % 4, DecodeEntry(149, 0), DecodeEntry(378, 457), DecodeEntry(150, 0), DecodeEntry(380, 459))
    else Pick(n % 4, DecodeEntry(151, 0), DecodeEntry(382, 461), DecodeEntry(152, 0), DecodeEntry(153, 0))
  }

  function DecodeBlock6(n: nat): DecodeEntry {
    if n < 388 then Pick(n % 4, DecodeEntry(154, 0), DecodeEntry(386, 463), DecodeEntry(155, 0), DecodeEntry(388, 464))
    else if n < 392 then Pick(n % 4, DecodeEntry(389, 466), DecodeEntry(156, 0), DecodeEntry(391, 468), DecodeEntry(157, 0))
    else if n < 396 then Pick(n % 4, DecodeEntry(393, 470), DecodeEntry(158, 0), DecodeEntry(395, 472), DecodeEntry(159, 0))
    else if n < 400 then Pick(n % 4, DecodeEntry(397, 474), DecodeEntry(160, 0), DecodeEntry(399, 477), DecodeEntry(161, 0))
    else if n < 404 then Pick(n % 4, DecodeEntry(401, 479), DecodeEntry(162, 0), DecodeEntry(403, 482), DecodeEntry(163, 0))
    else if n < 408 then Pick(n % 4, DecodeEntry(405, 484), DecodeEntry(164, 0), DecodeEntry(407, 486), DecodeEntry(165, 0))
    else if n < 412 then Pick(n % 4, DecodeEntry(409, 488), DecodeEntry(166, 0), DecodeEntry(411, 490), DecodeEntry(167, 0))
    else if n < 416 then Pick(n % 4, DecodeEntry(413, 491), DecodeEntry(414, 493), DecodeEntry(168, 0), DecodeEntry(416, 495))
    else if n < 420 then Pick(n % 4, DecodeEntry(169, 0), DecodeEntry(418, 497), DecodeEntry(170, 0), DecodeEntry(420, 499))
    else if n < 424 then Pick(n % 4, DecodeEntry(171, 0), DecodeEntry(422, 501), DecodeEntry(172, 0), DecodeEntry(424, 503))
    else if n < 428 then Pick(n % 4, DecodeEntry(173, 0), DecodeEntry(426, 505), DecodeEntry(174, 0), DecodeEntry(175, 0))
    else if n < 432 then Pick(n % 4, DecodeEntry(429, 507), DecodeEntry(176, 0), DecodeEntry(431, 509), DecodeEntry(177, 0))
    else if n < 436 then Pick(n % 4, DecodeEntry(178, 0), DecodeEntry(179, 0), DecodeEntry(180, 0), DecodeEntry(181, 0))
    else if n < 440 then Pick(n % 4, DecodeEntry(182, 0), DecodeEntry(183, 0), DecodeEntry(184, 0), DecodeEntry(185, 0))
    else if n < 444 then Pick(n % 4, DecodeEntry(186, 0), DecodeEntry(187, 0), DecodeEntry(188, 0), DecodeEntry(189, 0))
    else Pick(n % 4, DecodeEntry(190, 0), DecodeEntry(191, 0), DecodeEntry(192, 0), DecodeEntry(193, 0))
  }

  function DecodeBlock7(n: nat): DecodeEntry {
    if n < 452 then Pick(n % 4, DecodeEntry(194, 0), DecodeEntry(195, 0), DecodeEntry(196, 0), DecodeEntry(197, 0))
    else if n < 456 then Pick(n % 4, DecodeEntry(198, 0), DecodeEntry(199, 0), DecodeEntry(200, 0), DecodeEntry(201, 0))
    else if n < 460 then Pick(n % 4, DecodeEntry(202, 0), DecodeEntry(203, 0), DecodeEntry(204, 0), DecodeEntry(205, 0))
    else if n < 464 then Pick(n % 4, DecodeEntry(206, 0), DecodeEntry(207, 0), DecodeEntry(208, 0), DecodeEntry(209, 0))
    else if n < 468 then Pick(n % 4, DecodeEntry(0, 465), DecodeEntry(210, 0), DecodeEntry(211, 0), DecodeEntry(212, 0))
    else if n < 472 then Pick(n % 4, DecodeEntry(213, 0), DecodeEntry(214, 0), DecodeEntry(215, 0), DecodeEntry(216, 0))
    else if n < 476 then Pick(n % 4, DecodeEntry(217, 0), DecodeEntry(218, 0), DecodeEntry(219, 0), DecodeEntry(220, 0))
    else if n < 480 then Pick(n % 4, DecodeEntry(221, 0), DecodeEntry(222, 0), DecodeEntry(223, 0), DecodeEntry(224, 0))
    else if n < 484 then Pick(n % 4, DecodeEntry(225, 0), DecodeEntry(226, 0), DecodeEntry(227, 0), DecodeEntry(228, 0))
    else if n < 488 then Pick(n % 4, DecodeEntry(229, 0), DecodeEntry(230, 0), DecodeEntry(231, 0), DecodeEntry(232, 0))
    else if n < 492 then Pick(n % 4, DecodeEntry(233, 0), DecodeEntry(234, 0), DecodeEntry(235, 0), DecodeEntry(0, 492))
    else if n < 496 then Pick(n % 4, DecodeEntry(236, 0), DecodeEntry(237, 0), DecodeEntry(238, 0), DecodeEntry(239, 0))
    else if n < 500 then Pick(n % 4, DecodeEntry(240, 0), DecodeEntry(241, 0), DecodeEntry(242, 0), DecodeEntry(243, 0))
    else if n < 504 then Pick(n % 4, DecodeEntry(244, 0), DecodeEntry(245, 0), DecodeEntry(246, 0), DecodeEntry(247, 0))
    else if n < 508 then Pick(n % 4, DecodeEntry(248, 0), DecodeEntry(249, 0), DecodeEntry(250, 0), DecodeEntry(251, 0))
    else Pick(n % 4, DecodeEntry(252, 0), DecodeEntry(253, 0), DecodeEntry(512, 511), DecodeEntry(254, 0))
  }

  function DecodeBlock8(n: nat): DecodeEntry {
    DecodeEntry(255, 0)
  }

  // ----- agreement

  /** Following the k leading bits of code from node n passes inner nodes only and ends at
      the leaf of octet b. */
  predicate Leads(n: nat, code: bv16, k: nat, b: nat)
    decreases k
  {
    n < NODES &&
    var e := DecodeTab(n);
    if k == 0 then
      n != 0 && e == DecodeEntry(b, 0)
    else
      var c := if code & 0x8000 != 0 then e.node2 else e.node1;
      e.node2 != 0 && c != 0 && Leads(c, code << 1, k - 1, b)
  }

  predicate Agrees(b: nat)
    requires b < 256
  {
    var e := EncodeTab(b);
    1 <= e.len <= 15 && Leads(0, e.code, e.len, b)
  }

  /** The children of an inner node are nodes; the value of a leaf is an octet. */
  predicate Closed(n: nat)
    requires n < NODES
  {
    var e := DecodeTab(n);
    if e.node2 == 0 then e.node1 < 256 else e.node1 < NODES && e.node2 < NODES
  }

  lemma TablesAgree(b: nat)
    requires b < 256
    ensures Agrees(b)
  {
    hide *;
    Agree0();
    Agree16();
    Agree32();
    Agree48();
    Agree64();
    Agree80();
    Agree96();
    Agree112();
    Agree128();
    Agree144();
    Agree160();
    Agree176();
    Agree192();
    Agree208();
    Agree224();
    Agree240();
  }

  lemma TableIsClosed(n: nat)
    requires n < NODES
    ensures Closed(n)
  {
    hide DecodeTab, Closed, Node;
    RowsHold0();
    RowsHold16();
    RowsHold32();
    RowsHold48();
    RowsHold64();
    RowsHold80();
    RowsHold96();
    RowsHold112();
    RowsHold128();
    RowsHold144();
    RowsHold160();
    RowsHold176();
    RowsHold192();
    RowsHold208();
    RowsHold224();
    RowsHold240();
    RowsHold256();
    RowsHold272();
    RowsHold288();
    RowsHold304();
    RowsHold320();
    RowsHold336();
    RowsHold352();
    RowsHold368();
    RowsHold384();
    RowsHold400();
    RowsHold416();
    RowsHold432();
    RowsHold448();
    RowsHold464();
    RowsHold480();
    RowsHold496();
    RowsHold512();
  }

  /** The root is an inner node with two inner children. */
  lemma RootEntry()
    ensures DecodeTab(0) == DecodeEntry(79, 1)
  {
  }

  // ----- the decoding table, row by row

  predicate Node(n: nat, node1: nat, node2: nat)
    requires n < NODES
  {
    DecodeTab(n) == DecodeEntry(node1, node2)
  }

  lemma DecodeRows()
    ensures Rows0() && Rows16() && Rows32() && Rows48() && Rows64() && Rows80() && Rows96() && Rows112()
    ensures Rows128() && Rows144() && Rows160() && Rows176() && Rows192() && Rows208() && Rows224() && Rows240()
    ensures Rows256() && Rows272() && Rows288() && Rows304() && Rows320() && Rows336() && Rows352() && Rows368()
    ensures Rows384() && Rows400() && Rows416() && Rows432() && Rows448() && Rows464() && Rows480() && Rows496()
    ensures Rows512()
  {
    hide DecodeTab;
    RowsHold0();
    RowsHold16();
    RowsHold32();
    RowsHold48();
    RowsHold64();
    RowsHold80();
    RowsHold96();
    RowsHold112();
    RowsHold128();
    RowsHold144();
    RowsHold160();
    RowsHold176();
    RowsHold192();
    RowsHold208();
    RowsHold224();
    RowsHold240();
    RowsHold256();
    RowsHold272();
    RowsHold288();
    RowsHold304();
    RowsHold320();
    RowsHold336();
    RowsHold352();
    RowsHold368();
    RowsHold384();
    RowsHold400();
    RowsHold416();
    RowsHold432();
    RowsHold448();
    RowsHold464();
    RowsHold480();
    RowsHold496();
    RowsHold512();
  }

  predicate Rows0() {
    && Node(0, 79, 1) && Node(1, 2, 66) && Node(2, 24, 3) && Node(3, 4, 208)
    && Node(4, 292, 5) && Node(5, 6, 298) && Node(6, 317, 7) && Node(7, 16, 8)
    && Node(8, 9, 173) && Node(9, 10, 116) && Node(10, 41, 11) && Node(11, 12, 37)
    && Node(12, 125, 13) && Node(13, 357, 14) && Node(14, 15, 438) && Node(15, 0, 0)
  }

  lemma RowsHold0()
    ensures Rows0()
    ensures forall n | 0 <= n < 16 :: Closed(n)
  {
  }

  predicate Rows16() {
    && Node(16, 229, 17) && Node(17, 18, 46) && Node(18, 19, 61) && Node(19, 20, 99)
    && Node(20, 21, 161) && Node(21, 404, 22) && Node(22, 23, 483) && Node(23, 1, 0)
    && Node(24, 306, 25) && Node(25, 313, 26) && Node(26, 294, 27) && Node(27, 245, 28)
    && Node(28, 221, 29) && Node(29, 231, 30) && Node(30, 277, 31) && Node(31, 32, 103)
  }

  lemma RowsHold16()
    ensures Rows16()
    ensures forall n | 16 <= n < 32 :: Closed(n)
  {
  }

  predicate Rows32() {
    && Node(32, 33, 108) && Node(33, 34, 339) && Node(34, 421, 35) && Node(35, 36, 500)
    && Node(36, 2, 0) && Node(37, 122, 38) && Node(38, 353, 39) && Node(39, 40, 434)
    && Node(40, 3, 0) && Node(41, 131, 42) && Node(42, 128, 43) && Node(43, 361, 44)
    && Node(44, 45, 442) && Node(45, 4, 0) && Node(46, 56, 47) && Node(47, 52, 48)
  }

  lemma RowsHold32()
    ensures Rows32()
    ensures forall n | 32 <= n < 48 :: Closed(n)
  {
  }

  predicate Rows48() {
    && Node(48, 135, 49) && Node(49, 370, 50) && Node(50, 51, 450) && Node(51, 5, 0)
    && Node(52, 138, 53) && Node(53, 375, 54) && Node(54, 55, 454) && Node(55, 6, 0)
    && Node(56, 148, 57) && Node(57, 58, 94) && Node(58, 381, 59) && Node(59, 60, 460)
    && Node(60, 7, 0) && Node(61, 75, 62) && Node(62, 63, 152) && Node(63, 392, 64)
  }

  lemma RowsHold48()
    ensures Rows48()
    ensures forall n | 48 <= n < 64 :: Closed(n)
  {
  }

  predicate Rows64() {
    && Node(64, 65, 469) && Node(65, 8, 0) && Node(66, 164, 67) && Node(67, 311, 68)
    && Node(68, 69, 246) && Node(69, 70, 97) && Node(70, 253, 71) && Node(71, 257, 72)
    && Node(72, 73, 270) && Node(73, 319, 74) && Node(74, 9, 0) && Node(75, 76, 155)
    && Node(76, 396, 77) && Node(77, 78, 473) && Node(78, 10, 0) && Node(79, 165, 80)
  }

  lemma RowsHold64()
    ensures Rows64()
    ensures forall n | 64 <= n < 80 :: Closed(n)
  {
  }

  predicate Rows80() {
    && Node(80, 296, 81) && Node(81, 300, 82) && Node(82, 295, 83) && Node(83, 206, 84)
    && Node(84, 85, 320) && Node(85, 193, 86) && Node(86, 87, 318) && Node(87, 199, 88)
    && Node(88, 184, 89) && Node(89, 90, 112) && Node(90, 91, 346) && Node(91, 430, 92)
    && Node(92, 93, 508) && Node(93, 11, 0) && Node(94, 379, 95) && Node(95, 96, 458)
  }

  lemma RowsHold80()
    ensures Rows80()
    ensures forall n | 80 <= n < 96 :: Closed(n)
  {
  }

  predicate Rows96() {
    && Node(96, 12, 0) && Node(97, 98, 218) && Node(98, 13, 0) && Node(99, 100, 158)
    && Node(100, 400, 101) && Node(101, 102, 478) && Node(102, 14, 0) && Node(103, 331, 104)
    && Node(104, 105, 328) && Node(105, 408, 106) && Node(106, 107, 487) && Node(107, 15, 0)
    && Node(108, 109, 336) && Node(109, 417, 110) && Node(110, 111, 496) && Node(111, 16, 0)
  }

  lemma RowsHold96()
    ensures Rows96()
    ensures forall n | 96 <= n < 112 :: Closed(n)
  {
  }

  predicate Rows112() {
    && Node(112, 113, 343) && Node(113, 425, 114) && Node(114, 115, 504) && Node(115, 17, 0)
    && Node(116, 117, 141) && Node(117, 118, 186) && Node(118, 119, 321) && Node(119, 351, 120)
    && Node(120, 121, 432) && Node(121, 18, 0) && Node(122, 355, 123) && Node(123, 124, 436)
    && Node(124, 19, 0) && Node(125, 359, 126) && Node(126, 127, 440) && Node(127, 20, 0)
  }

  lemma RowsHold112()
    ensures Rows112()
    ensures forall n | 112 <= n < 128 :: Closed(n)
  {
  }

  predicate Rows128() {
    && Node(128, 364, 129) && Node(129, 130, 444) && Node(130, 21, 0) && Node(131, 132, 145)
    && Node(132, 368, 133) && Node(133, 134, 448) && Node(134, 22, 0) && Node(135, 372, 136)
    && Node(136, 137, 452) && Node(137, 23, 0) && Node(138, 377, 139) && Node(139, 140, 456)
    && Node(140, 24, 0) && Node(141, 142, 234) && Node(142, 143, 236) && Node(143, 144, 383)
  }

  lemma RowsHold128()
    ensures Rows128()
    ensures forall n | 128 <= n < 144 :: Closed(n)
  {
  }

  predicate Rows144() {
    && Node(144, 25, 0) && Node(145, 366, 146) && Node(146, 147, 446) && Node(147, 26, 0)
    && Node(148, 387, 149) && Node(149, 385, 150) && Node(150, 151, 462) && Node(151, 27, 0)
    && Node(152, 390, 153) && Node(153, 154, 467) && Node(154, 28, 0) && Node(155, 394, 156)
    && Node(156, 157, 471) && Node(157, 29, 0) && Node(158, 398, 159) && Node(159, 160, 475)
  }

  lemma RowsHold144()
    ensures Rows144()
    ensures forall n | 144 <= n < 160 :: Closed(n)
  {
  }

  predicate Rows160() {
    && Node(160, 30, 0) && Node(161, 402, 162) && Node(162, 163, 481) && Node(163, 31, 0)
    && Node(164, 32, 0) && Node(165, 175, 166) && Node(166, 214, 167) && Node(167, 211, 168)
    && Node(168, 169, 195) && Node(169, 243, 170) && Node(170, 171, 281) && Node(171, 286, 172)
    && Node(172, 33, 0) && Node(173, 265, 174) && Node(174, 34, 0) && Node(175, 176, 202)
  }

  lemma RowsHold160()
    ensures Rows160()
    ensures forall n | 160 <= n < 176 :: Closed(n)
  {
  }

  predicate Rows176() {
    && Node(176, 177, 315) && Node(177, 178, 297) && Node(178, 179, 232) && Node(179, 180, 252)
    && Node(180, 181, 228) && Node(181, 189, 182) && Node(182, 255, 183) && Node(183, 35, 0)
    && Node(184, 185, 242) && Node(185, 36, 0) && Node(186, 284, 187) && Node(187, 192, 188)
    && Node(188, 37, 0) && Node(189, 190, 241) && Node(190, 191, 201) && Node(191, 38, 0)
  }

  lemma RowsHold176()
    ensures Rows176()
    ensures forall n | 176 <= n < 192 :: Closed(n)
  {
  }

  predicate Rows192() {
    && Node(192, 39, 0) && Node(193, 194, 227) && Node(194, 40, 0) && Node(195, 196, 267)
    && Node(196, 197, 220) && Node(197, 237, 198) && Node(198, 41, 0) && Node(199, 200, 309)
    && Node(200, 42, 0) && Node(201, 43, 0) && Node(202, 203, 260) && Node(203, 204, 268)
    && Node(204, 308, 205) && Node(205, 44, 0) && Node(206, 244, 207) && Node(207, 45, 0)
  }

  lemma RowsHold192()
    ensures Rows192()
    ensures forall n | 192 <= n < 208 :: Closed(n)
  {
  }

  predicate Rows208() {
    && Node(208, 304, 209) && Node(209, 210, 223) && Node(210, 46, 0) && Node(211, 212, 258)
    && Node(212, 238, 213) && Node(213, 47, 0) && Node(214, 215, 303) && Node(215, 216, 249)
    && Node(216, 273, 217) && Node(217, 48, 0) && Node(218, 219, 316) && Node(219, 49, 0)
    && Node(220, 50, 0) && Node(221, 222, 278) && Node(222, 51, 0) && Node(223, 224, 264)
  }

  lemma RowsHold208()
    ensures Rows208()
    ensures forall n | 208 <= n < 224 :: Closed(n)
  {
  }

  predicate Rows224() {
    && Node(224, 250, 225) && Node(225, 230, 226) && Node(226, 52, 0) && Node(227, 53, 0)
    && Node(228, 54, 0) && Node(229, 55, 0) && Node(230, 56, 0) && Node(231, 57, 0)
    && Node(232, 251, 233) && Node(233, 58, 0) && Node(234, 363, 235) && Node(235, 59, 0)
    && Node(236, 60, 0) && Node(237, 61, 0) && Node(238, 239, 256) && Node(239, 240, 480)
  }

  lemma RowsHold224()
    ensures Rows224()
    ensures forall n | 224 <= n < 240 :: Closed(n)
  {
  }

  predicate Rows240() {
    && Node(240, 62, 0) && Node(241, 63, 0) && Node(242, 64, 0) && Node(243, 65, 0)
    && Node(244, 66, 0) && Node(245, 67, 0) && Node(246, 299, 247) && Node(247, 275, 248)
    && Node(248, 68, 0) && Node(249, 69, 0) && Node(250, 70, 0) && Node(251, 71, 0)
    && Node(252, 72, 0) && Node(253, 271, 254) && Node(254, 73, 0) && Node(255, 74, 0)
  }

  lemma RowsHold240()
    ensures Rows240()
    ensures forall n | 240 <= n < 256 :: Closed(n)
  {
  }

  predicate Rows256() {
    && Node(256, 75, 0) && Node(257, 76, 0) && Node(258, 259, 269) && Node(259, 77, 0)
    && Node(260, 293, 261) && Node(261, 262, 263) && Node(262, 78, 0) && Node(263, 79, 0)
    && Node(264, 80, 0) && Node(265, 279, 266) && Node(266, 81, 0) && Node(267, 82, 0)
    && Node(268, 83, 0) && Node(269, 84, 0) && Node(270, 85, 0) && Node(271, 342, 272)
  }

  lemma RowsHold256()
    ensures Rows256()
    ensures forall n | 256 <= n < 272 :: Closed(n)
  {
  }

  predicate Rows272() {
    && Node(272, 86, 0) && Node(273, 274, 335) && Node(274, 87, 0) && Node(275, 276, 302)
    && Node(276, 88, 0) && Node(277, 89, 0) && Node(278, 90, 0) && Node(279, 283, 280)
    && Node(280, 91, 0) && Node(281, 374, 282) && Node(282, 92, 0) && Node(283, 93, 0)
    && Node(284, 291, 285) && Node(285, 94, 0) && Node(286, 301, 287) && Node(287, 288, 326)
  }

  lemma RowsHold272()
    ensures Rows272()
    ensures forall n | 272 <= n < 288 :: Closed(n)
  {
  }

  predicate Rows288() {
    && Node(288, 323, 289) && Node(289, 290, 427) && Node(290, 95, 0) && Node(291, 96, 0)
    && Node(292, 97, 0) && Node(293, 98, 0) && Node(294, 99, 0) && Node(295, 100, 0)
    && Node(296, 101, 0) && Node(297, 102, 0) && Node(298, 103, 0) && Node(299, 104, 0)
    && Node(300, 105, 0) && Node(301, 106, 0) && Node(302, 107, 0) && Node(303, 108, 0)
  }

  lemma RowsHold288()
    ensures Rows288()
    ensures forall n | 288 <= n < 304 :: Closed(n)
  {
  }

  predicate Rows304() {
    && Node(304, 305, 307) && Node(305, 109, 0) && Node(306, 110, 0) && Node(307, 111, 0)
    && Node(308, 112, 0) && Node(309, 310, 384) && Node(310, 113, 0) && Node(311, 312, 314)
    && Node(312, 114, 0) && Node(313, 115, 0) && Node(314, 116, 0) && Node(315, 117, 0)
    && Node(316, 118, 0) && Node(317, 119, 0) && Node(318, 120, 0) && Node(319, 121, 0)
  }

  lemma RowsHold304()
    ensures Rows304()
    ensures forall n | 304 <= n < 320 :: Closed(n)
  {
  }

  predicate Rows320() {
    && Node(320, 122, 0) && Node(321, 322, 325) && Node(322, 123, 0) && Node(323, 349, 324)
    && Node(324, 124, 0) && Node(325, 125, 0) && Node(326, 327, 476) && Node(327, 126, 0)
    && Node(328, 406, 329) && Node(329, 330, 485) && Node(330, 127, 0) && Node(331, 412, 332)
    && Node(332, 410, 333) && Node(333, 334, 489) && Node(334, 128, 0) && Node(335, 129, 0)
  }

  lemma RowsHold320()
    ensures Rows320()
    ensures forall n | 320 <= n < 336 :: Closed(n)
  {
  }

  predicate Rows336() {
    && Node(336, 415, 337) && Node(337, 338, 494) && Node(338, 130, 0) && Node(339, 419, 340)
    && Node(340, 341, 498) && Node(341, 131, 0) && Node(342, 132, 0) && Node(343, 423, 344)
    && Node(344, 345, 502) && Node(345, 133, 0) && Node(346, 428, 347) && Node(347, 348, 506)
    && Node(348, 134, 0) && Node(349, 350, 510) && Node(350, 135, 0) && Node(351, 352, 433)
  }

  lemma RowsHold336()
    ensures Rows336()
    ensures forall n | 336 <= n < 352 :: Closed(n)
  {
  }

  predicate Rows352() {
    && Node(352, 136, 0) && Node(353, 354, 435) && Node(354, 137, 0) && Node(355, 356, 437)
    && Node(356, 138, 0) && Node(357, 358, 439) && Node(358, 139, 0) && Node(359, 360, 441)
    && Node(360, 140, 0) && Node(361, 362, 443) && Node(362, 141, 0) && Node(363, 142, 0)
    && Node(364, 365, 445) && Node(365, 143, 0) && Node(366, 367, 447) && Node(367, 144, 0)
  }

  lemma RowsHold352()
    ensures Rows352()
    ensures forall n | 352 <= n < 368 :: Closed(n)
  {
  }

  predicate Rows368() {
    && Node(368, 369, 449) && Node(369, 145, 0) && Node(370, 371, 451) && Node(371, 146, 0)
    && Node(372, 373, 453) && Node(373, 147, 0) && Node(374, 148, 0) && Node(375, 376, 455)
    && Node(376, 149, 0) && Node(377, 378, 457) && Node(378, 150, 0) && Node(379, 380, 459)
    && Node(380, 151, 0) && Node(381, 382, 461) && Node(382, 152, 0) && Node(383, 153, 0)
  }

  lemma RowsHold368()
    ensures Rows368()
    ensures forall n | 368 <= n < 384 :: Closed(n)
  {
  }

  predicate Rows384() {
    && Node(384, 154, 0) && Node(385, 386, 463) && Node(386, 155, 0) && Node(387, 388, 464)
    && Node(388, 389, 466) && Node(389, 156, 0) && Node(390, 391, 468) && Node(391, 157, 0)
    && Node(392, 393, 470) && Node(393, 158, 0) && Node(394, 395, 472) && Node(395, 159, 0)
    && Node(396, 397, 474) && Node(397, 160, 0) && Node(398, 399, 477) && Node(399, 161, 0)
  }

  lemma RowsHold384()
    ensures Rows384()
    ensures forall n | 384 <= n < 400 :: Closed(n)
  {
  }

  predicate Rows400() {
    && Node(400, 401, 479) && Node(401, 162, 0) && Node(402, 403, 482) && Node(403, 163, 0)
    && Node(404, 405, 484) && Node(405, 164, 0) && Node(406, 407, 486) && Node(407, 165, 0)
    && Node(408, 409, 488) && Node(409, 166, 0) && Node(410, 411, 490) && Node(411, 167, 0)
    && Node(412, 413, 491) && Node(413, 414, 493) && Node(414, 168, 0) && Node(415, 416, 495)
  }

  lemma RowsHold400()
    ensures Rows400()
    ensures forall n | 400 <= n < 416 :: Closed(n)
  {
  }

  predicate Rows416() {
    && Node(416, 169, 0) && Node(417, 418, 497) && Node(418, 170, 0) && Node(419, 420, 499)
    && Node(420, 171, 0) && Node(421, 422, 501) && Node(422, 172, 0) && Node(423, 424, 503)
    && Node(424, 173, 0) && Node(425, 426, 505) && Node(426, 174, 0) && Node(427, 175, 0)
    && Node(428, 429, 507) && Node(429, 176, 0) && Node(430, 431, 509) && Node(431, 177, 0)
  }

  lemma RowsHold416()
    ensures Rows416()
    ensures forall n | 416 <= n < 432 :: Closed(n)
  {
  }

  predicate Rows432() {
    && Node(432, 178, 0) && Node(433, 179, 0) && Node(434, 180, 0) && Node(435, 181, 0)
    && Node(436, 182, 0) && Node(437, 183, 0) && Node(438, 184, 0) && Node(439, 185, 0)
    && Node(440, 186, 0) && Node(441, 187, 0) && Node(442, 188, 0) && Node(443, 189, 0)
    && Node(444, 190, 0) && Node(445, 191, 0) && Node(446, 192, 0) && Node(447, 193, 0)
  }

  lemma RowsHold432()
    ensures Rows432()
    ensures forall n | 432 <= n < 448 :: Closed(n)
  {
  }

  predicate Rows448() {
    && Node(448, 194, 0) && Node(449, 195, 0) && Node(450, 196, 0) && Node(451, 197, 0)
    && Node(452, 198, 0) && Node(453, 199, 0) && Node(454, 200, 0) && Node(455, 201, 0)
    && Node(456, 202, 0) && Node(457, 203, 0) && Node(458, 204, 0) && Node(459, 205, 0)
    && Node(460, 206, 0) && Node(461, 207, 0) && Node(462, 208, 0) && Node(463, 209, 0)
  }

  lemma RowsHold448()
    ensures Rows448()
    ensures forall n | 448 <= n < 464 :: Closed(n)
  {
  }

  predicate Rows464() {
    && Node(464, 0, 465) && Node(465, 210, 0) && Node(466, 211, 0) && Node(467, 212, 0)
    && Node(468, 213, 0) && Node(469, 214, 0) && Node(470, 215, 0) && Node(471, 216, 0)
    && Node(472, 217, 0) && Node(473, 218, 0) && Node(474, 219, 0) && Node(475, 220, 0)
    && Node(476, 221, 0) && Node(477, 222, 0) && Node(478, 223, 0) && Node(479, 224, 0)
  }

  lemma RowsHold464()
    ensures Rows464()
    ensures forall n | 464 <= n < 480 :: Closed(n)
  {
  }

  predicate Rows480() {
    && Node(480, 225, 0) && Node(481, 226, 0) && Node(482, 227, 0) && Node(483, 228, 0)
    && Node(484, 229, 0) && Node(485, 230, 0) && Node(486, 231, 0) && Node(487, 232, 0)
    && Node(488, 233, 0) && Node(489, 234, 0) && Node(490, 235, 0) && Node(491, 0, 492)
    && Node(492, 236, 0) && Node(493, 237, 0) && Node(494, 238, 0) && Node(495, 239, 0)
  }

  lemma RowsHold480()
    ensures Rows480()
    ensures forall n | 480 <= n < 496 :: Closed(n)
  {
  }

  predicate Rows496() {
    && Node(496, 240, 0) && Node(497, 241, 0) && Node(498, 242, 0) && Node(499, 243, 0)
    && Node(500, 244, 0) && Node(501, 245, 0) && Node(502, 246, 0) && Node(503, 247, 0)
    && Node(504, 248, 0) && Node(505, 249, 0) && Node(506, 250, 0) && Node(507, 251, 0)
    && Node(508, 252, 0) && Node(509, 253, 0) && Node(510, 512, 511) && Node(511, 254, 0)
  }

  lemma RowsHold496()
    ensures Rows496()
    ensures forall n | 496 <= n < 512 :: Closed(n)
  {
  }

  predicate Rows512() {
    && Node(512, 255, 0)
  }

  lemma RowsHold512()
    ensures Rows512()
    ensures forall n | 512 <= n < 513 :: Closed(n)
  {
  }

  // ----- sixteen octets at a time; a code of more than eight bits is checked in two parts

  lemma Paths0()
    ensures Leads(0, 0xab2c, 15, 0) && Leads(0, 0xaa84, 15, 1) && Leads(0, 0x9fc4, 15, 2) && Leads(0, 0xab3c, 15, 3)
    ensures Leads(0, 0xab1c, 15, 4) && Leads(0, 0xaafc, 15, 5) && Leads(0, 0xaaec, 15, 6) && Leads(0, 0xaad4, 15, 7)
    ensures Leads(0, 0xaab4, 15, 8) && Leads(0, 0xf340, 10, 9) && Leads(0, 0xaaa4, 15, 10) && Leads(0, 0x7d64, 15, 11)
    ensures Leads(0, 0xaadc, 15, 12) && Leads(0, 0xf400, 7, 13) && Leads(0, 0xaa94, 15, 14) && Leads(0, 0x9ff4, 15, 15)
  {
    hide DecodeTab;
    DecodeRows();
    assert Leads(8, 0x2c00, 7, 0);
    assert Leads(16, 0x8400, 7, 1);
    assert Leads(29, 0xc400, 7, 2);
    assert Leads(8, 0x3c00, 7, 3);
    assert Leads(8, 0x1c00, 7, 4);
    assert Leads(16, 0xfc00, 7, 5);
    assert Leads(16, 0xec00, 7, 6);
    assert Leads(16, 0xd400, 7, 7);
    assert Leads(16, 0xb400, 7, 8);
    assert Leads(72, 0x4000, 2, 9);
    assert Leads(16, 0xa400, 7, 10);
    assert Leads(86, 0x6400, 7, 11);
    assert Leads(16, 0xdc00, 7, 12);
    assert Leads(16, 0x9400, 7, 14);
    assert Leads(29, 0xf400, 7, 15);
  }

  lemma Agree0()
    ensures forall b | 0 <= b < 16 :: Agrees(b)
  {
    hide Leads;
    Paths0();
  }

  lemma Paths16()
    ensures Leads(0, 0x9fd4, 15, 16) && Leads(0, 0x7d74, 15, 17) && Leads(0, 0xab44, 15, 18) && Leads(0, 0xab34, 15, 19)
    ensures Leads(0, 0xab24, 15, 20) && Leads(0, 0xab14, 15, 21) && Leads(0, 0xab04, 15, 22) && Leads(0, 0xaaf4, 15, 23)
    ensures Leads(0, 0xaae4, 15, 24) && Leads(0, 0xab60, 14, 25) && Leads(0, 0xab0c, 15, 26) && Leads(0, 0xaacc, 15, 27)
    ensures Leads(0, 0xaabc, 15, 28) && Leads(0, 0xaaac, 15, 29) && Leads(0, 0xaa9c, 15, 30) && Leads(0, 0xaa8c, 15, 31)
  {
    hide DecodeTab;
    DecodeRows();
    assert Leads(29, 0xd400, 7, 16);
    assert Leads(86, 0x7400, 7, 17);
    assert Leads(8, 0x4400, 7, 18);
    assert Leads(8, 0x3400, 7, 19);
    assert Leads(8, 0x2400, 7, 20);
    assert Leads(8, 0x1400, 7, 21);
    assert Leads(8, 0x0400, 7, 22);
    assert Leads(16, 0xf400, 7, 23);
    assert Leads(16, 0xe400, 7, 24);
    assert Leads(8, 0x6000, 6, 25);
    assert Leads(8, 0x0c00, 7, 26);
    assert Leads(16, 0xcc00, 7, 27);
    assert Leads(16, 0xbc00, 7, 28);
    assert Leads(16, 0xac00, 7, 29);
    assert Leads(16, 0x9c00, 7, 30);
    assert Leads(16, 0x8c00, 7, 31);
  }

  lemma Agree16()
    ensures forall b | 16 <= b < 32 :: Agrees(b)
  {
    hide Leads;
    Paths16();
  }

  lemma Paths32()
    ensures Leads(0, 0xc000, 3, 32) && Leads(0, 0x3a80, 9, 33) && Leads(0, 0xabc0, 10, 34) && Leads(0, 0x0060, 11, 35)
    ensures Leads(0, 0x7d40, 12, 36) && Leads(0, 0xab5c, 14, 37) && Leads(0, 0x0000, 12, 38) && Leads(0, 0xab58, 14, 39)
    ensures Leads(0, 0x7c00, 9, 40) && Leads(0, 0x3c80, 9, 41) && Leads(0, 0x7d00, 11, 42) && Leads(0, 0x0010, 12, 43)
    ensures Leads(0, 0x1200, 7, 44) && Leads(0, 0x7a00, 7, 45) && Leads(0, 0xb800, 6, 46) && Leads(0, 0x3200, 7, 47)
  {
    hide DecodeTab;
    DecodeRows();
    assert Leads(171, 0x8000, 1, 33);
    assert Leads(8, 0xc000, 2, 34);
    assert Leads(180, 0x6000, 3, 35);
    assert Leads(86, 0x4000, 4, 36);
    assert Leads(8, 0x5c00, 6, 37);
    assert Leads(180, 0x0000, 4, 38);
    assert Leads(8, 0x5800, 6, 39);
    assert Leads(193, 0x0000, 1, 40);
    assert Leads(197, 0x8000, 1, 41);
    assert Leads(86, 0x0000, 3, 42);
    assert Leads(180, 0x1000, 4, 43);
  }

  lemma Agree32()
    ensures forall b | 32 <= b < 48 :: Agrees(b)
  {
    hide Leads;
    Paths32();
  }

  lemma Paths48()
    ensures Leads(0, 0x2200, 7, 48) && Leads(0, 0xf600, 8, 49) && Leads(0, 0x3d00, 8, 50) && Leads(0, 0x9e00, 9, 51)
    ensures Leads(0, 0xbd80, 9, 52) && Leads(0, 0x7c80, 9, 53) && Leads(0, 0x0080, 9, 54) && Leads(0, 0xaa00, 9, 55)
    ensures Leads(0, 0xbd00, 9, 56) && Leads(0, 0x9f00, 9, 57) && Leads(0, 0x0300, 8, 58) && Leads(0, 0xab78, 13, 59)
    ensures Leads(0, 0xab68, 13, 60) && Leads(0, 0x3c00, 9, 61) && Leads(0, 0x3000, 9, 62) && Leads(0, 0x0020, 11, 63)
  {
    hide DecodeTab;
    DecodeRows();
    assert Leads(221, 0x0000, 1, 51);
    assert Leads(225, 0x8000, 1, 52);
    assert Leads(193, 0x8000, 1, 53);
    assert Leads(180, 0x8000, 1, 54);
    assert Leads(16, 0x0000, 1, 55);
    assert Leads(225, 0x0000, 1, 56);
    assert Leads(29, 0x0000, 1, 57);
    assert Leads(8, 0x7800, 5, 59);
    assert Leads(8, 0x6800, 5, 60);
    assert Leads(197, 0x0000, 1, 61);
    assert Leads(239, 0x0000, 1, 62);
    assert Leads(180, 0x2000, 3, 63);
  }

  lemma Agree48()
    ensures forall b | 48 <= b < 64 :: Agrees(b)
  {
    hide Leads;
    Paths48();
  }

  lemma Paths64()
    ensures Leads(0, 0x7d50, 12, 64) && Leads(0, 0x3800, 7, 65) && Leads(0, 0x7800, 7, 66) && Leads(0, 0x9c00, 7, 67)
    ensures Leads(0, 0xfe00, 7, 68) && Leads(0, 0x2400, 6, 69) && Leads(0, 0xbc00, 8, 70) && Leads(0, 0x0200, 8, 71)
    ensures Leads(0, 0x0100, 8, 72) && Leads(0, 0xf100, 8, 73) && Leads(0, 0x0040, 11, 74) && Leads(0, 0x3100, 8, 75)
    ensures Leads(0, 0xf200, 8, 76) && Leads(0, 0x3400, 7, 77) && Leads(0, 0x1c00, 7, 78) && Leads(0, 0x1e00, 7, 79)
  {
    hide DecodeTab;
    DecodeRows();
    assert Leads(86, 0x5000, 4, 64);
    assert Leads(180, 0x4000, 3, 74);
  }

  lemma Agree64()
    ensures forall b | 64 <= b < 80 :: Agrees(b)
  {
    hide Leads;
    Paths64();
  }

  lemma Paths80()
    ensures Leads(0, 0xbe00, 7, 80) && Leads(0, 0xaba0, 11, 81) && Leads(0, 0x3e00, 7, 82) && Leads(0, 0x1400, 6, 83)
    ensures Leads(0, 0x3600, 7, 84) && Leads(0, 0xf380, 9, 85) && Leads(0, 0xf080, 9, 86) && Leads(0, 0x2000, 8, 87)
    ensures Leads(0, 0xfc00, 8, 88) && Leads(0, 0x9f80, 10, 89) && Leads(0, 0x9e80, 9, 90) && Leads(0, 0xab90, 12, 91)
    ensures Leads(0, 0x3b80, 9, 92) && Leads(0, 0xab80, 12, 93) && Leads(0, 0xab54, 14, 94) && Leads(0, 0x3a50, 13, 95)
  {
    hide DecodeTab;
    DecodeRows();
    assert Leads(8, 0xa000, 3, 81);
    assert Leads(72, 0x8000, 1, 85);
    assert Leads(271, 0x8000, 1, 86);
    assert Leads(29, 0x8000, 2, 89);
    assert Leads(221, 0x8000, 1, 90);
    assert Leads(8, 0x9000, 4, 91);
    assert Leads(281, 0x8000, 1, 92);
    assert Leads(8, 0x8000, 4, 93);
    assert Leads(8, 0x5400, 6, 94);
    assert Leads(171, 0x5000, 5, 95);
  }

  lemma Agree80()
    ensures forall b | 80 <= b < 96 :: Agrees(b)
  {
    hide Leads;
    Paths80();
  }

  lemma Paths96()
    ensures Leads(0, 0xab50, 14, 96) && Leads(0, 0xa000, 5, 97) && Leads(0, 0x1800, 6, 98) && Leads(0, 0x9800, 6, 99)
    ensures Leads(0, 0x7000, 5, 100) && Leads(0, 0x4000, 3, 101) && Leads(0, 0x0400, 6, 102) && Leads(0, 0xac00, 6, 103)
    ensures Leads(0, 0xf800, 6, 104) && Leads(0, 0x6000, 4, 105) && Leads(0, 0x3a00, 10, 106) && Leads(0, 0xfd00, 8, 107)
    ensures Leads(0, 0x2800, 5, 108) && Leads(0, 0xb000, 6, 109) && Leads(0, 0x8000, 4, 110) && Leads(0, 0xb400, 6, 111)
  {
    hide DecodeTab;
    DecodeRows();
    assert Leads(8, 0x5000, 6, 96);
    assert Leads(171, 0x0000, 2, 106);
  }

  lemma Agree96()
    ensures forall b | 96 <= b < 112 :: Agrees(b)
  {
    hide Leads;
    Paths96();
  }

  lemma Paths112()
    ensures Leads(0, 0x1000, 7, 112) && Leads(0, 0x7d20, 12, 113) && Leads(0, 0xe000, 5, 114) && Leads(0, 0x9000, 5, 115)
    ensures Leads(0, 0xe800, 5, 116) && Leads(0, 0x0800, 5, 117) && Leads(0, 0xf700, 8, 118) && Leads(0, 0xa800, 7, 119)
    ensures Leads(0, 0x7d80, 9, 120) && Leads(0, 0xf300, 10, 121) && Leads(0, 0x7e00, 7, 122) && Leads(0, 0xab48, 14, 123)
    ensures Leads(0, 0x3a48, 13, 124) && Leads(0, 0xab4c, 14, 125) && Leads(0, 0x3a60, 12, 126) && Leads(0, 0x9ffc, 15, 127)
  {
    hide DecodeTab;
    DecodeRows();
    assert Leads(86, 0x2000, 4, 113);
    assert Leads(86, 0x8000, 1, 120);
    assert Leads(72, 0x0000, 2, 121);
    assert Leads(8, 0x4800, 6, 123);
    assert Leads(171, 0x4800, 5, 124);
    assert Leads(8, 0x4c00, 6, 125);
    assert Leads(171, 0x6000, 4, 126);
    assert Leads(29, 0xfc00, 7, 127);
  }

  lemma Agree112()
    ensures forall b | 112 <= b < 128 :: Agrees(b)
  {
    hide Leads;
    Paths112();
  }

  lemma Paths128()
    ensures Leads(0, 0x9fec, 15, 128) && Leads(0, 0x2100, 8, 129) && Leads(0, 0x9fdc, 15, 130) && Leads(0, 0x9fcc, 15, 131)
    ensures Leads(0, 0xf000, 9, 132) && Leads(0, 0x7d7c, 15, 133) && Leads(0, 0x7d6c, 15, 134) && Leads(0, 0x3a40, 14, 135)
    ensures Leads(0, 0xab40, 15, 136) && Leads(0, 0xab38, 15, 137) && Leads(0, 0xab30, 15, 138) && Leads(0, 0xab28, 15, 139)
    ensures Leads(0, 0xab20, 15, 140) && Leads(0, 0xab18, 15, 141) && Leads(0, 0xab70, 13, 142) && Leads(0, 0xab10, 15, 143)
  {
    hide DecodeTab;
    DecodeRows();
    assert Leads(29, 0xec00, 7, 128);
    assert Leads(29, 0xdc00, 7, 130);
    assert Leads(29, 0xcc00, 7, 131);
    assert Leads(271, 0x0000, 1, 132);
    assert Leads(86, 0x7c00, 7, 133);
    assert Leads(86, 0x6c00, 7, 134);
    assert Leads(171, 0x4000, 6, 135);
    assert Leads(8, 0x4000, 7, 136);
    assert Leads(8, 0x3800, 7, 137);
    assert Leads(8, 0x3000, 7, 138);
    assert Leads(8, 0x2800, 7, 139);
    assert Leads(8, 0x2000, 7, 140);
    assert Leads(8, 0x1800, 7, 141);
    assert Leads(8, 0x7000, 5, 142);
    assert Leads(8, 0x1000, 7, 143);
  }

  lemma Agree128()
    ensures forall b | 128 <= b < 144 :: Agrees(b)
  {
    hide Leads;
    Paths128();
  }

  lemma Paths144()
    ensures Leads(0, 0xab08, 15, 144) && Leads(0, 0xab00, 15, 145) && Leads(0, 0xaaf8, 15, 146) && Leads(0, 0xaaf0, 15, 147)
    ensures Leads(0, 0x3b00, 9, 148) && Leads(0, 0xaae8, 15, 149) && Leads(0, 0xaae0, 15, 150) && Leads(0, 0xaad8, 15, 151)
    ensures Leads(0, 0xaad0, 15, 152) && Leads(0, 0xab64, 14, 153) && Leads(0, 0x7d30, 12, 154) && Leads(0, 0xaac8, 15, 155)
    ensures Leads(0, 0xaac0, 15, 156) && Leads(0, 0xaab8, 15, 157) && Leads(0, 0xaab0, 15, 158) && Leads(0, 0xaaa8, 15, 159)
  {
    hide DecodeTab;
    DecodeRows();
    assert Leads(8, 0x0800, 7, 144);
    assert Leads(8, 0x0000, 7, 145);
    assert Leads(16, 0xf800, 7, 146);
    assert Leads(16, 0xf000, 7, 147);
    assert Leads(281, 0x0000, 1, 148);
    assert Leads(16, 0xe800, 7, 149);
    assert Leads(16, 0xe000, 7, 150);
    assert Leads(16, 0xd800, 7, 151);
    assert Leads(16, 0xd000, 7, 152);
    assert Leads(8, 0x6400, 6, 153);
    assert Leads(86, 0x3000, 4, 154);
    assert Leads(16, 0xc800, 7, 155);
    assert Leads(16, 0xc000, 7, 156);
    assert Leads(16, 0xb800, 7, 157);
    assert Leads(16, 0xb000, 7, 158);
    assert Leads(16, 0xa800, 7, 159);
  }

  lemma Agree144()
    ensures forall b | 144 <= b < 160 :: Agrees(b)
  {
    hide Leads;
    Paths144();
  }

  lemma Paths160()
    ensures Leads(0, 0xaaa0, 15, 160) && Leads(0, 0xaa98, 15, 161) && Leads(0, 0xaa90, 15, 162) && Leads(0, 0xaa88, 15, 163)
    ensures Leads(0, 0xaa80, 15, 164) && Leads(0, 0x9ff8, 15, 165) && Leads(0, 0x9ff0, 15, 166) && Leads(0, 0x9fe8, 15, 167)
    ensures Leads(0, 0x9fe0, 15, 168) && Leads(0, 0x9fd8, 15, 169) && Leads(0, 0x9fd0, 15, 170) && Leads(0, 0x9fc8, 15, 171)
    ensures Leads(0, 0x9fc0, 15, 172) && Leads(0, 0x7d78, 15, 173) && Leads(0, 0x7d70, 15, 174) && Leads(0, 0x3a58, 13, 175)
  {
    hide DecodeTab;
    DecodeRows();
    assert Leads(16, 0xa000, 7, 160);
    assert Leads(16, 0x9800, 7, 161);
    assert Leads(16, 0x9000, 7, 162);
    assert Leads(16, 0x8800, 7, 163);
    assert Leads(16, 0x8000, 7, 164);
    assert Leads(29, 0xf800, 7, 165);
    assert Leads(29, 0xf000, 7, 166);
    assert Leads(29, 0xe800, 7, 167);
    assert Leads(29, 0xe000, 7, 168);
    assert Leads(29, 0xd800, 7, 169);
    assert Leads(29, 0xd000, 7, 170);
    assert Leads(29, 0xc800, 7, 171);
    assert Leads(29, 0xc000, 7, 172);
    assert Leads(86, 0x7800, 7, 173);
    assert Leads(86, 0x7000, 7, 174);
    assert Leads(171, 0x5800, 5, 175);
  }

  lemma Agree160()
    ensures forall b | 160 <= b < 176 :: Agrees(b)
  {
    hide Leads;
    Paths160();
  }

  lemma Paths176()
    ensures Leads(0, 0x7d68, 15, 176) && Leads(0, 0x7d60, 15, 177) && Leads(0, 0xab46, 15, 178) && Leads(0, 0xab42, 15, 179)
    ensures Leads(0, 0xab3e, 15, 180) && Leads(0, 0xab3a, 15, 181) && Leads(0, 0xab36, 15, 182) && Leads(0, 0xab32, 15, 183)
    ensures Leads(0, 0xab2e, 15, 184) && Leads(0, 0xab2a, 15, 185) && Leads(0, 0xab26, 15, 186) && Leads(0, 0xab22, 15, 187)
    ensures Leads(0, 0xab1e, 15, 188) && Leads(0, 0xab1a, 15, 189) && Leads(0, 0xab16, 15, 190) && Leads(0, 0xab12, 15, 191)
  {
    hide DecodeTab;
    DecodeRows();
    assert Leads(86, 0x6800, 7, 176);
    assert Leads(86, 0x6000, 7, 177);
    assert Leads(8, 0x4600, 7, 178);
    assert Leads(8, 0x4200, 7, 179);
    assert Leads(8, 0x3e00, 7, 180);
    assert Leads(8, 0x3a00, 7, 181);
    assert Leads(8, 0x3600, 7, 182);
    assert Leads(8, 0x3200, 7, 183);
    assert Leads(8, 0x2e00, 7, 184);
    assert Leads(8, 0x2a00, 7, 185);
    assert Leads(8, 0x2600, 7, 186);
    assert Leads(8, 0x2200, 7, 187);
    assert Leads(8, 0x1e00, 7, 188);
    assert Leads(8, 0x1a00, 7, 189);
    assert Leads(8, 0x1600, 7, 190);
    assert Leads(8, 0x1200, 7, 191);
  }

  lemma Agree176()
    ensures forall b | 176 <= b < 192 :: Agrees(b)
  {
    hide Leads;
    Paths176();
  }

  lemma Paths192()
    ensures Leads(0, 0xab0e, 15, 192) && Leads(0, 0xab0a, 15, 193) && Leads(0, 0xab06, 15, 194) && Leads(0, 0xab02, 15, 195)
    ensures Leads(0, 0xaafe, 15, 196) && Leads(0, 0xaafa, 15, 197) && Leads(0, 0xaaf6, 15, 198) && Leads(0, 0xaaf2, 15, 199)
    ensures Leads(0, 0xaaee, 15, 200) && Leads(0, 0xaaea, 15, 201) && Leads(0, 0xaae6, 15, 202) && Leads(0, 0xaae2, 15, 203)
    ensures Leads(0, 0xaade, 15, 204) && Leads(0, 0xaada, 15, 205) && Leads(0, 0xaad6, 15, 206) && Leads(0, 0xaad2, 15, 207)
  {
    hide DecodeTab;
    DecodeRows();
    assert Leads(8, 0x0e00, 7, 192);
    assert Leads(8, 0x0a00, 7, 193);
    assert Leads(8, 0x0600, 7, 194);
    assert Leads(8, 0x0200, 7, 195);
    assert Leads(16, 0xfe00, 7, 196);
    assert Leads(16, 0xfa00, 7, 197);
    assert Leads(16, 0xf600, 7, 198);
    assert Leads(16, 0xf200, 7, 199);
    assert Leads(16, 0xee00, 7, 200);
    assert Leads(16, 0xea00, 7, 201);
    assert Leads(16, 0xe600, 7, 202);
    assert Leads(16, 0xe200, 7, 203);
    assert Leads(16, 0xde00, 7, 204);
    assert Leads(16, 0xda00, 7, 205);
    assert Leads(16, 0xd600, 7, 206);
    assert Leads(16, 0xd200, 7, 207);
  }

  lemma Agree192()
    ensures forall b | 192 <= b < 208 :: Agrees(b)
  {
    hide Leads;
    Paths192();
  }

  lemma Paths208()
    ensures Leads(0, 0xaace, 15, 208) && Leads(0, 0xaaca, 15, 209) && Leads(0, 0xaac6, 15, 210) && Leads(0, 0xaac2, 15, 211)
    ensures Leads(0, 0xaabe, 15, 212) && Leads(0, 0xaaba, 15, 213) && Leads(0, 0xaab6, 15, 214) && Leads(0, 0xaab2, 15, 215)
    ensures Leads(0, 0xaaae, 15, 216) && Leads(0, 0xaaaa, 15, 217) && Leads(0, 0xaaa6, 15, 218) && Leads(0, 0xaaa2, 15, 219)
    ensures Leads(0, 0xaa9e, 15, 220) && Leads(0, 0x3a70, 12, 221) && Leads(0, 0xaa9a, 15, 222) && Leads(0, 0xaa96, 15, 223)
  {
    hide DecodeTab;
    DecodeRows();
    assert Leads(16, 0xce00, 7, 208);
    assert Leads(16, 0xca00, 7, 209);
    assert Leads(16, 0xc600, 7, 210);
    assert Leads(16, 0xc200, 7, 211);
    assert Leads(16, 0xbe00, 7, 212);
    assert Leads(16, 0xba00, 7, 213);
    assert Leads(16, 0xb600, 7, 214);
    assert Leads(16, 0xb200, 7, 215);
    assert Leads(16, 0xae00, 7, 216);
    assert Leads(16, 0xaa00, 7, 217);
    assert Leads(16, 0xa600, 7, 218);
    assert Leads(16, 0xa200, 7, 219);
    assert Leads(16, 0x9e00, 7, 220);
    assert Leads(171, 0x7000, 4, 221);
    assert Leads(16, 0x9a00, 7, 222);
    assert Leads(16, 0x9600, 7, 223);
  }

  lemma Agree208()
    ensures forall b | 208 <= b < 224 :: Agrees(b)
  {
    hide Leads;
    Paths208();
  }

  lemma Paths224()
    ensures Leads(0, 0xaa92, 15, 224) && Leads(0, 0x3080, 9, 225) && Leads(0, 0xaa8e, 15, 226) && Leads(0, 0xaa8a, 15, 227)
    ensures Leads(0, 0xaa86, 15, 228) && Leads(0, 0xaa82, 15, 229) && Leads(0, 0x9ffe, 15, 230) && Leads(0, 0x9ffa, 15, 231)
    ensures Leads(0, 0x9ff6, 15, 232) && Leads(0, 0x9ff2, 15, 233) && Leads(0, 0x9fee, 15, 234) && Leads(0, 0x9fea, 15, 235)
    ensures Leads(0, 0x9fe6, 15, 236) && Leads(0, 0x9fe2, 15, 237) && Leads(0, 0x9fde, 15, 238) && Leads(0, 0x9fda, 15, 239)
  {
    hide DecodeTab;
    DecodeRows();
    assert Leads(16, 0x9200, 7, 224);
    assert Leads(239, 0x8000, 1, 225);
    assert Leads(16, 0x8e00, 7, 226);
    assert Leads(16, 0x8a00, 7, 227);
    assert Leads(16, 0x8600, 7, 228);
    assert Leads(16, 0x8200, 7, 229);
    assert Leads(29, 0xfe00, 7, 230);
    assert Leads(29, 0xfa00, 7, 231);
    assert Leads(29, 0xf600, 7, 232);
    assert Leads(29, 0xf200, 7, 233);
    assert Leads(29, 0xee00, 7, 234);
    assert Leads(29, 0xea00, 7, 235);
    assert Leads(29, 0xe600, 7, 236);
    assert Leads(29, 0xe200, 7, 237);
    assert Leads(29, 0xde00, 7, 238);
    assert Leads(29, 0xda00, 7, 239);
  }

  lemma Agree224()
    ensures forall b | 224 <= b < 240 :: Agrees(b)
  {
    hide Leads;
    Paths224();
  }

  lemma Paths240()
    ensures Leads(0, 0x9fd6, 15, 240) && Leads(0, 0x9fd2, 15, 241) && Leads(0, 0x9fce, 15, 242) && Leads(0, 0x9fca, 15, 243)
    ensures Leads(0, 0x9fc6, 15, 244) && Leads(0, 0x9fc2, 15, 245) && Leads(0, 0x7d7e, 15, 246) && Leads(0, 0x7d7a, 15, 247)
    ensures Leads(0, 0x7d76, 15, 248) && Leads(0, 0x7d72, 15, 249) && Leads(0, 0x7d6e, 15, 250) && Leads(0, 0x7d6a, 15, 251)
    ensures Leads(0, 0x7d66, 15, 252) && Leads(0, 0x7d62, 15, 253) && Leads(0, 0x3a46, 15, 254) && Leads(0, 0x3a44, 15, 255)
  {
    hide DecodeTab;
    DecodeRows();
    assert Leads(29, 0xd600, 7, 240);
    assert Leads(29, 0xd200, 7, 241);
    assert Leads(29, 0xce00, 7, 242);
    assert Leads(29, 0xca00, 7, 243);
    assert Leads(29, 0xc600, 7, 244);
    assert Leads(29, 0xc200, 7, 245);
    assert Leads(86, 0x7e00, 7, 246);
    assert Leads(86, 0x7a00, 7, 247);
    assert Leads(86, 0x7600, 7, 248);
    assert Leads(86, 0x7200, 7, 249);
    assert Leads(86, 0x6e00, 7, 250);
    assert Leads(86, 0x6a00, 7, 251);
    assert Leads(86, 0x6600, 7, 252);
    assert Leads(86, 0x6200, 7, 253);
    assert Leads(171, 0x4600, 7, 254);
    assert Leads(171, 0x4400, 7, 255);
  }

  lemma Agree240()
    ensures forall b | 240 <= b < 256 :: Agrees(b)
  {
    hide Leads;
    Paths240();
  }
}
