/**
 What some frames look like on the wire, octet by octet, and what the bits of an octet mean: with
 numbers in place of the names and helpers that senders and receivers share.
 */
module WireExamples {
  import KissBytes
  import KissRing
  import Kiss
  import Nrs
  import SixPack
  import Digipeat
  import Fcs
  import opened Octets
  import opened HuffmanTables
  import opened Huffman

  // ----- KISS

  /** net2kiss: delimiters 0xc0, with 0xc0 and 0xdb inside as two octets each. */
  lemma PacketOctets()
    ensures KissRing.Frame([0x00, 0x41, 0xc0, 0xdb, 0xdc, 0xdd])
            == [0xc0, 0x00, 0x41, 0xdb, 0xdc, 0xdb, 0xdd, 0xdc, 0xdd, 0xc0]
  {
    EscapedOctets();
  }

  lemma EscapedOctets()
    ensures KissBytes.Escaped([0x00, 0x41, 0xc0, 0xdb, 0xdc, 0xdd]) == [0x00, 0x41, 0xdb, 0xdc, 0xdb, 0xdd, 0xdc, 0xdd]
  {
    Plain(0xdd, []);
    Plain(0xdc, [0xdd]);
    Plain(0x41, [0xc0, 0xdb, 0xdc, 0xdd]);
    Plain(0x00, [0x41, 0xc0, 0xdb, 0xdc, 0xdd]);
    OneMore(0xc0, [0xdb, 0xdc, 0xdd]);
    OneMore(0xdb, [0xdc, 0xdd]);
  }

  lemma OneMore(c: bv8, s: seq<bv8>)
    ensures KissBytes.Escaped([c] + s) == KissBytes.Escape(c) + KissBytes.Escaped(s)
  {
    hide KissBytes.Escape;
    assert ([c] + s)[1..] == s;
  }

  lemma Plain(c: bv8, s: seq<bv8>)
    requires c != 0xc0 && c != 0xdb
    ensures KissBytes.Escaped([c] + s) == [c] + KissBytes.Escaped(s)
  {
    OneMore(c, s);
  }

  /** Octets that need no escape go as they are. */
  lemma {:induction false} PlainOctets(s: seq<bv8>)
    requires forall k | 0 <= k < |s| :: s[k] != 0xc0 && s[k] != 0xdb
    ensures KissBytes.Escaped(s) == s
    decreases |s|
  {
    if s != [] {
      PlainOctets(s[1..]);
      Plain(s[0], s[1..]);
      assert s == [s[0]] + s[1..];
    }
  }

  /** mkiss for port 1: plain; with the exclusive-or of command byte and data; and with the
      FlexNet checksum behind command byte 0x20, high octet first. */
  lemma MkissOctets()
    ensures Kiss.Sent(Kiss.Plain, 1, [0x00, 0x41, 0x42]) == [0xc0, 0x10, 0x41, 0x42, 0xc0]
    ensures Kiss.Sent(Kiss.G8bpq, 1, [0x00, 0x41, 0x42]) == [0xc0, 0x10, 0x41, 0x42, 0x13, 0xc0]
    ensures Kiss.Sent(Kiss.Flex, 1, [0x00, 0x41, 0x42]) == [0xc0, 0x20, 0x41, 0x42, 0xea, 0x66, 0xc0]
  {
    hide KissBytes.Escaped, Kiss.Checked, Kiss.Addressed;
    Addresses();
    PlainChecked();
    G8Checked();
    FlexChecked();
    PlainOctets([0x10, 0x41, 0x42]);
    PlainOctets([0x10, 0x41, 0x42, 0x13]);
    PlainOctets([0x20, 0x41, 0x42, 0xea, 0x66]);
  }

  lemma Addresses()
    ensures Kiss.Addressed(Kiss.Plain, 1, [0x00, 0x41, 0x42]) == [0x10, 0x41, 0x42]
    ensures Kiss.Addressed(Kiss.G8bpq, 1, [0x00, 0x41, 0x42]) == [0x10, 0x41, 0x42]
    ensures Kiss.Addressed(Kiss.Flex, 1, [0x00, 0x41, 0x42]) == [0x20, 0x41, 0x42]
  {
  }

  lemma PlainChecked()
    ensures Kiss.Checked(Kiss.SentMode(Kiss.Plain, [0x00, 0x41, 0x42]), [0x10, 0x41, 0x42]) == [0x10, 0x41, 0x42]
  {
  }

  lemma G8Checked()
    ensures Kiss.Checked(Kiss.G8bpq, [0x10, 0x41, 0x42]) == [0x10, 0x41, 0x42, 0x13]
  {
  }

  lemma FlexChecked()
    ensures Kiss.Checked(Kiss.Flex, [0x20, 0x41, 0x42]) == [0x20, 0x41, 0x42, 0xea, 0x66]
  {
  }

  /** With the exclusive-or of mkiss, an ACKREQ frame has a check byte, and a command has none. */
  lemma G8bpqCommands()
    ensures Kiss.Sent(Kiss.G8bpq, 1, [0x0c, 0x01, 0x02, 0x41]) == [0xc0, 0x1c, 0x01, 0x02, 0x41, 0x5e, 0xc0]
    ensures Kiss.Sent(Kiss.G8bpq, 1, [0x01, 0x05]) == [0xc0, 0x11, 0x05, 0xc0]
  {
    hide KissBytes.Escaped, Kiss.Checked, Kiss.Addressed;
    CommandAddresses();
    AckreqChecked();
    PlainOctets([0x1c, 0x01, 0x02, 0x41, 0x5e]);
    PlainOctets([0x11, 0x05]);
  }

  lemma CommandAddresses()
    ensures Kiss.Addressed(Kiss.G8bpq, 1, [0x0c, 0x01, 0x02, 0x41]) == [0x1c, 0x01, 0x02, 0x41]
    ensures Kiss.Addressed(Kiss.Plain, 1, [0x01, 0x05]) == [0x11, 0x05]
    ensures Kiss.SentMode(Kiss.G8bpq, [0x0c, 0x01, 0x02, 0x41]) == Kiss.G8bpq
    ensures Kiss.SentMode(Kiss.G8bpq, [0x01, 0x05]) == Kiss.Plain
  {
  }

  lemma AckreqChecked()
    ensures Kiss.Checked(Kiss.G8bpq, [0x1c, 0x01, 0x02, 0x41]) == [0x1c, 0x01, 0x02, 0x41, 0x5e]
    ensures Kiss.Checked(Kiss.Plain, [0x11, 0x05]) == [0x11, 0x05]
  {
  }

  /** nrsdrv on its KISS line. */
  lemma GatewayOctets()
    ensures Nrs.KissFrame(0x00, [0x41, 0xc0, 0xdb]) == [0xc0, 0x00, 0x41, 0xdb, 0xdc, 0xdb, 0xdd, 0xc0]
  {
    Plain(0x41, [0xc0, 0xdb]);
    OneMore(0xc0, [0xdb]);
    OneMore(0xdb, []);
  }

  // ----- NET/ROM

  /** 0x02, 0x03 and 0x10 behind a 0x10; the sum behind 0x03; two octets of zero. */
  lemma NrsOctets()
    ensures Nrs.NrsFrame([0x41, 0x02, 0x03, 0x10])
            == [0x02, 0x41, 0x10, 0x02, 0x10, 0x03, 0x10, 0x10, 0x03, 0x56, 0x00, 0x00]
  {
    hide Nrs.Stuffed, Nrs.Stuff, Sum, Nrs.Low8;
    StuffOctets();
    NothingStuffed();
    StuffedMore(0x10, [], [0x10]);
    StuffedMore(0x03, [0x10], [0x03, 0x10]);
    StuffedMore(0x02, [0x03, 0x10], [0x02, 0x03, 0x10]);
    StuffedMore(0x41, [0x02, 0x03, 0x10], [0x41, 0x02, 0x03, 0x10]);
    NoBytes();
    SumMore([], 0x41, [0x41], 0x41);
    SumMore([0x41], 0x02, [0x41, 0x02], 0x43);
    SumMore([0x41, 0x02], 0x03, [0x41, 0x02, 0x03], 0x46);
    SumMore([0x41, 0x02, 0x03], 0x10, [0x41, 0x02, 0x03, 0x10], 0x56);
    LowOctet();
  }

  lemma StuffOctets()
    ensures Nrs.Stuff(0x41) == [0x41] && Nrs.Stuff(0x02) == [0x10, 0x02]
    ensures Nrs.Stuff(0x03) == [0x10, 0x03] && Nrs.Stuff(0x10) == [0x10, 0x10]
  {
  }

  lemma LowOctet()
    ensures Nrs.Low8(0x56) == 0x56
  {
    hide Nrs.Low8;
    Nrs.Low8Is(0x56);
    SameByte(Nrs.Low8(0x56), 0x56);
  }

  lemma StuffedMore(c: bv8, s: seq<bv8>, t: seq<bv8>)
    requires t == [c] + s
    ensures Nrs.Stuffed(t) == Nrs.Stuff(c) + Nrs.Stuffed(s)
  {
    hide Nrs.Stuff;
    assert t[1..] == s;
  }

  lemma SumMore(s: seq<bv8>, x: bv8, t: seq<bv8>, n: nat)
    requires t == s + [x] && n == Sum(s) + x as nat
    ensures Sum(t) == n
  {
    hide Sum;
    SumSnoc(s, x);
  }

  lemma NothingStuffed()
    ensures Nrs.Stuffed([]) == []
  {
  }

  // ----- 6pack

  /** An octet below 0x40 is data, one from 0x40 to 0x47 a SEOF with its port, others are commands. */
  lemma Kinds(c: bv8)
    ensures SixPack.IsData(c) <==> c < 0x40
    ensures SixPack.IsSeof(c) <==> 0x40 <= c < 0x48
    ensures SixPack.IsCommand(c) <==> 0x48 <= c
    ensures SixPack.Addr(c) == c % 8
  {
  }

  /** Three bytes as four numbers below 64. */
  lemma SixBits(a: bv8, b: bv8, c: bv8)
    ensures SixPack.Encode([a, b, c]) == [a % 64, a / 64 * 16 + b % 16, b / 16 * 4 + c % 4, c / 4]
  {
    hide SixPack.First, SixPack.Second, SixPack.Third, SixPack.Fourth, SixPack.Left;
    FourOctets(a, b, c);
    LeftIs(a, b);
    FirstTwo(a, b);
    LastTwo(b, c);
  }

  lemma FourOctets(a: bv8, b: bv8, c: bv8)
    ensures SixPack.Encode([a, b, c]) ==
            [SixPack.First(a), SixPack.Second(SixPack.Left([a]), b), SixPack.Third(SixPack.Left([a, b]), c),
             SixPack.Fourth(c)]
  {
    hide SixPack.Packed, SixPack.First, SixPack.Second, SixPack.Third, SixPack.Fourth, SixPack.Left;
    PackedMore([], a, [a]);
    PackedMore([a], b, [a, b]);
    PackedMore([a, b], c, [a, b, c]);
    NothingPacked();
  }

  lemma PackedMore(s: seq<bv8>, x: bv8, t: seq<bv8>)
    requires t == s + [x]
    ensures SixPack.Packed(t) ==
            SixPack.Packed(s) + (if |s| % 3 == 0 then [SixPack.First(x)]
                                 else if |s| % 3 == 1 then [SixPack.Second(SixPack.Left(s), x)]
                                 else [SixPack.Third(SixPack.Left(s), x), SixPack.Fourth(x)])
  {
    hide SixPack.First, SixPack.Second, SixPack.Third, SixPack.Fourth, SixPack.Left;
    assert t[..|s|] == s;
  }

  lemma NothingPacked()
    ensures SixPack.Packed([]) == []
  {
  }

  lemma LeftIs(a: bv8, b: bv8)
    ensures SixPack.Left([a]) == (a & 0xc0) >> 2 && SixPack.Left([a, b]) == (b & 0xf0) >> 2
  {
  }

  lemma FirstTwo(a: bv8, b: bv8)
    ensures SixPack.First(a) == a % 64 && SixPack.Second((a & 0xc0) >> 2, b) == a / 64 * 16 + b % 16
  {
  }

  lemma LastTwo(b: bv8, c: bv8)
    ensures SixPack.Third((b & 0xf0) >> 2, c) == b / 16 * 4 + c % 4 && SixPack.Fourth(c) == c / 4
  {
  }

  /** A frame for port 2. */
  lemma SixPackOctets()
    ensures SixPack.Frame(2, [0x12, 0xa5, 0xf6]) == [0x42, 0x12, 0x05, 0x2a, 0x3d, 0x10, 0x10, 0x40]
  {
    hide SixPack.Packed, Sum, SixPack.Encode, SixPack.CheckByte;
    NoBytes();
    SumMore([], 0x12, [0x12], 0x12);
    SumMore([0x12], 0xa5, [0x12, 0xa5], 0xb7);
    SumMore([0x12, 0xa5], 0xf6, [0x12, 0xa5, 0xf6], 0x1ad);
    CheckIs();
    SixBits(0x12, 0xa5, 0xf6);
    OneByteMore();
    assert [0x12, 0xa5, 0xf6] + [0x50] == [0x12 as bv8, 0xa5, 0xf6, 0x50];
  }

  lemma CheckIs()
    requires Sum([0x12, 0xa5, 0xf6]) == 0x1ad
    ensures SixPack.CheckByte(2, [0x12, 0xa5, 0xf6]) == 0x50
  {
    hide Sum;
  }

  lemma OneByteMore()
    requires SixPack.Encode([0x12, 0xa5, 0xf6]) == [0x12, 0x05, 0x2a, 0x3d]
    ensures SixPack.Encode([0x12, 0xa5, 0xf6, 0x50]) == [0x12, 0x05, 0x2a, 0x3d, 0x10, 0x10]
  {
    hide SixPack.Packed;
    PackedMore([0x12, 0xa5, 0xf6], 0x50, [0x12, 0xa5, 0xf6, 0x50]);
  }

  // ----- AX.25

  /** The last octet of address k is odd. */
  predicate Odd(f: seq<bv8>, k: nat)
    requires 1 <= k && 7 * k <= |f|
  {
    f[7 * k - 1] % 2 == 1
  }

  /** Ten addresses at most, the first counted as one; the last octet is odd at the last of them
      and even at those before, the destination excepted. */
  lemma AddressFieldIs(f: seq<bv8>, n: nat)
    ensures Digipeat.HasAddresses(f, n) <==>
            && 2 <= n <= 10 && 7 * n < |f| && Odd(f, n) && forall k | 2 <= k < n :: !Odd(f, k)
  {
    hide Digipeat.LastBit, Odd;
    if 2 <= n <= 10 && 7 * n < |f| {
      forall k | 1 <= k < n ensures Digipeat.IsLast(f, k) <==> Odd(f, k + 1) {
        OddIs(f, k);
      }
      if forall k | 2 <= k < n :: !Odd(f, k) {
        forall k | 1 <= k < n - 1 ensures !Digipeat.IsLast(f, k) { assert !Odd(f, k + 1); }
      }
      if Digipeat.HasAddresses(f, n) {
        forall k | 2 <= k < n ensures !Odd(f, k) { assert !Digipeat.IsLast(f, k - 1); }
      }
    }
  }

  lemma OddIs(f: seq<bv8>, k: nat)
    requires 7 * k + 6 < |f|
    ensures Digipeat.IsLast(f, k) <==> Odd(f, k + 1)
  {
    LowBit(f[7 * k + 6]);
  }

  lemma LowBit(x: bv8)
    ensures Digipeat.LastBit(x) <==> x % 2 == 1
  {
  }

  /** The FCS of the nine digits is 0x906e, and goes low octet first. */
  lemma CheckValue()
    ensures Fcs.CrcTail([0x31, 0x32, 0x33, 0x34, 0x35, 0x36, 0x37, 0x38, 0x39]) == [0x6e, 0x90]
  {
    hide Fcs.Remainder, Fcs.Tail;
    FcsStart();
    hide FcsNext;
    FcsMore([], 0x31, [0x31]);
    FcsMore([0x31], 0x32, [0x31, 0x32]);
    FcsMore([0x31, 0x32], 0x33, [0x31, 0x32, 0x33]);
    FcsMore([0x31, 0x32, 0x33], 0x34, [0x31, 0x32, 0x33, 0x34]);
    FcsMore([0x31, 0x32, 0x33, 0x34], 0x35, [0x31, 0x32, 0x33, 0x34, 0x35]);
    FcsMore([0x31, 0x32, 0x33, 0x34, 0x35], 0x36, [0x31, 0x32, 0x33, 0x34, 0x35, 0x36]);
    FcsMore([0x31, 0x32, 0x33, 0x34, 0x35, 0x36], 0x37, [0x31, 0x32, 0x33, 0x34, 0x35, 0x36, 0x37]);
    FcsMore([0x31, 0x32, 0x33, 0x34, 0x35, 0x36, 0x37], 0x38, [0x31, 0x32, 0x33, 0x34, 0x35, 0x36, 0x37, 0x38]);
    FcsMore([0x31, 0x32, 0x33, 0x34, 0x35, 0x36, 0x37, 0x38], 0x39, [0x31, 0x32, 0x33, 0x34, 0x35, 0x36, 0x37, 0x38, 0x39]);
    FcsValues();
    FcsTail();
  }

  lemma FcsTail()
    ensures Fcs.Tail(0x6f91 ^ 0xffff) == [0x6e, 0x90]
  {
  }

  lemma FcsStart()
    ensures Fcs.Remainder(0xffff, []) == 0xffff
  {
  }

  function FcsNext(x: bv16, c: bv8): bv16 {
    (x >> 8) ^ Fcs.FcsTab(((x ^ (c as bv16)) & 0xff) as bv8)
  }

  lemma FcsNextIs(x: bv16, c: bv8)
    ensures FcsNext(x, c) == Fcs.Divide(x, Fcs.ByteBits(c))
  {
    hide Fcs.Divide, Fcs.ByteBits, Fcs.FcsTab;
    Fcs.TableStep(x, c);
  }

  lemma FcsMore(s: seq<bv8>, c: bv8, t: seq<bv8>)
    requires t == s + [c]
    ensures Fcs.Remainder(0xffff, t) == FcsNext(Fcs.Remainder(0xffff, s), c)
  {
    hide Fcs.Divide, Fcs.ByteBits, FcsNext;
    Fcs.BitsConcat(s, [c]);
    assert [c][1..] == [];
    assert Fcs.Bits([c]) == Fcs.ByteBits(c) + [] == Fcs.ByteBits(c);
    Fcs.DivideConcat(0xffff, Fcs.Bits(s), Fcs.ByteBits(c));
    FcsNextIs(Fcs.Remainder(0xffff, s), c);
  }

  lemma FcsValues()
    ensures FcsNext(0xffff, 0x31) == 0x2f8d && FcsNext(0x2f8d, 0x32) == 0x4d53 && FcsNext(0x4d53, 0x33) == 0x634b
    ensures FcsNext(0x634b, 0x34) == 0x8b13 && FcsNext(0x8b13, 0x35) == 0x44bf && FcsNext(0x44bf, 0x36) == 0x198d
    ensures FcsNext(0x198d, 0x37) == 0x1ac8 && FcsNext(0x1ac8, 0x38) == 0xf795 && FcsNext(0xf795, 0x39) == 0x6f91
  {
  }

  // ----- Huffman

  /** Two blanks, of the code 110 each: the length less one, and the bits from the top down. */
  lemma TwoBlanks(out: seq<bv8>)
    ensures Encoded([0x20, 0x20], out) <==> out == [0x01, 0xd8]
  {
    hide Holds, MessageBits;
    BlankBits();
    BlankOctet(0xd8);
    if |out| == 2 {
      BlankOctet(out[1]);
      assert out[1..] == [out[1]];
      FirstOctet(out[0]);
    }
  }

  lemma FirstOctet(x: bv8)
    ensures x as nat == 1 <==> x == 0x01
  {
  }

  lemma BlankBits()
    ensures MessageBits([0x20, 0x20]) == [true, true, false, true, true, false]
  {
    hide SymbolBits;
    BlankCode();
    assert [0x20 as bv8, 0x20][..1] == [0x20] && [0x20 as bv8][..0] == [];
    assert MessageBits([0x20]) == MessageBits([]) + SymbolBits(0x20);
  }

  lemma BlankCode()
    ensures SymbolBits(0x20) == [true, true, false]
  {
    hide CodeBits, EncodeTab;
    BlankEntry();
    ThreeBits();
  }

  lemma BlankEntry()
    ensures EncodeTab(0x20) == EncodeEntry(0xc000, 3) && (0x20 as bv8) as nat == 0x20
  {
  }

  lemma ThreeBits()
    ensures CodeBits(0xc000, 3) == [true, true, false]
  {
    assert CodeBits(0, 0) == [];
  }

  lemma BlankOctet(x: bv8)
    ensures Holds([x], [true, true, false, true, true, false]) <==> x == 0xd8
  {
    var b := [true, true, false, true, true, false];
    if Holds([x], b) {
      forall p | 0 <= p < 8 ensures BitOf(x, p) <==> p < 6 && b[p] { assert BitAt([x], p) == (p < |b| && b[p]); }
      BitsOf(x);
    }
    BitsOf(0xd8);
    if x == 0xd8 {
      forall p | 0 <= p < 8 ensures BitAt([x], p) == (p < |b| && b[p]) { assert p / 8 == 0 && p % 8 == p; }
    }
  }

  lemma BitsOf(x: bv8)
    ensures
      (&& BitOf(x, 0) && BitOf(x, 1) && !BitOf(x, 2) && BitOf(x, 3) && BitOf(x, 4) && !BitOf(x, 5)
       && !BitOf(x, 6) && !BitOf(x, 7)) <==> x == 0xd8
  {
  }

  /** One octet of zero, which has a code of fifteen bits, is copied behind the marker 0xff. */
  lemma OneZero(out: seq<bv8>)
    ensures Encoded([0x00], out) <==> out == [0xff, 0x00]
  {
    hide EncodeTab, CodeBits, MessageBits;
    ZeroCode();
    assert [0x00 as bv8][..0] == [];
    assert |MessageBits([0x00])| == 15 by { OneSymbol(0x00); }
  }

  lemma OneSymbol(x: bv8)
    ensures MessageBits([x]) == SymbolBits(x)
  {
    hide SymbolBits;
    assert [x][..0] == [];
    assert MessageBits([]) == [];
  }

  lemma ZeroCode()
    ensures |SymbolBits(0x00)| == 15
  {
    hide CodeBits, EncodeTab;
    ZeroEntry();
  }

  lemma ZeroEntry()
    ensures EncodeTab(0x00).len == 15 && (0x00 as bv8) as nat == 0
  {
  }
}
