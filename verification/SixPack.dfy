/**
 6pack framing as m6pack does it: three bytes travel as four six-bit data octets between SEOF
 commands, one-octet commands may come in between, and a checksum covers address and payload.
 */
module SixPack {
  import opened Octets

  const SIZE := 4096
  const SEOF: bv8 := 0x40
  const CHKSUM: bv8 := 0xff

  predicate IsData(c: bv8) { c & 0xc0 == 0 }

  predicate IsSeof(c: bv8) { c & 0xf8 == SEOF }

  predicate IsCommand(c: bv8) { !IsData(c) && !IsSeof(c) }

  function Addr(c: bv8): bv8 { c & 7 }

  // ----- the six-bit code, octet by octet

  /** The bytes completed by a sequence of data octets. */
  function Out(o: seq<bv8>): seq<bv8> {
    if o == [] then []
    else
      var front, c := o[..|o| - 1], o[|o| - 1];
      if |front| % 4 == 0 then Out(front) else Out(front) + [Joined(front, c)]
  }

  /** The bits of the byte that the last octet has begun. */
  function Part(o: seq<bv8>): bv8 {
    if o == [] then 0 else Low(|o| - 1, o[|o| - 1])
  }

  function Joined(o: seq<bv8>, c: bv8): bv8 { Part(o) | High(|o|, c) }

  /** What octet c at position n puts into the byte before it ... */
  function High(n: nat, c: bv8): bv8 {
    match n % 4
    case 0 => 0
    case 1 => (c & 0x30) << 2
    case 2 => (c & 0x3c) << 2
    case _ => (c & 0x3f) << 2
  }

  /** ... and into the byte it begins. */
  function Low(n: nat, c: bv8): bv8 {
    match n % 4
    case 0 => c & 0x3f
    case 1 => c & 0x0f
    case 2 => c & 0x03
    case _ => 0
  }

  /** The octets complete after some bytes; the bits left over go first into the next octet. */
  function Packed(s: seq<bv8>): seq<bv8> {
    if s == [] then []
    else
      var front, x := s[..|s| - 1], s[|s| - 1];
      match |front| % 3
      case 0 => Packed(front) + [First(x)]
      case 1 => Packed(front) + [Second(Left(front), x)]
      case _ => Packed(front) + [Third(Left(front), x)] + [Fourth(x)]
  }

  function First(x: bv8): bv8 { x & 0x3f }
  function Second(left: bv8, x: bv8): bv8 { left | (x & 0x0f) }
  function Third(left: bv8, x: bv8): bv8 { left | (x & 0x03) }
  function Fourth(x: bv8): bv8 { (x & 0xfc) >> 2 }

  function Left(s: seq<bv8>): bv8 {
    if s == [] then 0
    else
      match |s| % 3
      case 1 => (s[|s| - 1] & 0xc0) >> 2
      case 2 => (s[|s| - 1] & 0xf0) >> 2
      case _ => 0
  }

  function Encode(s: seq<bv8>): seq<bv8> {
    if |s| % 3 == 0 then Packed(s) else Packed(s) + [Left(s)]
  }

  function CheckByte(addr: bv8, s: seq<bv8>): bv8 {
    CHKSUM - ((Sum(s) + Val(addr)) % 256) as bv8
  }

  /** A data frame: leading SEOF with the address, payload and checksum, trailing SEOF. */
  function Frame(addr: bv8, s: seq<bv8>): seq<bv8> {
    [SEOF | addr] + Encode(s + [CheckByte(addr, s)]) + [SEOF]
  }

  // ----- the receiver as a function

  /** Between calls: the last SEOF accepted, and the data octets since the last reset. */
  datatype Rx = Rx(seof: bv8, octets: seq<bv8>)

  datatype Event = Data(addr: bv8, bytes: seq<bv8>) | Command(octet: bv8)

  /** Whether bytes of some sum, checksum included, are right for an address. */
  predicate Checks(sum: nat, addr: bv8) {
    (sum + Val(addr)) % 256 == 255
  }

  /** What a SEOF finds: nothing at all, a frame whose checksum is right, or an error. */
  predicate Acceptable(s: Rx) {
    var d := Out(s.octets);
    d == [] || (|d| >= 3 && Checks(Sum(d), Addr(s.seof)))
  }

  function Next(s: Rx, c: bv8): Rx {
    if IsData(c) then Rx(s.seof, s.octets + [c])
    else if !IsSeof(c) then s
    else if Acceptable(s) then Rx(c, [])
    else Rx(s.seof, [])
  }

  function Delivered(s: Rx, c: bv8): seq<Event> {
    if IsData(c) then []
    else if !IsSeof(c) then [Command(c)]
    else
      var d := Out(s.octets);
      if d == [] || !Acceptable(s) then [] else [Data(Addr(s.seof), d[..|d| - 1])]
  }

  function After(s: Rx, cs: seq<bv8>): Rx
    decreases |cs|
  {
    if cs == [] then s else After(Next(s, cs[0]), cs[1..])
  }

  function Events(s: Rx, cs: seq<bv8>): seq<Event>
    decreases |cs|
  {
    if cs == [] then [] else Delivered(s, cs[0]) + Events(Next(s, cs[0]), cs[1..])
  }

  // ----- the code is undone by the decoder

  lemma {:induction false} OutLength(o: seq<bv8>)
    ensures |Out(o)| == 3 * |o| / 4
  {
    hide Joined;
    if o != [] {
      OutLength(o[..|o| - 1]);
      ThreeQuarters(|o| - 1);
    }
  }

  lemma ThreeQuarters(n: nat)
    ensures 3 * (n + 1) / 4 == 3 * n / 4 + (if n % 4 == 0 then 0 else 1)
  {
    var q := n / 4;
    match n % 4
    case 0 =>
      FourthsOf(3 * n, 3 * q, 0);
      FourthsOf(3 * n + 3, 3 * q, 3);
    case 1 =>
      FourthsOf(3 * n, 3 * q, 3);
      FourthsOf(3 * n + 3, 3 * q + 1, 2);
    case 2 =>
      FourthsOf(3 * n, 3 * q + 1, 2);
      FourthsOf(3 * n + 3, 3 * q + 2, 1);
    case _ =>
      FourthsOf(3 * n, 3 * q + 2, 1);
      FourthsOf(3 * n + 3, 3 * q + 3, 0);
  }

  lemma FourthsOf(n: nat, q: nat, r: nat)
    requires n == 4 * q + r && r < 4
    ensures n / 4 == q
  {
  }

  lemma PartOf(o: seq<bv8>, c: bv8)
    ensures Out(o + [c]) == if |o| % 4 == 0 then Out(o) else Out(o) + [Joined(o, c)]
    ensures Part(o + [c]) == Low(|o|, c)
  {
    hide Low, High, Joined;
    assert (o + [c])[..|o|] == o;
  }

  lemma {:induction false} PackedStep(s: seq<bv8>, x: bv8)
    ensures Packed(s + [x]) == match |s| % 3
                               case 0 => Packed(s) + [First(x)]
                               case 1 => Packed(s) + [Second(Left(s), x)]
                               case _ => Packed(s) + [Third(Left(s), x)] + [Fourth(x)]
  {
    hide First, Second, Third, Fourth, Left;
    var t := s + [x];
    assert t[..|t| - 1] == s && t[|t| - 1] == x;
  }

  /** The bits of the last byte that have gone into an octet of their own. */
  function Begun(s: seq<bv8>): bv8 {
    if s == [] then 0
    else
      match |s| % 3
      case 1 => s[|s| - 1] & 0x3f
      case 2 => s[|s| - 1] & 0x0f
      case _ => 0
  }

  /** After k bytes the decoder has all of them but the one still begun. */
  ghost predicate InStep(s: seq<bv8>) {
    var o := Packed(s);
    && |o| % 4 == |s| % 3
    && Out(o) == (if |s| % 3 == 0 then s else s[..|s| - 1])
    && (|s| % 3 != 0 ==> Part(o) == Begun(s))
  }

  lemma {:induction false} PackedInStep(s: seq<bv8>)
    ensures InStep(s)
  {
    hide Packed, Out, Part, Begun;
    if s == [] {
      NothingPacked();
    } else {
      var t, y := s[..|s| - 1], s[|s| - 1];
      PackedInStep(t);
      assert s == t + [y];
      OneMoreByte(t, y);
    }
  }

  lemma NothingPacked()
    ensures Packed([]) == [] && Out([]) == []
  {
  }

  lemma OneMoreByte(t: seq<bv8>, y: bv8)
    requires InStep(t)
    ensures InStep(t + [y])
  {
    hide Packed, Out, Left, Part, First, Second, Third, Fourth, InStep;
    PackedStep(t, y);
    match |t| % 3
    case 0 => FirstOfThree(t, y);
    case 1 => SecondOfThree(t, y);
    case _ => ThirdOfThree(t, y);
  }

  lemma FirstOfThree(t: seq<bv8>, y: bv8)
    requires InStep(t) && |t| % 3 == 0
    requires Packed(t + [y]) == Packed(t) + [First(y)]
    ensures InStep(t + [y])
  {
    hide Packed, Out, Part, First, Begun, Low, High, Joined;
    assert (t + [y])[..|t|] == t;
    PartOf(Packed(t), First(y));
    BeginFirst(Packed(t), t, y);
  }

  lemma BeginFirst(o: seq<bv8>, t: seq<bv8>, y: bv8)
    requires |o| % 4 == 0 && |t| % 3 == 0
    ensures Low(|o|, First(y)) == Begun(t + [y])
  {
    assert (y & 0x3f) & 0x3f == y & 0x3f;
  }

  lemma SecondOfThree(t: seq<bv8>, y: bv8)
    requires InStep(t) && |t| % 3 == 1
    requires Packed(t + [y]) == Packed(t) + [Second(Left(t), y)]
    ensures InStep(t + [y])
  {
    hide Packed, Out, Left, Part, Second, Begun, Low, High, Joined;
    var o := Packed(t);
    assert (t + [y])[..|t|] == t && t == t[..|t| - 1] + [t[|t| - 1]];
    PartOf(o, Second(Left(t), y));
    JoinFirst(Packed(t), t, y);
  }

  lemma JoinFirst(o: seq<bv8>, t: seq<bv8>, y: bv8)
    requires |o| % 4 == 1 && |t| % 3 == 1 && Part(o) == Begun(t)
    ensures Joined(o, Second(Left(t), y)) == t[|t| - 1] && Low(|o|, Second(Left(t), y)) == Begun(t + [y])
  {
    hide Part;
    var x := t[|t| - 1];
    assert (x & 0x3f) | (((((x & 0xc0) >> 2) | (y & 0x0f)) & 0x30) << 2) == x;
    assert (((x & 0xc0) >> 2) | (y & 0x0f)) & 0x0f == y & 0x0f;
  }

  lemma ThirdOfThree(t: seq<bv8>, y: bv8)
    requires InStep(t) && |t| % 3 == 2
    requires Packed(t + [y]) == Packed(t) + [Third(Left(t), y)] + [Fourth(y)]
    ensures InStep(t + [y])
  {
    hide Packed, Out, Left, Part, Third, Fourth, Begun, Low, High, Joined, Bottom;
    var o, c := Packed(t), Third(Left(t), y);
    assert t == t[..|t| - 1] + [t[|t| - 1]];
    PartOf(o, c);
    JoinSecond(o, t, y);
    PartOf(o + [c], Fourth(y));
    JoinThird(o + [c], y);
  }

  function Bottom(y: bv8): bv8 { y & 0x03 }

  lemma JoinSecond(o: seq<bv8>, t: seq<bv8>, y: bv8)
    requires |o| % 4 == 2 && |t| % 3 == 2 && Part(o) == Begun(t)
    ensures Joined(o, Third(Left(t), y)) == t[|t| - 1] && Low(|o|, Third(Left(t), y)) == Bottom(y)
  {
    hide Part;
    var x := t[|t| - 1];
    assert (x & 0x0f) | (((((x & 0xf0) >> 2) | (y & 0x03)) & 0x3c) << 2) == x;
    assert (((x & 0xf0) >> 2) | (y & 0x03)) & 0x03 == y & 0x03;
  }

  lemma JoinThird(o: seq<bv8>, y: bv8)
    requires |o| % 4 == 3 && Part(o) == Bottom(y)
    ensures Joined(o, Fourth(y)) == y
  {
    hide Part;
    assert (y & 0x03) | ((((y & 0xfc) >> 2) & 0x3f) << 2) == y;
  }

  /** The code is undone by the decoder, whatever the length modulo three. */
  lemma DecodeEncode(s: seq<bv8>)
    ensures Out(Encode(s)) == s
  {
    hide Packed, Out, Left, Part, Begun, Joined;
    PackedInStep(s);
    if |s| % 3 != 0 {
      PartOf(Packed(s), Left(s));
      JoinLeft(Packed(s), s);
      assert s == s[..|s| - 1] + [s[|s| - 1]];
    }
  }

  lemma JoinLeft(o: seq<bv8>, s: seq<bv8>)
    requires |s| % 3 != 0 && |o| % 4 == |s| % 3 && Part(o) == Begun(s)
    ensures Joined(o, Left(s)) == s[|s| - 1]
  {
    hide Part;
    var x := s[|s| - 1];
    assert (x & 0x3f) | ((((x & 0xc0) >> 2) & 0x30) << 2) == x;
    assert (x & 0x0f) | ((((x & 0xf0) >> 2) & 0x3c) << 2) == x;
  }

  predicate AllData(o: seq<bv8>) {
    forall i | 0 <= i < |o| :: IsData(o[i])
  }

  lemma {:induction false} PackedIsData(s: seq<bv8>)
    ensures AllData(Packed(s)) && IsData(Left(s))
  {
    if s != [] { PackedIsData(s[..|s| - 1]); }
  }

  lemma EncodeIsData(s: seq<bv8>)
    ensures AllData(Encode(s))
  {
    hide Packed, Left;
    PackedIsData(s);
  }

  // ----- delivery from any state

  lemma {:induction false} AfterConcat(s: Rx, a: seq<bv8>, b: seq<bv8>)
    ensures After(s, a + b) == After(After(s, a), b)
    ensures Events(s, a + b) == Events(s, a) + Events(After(s, a), b)
    decreases |a|
  {
    hide Next, Delivered;
    if a == [] {
      assert a + b == b;
    } else {
      assert (a + b)[1..] == a[1..] + b;
      AfterConcat(Next(s, a[0]), a[1..], b);
    }
  }

  lemma AfterOne(s: Rx, c: bv8)
    ensures After(s, [c]) == Next(s, c) && Events(s, [c]) == Delivered(s, c)
  {
    hide Next, Delivered;
    assert [c][1..] == [];
  }

  lemma {:induction false} AfterData(s: Rx, d: seq<bv8>)
    requires AllData(d)
    ensures After(s, d) == Rx(s.seof, s.octets + d) && Events(s, d) == []
    decreases |d|
  {
    if d != [] {
      AfterData(Next(s, d[0]), d[1..]);
      assert s.octets + [d[0]] + d[1..] == s.octets + d;
    } else {
      assert s.octets + d == s.octets;
    }
  }

  lemma SeofBits(addr: bv8)
    requires addr < 8
    ensures IsSeof(SEOF | addr) && !IsData(SEOF | addr) && Addr(SEOF | addr) == addr
    ensures IsSeof(SEOF) && !IsData(SEOF)
  {
  }

  lemma RightCheck(sum: nat, addr: bv8, check: bv8)
    requires check == CHKSUM - ((sum + Val(addr)) % 256) as bv8
    ensures (sum + Val(check) + Val(addr)) % 256 == 255
  {
    hide Val;
    var n := (sum + Val(addr)) % 256;
    OfByte(n);
    Complement(n as bv8);
  }

  lemma CheckArithmetic(sum: nat, addr: bv8, stale: bv8, check: bv8)
    requires addr < 8 && stale < 8 && check == CHKSUM - ((sum + Val(addr)) % 256) as bv8
    ensures (sum + Val(check) + Val(stale)) % 256 == 255 <==> stale == addr
  {
    hide Val;
    RightCheck(sum, addr, check);
    SmallAddr(addr);
    SmallAddr(stale);
    if Val(stale) == Val(addr) { SameByte(stale, addr); }
  }

  lemma Complement(a: bv8)
    ensures Val(CHKSUM - a) == 255 - Val(a)
  {
  }

  lemma SmallAddr(a: bv8)
    requires a < 8
    ensures Val(a) < 8
  {
  }

  lemma AddrIsSmall(c: bv8)
    ensures Addr(c) < 8
  {
  }

  /** What the octets of one frame do from any state. The frame is delivered intact exactly when
      it has two bytes or more and its leading SEOF is accepted or the address of the last SEOF
      accepted is the same; either way the receiver then starts afresh. */
  lemma FrameFromAnyState(s: Rx, addr: bv8, p: seq<bv8>)
    requires addr < 8
    ensures var delivered := |p| >= 2 && (Acceptable(s) || Addr(s.seof) == addr);
            && Events(s, Frame(addr, p)) == Delivered(s, SEOF | addr) + (if delivered then [Data(addr, p)] else [])
            && After(s, Frame(addr, p)).octets == []
  {
    hide After, Events, Out, Encode, Sum, IsSeof, IsData, Addr, CheckByte, AllData, Val;
    var lead, body := SEOF | addr, Encode(p + [CheckByte(addr, p)]);
    SeofBits(addr);
    var t := Next(s, lead);
    AfterConcat(s, [lead] + body, [SEOF]);
    AfterConcat(s, [lead], body);
    AfterOne(s, lead);
    EncodeIsData(p + [CheckByte(addr, p)]);
    AfterData(t, body);
    assert t.octets == [];
    assert [] + body == body;
    AfterOne(Rx(t.seof, body), SEOF);
    DecodeEncode(p + [CheckByte(addr, p)]);
    CheckedFrame(addr, p, Rx(t.seof, body));
  }

  lemma CheckedFrame(addr: bv8, p: seq<bv8>, t: Rx)
    requires addr < 8 && Out(t.octets) == p + [CheckByte(addr, p)]
    ensures Acceptable(t) <==> |p| >= 2 && Addr(t.seof) == addr
    ensures Delivered(t, SEOF) == if |p| >= 2 && Addr(t.seof) == addr then [Data(addr, p)] else []
    ensures Next(t, SEOF).octets == []
  {
    hide Out, Sum, Addr, Val;
    SumSnoc(p, CheckByte(addr, p));
    AddrIsSmall(t.seof);
    CheckArithmetic(Sum(p), addr, Addr(t.seof), CheckByte(addr, p));
    assert (p + [CheckByte(addr, p)])[..|p|] == p;
  }

  /** Self-synchronisation: whatever state line noise has left, the second of two frames is
      delivered intact, with its address, if it has two bytes or more; the first may be any. */
  lemma SecondFrameDelivered(s: Rx, a1: bv8, p1: seq<bv8>, a2: bv8, p2: seq<bv8>)
    requires a1 < 8 && a2 < 8
    ensures Events(s, Frame(a1, p1) + Frame(a2, p2)) == Events(s, Frame(a1, p1)) + (if |p2| >= 2 then [Data(a2, p2)] else [])
  {
    hide Frame, After, Events, Delivered, Acceptable;
    AfterConcat(s, Frame(a1, p1), Frame(a2, p2));
    FrameFromAnyState(s, a1, p1);
    var t := After(s, Frame(a1, p1));
    FreshAccepts(t, a2);
    FrameFromAnyState(t, a2, p2);
  }

  lemma FreshAccepts(t: Rx, addr: bv8)
    requires t.octets == [] && addr < 8
    ensures Acceptable(t) && Delivered(t, SEOF | addr) == []
  {
    SeofBits(addr);
  }

  // ----- commands in the middle of data

  function WithoutCommands(cs: seq<bv8>): seq<bv8> {
    if cs == [] then []
    else (if IsCommand(cs[0]) then [] else [cs[0]]) + WithoutCommands(cs[1..])
  }

  function Commands(cs: seq<bv8>): seq<Event> {
    if cs == [] then []
    else (if IsCommand(cs[0]) then [Command(cs[0])] else []) + Commands(cs[1..])
  }

  function OnlyData(es: seq<Event>): seq<Event> {
    if es == [] then [] else (if es[0].Data? then [es[0]] else []) + OnlyData(es[1..])
  }

  function OnlyCommands(es: seq<Event>): seq<Event> {
    if es == [] then [] else (if es[0].Command? then [es[0]] else []) + OnlyCommands(es[1..])
  }

  lemma {:induction false} OnlyOfFront(e: seq<Event>, es: seq<Event>)
    requires |e| <= 1
    ensures OnlyData(e + es) == OnlyData(e) + OnlyData(es)
    ensures OnlyCommands(e + es) == OnlyCommands(e) + OnlyCommands(es)
  {
    if e == [] {
      assert e + es == es;
    } else {
      assert (e + es)[1..] == es && (e + es)[0] == e[0];
      assert e == [e[0]];
      OnlyOne(e[0]);
    }
  }

  /** Commands may come anywhere in any octet stream: the data frames delivered and the state
      reached are those of the stream without them, and the commands delivered are exactly
      those sent, in order. */
  lemma {:induction false} CommandsDoNotDisturb(s: Rx, cs: seq<bv8>)
    ensures After(s, cs) == After(s, WithoutCommands(cs))
    ensures OnlyData(Events(s, cs)) == Events(s, WithoutCommands(cs))
    ensures OnlyCommands(Events(s, cs)) == Commands(cs)
    decreases |cs|
  {
    hide Next, Delivered, OnlyData, OnlyCommands, IsCommand;
    if cs != [] {
      var c, rest := cs[0], cs[1..];
      CommandsDoNotDisturb(Next(s, c), rest);
      OneOctetOnly(s, c);
      OnlyOfFront(Delivered(s, c), Events(Next(s, c), rest));
      if IsCommand(c) {
        assert [] + WithoutCommands(rest) == WithoutCommands(rest);
      } else {
        assert ([c] + WithoutCommands(rest))[1..] == WithoutCommands(rest);
      }
    } else {
      NothingOnly();
    }
  }

  lemma NothingOnly()
    ensures OnlyData([]) == [] && OnlyCommands([]) == []
  {
  }

  lemma OneOctetOnly(s: Rx, c: bv8)
    ensures |Delivered(s, c)| <= 1
    ensures IsCommand(c) ==> Next(s, c) == s && Delivered(s, c) == [Command(c)]
    ensures OnlyData(Delivered(s, c)) == if IsCommand(c) then [] else Delivered(s, c)
    ensures OnlyCommands(Delivered(s, c)) == if IsCommand(c) then [Command(c)] else []
  {
    hide Out, Acceptable;
    if Delivered(s, c) != [] { OnlyOne(Delivered(s, c)[0]); } else { NothingOnly(); }
  }

  lemma OnlyOne(e: Event)
    ensures OnlyData([e]) == (if e.Data? then [e] else []) && OnlyCommands([e]) == (if e.Command? then [e] else [])
  {
    assert [e][1..] == [];
  }

  // ----- one data octet changed on the way

  /** What an octet adds to the sum of all bytes. */
  function Weight(n: nat, c: bv8): bv8 { High(n, c) | Low(n, c) }

  function Total(o: seq<bv8>): nat {
    if o == [] then 0 else Total(o[..|o| - 1]) + Val(Weight(|o| - 1, o[|o| - 1]))
  }

  lemma OrIsSum(a: bv8, b: bv8)
    requires a & b == 0
    ensures Val(a | b) == Val(a) + Val(b)
  {
  }

  lemma Disjoint(n: nat, c: bv8)
    ensures High(n, c) & Low(n, c) == 0
  {
    assert ((c & 0x30) << 2) & (c & 0x0f) == 0 && ((c & 0x3c) << 2) & (c & 0x03) == 0;
  }

  lemma {:induction false} SumIsTotal(o: seq<bv8>)
    ensures Sum(Out(o)) + Val(Part(o)) == Total(o)
  {
    hide Sum, High, Low, Out, Part, Weight, Total, Val;
    if o == [] {
      NoSum();
    } else {
      var front, c := o[..|o| - 1], o[|o| - 1];
      assert o == front + [c];
      SumIsTotal(front);
      SumStep(front, c);
      TotalStep(front, c);
    }
  }

  lemma TotalStep(front: seq<bv8>, c: bv8)
    ensures Total(front + [c]) == Total(front) + Val(High(|front|, c)) + Val(Low(|front|, c))
  {
    hide High, Low, Val;
    assert (front + [c])[..|front|] == front;
    Disjoint(|front|, c);
    OrIsSum(High(|front|, c), Low(|front|, c));
  }

  lemma SumStep(front: seq<bv8>, c: bv8)
    ensures Sum(Out(front + [c])) == Sum(Out(front)) + Val(Part(front)) + Val(High(|front|, c))
    ensures Part(front + [c]) == Low(|front|, c)
  {
    hide Sum, High, Low, Out, Part, Val;
    PartOf(front, c);
    if |front| % 4 == 0 {
      NoPart(front, c);
    } else {
      SumSnoc(Out(front), Part(front) | High(|front|, c));
      PartIsDisjoint(front, c);
      OrIsSum(Part(front), High(|front|, c));
    }
  }

  lemma NoSum()
    ensures Sum(Out([])) == 0 && Val(Part([])) == 0 && Total([]) == 0
  {
  }

  lemma PartIsDisjoint(front: seq<bv8>, c: bv8)
    requires |front| % 4 != 0
    ensures Part(front) & High(|front|, c) == 0
  {
    var n, d := |front|, front[|front| - 1];
    assert (d & 0x3f) & ((c & 0x30) << 2) == 0;
    assert (d & 0x0f) & ((c & 0x3c) << 2) == 0 && (d & 0x03) & ((c & 0x3f) << 2) == 0;
  }

  lemma NoPart(front: seq<bv8>, c: bv8)
    requires |front| % 4 == 0
    ensures Val(Part(front)) == 0 && Val(High(|front|, c)) == 0
  {
  }

  /** No two data octets weigh the same at one place. */
  lemma WeightIsInjective(n: nat, c: bv8, d: bv8)
    requires IsData(c) && IsData(d) && Weight(n, c) == Weight(n, d)
    ensures c == d
  {
  }

  lemma {:induction false} TotalDiffers(o: seq<bv8>, j: nat, c: bv8)
    requires j < |o| && IsData(o[j]) && IsData(c) && c != o[j]
    ensures -256 < Total(o[j := c]) - Total(o) < 256 && Total(o[j := c]) != Total(o)
  {
    hide Weight, IsData, Val;
    var front, last := o[..|o| - 1], o[|o| - 1];
    var o' := o[j := c];
    if j == |o| - 1 {
      assert o'[..|o| - 1] == front;
      if Weight(j, c) == Weight(j, last) { WeightIsInjective(j, c, last); }
      SameByte(Weight(j, c), Weight(j, last));
    } else {
      assert o'[..|o| - 1] == front[j := c];
      TotalDiffers(front, j, c);
    }
  }

  /** Replacing any one data octet by another changes the sum of the bytes decoded exactly when
      it changes the bytes, although one octet can reach into two bytes. */
  lemma SumSeesOneOctet(o: seq<bv8>, j: nat, c: bv8)
    requires AllData(o) && j < |o| && IsData(c)
    ensures Sum(Out(o[j := c])) % 256 == Sum(Out(o)) % 256 <==> Out(o[j := c]) == Out(o)
  {
    hide Sum, Out, Total, IsData, Low, High, Part, Val;
    var o' := o[j := c];
    if c == o[j] {
      assert o' == o;
    } else {
      SumIsTotal(o);
      SumIsTotal(o');
      TotalDiffers(o, j, c);
      if j < |o| - 1 {
        SamePart(o, o');
      } else {
        LastOctet(o, c);
      }
    }
  }

  lemma SamePart(o: seq<bv8>, p: seq<bv8>)
    requires |o| == |p| > 0 && o[|o| - 1] == p[|p| - 1]
    ensures Part(o) == Part(p)
  {
  }

  lemma LastOctet(o: seq<bv8>, c: bv8)
    requires o != []
    ensures var o' := o[|o| - 1 := c];
            Sum(Out(o')) % 256 == Sum(Out(o)) % 256 <==> Out(o') == Out(o)
  {
    hide Sum, Out, Part, High, Low, Val;
    var front, last := o[..|o| - 1], o[|o| - 1];
    assert o == front + [last] && o[|o| - 1 := c] == front + [c];
    PartOf(front, last);
    PartOf(front, c);
    if |front| % 4 != 0 {
      var x, y := Part(front) | High(|front|, last), Part(front) | High(|front|, c);
      SumSnoc(Out(front), x);
      SumSnoc(Out(front), y);
      SameByte(x, y);
    }
  }

  /** The port a frame is taken to be for: the stale one when the leading SEOF is not accepted. */
  function TakenFor(s: Rx, addr: bv8): bv8 {
    if Acceptable(s) then addr else Addr(s.seof)
  }

  /** A frame in which one data octet has become another one, from any state. It is delivered to
      the port it is taken for when its bytes pass the checksum of that port. If that is the port
      it was sent to, it is delivered unchanged or not at all. */
  lemma OneOctetChanged(s: Rx, addr: bv8, p: seq<bv8>, j: nat, c: bv8)
    requires addr < 8 && IsData(c)
    requires 1 <= j < |Frame(addr, p)| - 1
    ensures var bytes, to := Out(Encode(p + [CheckByte(addr, p)])[j - 1 := c]), TakenFor(s, addr);
            && |bytes| == |p| + 1
            && Events(s, Frame(addr, p)[j := c]) ==
               Delivered(s, SEOF | addr) + (if |p| >= 2 && Checks(Sum(bytes), to) then [Data(to, bytes[..|p|])] else [])
            && (to == addr ==>
                  Events(s, Frame(addr, p)[j := c]) ==
                  Delivered(s, SEOF | addr) + if |p| >= 2 && bytes == p + [CheckByte(addr, p)] then [Data(addr, p)] else [])
  {
    hide After, Events, Out, Encode, Sum, IsSeof, IsData, Addr, CheckByte, Val, Acceptable, Delivered, Checks;
    var lead, body := SEOF | addr, Encode(p + [CheckByte(addr, p)]);
    var body' := body[j - 1 := c];
    assert Frame(addr, p)[j := c] == ([lead] + body') + [SEOF];
    SeofBits(addr);
    var t := Next(s, lead);
    assert Addr(t.seof) == TakenFor(s, addr) && t.octets == [];
    AfterConcat(s, [lead] + body', [SEOF]);
    AfterConcat(s, [lead], body');
    AfterOne(s, lead);
    EncodeIsData(p + [CheckByte(addr, p)]);
    AfterData(t, body');
    assert [] + body' == body';
    AfterOne(Rx(t.seof, body'), SEOF);
    DecodeEncode(p + [CheckByte(addr, p)]);
    SumSeesOneOctet(body, j - 1, c);
    SameLength(body, body');
    LongIsDelivered(Rx(t.seof, body'), |p|);
    if TakenFor(s, addr) == addr { ChangedFrame(addr, p, body, body', t.seof); }
  }

  lemma LongIsDelivered(t: Rx, n: nat)
    requires |Out(t.octets)| == n + 1
    ensures Delivered(t, SEOF) ==
            if n >= 2 && Checks(Sum(Out(t.octets)), Addr(t.seof)) then [Data(Addr(t.seof), Out(t.octets)[..n])] else []
  {
    hide Out, Sum, Checks, Addr;
  }

  lemma SameModulo(a: nat, b: nat, k: nat)
    ensures a % 256 == b % 256 <==> (a + k) % 256 == (b + k) % 256
  {
  }

  lemma CheckByteIs(addr: bv8, p: seq<bv8>)
    ensures CheckByte(addr, p) == CHKSUM - ((Sum(p) + Val(addr)) % 256) as bv8
  {
    hide Sum, Val;
  }

  lemma SameLength(o: seq<bv8>, p: seq<bv8>)
    requires |o| == |p|
    ensures |Out(o)| == |Out(p)|
  {
    OutLength(o);
    OutLength(p);
  }

  lemma ChangedFrame(addr: bv8, p: seq<bv8>, body: seq<bv8>, body': seq<bv8>, lead: bv8)
    requires addr < 8 && Addr(lead) == addr && |body| == |body'|
    requires Out(body) == p + [CheckByte(addr, p)]
    requires Sum(Out(body')) % 256 == Sum(Out(body)) % 256 <==> Out(body') == Out(body)
    ensures Delivered(Rx(lead, body'), SEOF) == if |p| >= 2 && Out(body') == Out(body) then [Data(addr, p)] else []
  {
    hide Sum, Addr, Val, Out, IsData, IsSeof, Acceptable, CheckByte;
    SeofBits(addr);
    ChangedIsAcceptable(addr, p, body, body', lead);
    SameLength(body, body');
    assert (p + [CheckByte(addr, p)])[..|p|] == p;
  }

  lemma ChangedIsAcceptable(addr: bv8, p: seq<bv8>, body: seq<bv8>, body': seq<bv8>, lead: bv8)
    requires Addr(lead) == addr && |body| == |body'|
    requires Out(body) == p + [CheckByte(addr, p)]
    requires Sum(Out(body')) % 256 == Sum(Out(body)) % 256 <==> Out(body') == Out(body)
    ensures Acceptable(Rx(lead, body')) <==> |p| >= 2 && Out(body') == Out(body)
  {
    hide Sum, Addr, Val, Out, CheckByte, Checks;
    var d, d' := Out(body), Out(body');
    SameLength(body, body');
    assert |d'| == |d| == |p| + 1;
    RightSum(addr, p);
    ChecksAlike(Sum(d'), Sum(d), addr);
  }

  lemma ChecksAlike(a: nat, b: nat, addr: bv8)
    requires Checks(b, addr)
    ensures Checks(a, addr) <==> a % 256 == b % 256
  {
    hide Val;
    SameModulo(a, b, Val(addr));
  }

  lemma RightSum(addr: bv8, p: seq<bv8>)
    ensures Checks(Sum(p + [CheckByte(addr, p)]), addr)
  {
    hide Sum, Val, CheckByte;
    SumSnoc(p, CheckByte(addr, p));
    CheckByteIs(addr, p);
    RightCheck(Sum(p), addr, CheckByte(addr, p));
  }

  /** No frame for a port with any one data octet replaced is ever delivered other than it was
      sent, be it in its bytes or in its port. */
  ghost predicate NeverChanged(s: Rx, addr: bv8) {
    forall p: seq<bv8>, j: nat, c: bv8 :: 1 <= j < |Frame(addr, p)| - 1 && IsData(c) ==>
      DeliveredAsSent(s, addr, p, j, c)
  }

  predicate DeliveredAsSent(s: Rx, addr: bv8, p: seq<bv8>, j: nat, c: bv8)
    requires 1 <= j < |Frame(addr, p)| - 1
  {
    var events, before := Events(s, Frame(addr, p)[j := c]), Delivered(s, SEOF | addr);
    events == before || events == before + [Data(addr, p)]
  }

  /** The corruption of one octet is caught exactly when the frame is taken for its own port. */
  lemma CaughtExactly(s: Rx, addr: bv8)
    requires addr < 8
    ensures NeverChanged(s, addr) <==> Acceptable(s) || Addr(s.seof) == addr
  {
    hide Acceptable, Delivered, Events, Frame, Addr, IsData, Out, Encode, CheckByte, Sum, Checks, DeliveredAsSent;
    if Acceptable(s) || Addr(s.seof) == addr {
      forall p: seq<bv8>, j: nat, c: bv8 | 1 <= j < |Frame(addr, p)| - 1 && IsData(c)
        ensures DeliveredAsSent(s, addr, p, j, c)
      {
        OneOctetChanged(s, addr, p, j, c);
        IsAsSent(s, addr, p, j, c);
      }
    } else {
      SlipsThrough(s, addr);
    }
  }

  lemma IsAsSent(s: Rx, addr: bv8, p: seq<bv8>, j: nat, c: bv8)
    requires 1 <= j < |Frame(addr, p)| - 1
    requires var events, before := Events(s, Frame(addr, p)[j := c]), Delivered(s, SEOF | addr);
             events == before + [] || events == before + [Data(addr, p)]
    ensures DeliveredAsSent(s, addr, p, j, c)
  {
    hide Events, Delivered, Frame;
    assert Delivered(s, SEOF | addr) + [] == Delivered(s, SEOF | addr);
  }

  /** Otherwise the payload [8, 0], its first octet changed by the difference of the two ports,
      comes out changed on the wrong port. */
  lemma SlipsThrough(s: Rx, addr: bv8)
    requires addr < 8 && !Acceptable(s) && Addr(s.seof) != addr
    ensures var c := 8 + addr - Addr(s.seof);
            && IsData(c) && 1 < |Frame(addr, [8, 0])| - 1
            && Events(s, Frame(addr, [8, 0])[1 := c]) == Delivered(s, SEOF | addr) + [Data(Addr(s.seof), [c, 0])]
            && !DeliveredAsSent(s, addr, [8, 0], 1, c)
  {
    hide Acceptable, Delivered, Events, Out, CheckByte, Sum, Checks, Encode, Addr, Third, Fourth;
    AddrIsSmall(s.seof);
    var to := Addr(s.seof);
    var c, check := 8 + addr - to, CheckByte(addr, [8, 0]);
    assert c < 0x40 && IsData(c);
    assert [8 as bv8, 0] + [check] == [8, 0, check];
    EncodeThree(8, check);
    EncodeThree(c, check);
    assert Encode([8, 0, check])[0 := c] == Encode([c, 0, check]);
    OneOctetChanged(s, addr, [8, 0], 1, c);
    DecodeEncode([c, 0, check]);
    RightForStale(addr, to, check);
    assert [c, 0, check][..2] == [c, 0];
    NotAsSent(s, addr, [8, 0], 1, c, to, [c, 0]);
  }

  lemma NotAsSent(s: Rx, addr: bv8, p: seq<bv8>, j: nat, c: bv8, to: bv8, bytes: seq<bv8>)
    requires 1 <= j < |Frame(addr, p)| - 1 && to != addr
    requires Events(s, Frame(addr, p)[j := c]) == Delivered(s, SEOF | addr) + [Data(to, bytes)]
    ensures !DeliveredAsSent(s, addr, p, j, c)
  {
    hide Events, Delivered, Frame;
    var before := Delivered(s, SEOF | addr);
    assert (before + [Data(to, bytes)])[|before|] != (before + [Data(addr, p)])[|before|];
  }

  lemma EncodeThree(x: bv8, k: bv8)
    requires x < 0x40
    ensures Encode([x, 0, k]) == [x, 0, Third(0, k), Fourth(k)]
  {
    hide Packed, Left, Third, Fourth;
    PackedTwo(x);
    PackedStep([x, 0], k);
    assert [x, 0] + [k] == [x, 0, k];
  }

  lemma PackedTwo(x: bv8)
    requires x < 0x40
    ensures Packed([x, 0]) == [x, 0] && Left([x, 0]) == 0
  {
    hide First, Second, Left;
    SmallOctet(x);
    assert [x, 0][..1] == [x] && [x][..0] == [];
    assert Packed([x]) == [First(x)];
  }

  lemma SmallOctet(x: bv8)
    requires x < 0x40
    ensures First(x) == x && Left([x]) == 0 && Second(0, 0) == 0 && Left([x, 0]) == 0
  {
  }

  lemma RightForStale(addr: bv8, to: bv8, check: bv8)
    requires addr < 8 && to < 8 && check == CheckByte(addr, [8, 0])
    ensures Checks(Sum([8 + addr - to, 0, check]), to)
  {
    hide Sum, Val, CheckByte;
    RightSum(addr, [8, 0]);
    assert [8 as bv8, 0] + [check] == [8, 0, check];
    SumThree(8, check);
    SumThree(8 + addr - to, check);
    ShiftedOctet(addr, to);
  }

  lemma SumThree(x: bv8, k: bv8)
    ensures Sum([x, 0, k]) == Val(x) + Val(k)
  {
    hide Val, Sum;
    assert [x, 0, k] == [] + [x] + [0] + [k];
    SumSnoc([], x);
    SumSnoc([] + [x], 0);
    SumSnoc([] + [x] + [0], k);
    NothingSums();
  }

  lemma NothingSums()
    ensures Sum([]) == 0 && Val(0) == 0
  {
  }

  lemma ShiftedOctet(addr: bv8, to: bv8)
    requires addr < 8 && to < 8
    ensures Val(8 + addr - to) + Val(to) == Val(8) + Val(addr)
  {
  }
}
