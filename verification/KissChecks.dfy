/**
 What the two checksums of mkiss accept and what they catch, for all octets between two FENDs and
 from any receiver state. The G8BPQ exclusive-or is the one it should be; the FlexNet table is
 used with the wrong shift, so that four endings of a frame pass instead of one.
 */
module KissChecks {
  import opened KissBytes
  import opened Kiss
  import opened FcsPairs
  import Fcs

  // ----- the bytes between two FENDs

  /** The bytes some octets without a FEND stand for: an octet behind an FESC may mean another. */
  function Bytes(o: seq<bv8>): seq<bv8> {
    if o == [] then []
    else
      var front, c := o[..|o| - 1], o[|o| - 1];
      if c == 0xdb then Bytes(front)
      else if front != [] && front[|front| - 1] == 0xdb && c == 0xdd then Bytes(front) + [0xdb]
      else if front != [] && front[|front| - 1] == 0xdb && c == 0xdc then Bytes(front) + [0xc0]
      else Bytes(front) + [c]
  }

  predicate Dangling(o: seq<bv8>) {
    o != [] && o[|o| - 1] == 0xdb
  }

  lemma {:induction false} Collects(mode: Check, o: seq<bv8>)
    requires FEND !in o
    ensures var r := Rx(false, Start(mode), []);
            && After(mode, r, o) == Rx(Dangling(o), Crc(mode, Start(mode), Bytes(o)), Bytes(o))
            && Frames(mode, r, o) == []
  {
    hide CrcStep, Crc, After, Frames, Start;
    var r := Rx(false, Start(mode), []);
    if o == [] {
      NoOctets(mode, r);
    } else {
      var front, c := o[..|o| - 1], o[|o| - 1];
      Collects(mode, front);
      assert o == front + [c];
      AfterConcat(mode, r, front, [c]);
      AfterOne(mode, After(mode, r, front), c);
      CrcSnoc(mode, Start(mode), Bytes(front), Meant(After(mode, r, front), c));
    }
  }

  lemma NoOctets(mode: Check, r: Rx)
    ensures After(mode, r, []) == r && Frames(mode, r, []) == [] && Crc(mode, r.crc, []) == r.crc
  {
  }

  /** From any receiver state, the octets between two FENDs are judged by the bytes they stand for. */
  lemma Between(mode: Check, r: Rx, o: seq<bv8>)
    requires FEND !in o
    ensures Frames(mode, r, [FEND] + o + [FEND]) ==
            Out(mode, r, FEND) + Out(mode, Rx(Dangling(o), Crc(mode, Start(mode), Bytes(o)), Bytes(o)), FEND)
  {
    hide After, Frames, Accepted, Crc, CrcStep, Start, Dangling, Bytes;
    AfterConcat(mode, r, [FEND] + o, [FEND]);
    AfterConcat(mode, r, [FEND], o);
    AfterOne(mode, r, FEND);
    Collects(mode, o);
    AfterOne(mode, After(mode, Rx(false, Start(mode), []), o), FEND);
  }

  lemma BytesSnoc(o: seq<bv8>, c: bv8)
    ensures Bytes(o + [c]) ==
            if c == 0xdb then Bytes(o)
            else if Dangling(o) && c == 0xdd then Bytes(o) + [0xdb]
            else if Dangling(o) && c == 0xdc then Bytes(o) + [0xc0]
            else Bytes(o) + [c]
    ensures Dangling(o + [c]) <==> c == 0xdb
  {
    assert (o + [c])[..|o|] == o;
  }

  lemma {:induction false} BytesOfEscaped(p: seq<bv8>)
    ensures Bytes(Escaped(p)) == p && !Dangling(Escaped(p)) && FEND !in Escaped(p)
  {
    hide Escape, Bytes, Dangling;
    NoFendInside(p);
    if p == [] {
      NothingEscaped();
    } else {
      var front, c := p[..|p| - 1], p[|p| - 1];
      BytesOfEscaped(front);
      assert p == front + [c];
      EscapedSnoc(front, c);
      BytesOfEscape(Escaped(front), c);
    }
  }

  lemma NothingEscaped()
    ensures Escaped([]) == [] && Bytes([]) == [] && !Dangling([])
  {
  }

  lemma BytesOfEscape(o: seq<bv8>, c: bv8)
    requires !Dangling(o)
    ensures Bytes(o + Escape(c)) == Bytes(o) + [c] && !Dangling(o + Escape(c))
  {
    hide Bytes, Dangling;
    if c == FEND || c == FESC {
      var t := if c == FEND then TFEND else TFESC;
      assert o + Escape(c) == (o + [FESC]) + [t];
      BytesSnoc(o, FESC);
      BytesSnoc(o + [FESC], t);
    } else {
      BytesSnoc(o, c);
    }
  }

  // ----- plain and G8BPQ

  function XorAll(p: seq<bv8>): bv8 {
    if p == [] then 0 else p[0] ^ XorAll(p[1..])
  }

  lemma {:induction false} CrcIsXor(x: bv16, p: seq<bv8>)
    ensures Lo(Crc(G8bpq, x, p)) == Lo(x) ^ XorAll(p)
    decreases |p|
  {
    hide CrcStep, Lo;
    if p == [] {
      XorNothing(Lo(x));
    } else {
      CrcIsXor(CrcStep(G8bpq, x, p[0]), p[1..]);
      XorStep(x, p[0], XorAll(p[1..]));
    }
  }

  lemma XorNothing(a: bv8)
    ensures a ^ 0 == a == 0 ^ a
  {
  }

  lemma XorStep(x: bv16, c: bv8, rest: bv8)
    ensures Lo(CrcStep(G8bpq, x, c)) ^ rest == Lo(x) ^ (c ^ rest)
  {
    LoOfXor(x, c);
    XorAssociates8(Lo(x), c, rest);
  }

  lemma LoOfXor(x: bv16, c: bv8)
    ensures Lo(CrcStep(G8bpq, x, c)) == Lo(x) ^ c
  {
  }

  lemma XorAssociates8(a: bv8, b: bv8, c: bv8)
    ensures (a ^ b) ^ c == a ^ (b ^ c) && a ^ b == b ^ a
  {
  }

  lemma LowIsZero(x: bv16)
    ensures x & 0xff == 0 <==> Lo(x) == 0
    ensures Lo(0) == 0
  {
  }

  /** Plain KISS hands on every frame that does not end inside an escape. */
  lemma PlainReceived(r: Rx, o: seq<bv8>)
    requires FEND !in o
    ensures Frames(Plain, r, [FEND] + o + [FEND]) ==
            Out(Plain, r, FEND) + if Dangling(o) || Bytes(o) == [] then [] else [Bytes(o)]
  {
    hide Frames, Bytes, Dangling, Crc, Out;
    Between(Plain, r, o);
    OutIs(Plain, Rx(Dangling(o), Crc(Plain, Start(Plain), Bytes(o)), Bytes(o)));
  }

  lemma OutIs(mode: Check, r: Rx)
    ensures Out(mode, r, FEND) == if Accepted(mode, r) == [] then [] else [Accepted(mode, r)]
  {
    hide Accepted;
  }

  /** Under G8BPQ a data frame is handed on without its last byte if and only if the exclusive-or
      of all its bytes is zero; a poll never; any other frame as it is. */
  lemma G8Received(r: Rx, o: seq<bv8>)
    requires FEND !in o
    ensures var p := Bytes(o);
            Frames(G8bpq, r, [FEND] + o + [FEND]) ==
            Out(G8bpq, r, FEND) +
            if Dangling(o) || p == [] then []
            else if p[0] & 0x0f == 0 then (if XorAll(p) == 0 && |p| > 1 then [p[..|p| - 1]] else [])
            else if p[0] & 0x0f == 0x0e then []
            else [p]
  {
    hide Frames, Bytes, Dangling, Crc, Out, XorAll, Lo;
    var p := Bytes(o);
    Between(G8bpq, r, o);
    var u := Crc(G8bpq, 0, p);
    CrcIsXor(0, p);
    LowIsZero(u);
    LowIsZero(0);
    XorNothing(XorAll(p));
    OutIs(G8bpq, Rx(Dangling(o), u, p));
  }

  lemma {:induction false} XorReplaced(p: seq<bv8>, k: nat, c: bv8)
    requires k < |p|
    ensures XorAll(p[k := c]) == XorAll(p) <==> c == p[k]
  {
    if k == 0 {
      assert p[0 := c][1..] == p[1..];
      XorCancels(p[0], c, XorAll(p[1..]));
    } else {
      assert p[k := c][1..] == p[1..][k - 1 := c];
      XorReplaced(p[1..], k - 1, c);
      XorCancels2(p[0], XorAll(p[1..]), XorAll(p[1..][k - 1 := c]));
    }
  }

  lemma XorCancels(a: bv8, b: bv8, rest: bv8)
    ensures b ^ rest == a ^ rest <==> b == a
  {
    assert (a ^ rest) ^ rest == a && (b ^ rest) ^ rest == b;
  }

  lemma XorCancels2(x: bv8, a: bv8, b: bv8)
    ensures x ^ b == x ^ a <==> b == a
  {
    assert x ^ (x ^ a) == a && x ^ (x ^ b) == b;
  }

  /** The bytes of a data frame that G8BPQ accepts. */
  predicate G8Good(p: seq<bv8>) {
    |p| > 1 && p[0] & 0x0f == 0 && XorAll(p) == 0
  }

  /** A data frame with one byte replaced by another is dropped, unless the command byte itself
      has become that of a frame without checksum other than a poll. */
  lemma G8OneByte(r: Rx, p: seq<bv8>, k: nat, c: bv8)
    requires G8Good(p) && k < |p| && c != p[k]
    ensures Frames(G8bpq, r, [FEND] + Escaped(p[k := c]) + [FEND]) == Out(G8bpq, r, FEND) <==>
            k > 0 || c & 0x0f == 0 || c & 0x0f == 0x0e
  {
    hide Frames, Escaped, Bytes, Dangling, Out, XorAll;
    var q := p[k := c];
    BytesOfEscaped(q);
    G8Received(r, Escaped(q));
    XorReplaced(p, k, c);
    var before := Out(G8bpq, r, FEND);
    assert before + [] == before && |before + [q]| == |before| + 1;
  }

  // ----- FlexNet

  function Up(x: bv16): bv16 { x << 8 }

  function Wide(c: bv8): bv16 { c as bv16 }

  function Index(x: bv16, c: bv8): bv8 { ((x >> 8) as bv8) ^ c }

  /** One step of the FlexNet checksum: the running value is shifted up by an octet, and the
      remainder of dividing the octet shifted out and the next byte is added. */
  function FlexStep(x: bv16, c: bv8): bv16 {
    Xor(Up(x), Fcs.Divide(0xffff, Fcs.ByteBits(Index(x, c))))
  }

  function FlexCrc(p: seq<bv8>): bv16 {
    if p == [] then 0xffff else FlexStep(FlexCrc(p[..|p| - 1]), p[|p| - 1])
  }

  lemma FlexUnfold(x: bv16, c: bv8)
    ensures CrcStep(Flex, x, c) == Xor(Up(x), Entry(Index(x, c)))
  {
    hide Entry;
  }

  lemma FlexStepIs(x: bv16, c: bv8)
    ensures CrcStep(Flex, x, c) == FlexStep(x, c)
  {
    hide Entry, Fcs.Divide, Fcs.ByteBits, Xor, Up, Index, CrcStep;
    FlexUnfold(x, c);
    EntryIsRemainder(Index(x, c));
  }

  lemma {:induction false} CrcIsFlexCrc(p: seq<bv8>)
    ensures Crc(Flex, 0xffff, p) == FlexCrc(p)
  {
    hide Crc, CrcStep, FlexStep;
    if p == [] {
      NoOctets(Flex, Rx(false, 0xffff, []));
    } else {
      var front, c := p[..|p| - 1], p[|p| - 1];
      assert p == front + [c];
      CrcIsFlexCrc(front);
      CrcSnoc(Flex, 0xffff, front, c);
      FlexStepIs(FlexCrc(front), c);
    }
  }

  /** What a step does to the difference of two running values. */
  function Moved(d: bv16): bv16 {
    Xor(Up(d), Fcs.Step8(d >> 8))
  }

  function Top(c: bv8): bv16 {
    (c as bv16) << 8
  }

  lemma Step8IsLinear(x: bv16, y: bv16)
    ensures Fcs.Step8(Xor(x, y)) == Xor(Fcs.Step8(x), Fcs.Step8(y))
  {
    hide Fcs.Step, Xor;
    var x2, y2 := Fcs.Step(Fcs.Step(x)), Fcs.Step(Fcs.Step(y));
    TwoSteps(x, y);
    TwoSteps(x2, y2);
    var x4, y4 := Fcs.Step(Fcs.Step(x2)), Fcs.Step(Fcs.Step(y2));
    TwoSteps(x4, y4);
    TwoSteps(Fcs.Step(Fcs.Step(x4)), Fcs.Step(Fcs.Step(y4)));
  }

  lemma TwoSteps(x: bv16, y: bv16)
    ensures Fcs.Step(Fcs.Step(Xor(x, y))) == Xor(Fcs.Step(Fcs.Step(x)), Fcs.Step(Fcs.Step(y)))
  {
    hide Fcs.Step, Xor;
    StepIsLinear(x, y);
    StepIsLinear(Fcs.Step(x), Fcs.Step(y));
  }

  function Not(i: bv8): bv8 { i ^ 0xff }

  lemma EntryUnfold(i: bv8)
    ensures Entry(i) == Xor(Fcs.FcsTab(Not(i)), 0xff)
  {
    hide Fcs.FcsTab;
  }

  lemma TableUnfold(i: bv8)
    ensures Fcs.FcsTab(i) == Fcs.Step8(Wide(i))
  {
    hide Fcs.FcsTab, Fcs.Step8;
    Fcs.TableEntry(i);
  }

  lemma EntryIs(i: bv8)
    ensures Entry(i) == Xor(Fcs.Step8(Wide(i)), 0x0f87)
  {
    hide Fcs.Step8, Fcs.FcsTab, Xor, Not, Wide, Entry;
    EntryUnfold(i);
    TableUnfold(Not(i));
    NotIsXor(i);
    Step8IsLinear(Wide(i), 0xff);
    AllOnes();
    XorAssociates(Fcs.Step8(Wide(i)), Fcs.Step8(0xff), 0xff);
  }

  lemma NotIsXor(i: bv8)
    ensures Wide(Not(i)) == Xor(Wide(i), 0xff)
  {
  }

  lemma AllOnes()
    ensures Xor(Fcs.Step8(0xff), 0xff) == 0x0f87 && Fcs.Step8(0) == 0
  {
  }

  /** A step of the checksum is linear but for a constant. */
  lemma StepIs(x: bv16, c: bv8)
    ensures CrcStep(Flex, x, c) == Xor(Moved(Xor(x, Top(c))), 0x0f87)
  {
    hide Entry, Fcs.Step8, Xor, Top, Up, Wide, Index, CrcStep;
    FlexUnfold(x, c);
    EntryIs(Index(x, c));
    TopMoves(x, c);
    XorAssociates(Up(x), Fcs.Step8(Wide(Index(x, c))), 0x0f87);
  }

  lemma TopMoves(x: bv16, c: bv8)
    ensures Up(Xor(x, Top(c))) == Up(x) && Xor(x, Top(c)) >> 8 == Wide(Index(x, c))
  {
  }

  lemma MovedIsLinear(d: bv16, e: bv16)
    ensures Moved(Xor(d, e)) == Xor(Moved(d), Moved(e))
  {
    hide Fcs.Step8, Xor, Up;
    ShiftsAreLinear(d, e);
    Step8IsLinear(d >> 8, e >> 8);
    XorSwap(Up(d), Up(e), Fcs.Step8(d >> 8), Fcs.Step8(e >> 8));
  }

  lemma ShiftsAreLinear(d: bv16, e: bv16)
    ensures Up(Xor(d, e)) == Xor(Up(d), Up(e)) && Xor(d, e) >> 8 == Xor(d >> 8, e >> 8)
  {
  }

  lemma DifferenceMoves(x: bv16, y: bv16, c: bv8, e: bv8)
    ensures Xor(CrcStep(Flex, x, c), CrcStep(Flex, y, e)) == Moved(Xor(Xor(x, y), Xor(Top(c), Top(e))))
  {
    hide CrcStep, Xor, Moved, Top;
    StepIs(x, c);
    StepIs(y, e);
    var a, b := Moved(Xor(x, Top(c))), Moved(Xor(y, Top(e)));
    XorSwap(a, 0x0f87, b, 0x0f87);
    XorZero(0x0f87);
    XorZero(Xor(a, b));
    MovedIsLinear(Xor(x, Top(c)), Xor(y, Top(e)));
    XorSwap(x, Top(c), y, Top(e));
  }

  /** The differences that steps make disappear. */
  predicate Lost(d: bv16) {
    d == 0 || d == 0x9185 || d == 0x50c3 || d == 0xc146 || d == 0x29ec || d == 0xb869 || d == 0x792f || d == 0xe8aa
  }

  lemma LostBefore(d: bv16)
    ensures Lost(Moved(d)) ==> Lost(d)
  {
  }

  lemma TopIsNotLost(c: bv8, e: bv8)
    requires c != e
    ensures !Lost(Xor(Top(c), Top(e)))
  {
  }

  /** A difference that steps do not make disappear stays, whatever follows. */
  lemma {:induction false} DifferenceStays(x: bv16, y: bv16, p: seq<bv8>)
    requires !Lost(Xor(x, y))
    ensures Crc(Flex, x, p) != Crc(Flex, y, p)
    decreases |p|
  {
    hide CrcStep, Lost, Xor, Top, Moved;
    if p == [] {
      SameIsLost(x);
    } else {
      DifferenceMoves(x, y, p[0], p[0]);
      XorZero(Top(p[0]));
      XorZero(Xor(x, y));
      LostBefore(Xor(x, y));
      DifferenceStays(CrcStep(Flex, x, p[0]), CrcStep(Flex, y, p[0]), p[1..]);
    }
  }

  lemma SameIsLost(x: bv16)
    ensures Lost(Xor(x, x))
  {
    hide Xor;
    XorZero(x);
  }

  lemma OneByteShows(x: bv16, p: seq<bv8>, k: nat, c: bv8)
    requires k < |p| && c != p[k]
    ensures Crc(Flex, x, p[k := c]) != Crc(Flex, x, p)
  {
    hide Crc, CrcStep, Lost, Xor, Top, Moved;
    var q := p[k := c];
    assert p == p[..k] + ([p[k]] + p[k + 1..]) && q == p[..k] + ([c] + p[k + 1..]);
    var y := Crc(Flex, x, p[..k]);
    CrcCut(x, p[..k], p[k], p[k + 1..]);
    CrcCut(x, p[..k], c, p[k + 1..]);
    DifferenceMoves(y, y, p[k], c);
    XorZero(y);
    XorZero(Xor(Top(p[k]), Top(c)));
    TopIsNotLost(p[k], c);
    LostBefore(Xor(Top(p[k]), Top(c)));
    DifferenceStays(CrcStep(Flex, y, p[k]), CrcStep(Flex, y, c), p[k + 1..]);
  }

  lemma CrcCut(x: bv16, a: seq<bv8>, c: bv8, b: seq<bv8>)
    ensures Crc(Flex, x, a + ([c] + b)) == Crc(Flex, CrcStep(Flex, Crc(Flex, x, a), c), b)
  {
    hide CrcStep, Crc;
    CrcConcat(Flex, x, a, [c] + b);
    CrcConcat(Flex, Crc(Flex, x, a), [c], b);
    CrcOne(Flex, Crc(Flex, x, a), c);
  }

  // ----- which endings pass

  function Word(a: bv8, b: bv8): bv16 { Xor(Top(a), Wide(b)) }

  /** What the last two octets may differ from the checksum in. */
  predicate Passes(d: bv16) {
    d == 0 || d == 0x50c3 || d == 0x9185 || d == 0xc146
  }

  lemma TwoMoves(a: bv8, b: bv8)
    ensures Moved(Xor(Moved(Top(a)), Top(b))) == 0 <==> Passes(Word(a, b))
  {
  }

  /** From the checksum u of the frame, two octets lead to the residue exactly when they differ
      from those of u in one of four ways. */
  lemma EndIs(u: bv16, a: bv8, b: bv8)
    ensures CrcStep(Flex, CrcStep(Flex, u, a), b) == RESIDUE <==> Passes(Xor(u, Word(a, b)))
  {
    hide CrcStep, Xor, Moved, Top, Word, Hi, Lo, Passes;
    var x, y := CrcStep(Flex, u, Hi(u)), CrcStep(Flex, u, a);
    FlexHi(u);
    FlexLo(u);
    DifferenceMoves(u, u, Hi(u), a);
    XorZero(u);
    XorZero(Xor(Top(Hi(u)), Top(a)));
    DifferenceMoves(x, y, Lo(u), b);
    TopXor(Hi(u), a);
    TopXor(Lo(u), b);
    TwoMoves(Hi(u) ^ a, Lo(u) ^ b);
    WordXor(u, a, b);
    XorIsZero(CrcStep(Flex, x, Lo(u)), CrcStep(Flex, y, b));
  }

  lemma TopXor(a: bv8, b: bv8)
    ensures Xor(Top(a), Top(b)) == Top(a ^ b)
  {
  }

  lemma WideXor(a: bv8, b: bv8)
    ensures Xor(Wide(a), Wide(b)) == Wide(a ^ b)
  {
  }

  lemma WordOf(u: bv16)
    ensures Word(Hi(u), Lo(u)) == u
  {
  }

  lemma WordXor(u: bv16, a: bv8, b: bv8)
    ensures Word(Hi(u) ^ a, Lo(u) ^ b) == Xor(u, Word(a, b))
  {
    hide Xor, Top, Wide, Hi, Lo;
    WordOf(u);
    TopXor(Hi(u), a);
    WideXor(Lo(u), b);
    XorSwap(Top(Hi(u)), Top(a), Wide(Lo(u)), Wide(b));
  }

  /** The bytes of a frame that FlexNet mode accepts: long enough, and the last two octets the
      checksum of the others or one of three values that should not pass. */
  predicate FlexGood(p: seq<bv8>) {
    |p| > 14 && Passes(Xor(FlexCrc(p[..|p| - 2]), Word(p[|p| - 2], p[|p| - 1])))
  }

  lemma FlexGoodIs(p: seq<bv8>)
    ensures FlexGood(p) <==> |p| > 14 && Crc(Flex, 0xffff, p) == RESIDUE
  {
    hide Crc, CrcStep, FlexCrc, Passes, Word, Xor;
    if |p| > 14 {
      var q, a, b := p[..|p| - 2], p[|p| - 2], p[|p| - 1];
      assert p == q + [a] + [b];
      CrcSnoc(Flex, 0xffff, q, a);
      CrcSnoc(Flex, 0xffff, q + [a], b);
      CrcIsFlexCrc(q);
      EndIs(FlexCrc(q), a, b);
    }
  }

  /** In FlexNet mode a frame is handed on, with a command byte of zero and without its last two
      octets, if and only if these pass. */
  lemma FlexReceived(r: Rx, o: seq<bv8>)
    requires FEND !in o
    ensures var p := Bytes(o);
            Frames(Flex, r, [FEND] + o + [FEND]) ==
            Out(Flex, r, FEND) + if !Dangling(o) && FlexGood(p) then [[0] + p[1..|p| - 2]] else []
  {
    hide Frames, Bytes, Dangling, Crc, Out, FlexGood;
    var p := Bytes(o);
    Between(Flex, r, o);
    FlexGoodIs(p);
    OutIs(Flex, Rx(Dangling(o), Crc(Flex, 0xffff, p), p));
  }

  /** One byte replaced by another, anywhere in a frame that is accepted, is always caught. */
  lemma FlexOneByte(r: Rx, p: seq<bv8>, k: nat, c: bv8)
    requires FlexGood(p) && k < |p| && c != p[k]
    ensures Frames(Flex, r, [FEND] + Escaped(p[k := c]) + [FEND]) == Out(Flex, r, FEND)
  {
    hide Frames, Escaped, Bytes, Dangling, Out, FlexGood, Crc;
    var q := p[k := c];
    BytesOfEscaped(q);
    FlexReceived(r, Escaped(q));
    FlexGoodIs(p);
    FlexGoodIs(q);
    OneByteShows(0xffff, p, k, c);
    assert Out(Flex, r, FEND) + [] == Out(Flex, r, FEND);
  }

  /** A checksum, or one of the three values that pass for it. */
  predicate Ending(u: bv16, w: bv16) {
    w == u || w == Xor(u, 0x50c3) || w == Xor(u, 0x9185) || w == Xor(u, 0xc146)
  }

  /** But both octets of the checksum can be wrong together: every frame of 13 bytes or more is
      delivered with each of four endings, of which only one is its checksum. */
  lemma FourEndings(r: Rx, q: seq<bv8>, a: bv8, b: bv8)
    requires |q| >= 13
    ensures Frames(Flex, r, [FEND] + Escaped(q + [a, b]) + [FEND]) == Out(Flex, r, FEND) + [[0] + q[1..]] <==>
            Ending(FlexCrc(q), Word(a, b))
  {
    hide Frames, Escaped, Bytes, Dangling, Out, FlexCrc, Word, Xor, Ending, Passes;
    var p := q + [a, b];
    BytesOfEscaped(p);
    FlexReceived(r, Escaped(p));
    assert p[..|p| - 2] == q && p[1..|p| - 2] == q[1..];
    PassesIs(FlexCrc(q), Word(a, b));
    var before := Out(Flex, r, FEND);
    assert |before + [[0] + q[1..]]| == |before| + 1 && before + [] == before;
  }

  lemma PassesIs(u: bv16, w: bv16)
    ensures Passes(Xor(u, w)) <==> Ending(u, w)
  {
    hide Xor;
    XorIsZero(u, w);
    XorMoves(u, w, 0x50c3);
    XorMoves(u, w, 0x9185);
    XorMoves(u, w, 0xc146);
  }

  lemma XorMoves(u: bv16, w: bv16, d: bv16)
    ensures Xor(u, w) == d <==> w == Xor(u, d)
  {
    hide Xor;
    XorAssociates(u, u, w);
    XorAssociates(u, u, d);
    XorZero(u);
    XorZero(w);
    XorZero(d);
  }
}
