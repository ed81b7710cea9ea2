/**
 The gateway of nrsdrv between a KISS line and a NET/ROM serial line: frames taken out of one
 stream, byte-stuffed the other way, and sent on.
 */
module Nrs {
  import opened KissBytes
  import opened Octets

  const STX: bv8 := 0x02
  const ETX: bv8 := 0x03
  const DLE: bv8 := 0x10
  const NUL: bv8 := 0x00
  const BUFFER := 512

  // ----- the two wire formats

  function Stuff(c: bv8): seq<bv8> {
    if c == STX || c == ETX || c == DLE then [DLE, c] else [c]
  }

  function Stuffed(s: seq<bv8>): seq<bv8>
    decreases |s|
  {
    if s == [] then [] else Stuff(s[0]) + Stuffed(s[1..])
  }

  function Low8(n: nat): bv8 {
    (n % 256) as bv8
  }

  /** A NET/ROM frame that carries some check byte. */
  function NrsFrameWith(p: seq<bv8>, check: bv8): seq<bv8> {
    [STX] + Stuffed(p) + [ETX, check, NUL, NUL]
  }

  function NrsFrame(p: seq<bv8>): seq<bv8> {
    NrsFrameWith(p, Low8(Sum(p)))
  }

  /** A KISS frame with command byte c. */
  function KissFrame(c: bv8, p: seq<bv8>): seq<bv8> {
    [FEND, c] + Escaped(p) + [FEND]
  }

  function NrsStream(ps: seq<seq<bv8>>): seq<bv8> {
    if ps == [] then [] else NrsFrame(ps[0]) + NrsStream(ps[1..])
  }

  function KissStream(ps: seq<seq<bv8>>): seq<bv8> {
    if ps == [] then [] else KissFrame(0, ps[0]) + KissStream(ps[1..])
  }

  // ----- taking KISS apart

  datatype KissMode = KissWait | KissCtrl | KissData | KissEscape

  datatype Kiss = Kiss(mode: KissMode, buf: seq<bv8>)

  /** Bytes beyond the buffer are dropped. */
  function Store(s: seq<bv8>, c: bv8): seq<bv8> {
    if |s| < BUFFER then s + [c] else s
  }

  function KissStep(k: Kiss, c: bv8): Kiss {
    match k.mode
    case KissWait => if c == FEND then Kiss(KissCtrl, []) else k
    case KissCtrl => if c & 0x0f == 0 then Kiss(KissData, []) else Kiss(KissWait, [])
    case KissData =>
      if c == FEND then Kiss(KissWait, [])
      else if c == FESC then Kiss(KissEscape, k.buf)
      else Kiss(KissData, Store(k.buf, c))
    case KissEscape =>
      if c == TFESC then Kiss(KissData, Store(k.buf, FESC))
      else if c == TFEND then Kiss(KissData, Store(k.buf, FEND))
      else Kiss(KissData, k.buf)
  }

  /** The frames handed to nrs_esc. */
  function KissOut(k: Kiss, c: bv8): seq<seq<bv8>> {
    if k.mode == KissData && c == FEND && |k.buf| > 2 then [k.buf] else []
  }

  function KissAfter(k: Kiss, cs: seq<bv8>): Kiss
    decreases |cs|
  {
    if cs == [] then k else KissAfter(KissStep(k, cs[0]), cs[1..])
  }

  function KissFrames(k: Kiss, cs: seq<bv8>): seq<seq<bv8>>
    decreases |cs|
  {
    if cs == [] then [] else KissOut(k, cs[0]) + KissFrames(KissStep(k, cs[0]), cs[1..])
  }

  lemma {:induction false} KissConcat(k: Kiss, a: seq<bv8>, b: seq<bv8>)
    ensures KissAfter(k, a + b) == KissAfter(KissAfter(k, a), b)
    ensures KissFrames(k, a + b) == KissFrames(k, a) + KissFrames(KissAfter(k, a), b)
    decreases |a|
  {
    hide KissStep, KissOut;
    if a == [] {
      assert a + b == b;
    } else {
      assert (a + b)[1..] == a[1..] + b;
      KissConcat(KissStep(k, a[0]), a[1..], b);
    }
  }

  lemma KissOne(k: Kiss, c: bv8)
    ensures KissAfter(k, [c]) == KissStep(k, c) && KissFrames(k, [c]) == KissOut(k, c)
  {
    hide KissStep, KissOut;
    assert [c][1..] == [];
  }

  lemma KissTwo(k: Kiss, a: bv8, b: bv8)
    ensures KissAfter(k, [a, b]) == KissStep(KissStep(k, a), b)
    ensures KissFrames(k, [a, b]) == KissOut(k, a) + KissOut(KissStep(k, a), b)
  {
    hide KissStep, KissOut;
    assert [a, b] == [a] + [b];
    KissConcat(k, [a], [b]);
    KissOne(k, a);
    KissOne(KissStep(k, a), b);
  }

  lemma KissTakesByte(b: seq<bv8>, c: bv8)
    ensures KissAfter(Kiss(KissData, b), Escape(c)) == Kiss(KissData, Store(b, c))
    ensures KissFrames(Kiss(KissData, b), Escape(c)) == []
  {
    var k := Kiss(KissData, b);
    if c == FEND {
      KissTwo(k, FESC, TFEND);
    } else if c == FESC {
      KissTwo(k, FESC, TFESC);
    } else {
      KissOne(k, c);
    }
  }

  lemma {:induction false} KissTakesBytes(b: seq<bv8>, p: seq<bv8>)
    requires |b| + |p| <= BUFFER
    ensures KissAfter(Kiss(KissData, b), Escaped(p)) == Kiss(KissData, b + p)
    ensures KissFrames(Kiss(KissData, b), Escaped(p)) == []
    decreases |p|
  {
    hide Escape, KissStep, KissOut;
    if p == [] {
      assert b + p == b;
    } else {
      KissConcat(Kiss(KissData, b), Escape(p[0]), Escaped(p[1..]));
      KissTakesByte(b, p[0]);
      KissTakesBytes(b + [p[0]], p[1..]);
      assert b + [p[0]] + p[1..] == b + p;
    }
  }

  lemma {:induction false} KissSkips(k: Kiss, cs: seq<bv8>)
    requires k.mode == KissWait && FEND !in cs
    ensures KissAfter(k, cs) == k && KissFrames(k, cs) == []
    decreases |cs|
  {
    if cs != [] { KissSkips(k, cs[1..]); }
  }

  lemma KissParts(k: Kiss, c: bv8, p: seq<bv8>)
    ensures var k1 := KissStep(KissStep(k, FEND), c);
            var k2 := KissAfter(k1, Escaped(p));
            && KissAfter(k, KissFrame(c, p)) == KissStep(k2, FEND)
            && KissFrames(k, KissFrame(c, p)) ==
               KissOut(k, FEND) + KissOut(KissStep(k, FEND), c) + KissFrames(k1, Escaped(p)) + KissOut(k2, FEND)
  {
    hide KissStep, KissOut, KissAfter, KissFrames, Escaped;
    KissConcat(k, [FEND, c] + Escaped(p), [FEND]);
    KissConcat(k, [FEND, c], Escaped(p));
    KissTwo(k, FEND, c);
    KissOne(KissAfter(KissStep(KissStep(k, FEND), c), Escaped(p)), FEND);
  }

  /** After a frame that was not data the decoder takes the opening FEND for a command byte,
      and the command byte for the first byte of the frame. */
  lemma FrameOutOfStep(k: Kiss, c: bv8, p: seq<bv8>)
    requires k.mode == KissCtrl && c != FEND && c != FESC && |p| < BUFFER
    ensures KissFrames(k, KissFrame(c, p)) == (if |p| > 1 then [[c] + p] else [])
    ensures KissAfter(k, KissFrame(c, p)) == Kiss(KissWait, [])
  {
    hide Escaped, KissAfter, KissFrames;
    KissParts(k, c, p);
    assert FEND & 0x0f == 0;
    KissTakesBytes([c], p);
    assert [] + [c] == [c];
  }

  /** Between frames a data frame is taken as it is. */
  lemma WholeFrame(k: Kiss, c: bv8, p: seq<bv8>)
    requires c & 0x0f == 0 && |p| <= BUFFER && k.mode == KissWait
    ensures KissFrames(k, KissFrame(c, p)) == (if |p| > 2 then [p] else [])
    ensures KissAfter(k, KissFrame(c, p)) == Kiss(KissWait, [])
  {
    hide Escaped, KissAfter, KissFrames;
    KissParts(k, c, p);
    KissTakesBytes([], p);
    assert [] + p == p;
  }

  function Companion(x: bv8): seq<bv8> {
    if x == 0xdd then [0xdb] else if x == 0xdc then [0xc0] else []
  }

  /** What octets between two FENDs stand for: 0xdb makes 0xdb of 0xdd and 0xc0 of 0xdc, and takes
      anything else behind it out of the frame. */
  function Meant(o: seq<bv8>): seq<bv8>
    decreases |o|
  {
    if o == [] then []
    else if o[0] != 0xdb then [o[0]] + Meant(o[1..])
    else if |o| == 1 then []
    else Companion(o[1]) + Meant(o[2..])
  }

  /** They end in the middle of an escape. */
  predicate Dangling(o: seq<bv8>)
    decreases |o|
  {
    if o == [] then false
    else if o[0] != 0xdb then Dangling(o[1..])
    else if |o| == 1 then true
    else Dangling(o[2..])
  }

  /** Whatever octets stand between the FENDs of a data frame that begins between frames, the
      bytes they stand for are delivered as far as the buffer goes, if there are more than two of
      them and the closing FEND is not taken for the end of an escape. */
  lemma AnyOctets(k: Kiss, c: bv8, o: seq<bv8>)
    requires k.mode == KissWait && c & 0x0f == 0 && FEND !in o
    ensures KissFrames(k, [FEND, c] + o + [FEND]) ==
            if !Dangling(o) && |Meant(o)| > 2 then [Cut(Meant(o))] else []
  {
    hide KissAfter, KissFrames, Meant, Dangling;
    var d := Kiss(KissData, []);
    KissConcat(k, [FEND, c] + o, [FEND]);
    KissConcat(k, [FEND, c], o);
    KissTwo(k, FEND, c);
    Collects([], o);
    assert [] + Meant(o) == Meant(o);
    KissOne(KissAfter(d, o), FEND);
  }

  lemma {:induction false} Collects(b: seq<bv8>, o: seq<bv8>)
    requires FEND !in o && |b| <= BUFFER
    ensures var k := KissAfter(Kiss(KissData, b), o);
            k.buf == Cut(b + Meant(o)) && k.mode == if Dangling(o) then KissEscape else KissData
    ensures KissFrames(Kiss(KissData, b), o) == []
    decreases |o|
  {
    hide KissStep, KissOut, KissAfter, KissFrames, Meant, Dangling, Cut;
    var k := Kiss(KissData, b);
    if o == [] || o == [0xdb] {
      CollectsNothing(b, o);
    } else if o[0] != 0xdb {
      KissFirst(k, o);
      TakesPlain(b, o[0]);
      Collects(Cut(b + [o[0]]), o[1..]);
      PlainMeans(o);
      CutTwice(b + [o[0]], Meant(o[1..]));
      assert b + [o[0]] + Meant(o[1..]) == b + Meant(o);
    } else {
      var m := Companion(o[1]);
      KissFirst(k, o);
      KissFirst(Kiss(KissEscape, b), o[1..]);
      assert o[1..][1..] == o[2..];
      TakesEscape(b);
      TakesEscaped(b, o[1]);
      Collects(Cut(b + m), o[2..]);
      EscapeMeans(o);
      CutTwice(b + m, Meant(o[2..]));
      assert b + m + Meant(o[2..]) == b + Meant(o);
    }
  }

  lemma KissFirst(k: Kiss, o: seq<bv8>)
    requires o != []
    ensures KissAfter(k, o) == KissAfter(KissStep(k, o[0]), o[1..])
    ensures KissFrames(k, o) == KissOut(k, o[0]) + KissFrames(KissStep(k, o[0]), o[1..])
  {
    hide KissStep, KissOut;
  }

  lemma CollectsNothing(b: seq<bv8>, o: seq<bv8>)
    requires (o == [] || o == [0xdb]) && |b| <= BUFFER
    ensures var k := KissAfter(Kiss(KissData, b), o);
            k.buf == Cut(b + Meant(o)) && k.mode == if Dangling(o) then KissEscape else KissData
    ensures KissFrames(Kiss(KissData, b), o) == []
  {
    hide Cut;
    assert b + [] == b;
    CutShort(b);
    if o != [] { KissOne(Kiss(KissData, b), 0xdb); }
  }

  lemma PlainMeans(o: seq<bv8>)
    requires o != [] && o[0] != 0xdb
    ensures Meant(o) == [o[0]] + Meant(o[1..]) && Dangling(o) == Dangling(o[1..])
  {
  }

  lemma EscapeMeans(o: seq<bv8>)
    requires |o| >= 2 && o[0] == 0xdb
    ensures Meant(o) == Companion(o[1]) + Meant(o[2..]) && Dangling(o) == Dangling(o[2..])
  {
  }

  lemma TakesPlain(b: seq<bv8>, c: bv8)
    requires c != FEND && c != FESC && |b| <= BUFFER
    ensures KissStep(Kiss(KissData, b), c) == Kiss(KissData, Cut(b + [c])) && KissOut(Kiss(KissData, b), c) == []
    ensures |Cut(b + [c])| <= BUFFER
  {
  }

  lemma TakesEscape(b: seq<bv8>)
    ensures KissStep(Kiss(KissData, b), 0xdb) == Kiss(KissEscape, b) && KissOut(Kiss(KissData, b), 0xdb) == []
  {
  }

  lemma TakesEscaped(b: seq<bv8>, x: bv8)
    requires |b| <= BUFFER
    ensures var m := Companion(x);
            KissStep(Kiss(KissEscape, b), x) == Kiss(KissData, Cut(b + m)) && |Cut(b + m)| <= BUFFER
    ensures KissOut(Kiss(KissEscape, b), x) == []
  {
    assert b + [] == b;
  }

  /** A frame that is not data leaves the decoder one FEND out of step. */
  lemma OtherFrame(k: Kiss, c: bv8, p: seq<bv8>)
    requires k.mode == KissWait && c & 0x0f != 0
    ensures KissFrames(k, KissFrame(c, p)) == [] && KissAfter(k, KissFrame(c, p)) == Kiss(KissCtrl, [])
  {
    hide Escaped, KissAfter, KissFrames;
    KissParts(k, c, p);
    NoFendInside(p);
    KissSkips(Kiss(KissWait, []), Escaped(p));
  }

  /** So the data frame that follows a command frame reaches the other line with its command
      byte in front of the payload. */
  lemma FrameAfterCommand(c: bv8, q: seq<bv8>, p: seq<bv8>)
    requires c & 0x0f != 0 && 2 <= |p| < BUFFER
    ensures KissFrames(Kiss(KissWait, []), KissFrame(c, q) + KissFrame(0, p)) == [[0] + p]
  {
    hide KissFrame, KissAfter, KissFrames;
    var k := Kiss(KissWait, []);
    KissConcat(k, KissFrame(c, q), KissFrame(0, p));
    OtherFrame(k, c, q);
    FrameOutOfStep(Kiss(KissCtrl, []), 0, p);
  }

  // ----- taking the NET/ROM side apart

  datatype NrsMode = NrsWait | NrsData | NrsEscape | NrsCksum

  datatype Nrs = Nrs(mode: NrsMode, cksum: nat, buf: seq<bv8>)

  function NrsStore(n: Nrs, c: bv8): Nrs {
    if |n.buf| < BUFFER then Nrs(NrsData, (n.cksum + Val(c)) % 256, n.buf + [c]) else Nrs(NrsData, n.cksum, n.buf)
  }

  function NrsStep(n: Nrs, c: bv8): Nrs {
    match n.mode
    case NrsWait => if c == STX then Nrs(NrsData, 0, []) else n
    case NrsData =>
      if c == STX then Nrs(NrsData, 0, [])
      else if c == DLE then n.(mode := NrsEscape)
      else if c == ETX then n.(mode := NrsCksum)
      else NrsStore(n, c)
    case NrsEscape => NrsStore(n, c)
    case NrsCksum => Nrs(NrsWait, 0, [])
  }

  /** The frames handed to kiss_esc. */
  function NrsOut(n: Nrs, c: bv8): seq<seq<bv8>> {
    if n.mode == NrsCksum && Val(c) == n.cksum then [n.buf] else []
  }

  function NrsAfter(n: Nrs, cs: seq<bv8>): Nrs
    decreases |cs|
  {
    if cs == [] then n else NrsAfter(NrsStep(n, cs[0]), cs[1..])
  }

  function NrsFrames(n: Nrs, cs: seq<bv8>): seq<seq<bv8>>
    decreases |cs|
  {
    if cs == [] then [] else NrsOut(n, cs[0]) + NrsFrames(NrsStep(n, cs[0]), cs[1..])
  }

  lemma {:induction false} NrsConcat(n: Nrs, a: seq<bv8>, b: seq<bv8>)
    ensures NrsAfter(n, a + b) == NrsAfter(NrsAfter(n, a), b)
    ensures NrsFrames(n, a + b) == NrsFrames(n, a) + NrsFrames(NrsAfter(n, a), b)
    decreases |a|
  {
    hide NrsStep, NrsOut;
    if a == [] {
      assert a + b == b;
    } else {
      assert (a + b)[1..] == a[1..] + b;
      NrsConcat(NrsStep(n, a[0]), a[1..], b);
    }
  }

  lemma NrsOne(n: Nrs, c: bv8)
    ensures NrsAfter(n, [c]) == NrsStep(n, c) && NrsFrames(n, [c]) == NrsOut(n, c)
  {
    hide NrsStep, NrsOut;
    assert [c][1..] == [];
  }

  lemma NrsTwo(n: Nrs, a: bv8, b: bv8)
    ensures NrsAfter(n, [a, b]) == NrsStep(NrsStep(n, a), b)
    ensures NrsFrames(n, [a, b]) == NrsOut(n, a) + NrsOut(NrsStep(n, a), b)
  {
    hide NrsStep, NrsOut;
    assert [a, b] == [a] + [b];
    NrsConcat(n, [a], [b]);
    NrsOne(n, a);
    NrsOne(NrsStep(n, a), b);
  }

  lemma NrsTakesByte(n: Nrs, c: bv8)
    requires n.mode == NrsData
    ensures NrsAfter(n, Stuff(c)) == NrsStore(n, c) && NrsFrames(n, Stuff(c)) == []
  {
    hide Val;
    if c == STX || c == ETX || c == DLE {
      NrsTwo(n, DLE, c);
    } else {
      NrsOne(n, c);
    }
  }

  /** What fits the buffer; the bytes behind it are neither kept nor summed. */
  function Cut(s: seq<bv8>): seq<bv8> {
    if |s| <= 512 then s else s[..512]
  }

  lemma CutOne(b: seq<bv8>, c: bv8)
    requires |b| <= BUFFER
    ensures Cut(b + [c]) == if |b| < BUFFER then b + [c] else b
  {
  }

  lemma CutTwice(a: seq<bv8>, b: seq<bv8>)
    ensures Cut(Cut(a) + b) == Cut(a + b)
  {
  }

  /** The decoder in the middle of a frame, with the bytes b of it. */
  function Holding(b: seq<bv8>): (n: Nrs)
    ensures n.mode == NrsData
  {
    Nrs(NrsData, Sum(b) % 256, b)
  }

  lemma NrsStoreCuts(b: seq<bv8>, c: bv8)
    requires |b| <= BUFFER
    ensures NrsStore(Holding(b), c) == Holding(Cut(b + [c]))
  {
    hide Sum, Val, Cut;
    CutOne(b, c);
    SumSnoc(b, c);
    SumWraps(Sum(b), Val(c));
  }

  lemma StuffedUnfold(p: seq<bv8>)
    requires p != []
    ensures Stuffed(p) == Stuff(p[0]) + Stuffed(p[1..])
  {
    hide Stuff;
  }

  lemma NrsTakesNothing(n: Nrs)
    ensures NrsAfter(n, Stuffed([])) == n && NrsFrames(n, Stuffed([])) == []
  {
  }

  lemma {:induction false} NrsTakesBytes(b: seq<bv8>, p: seq<bv8>)
    requires |b| <= BUFFER
    ensures NrsAfter(Holding(b), Stuffed(p)) == Holding(Cut(b + p)) && NrsFrames(Holding(b), Stuffed(p)) == []
    decreases |p|
  {
    hide Stuff, Stuffed, NrsAfter, NrsFrames, NrsStep, NrsOut, NrsStore, Holding, Cut;
    if p == [] {
      assert b + p == b;
      CutShort(b);
      NrsTakesNothing(Holding(b));
    } else {
      StuffedUnfold(p);
      NrsConcat(Holding(b), Stuff(p[0]), Stuffed(p[1..]));
      NrsTakesByte(Holding(b), p[0]);
      NrsStoreCuts(b, p[0]);
      CutOne(b, p[0]);
      NrsTakesBytes(Cut(b + [p[0]]), p[1..]);
      CutTwice(b + [p[0]], p[1..]);
      assert b + [p[0]] + p[1..] == b + p;
    }
  }

  lemma CutShort(b: seq<bv8>)
    requires |b| <= BUFFER
    ensures Cut(b) == b
  {
  }

  lemma Low8Is(n: nat)
    ensures Val(Low8(n)) == n % 256
  {
    hide Val;
    OfByte(n % 256);
  }

  /** Between frames and in the middle of one, what fits the buffer of a NET/ROM frame is
      delivered if the check byte is the sum of its bytes modulo 256, and nothing is if it is not. */
  lemma NrsFrameChecked(n: Nrs, p: seq<bv8>, check: bv8)
    requires n.mode == NrsWait || n.mode == NrsData
    ensures NrsFrames(n, NrsFrameWith(p, check)) == if check as nat == Sum(Cut(p)) % 256 then [Cut(p)] else []
    ensures NrsAfter(n, NrsFrameWith(p, check)) == Nrs(NrsWait, 0, [])
  {
    hide NrsAfter, NrsFrames, Stuffed, Sum;
    var e := Holding(Cut(p));
    NrsConcat(n, [STX] + Stuffed(p), [ETX, check, NUL, NUL]);
    NrsConcat(n, [STX], Stuffed(p));
    NrsOne(n, STX);
    NoBytes();
    NrsTakesBytes([], p);
    assert [] + p == p;
    assert [ETX, check, NUL, NUL] == [ETX, check] + [NUL, NUL];
    NrsConcat(e, [ETX, check], [NUL, NUL]);
    NrsTwo(e, ETX, check);
    NrsTwo(Nrs(NrsWait, 0, []), NUL, NUL);
  }

  /** A frame as it is sent passes. */
  lemma NrsFrameDelivered(n: Nrs, p: seq<bv8>)
    requires |p| <= BUFFER && (n.mode == NrsWait || n.mode == NrsData)
    ensures NrsFrames(n, NrsFrame(p)) == [p] && NrsAfter(n, NrsFrame(p)) == Nrs(NrsWait, 0, [])
  {
    hide NrsAfter, NrsFrames, NrsFrameWith, Sum, Low8;
    NrsFrameChecked(n, p, Low8(Sum(p)));
    Low8Is(Sum(p));
  }

  /** A frame in which one byte of the payload has become another is never delivered. */
  lemma NrsOneByteReplaced(n: Nrs, p: seq<bv8>, i: nat, x: bv8)
    requires |p| <= BUFFER && (n.mode == NrsWait || n.mode == NrsData) && i < |p| && x != p[i]
    ensures NrsFrames(n, NrsFrameWith(p[i := x], Low8(Sum(p)))) == []
  {
    hide NrsAfter, NrsFrames, NrsFrameWith, Sum, Low8;
    NrsFrameChecked(n, p[i := x], Low8(Sum(p)));
    Low8Is(Sum(p));
    SumSeesOneByte(p, i, x);
  }

  // ----- one gateway behind the other

  predicate Fit(ps: seq<seq<bv8>>) {
    forall i | 0 <= i < |ps| :: |ps[i]| <= BUFFER
  }

  /** Frames of less than three bytes do not pass. */
  function LongEnough(ps: seq<seq<bv8>>): seq<seq<bv8>> {
    if ps == [] then [] else (if |ps[0]| > 2 then [ps[0]] else []) + LongEnough(ps[1..])
  }

  lemma {:induction false} KissStreamTaken(ps: seq<seq<bv8>>, k: Kiss)
    requires Fit(ps) && k.mode == KissWait
    ensures KissFrames(k, KissStream(ps)) == LongEnough(ps)
  {
    hide KissFrame, KissStep, KissOut;
    if ps != [] {
      KissConcat(k, KissFrame(0, ps[0]), KissStream(ps[1..]));
      WholeFrame(k, 0, ps[0]);
      KissStreamTaken(ps[1..], Kiss(KissWait, []));
    }
  }

  lemma {:induction false} NrsStreamTaken(ps: seq<seq<bv8>>, n: Nrs)
    requires Fit(ps) && n.mode == NrsWait
    ensures NrsFrames(n, NrsStream(ps)) == ps
  {
    hide NrsFrame, NrsStep, NrsOut;
    if ps != [] {
      NrsConcat(n, NrsFrame(ps[0]), NrsStream(ps[1..]));
      NrsFrameDelivered(n, ps[0]);
      NrsStreamTaken(ps[1..], Nrs(NrsWait, 0, []));
      assert ps == [ps[0]] + ps[1..];
    }
  }

  lemma {:induction false} LongEnoughFits(ps: seq<seq<bv8>>)
    requires Fit(ps)
    ensures Fit(LongEnough(ps))
    ensures (forall i | 0 <= i < |ps| :: |ps[i]| > 2) ==> LongEnough(ps) == ps
  {
    if ps != [] {
      LongEnoughFits(ps[1..]);
      assert ps == [ps[0]] + ps[1..];
      assert (forall i | 0 <= i < |ps| :: |ps[i]| > 2) ==> forall i | 0 <= i < |ps[1..]| :: |ps[1..][i]| > 2;
    }
  }

  /** KISS to NET/ROM at one end and NET/ROM to KISS at the other give the same KISS frames in
      the same order, less those that are too short. */
  lemma GatewaysCompose(ps: seq<seq<bv8>>)
    requires Fit(ps)
    ensures var middle := NrsStream(KissFrames(Kiss(KissWait, []), KissStream(ps)));
            KissStream(NrsFrames(Nrs(NrsWait, 0, []), middle)) == KissStream(LongEnough(ps))
    ensures (forall i | 0 <= i < |ps| :: |ps[i]| > 2) ==> LongEnough(ps) == ps
  {
    hide KissFrames, NrsFrames, KissStream, NrsStream, LongEnough;
    KissStreamTaken(ps, Kiss(KissWait, []));
    LongEnoughFits(ps);
    NrsStreamTaken(LongEnough(ps), Nrs(NrsWait, 0, []));
  }

  // ----- streams with command frames among the data frames

  datatype Sent = Sent(command: bv8, payload: seq<bv8>)
  {
    predicate IsData() {
      command & 0x0f == 0
    }

    /** Payloads that are not dropped as too short or cut, and no control byte as command. */
    predicate Proper() {
      command != FEND && command != FESC && 3 <= |payload| < BUFFER
    }
  }

  predicate AllProper(fs: seq<Sent>) {
    forall i | 0 <= i < |fs| :: fs[i].Proper()
  }

  function SentStream(fs: seq<Sent>): seq<bv8> {
    if fs == [] then [] else KissFrame(fs[0].command, fs[0].payload) + SentStream(fs[1..])
  }

  function DataPayloads(fs: seq<Sent>): seq<seq<bv8>> {
    if fs == [] then [] else (if fs[0].IsData() then [fs[0].payload] else []) + DataPayloads(fs[1..])
  }

  /** No command frame is followed by another frame. */
  predicate InStep(fs: seq<Sent>) {
    forall i | 0 <= i < |fs| - 1 :: fs[i].IsData()
  }

  /** What the decoder makes of the frames, in step or out of it. */
  function Taken(fs: seq<Sent>, inStep: bool): seq<seq<bv8>> {
    if fs == [] then []
    else if !inStep then [[fs[0].command] + fs[0].payload] + Taken(fs[1..], true)
    else if fs[0].IsData() then [fs[0].payload] + Taken(fs[1..], true)
    else Taken(fs[1..], false)
  }

  lemma {:induction false} StreamTaken(fs: seq<Sent>, k: Kiss)
    requires AllProper(fs) && (k.mode == KissWait || k.mode == KissCtrl)
    ensures KissFrames(k, SentStream(fs)) == Taken(fs, k.mode == KissWait)
  {
    hide KissFrame, KissStep, KissOut;
    if fs != [] {
      var f := fs[0];
      KissConcat(k, KissFrame(f.command, f.payload), SentStream(fs[1..]));
      if k.mode == KissCtrl {
        FrameOutOfStep(k, f.command, f.payload);
        StreamTaken(fs[1..], Kiss(KissWait, []));
      } else if f.IsData() {
        WholeFrame(k, f.command, f.payload);
        StreamTaken(fs[1..], Kiss(KissWait, []));
      } else {
        OtherFrame(k, f.command, f.payload);
        StreamTaken(fs[1..], Kiss(KissCtrl, []));
      }
    }
  }

  /** Frames are only ever invented, never lost: at least as many are taken as were data. */
  lemma {:induction false} TakenIsMany(fs: seq<Sent>, inStep: bool)
    ensures |Taken(fs, inStep)| >= |DataPayloads(fs)|
  {
    if fs != [] {
      TakenIsMany(fs[1..], true);
      TakenIsMany(fs[1..], false);
    }
  }

  lemma {:induction false} TakenRight(fs: seq<Sent>)
    ensures Taken(fs, true) == DataPayloads(fs) <==> InStep(fs)
  {
    hide Sent.IsData;
    if |fs| > 1 {
      var rest := fs[1..];
      TakenRight(rest);
      if fs[0].IsData() {
        assert Taken(fs, true)[1..] == Taken(rest, true) && DataPayloads(fs)[1..] == DataPayloads(rest);
        assert InStep(fs) <==> InStep(rest) by {
          if InStep(fs) { assert forall i | 0 <= i < |rest| - 1 :: rest[i] == fs[i + 1]; }
          if InStep(rest) { assert forall i | 1 <= i < |fs| - 1 :: rest[i - 1] == fs[i]; }
        }
      } else {
        WrongBehindCommand(fs);
      }
    } else if |fs| == 1 {
      NothingBehind(fs);
    }
  }

  lemma NothingBehind(fs: seq<Sent>)
    requires |fs| == 1
    ensures Taken(fs, true) == DataPayloads(fs)
  {
    hide Sent.IsData;
    assert fs[1..] == [];
  }

  /** The frame behind a command frame comes out wrong if it is data, and comes out if it is not. */
  lemma WrongBehindCommand(fs: seq<Sent>)
    requires |fs| > 1 && !fs[0].IsData()
    ensures Taken(fs, true) != DataPayloads(fs) && !InStep(fs)
  {
    hide Sent.IsData;
    var rest := fs[1..];
    TakenIsMany(rest[1..], true);
    assert Taken(fs, true) == Taken(rest, false) == [[rest[0].command] + rest[0].payload] + Taken(rest[1..], true);
    assert DataPayloads(fs) == DataPayloads(rest);
    if rest[0].IsData() {
      assert DataPayloads(rest)[0] == rest[0].payload;
    } else {
      assert DataPayloads(rest) == DataPayloads(rest[1..]);
    }
  }

  lemma {:induction false} TakenFits(fs: seq<Sent>, inStep: bool)
    requires AllProper(fs)
    ensures forall i | 0 <= i < |Taken(fs, inStep)| :: 3 <= |Taken(fs, inStep)[i]| <= BUFFER
  {
    if fs != [] {
      TakenFits(fs[1..], true);
      TakenFits(fs[1..], false);
    }
  }

  /** The gateway takes exactly the data frames out of a KISS stream if and only if no command
      frame is followed by another frame. */
  lemma FramesInStep(fs: seq<Sent>)
    requires AllProper(fs)
    ensures KissFrames(Kiss(KissWait, []), SentStream(fs)) == DataPayloads(fs) <==> InStep(fs)
  {
    hide KissFrames, SentStream, Taken, DataPayloads, InStep, AllProper;
    StreamTaken(fs, Kiss(KissWait, []));
    TakenRight(fs);
  }

  /** And so do two gateways: the far KISS line carries exactly the data frames in that case. */
  lemma GatewaysInStep(fs: seq<Sent>)
    requires AllProper(fs)
    ensures var middle := NrsStream(KissFrames(Kiss(KissWait, []), SentStream(fs)));
            KissStream(NrsFrames(Nrs(NrsWait, 0, []), middle)) == KissStream(DataPayloads(fs)) <==> InStep(fs)
  {
    hide KissFrames, NrsFrames, KissStream, NrsStream, LongEnough, SentStream, Taken, DataPayloads, InStep, AllProper;
    var k, taken := Kiss(KissWait, []), Taken(fs, true);
    StreamTaken(fs, k);
    TakenRight(fs);
    TakenFits(fs, true);
    NrsStreamTaken(taken, Nrs(NrsWait, 0, []));
    DataFits(fs);
    StreamIsOneToOne(taken, DataPayloads(fs));
  }

  lemma {:induction false} DataFits(fs: seq<Sent>)
    requires AllProper(fs)
    ensures forall i | 0 <= i < |DataPayloads(fs)| :: 3 <= |DataPayloads(fs)[i]| <= BUFFER
  {
    if fs != [] { DataFits(fs[1..]); }
  }

  lemma StreamIsOneToOne(ps: seq<seq<bv8>>, qs: seq<seq<bv8>>)
    requires forall i | 0 <= i < |ps| :: 3 <= |ps[i]| <= BUFFER
    requires forall i | 0 <= i < |qs| :: 3 <= |qs[i]| <= BUFFER
    ensures KissStream(ps) == KissStream(qs) <==> ps == qs
  {
    hide KissFrames, KissStream, LongEnough;
    KissStreamTaken(ps, Kiss(KissWait, []));
    KissStreamTaken(qs, Kiss(KissWait, []));
    LongEnoughFits(ps);
    LongEnoughFits(qs);
  }

  // ----- getting in step again

  /** Whatever state noise has left the NET/ROM side in, a frame leaves it between frames or in
      the middle of one, where the next STX starts afresh. */
  lemma NrsFrameEnds(n: Nrs, p: seq<bv8>)
    ensures var m := NrsAfter(n, NrsFrame(p)).mode; m == NrsWait || m == NrsData
  {
    hide NrsAfter, NrsFrames, Stuffed, Sum, Low8, NrsStore;
    var check := Low8(Sum(p));
    NrsConcat(n, [STX] + Stuffed(p), [ETX, check, NUL, NUL]);
    NrsConcat(n, [STX], Stuffed(p));
    NrsOne(n, STX);
    NrsStoreIsData(n, STX);
    var d := NrsAfter(NrsStep(n, STX), Stuffed(p));
    StuffedKeeps(NrsStep(n, STX), p);
    assert [ETX, check, NUL, NUL] == [ETX, check] + [NUL, NUL];
    NrsConcat(d, [ETX, check], [NUL, NUL]);
    NrsTwo(d, ETX, check);
    var e := NrsStep(NrsStep(d, ETX), check);
    NrsTwo(e, NUL, NUL);
    NrsStoreIsData(e, NUL);
    NrsStoreIsData(NrsStep(e, NUL), NUL);
  }

  lemma NrsStoreIsData(n: Nrs, c: bv8)
    ensures NrsStore(n, c).mode == NrsData
  {
    hide Val;
  }

  lemma {:induction false} StuffedKeeps(n: Nrs, p: seq<bv8>)
    requires n.mode == NrsWait || n.mode == NrsData
    ensures var m := NrsAfter(n, Stuffed(p)).mode; m == NrsWait || m == NrsData
    decreases |p|
  {
    hide NrsFrames, NrsStep, Stuff;
    if p != [] {
      NrsConcat(n, Stuff(p[0]), Stuffed(p[1..]));
      StuffKeeps(n, p[0]);
      StuffedKeeps(NrsAfter(n, Stuff(p[0])), p[1..]);
    }
  }

  lemma StuffKeeps(n: Nrs, c: bv8)
    requires n.mode == NrsWait || n.mode == NrsData
    ensures var m := NrsAfter(n, Stuff(c)).mode; m == NrsWait || m == NrsData
  {
    hide NrsStore, NrsAfter, NrsFrames;
    NrsStoreIsData(n, c);
    if c == STX || c == ETX || c == DLE {
      NrsTwo(n, DLE, c);
      NrsStoreIsData(NrsStep(n, DLE), c);
    } else {
      NrsOne(n, c);
    }
  }

  /** So from any state the second of two NET/ROM frames is delivered as it was sent. */
  lemma NrsSecondDelivered(n: Nrs, p: seq<bv8>, q: seq<bv8>)
    requires |q| <= BUFFER
    ensures NrsFrames(n, NrsFrame(p) + NrsFrame(q)) == NrsFrames(n, NrsFrame(p)) + [q]
  {
    hide NrsFrame, NrsAfter, NrsFrames;
    NrsConcat(n, NrsFrame(p), NrsFrame(q));
    NrsFrameEnds(n, p);
    NrsFrameDelivered(NrsAfter(n, NrsFrame(p)), q);
  }

  /** How many frames the KISS side takes to be in step: behind an FESC it loses an opening FEND
      and with it one frame; in the middle of a frame it takes every FEND for the other kind. */
  function KissDelay(mode: KissMode): nat {
    match mode
    case KissWait => 0
    case KissCtrl => 1
    case KissData => 2
    case KissEscape => 1
  }

  /** What a frame does to the mode, command and data frames alike but between frames. */
  function ModeAfter(mode: KissMode, f: Sent): KissMode {
    match mode
    case KissWait => if f.IsData() then KissWait else KissCtrl
    case KissCtrl => KissWait
    case KissData => KissCtrl
    case KissEscape => KissWait
  }

  lemma {:induction false} EscapedKeeps(b: seq<bv8>, p: seq<bv8>)
    ensures KissAfter(Kiss(KissData, b), Escaped(p)).mode == KissData
    decreases |p|
  {
    hide Escape, KissStep, KissOut, Store;
    if p != [] {
      KissConcat(Kiss(KissData, b), Escape(p[0]), Escaped(p[1..]));
      KissTakesByte(b, p[0]);
      EscapedKeeps(Store(b, p[0]), p[1..]);
    }
  }

  lemma FrameMode(k: Kiss, f: Sent)
    requires f.Proper()
    ensures KissAfter(k, KissFrame(f.command, f.payload)).mode == ModeAfter(k.mode, f)
  {
    hide Escaped, KissAfter, KissFrames, Store;
    var c, p := f.command, f.payload;
    KissParts(k, c, p);
    match k.mode
    case KissWait =>
      if f.IsData() { WholeFrame(k, c, p); } else { OtherFrame(k, c, p); }
    case KissCtrl => FrameOutOfStep(k, c, p);
    case KissData =>
      NoFendInside(p);
      KissSkips(Kiss(KissWait, []), Escaped(p));
    case KissEscape => EscapedKeeps(Store(k.buf, c), p);
  }

  /** From any state the KISS side is between frames again after exactly so many frames, and
      from then on takes what it should. */
  lemma KissInStepAfter(k: Kiss, fs: seq<Sent>)
    requires AllProper(fs)
    ensures var n, m := KissDelay(k.mode), KissAfter(k, SentStream(fs)).mode;
            && (|fs| == n ==> m == KissWait)
            && (|fs| < n ==> m != KissWait)
            && (|fs| >= n ==>
                  KissFrames(k, SentStream(fs)) == KissFrames(k, SentStream(fs[..n])) + Taken(fs[n..], true))
  {
    hide KissFrame, KissAfter, KissFrames, Taken, SentStream, Sent.Proper;
    var n := KissDelay(k.mode);
    if |fs| >= n {
      StreamSplit(fs, n);
      KissConcat(k, SentStream(fs[..n]), SentStream(fs[n..]));
      assert AllProper(fs[..n]) && AllProper(fs[n..]);
      FewFrames(k, fs[..n]);
      StreamTaken(fs[n..], KissAfter(k, SentStream(fs[..n])));
      if |fs| == n { assert fs[..n] == fs; }
    } else {
      FewFrames(k, fs);
    }
  }

  lemma FewFrames(k: Kiss, fs: seq<Sent>)
    requires AllProper(fs) && |fs| <= KissDelay(k.mode)
    ensures KissAfter(k, SentStream(fs)).mode == KissWait <==> |fs| == KissDelay(k.mode)
  {
    hide KissFrame, KissFrames, KissStep, Sent.Proper;
    if |fs| >= 1 {
      assert fs == [fs[0]] + fs[1..];
      FirstFrame(k, fs);
      if |fs| == 2 { FirstFrame(KissAfter(k, KissFrame(fs[0].command, fs[0].payload)), fs[1..]); }
    }
  }

  lemma FirstFrame(k: Kiss, fs: seq<Sent>)
    requires AllProper(fs) && fs != []
    ensures var l := KissAfter(k, KissFrame(fs[0].command, fs[0].payload));
            l.mode == ModeAfter(k.mode, fs[0]) && KissAfter(k, SentStream(fs)) == KissAfter(l, SentStream(fs[1..]))
    ensures AllProper(fs[1..])
  {
    hide KissFrame, KissAfter, KissFrames, Sent.Proper;
    FrameMode(k, fs[0]);
    KissConcat(k, KissFrame(fs[0].command, fs[0].payload), SentStream(fs[1..]));
  }

  lemma {:induction false} StreamSplit(fs: seq<Sent>, n: nat)
    requires n <= |fs|
    ensures SentStream(fs) == SentStream(fs[..n]) + SentStream(fs[n..])
  {
    hide KissFrame;
    if n == 0 {
      assert fs[..0] == [] && fs[0..] == fs;
    } else {
      StreamSplit(fs[1..], n - 1);
      assert fs[..n][1..] == fs[1..][..n - 1] && fs[1..][n - 1..] == fs[n..];
    }
  }
}
