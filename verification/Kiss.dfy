/**
 KISS as mkiss speaks it, plain or with one of two checksums: the G8BPQ exclusive-or and the
 FlexNet CRC. A frame is followed from kiss_tx to the kiss_rx of the other side.
 */
module Kiss {
  import opened KissBytes
  import Fcs

  const SIZE := 4096
  const ACKREQ: bv8 := 0x0c
  const POLL: bv8 := 0x0e
  const CRCTYP: bv8 := 0x20
  const RESIDUE: bv16 := 0x7070

  datatype Check = Plain | G8bpq | Flex

  // ----- the checksums

  /** The table of init_crc: entry i is the remainder of the one-octet message i. */
  function Entry(i: bv8): bv16 {
    Fcs.FcsTab(i ^ 0xff) ^ 0xff
  }

  lemma EntryIsRemainder(i: bv8)
    ensures Fcs.Divide(0xffff, Fcs.ByteBits(i)) == Entry(i)
  {
    hide Fcs.FcsTab, Fcs.Divide, Fcs.ByteBits;
    Fcs.TableStep(0xffff, i);
    assert ((0xffff ^ (i as bv16)) & 0xff) as bv8 == i ^ 0xff;
    assert (0xffff as bv16) >> 8 == 0xff;
    Swap(Fcs.FcsTab(i ^ 0xff));
  }

  lemma Swap(x: bv16)
    ensures 0xff ^ x == x ^ 0xff
  {
  }

  method InitCrc(crctab: array<bv16>)
    requires crctab.Length == 256
    modifies crctab
    ensures forall i: bv8 :: crctab[i as nat] == Entry(i)
  {
    hide Entry;
    var i := 0;
    while i < 256
      invariant i <= 256
      invariant forall k | 0 <= k < i :: crctab[k] == Entry(k as bv8)
    {
      crctab[i] := OneEntry(i as bv8);
      i := i + 1;
    }
    forall b: bv8 ensures crctab[b as nat] == Entry(b) {
      assert (b as nat) as bv8 == b;
    }
  }

  /** The inner loop of init_crc. */
  method OneEntry(i: bv8) returns (accum: bv16)
    ensures accum == Entry(i)
  {
    hide Entry, Fcs.Divide, Fcs.Step;
    accum := 0xffff;
    var data := i as bv16;
    EntryIsRemainder(i);
    for j := 0 to 8
      invariant Fcs.Divide(accum, Fcs.LowBits(data, 8 - j)) == Entry(i)
    {
      BitStep(accum, data, 8 - j);
      if (data ^ accum) & 1 == 1 {
        accum := (accum >> 1) ^ 0x8408;
      } else {
        accum := accum >> 1;
      }
      data := data >> 1;
    }
    NoBits(accum, data);
  }

  lemma NoBits(x: bv16, data: bv16)
    ensures Fcs.Divide(x, Fcs.LowBits(data, 0)) == x
  {
  }

  lemma BitStep(x: bv16, data: bv16, n: nat)
    requires n > 0
    ensures Fcs.Divide(x, Fcs.LowBits(data, n)) ==
            Fcs.Divide(if (data ^ x) & 1 == 1 then (x >> 1) ^ 0x8408 else x >> 1, Fcs.LowBits(data >> 1, n - 1))
  {
    hide Fcs.Step;
    assert Fcs.LowBits(data, n)[1..] == Fcs.LowBits(data >> 1, n - 1);
    ShiftIs(x, data);
  }

  lemma ShiftIs(x: bv16, data: bv16)
    ensures Fcs.Shift(x, data & 1 == 1) == if (data ^ x) & 1 == 1 then (x >> 1) ^ 0x8408 else x >> 1
  {
    Fcs.LowBitOfXor(data, x);
    assert (x ^ 1) >> 1 == x >> 1 && ((x ^ 1) & 1 == 1 <==> x & 1 != 1);
  }

  /** What one byte of a frame does to the running checksum. */
  function CrcStep(mode: Check, x: bv16, c: bv8): bv16 {
    match mode
    case Plain => x
    case G8bpq => x ^ (c as bv16)
    case Flex => (x << 8) ^ Entry(((x >> 8) as bv8) ^ c)
  }

  function Crc(mode: Check, x: bv16, p: seq<bv8>): bv16
    decreases |p|
  {
    if p == [] then x else Crc(mode, CrcStep(mode, x, p[0]), p[1..])
  }

  lemma {:induction false} CrcConcat(mode: Check, x: bv16, a: seq<bv8>, b: seq<bv8>)
    ensures Crc(mode, x, a + b) == Crc(mode, Crc(mode, x, a), b)
    decreases |a|
  {
    hide CrcStep;
    if a == [] {
      assert a + b == b;
    } else {
      assert (a + b)[1..] == a[1..] + b;
      CrcConcat(mode, CrcStep(mode, x, a[0]), a[1..], b);
    }
  }

  lemma CrcOne(mode: Check, x: bv16, c: bv8)
    ensures Crc(mode, x, [c]) == CrcStep(mode, x, c)
  {
    hide CrcStep;
    assert [c][1..] == [];
  }

  lemma CrcSnoc(mode: Check, x: bv16, a: seq<bv8>, c: bv8)
    ensures Crc(mode, x, a + [c]) == CrcStep(mode, Crc(mode, x, a), c)
  {
    hide CrcStep, Crc;
    CrcConcat(mode, x, a, [c]);
    CrcOne(mode, Crc(mode, x, a), c);
  }

  lemma Entries()
    ensures Entry(0) == 0x0f87 && Entry(0x0f) == 0xf770
  {
  }

  function Hi(u: bv16): bv8 { (u >> 8) as bv8 }
  function Lo(u: bv16): bv8 { (u & 0xff) as bv8 }

  lemma FlexHi(u: bv16)
    ensures CrcStep(Flex, u, Hi(u)) == (u << 8) ^ 0x0f87
  {
    Entries();
    assert Hi(u) ^ Hi(u) == 0;
  }

  lemma FlexLo(u: bv16)
    ensures CrcStep(Flex, (u << 8) ^ 0x0f87, Lo(u)) == RESIDUE
  {
    Entries();
    LoCancels(u);
  }

  lemma LoCancels(u: bv16)
    ensures ((((u << 8) ^ 0x0f87) >> 8) as bv8) ^ Lo(u) == 0x0f
    ensures ((u << 8) ^ 0x0f87) << 8 == 0x8700
  {
  }

  /** Whatever the message, its checksum brings the running value to the same residue. */
  lemma FlexResidue(x: bv16, p: seq<bv8>)
    ensures var u := Crc(Flex, x, p); Crc(Flex, x, p + [Hi(u), Lo(u)]) == RESIDUE
  {
    hide CrcStep, Crc, Hi, Lo;
    var u := Crc(Flex, x, p);
    CrcSnoc(Flex, x, p, Hi(u));
    CrcSnoc(Flex, x, p + [Hi(u)], Lo(u));
    assert p + [Hi(u), Lo(u)] == (p + [Hi(u)]) + [Lo(u)];
    FlexHi(u);
    FlexLo(u);
  }

  lemma G8Cancels(u: bv16)
    ensures CrcStep(G8bpq, u, Lo(u)) & 0xff == 0
  {
  }

  /** The exclusive-or byte brings the low half of the running value to zero. */
  lemma G8Residue(x: bv16, p: seq<bv8>)
    ensures Crc(G8bpq, x, p + [Lo(Crc(G8bpq, x, p))]) & 0xff == 0
  {
    hide CrcStep, Crc, Lo;
    CrcSnoc(G8bpq, x, p, Lo(Crc(G8bpq, x, p)));
    G8Cancels(Crc(G8bpq, x, p));
  }

  // ----- what is sent

  function Command(c: bv8): bv8 { c & 0x0f }

  /** Only data and ACKREQ frames get the G8BPQ checksum. */
  function SentMode(mode: Check, s: seq<bv8>): Check
    requires s != []
  {
    if mode == G8bpq && Command(s[0]) != 0 && Command(s[0]) != ACKREQ then Plain else mode
  }

  function Start(mode: Check): bv16 {
    if mode == Flex then 0xffff else 0
  }

  /** The frame with its command byte as it goes out. */
  function Addressed(mode: Check, port: bv8, s: seq<bv8>): seq<bv8>
    requires s != []
  {
    [if mode == Flex then CRCTYP else Command(s[0]) | (port << 4)] + s[1..]
  }

  function Checked(mode: Check, p: seq<bv8>): seq<bv8> {
    var u := Crc(mode, Start(mode), p);
    match mode
    case Plain => p
    case G8bpq => p + [Lo(u)]
    case Flex => p + [Hi(u), Lo(u)]
  }

  function Sent(mode: Check, port: bv8, s: seq<bv8>): seq<bv8>
    requires s != []
  {
    var m := SentMode(mode, s);
    [FEND] + Escaped(Checked(m, Addressed(m, port, s))) + [FEND]
  }

  // ----- the receiver as a function

  datatype Rx = Rx(escaped: bool, crc: bv16, buf: seq<bv8>)

  /** The byte an octet stands for. */
  function Meant(r: Rx, c: bv8): bv8 {
    if c == TFESC && r.escaped then FESC else if c == TFEND && r.escaped then FEND else c
  }

  function Step(mode: Check, r: Rx, c: bv8): Rx {
    if c == FEND then Rx(false, Start(mode), [])
    else if c == FESC then r.(escaped := true)
    else Rx(false, CrcStep(mode, r.crc, Meant(r, c)), r.buf + [Meant(r, c)])
  }

  /** What a FEND finds in the buffer, if it is accepted. */
  function Accepted(mode: Check, r: Rx): seq<bv8> {
    if r.buf == [] || r.escaped then []
    else
      match mode
      case Plain => r.buf
      case G8bpq =>
        if Command(r.buf[0]) == POLL then []
        else if Command(r.buf[0]) != 0 then r.buf
        else if r.crc & 0xff != 0 then []
        else r.buf[..|r.buf| - 1]
      case Flex =>
        if |r.buf| > 14 && r.crc == RESIDUE then [0] + r.buf[1..|r.buf| - 2] else []
  }

  /** The frames handed on; a length of zero is none. */
  function Out(mode: Check, r: Rx, c: bv8): seq<seq<bv8>> {
    if c == FEND && Accepted(mode, r) != [] then [Accepted(mode, r)] else []
  }

  function After(mode: Check, r: Rx, cs: seq<bv8>): Rx
    decreases |cs|
  {
    if cs == [] then r else After(mode, Step(mode, r, cs[0]), cs[1..])
  }

  function Frames(mode: Check, r: Rx, cs: seq<bv8>): seq<seq<bv8>>
    decreases |cs|
  {
    if cs == [] then [] else Out(mode, r, cs[0]) + Frames(mode, Step(mode, r, cs[0]), cs[1..])
  }

  lemma {:induction false} AfterConcat(mode: Check, r: Rx, a: seq<bv8>, b: seq<bv8>)
    ensures After(mode, r, a + b) == After(mode, After(mode, r, a), b)
    ensures Frames(mode, r, a + b) == Frames(mode, r, a) + Frames(mode, After(mode, r, a), b)
    decreases |a|
  {
    hide Step, Out;
    if a == [] {
      assert a + b == b;
    } else {
      assert (a + b)[1..] == a[1..] + b;
      AfterConcat(mode, Step(mode, r, a[0]), a[1..], b);
    }
  }

  lemma AfterOne(mode: Check, r: Rx, c: bv8)
    ensures After(mode, r, [c]) == Step(mode, r, c) && Frames(mode, r, [c]) == Out(mode, r, c)
  {
    hide Step, Out;
    assert [c][1..] == [];
  }

  lemma TakesByte(mode: Check, x: bv16, b: seq<bv8>, c: bv8)
    ensures After(mode, Rx(false, x, b), Escape(c)) == Rx(false, CrcStep(mode, x, c), b + [c])
    ensures Frames(mode, Rx(false, x, b), Escape(c)) == []
  {
    hide CrcStep;
    var r := Rx(false, x, b);
    if c == FEND || c == FESC {
      var t := if c == FEND then TFEND else TFESC;
      assert Escape(c) == [FESC] + [t];
      AfterConcat(mode, r, [FESC], [t]);
      AfterOne(mode, r, FESC);
      AfterOne(mode, Rx(true, x, b), t);
    } else {
      AfterOne(mode, r, c);
    }
  }

  lemma {:induction false} TakesBytes(mode: Check, x: bv16, b: seq<bv8>, p: seq<bv8>)
    ensures After(mode, Rx(false, x, b), Escaped(p)) == Rx(false, Crc(mode, x, p), b + p)
    ensures Frames(mode, Rx(false, x, b), Escaped(p)) == []
    decreases |p|
  {
    hide CrcStep, Escape, Step, Out;
    if p == [] {
      assert b + p == b;
    } else {
      AfterConcat(mode, Rx(false, x, b), Escape(p[0]), Escaped(p[1..]));
      TakesByte(mode, x, b, p[0]);
      TakesBytes(mode, CrcStep(mode, x, p[0]), b + [p[0]], p[1..]);
      assert b + [p[0]] + p[1..] == b + p;
    }
  }

  /** From any receiver state the bytes between two FENDs arrive whole. */
  lemma Arrives(mode: Check, r: Rx, p: seq<bv8>)
    ensures After(mode, r, [FEND] + Escaped(p) + [FEND]) == Rx(false, Start(mode), [])
    ensures Frames(mode, r, [FEND] + Escaped(p) + [FEND]) ==
            Out(mode, r, FEND) + Out(mode, Rx(false, Crc(mode, Start(mode), p), p), FEND)
  {
    hide After, Frames, Escaped, Accepted, Crc, CrcStep, Start;
    AfterConcat(mode, r, [FEND] + Escaped(p), [FEND]);
    AfterConcat(mode, r, [FEND], Escaped(p));
    AfterOne(mode, r, FEND);
    TakesBytes(mode, Start(mode), [], p);
    assert [] + p == p;
    AfterOne(mode, Rx(false, Crc(mode, Start(mode), p), p), FEND);
  }

  /** What kiss_rx makes of one frame of kiss_tx, in every mode and for every command: an ACKREQ
      under G8BPQ keeps its checksum byte, a poll is dropped, FlexNet loses the command byte and
      everything shorter than 13. */
  function Received(mode: Check, port: bv8, s: seq<bv8>): seq<seq<bv8>>
    requires s != []
  {
    var p := Addressed(mode, port, s);
    match mode
    case Plain => [p]
    case G8bpq =>
      if Command(s[0]) == ACKREQ then [p + [Lo(Crc(G8bpq, 0, p))]]
      else if Command(s[0]) == POLL then []
      else [p]
    case Flex => if |s| >= 13 then [[0] + s[1..]] else []
  }

  lemma CommandKept(c: bv8, port: bv8)
    ensures Command(Command(c) | (port << 4)) == Command(c)
  {
  }

  /** From any state of the receiver the octets of kiss_tx deliver the frame at the closing
      FEND; what noise has left in the buffer is dealt with at the opening one. */
  lemma Delivery(mode: Check, port: bv8, s: seq<bv8>, r: Rx)
    requires s != []
    ensures Frames(mode, r, Sent(mode, port, s)) == Out(mode, r, FEND) + Received(mode, port, s)
    ensures After(mode, r, Sent(mode, port, s)) == Rx(false, Start(mode), [])
  {
    hide After, Frames, Escaped, Crc, CrcStep, Command, Hi, Lo, Accepted;
    var m := SentMode(mode, s);
    var p := Addressed(m, port, s);
    Arrives(mode, r, Checked(m, p));
    match mode
    case Plain => AcceptPlain(p);
    case G8bpq => AcceptG8(port, s);
    case Flex => AcceptFlex(p);
  }

  lemma AcceptPlain(p: seq<bv8>)
    requires p != []
    ensures Accepted(Plain, Rx(false, Crc(Plain, 0, p), p)) == p
  {
    hide Crc;
  }

  lemma AcceptG8(port: bv8, s: seq<bv8>)
    requires s != []
    ensures var m := SentMode(G8bpq, s);
            var p := Addressed(m, port, s);
            var q := Checked(m, p);
            var got := Accepted(G8bpq, Rx(false, Crc(G8bpq, 0, q), q));
            && p == Addressed(G8bpq, port, s)
            && (Command(s[0]) == ACKREQ ==> got == p + [Lo(Crc(G8bpq, 0, p))])
            && (Command(s[0]) == POLL ==> got == [])
            && (Command(s[0]) != ACKREQ && Command(s[0]) != POLL ==> got == p)
  {
    hide Crc, CrcStep, Command, Hi, Lo;
    var p := Addressed(G8bpq, port, s);
    CommandKept(s[0], port);
    G8Residue(0, p);
    if Command(s[0]) == 0 {
      assert (p + [Lo(Crc(G8bpq, 0, p))])[..|p|] == p;
    }
  }

  lemma AcceptFlex(p: seq<bv8>)
    requires p != []
    ensures var q := Checked(Flex, p);
            Accepted(Flex, Rx(false, Crc(Flex, 0xffff, q), q)) == if |p| >= 13 then [0] + p[1..] else []
  {
    hide Crc, CrcStep, Hi, Lo;
    var u := Crc(Flex, 0xffff, p);
    FlexResidue(0xffff, p);
    assert (p + [Hi(u), Lo(u)])[1..|p|] == p[1..];
  }

  /** Exactly which frames arrive as they were sent. */
  lemma DeliveredUnchanged(mode: Check, port: bv8, s: seq<bv8>)
    requires s != []
    ensures Received(mode, port, s) == [Addressed(Plain, port, s)] <==>
            match mode
            case Plain => true
            case G8bpq => Command(s[0]) != ACKREQ && Command(s[0]) != POLL
            case Flex => |s| >= 13 && Command(s[0]) | (port << 4) == 0
  {
    hide Crc, Command, Hi, Lo;
    var p := Addressed(Plain, port, s);
    if mode == G8bpq && Command(s[0]) == ACKREQ {
      assert |Received(mode, port, s)[0]| == |p| + 1;
    }
    if mode == Flex && |s| >= 13 {
      assert p[0] == Command(s[0]) | (port << 4) && ([0] + s[1..])[0] == 0;
    }
  }
}
