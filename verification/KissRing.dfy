/**
 The stream between net2kiss and its pty: frames are encoded into a ring of 16384 bytes, all or
 nothing, drained in pieces, and taken apart again by a decoder of three states.
 */
module KissRing {
  import opened KissBytes

  const RING := 16384
  const PACKET := 2048

  function Frame(p: seq<bv8>): seq<bv8> {
    [FEND] + Escaped(p) + [FEND]
  }

  function Frames(ps: seq<seq<bv8>>): seq<bv8> {
    if ps == [] then [] else Frames(ps[..|ps| - 1]) + Frame(ps[|ps| - 1])
  }

  // ----- the ring

  /** What lies between a read and a write index. */
  function Span(a: seq<bv8>, rp: nat, wp: nat): seq<bv8>
    requires |a| == RING && rp < RING && wp < RING
  {
    if rp <= wp then a[rp..wp] else a[rp..] + a[..wp]
  }

  lemma SpanLength(a: seq<bv8>, rp: nat, wp: nat)
    requires |a| == RING && rp < RING && wp < RING
    ensures |Span(a, rp, wp)| == (if rp <= wp then wp - rp else RING + wp - rp) < RING
  {
  }

  lemma SpanGrows(a: seq<bv8>, rp: nat, wp: nat, c: bv8)
    requires |a| == RING && rp < RING && wp < RING
    ensures var wp' := (wp + 1) % RING;
            if wp' == rp then |Span(a, rp, wp)| == RING - 1
            else Span(a[wp := c], rp, wp') == Span(a, rp, wp) + [c]
  {
    if wp + 1 < RING {
      assert (wp + 1) % RING == wp + 1;
      if rp <= wp {
        assert a[wp := c][rp..wp + 1] == a[rp..wp] + [c];
      } else {
        assert a[wp := c][rp..] == a[rp..];
        assert a[wp := c][..wp + 1] == a[..wp] + [c];
      }
    } else {
      assert (wp + 1) % RING == 0;
      if rp != 0 {
        assert a[wp := c][rp..] + a[wp := c][..0] == a[rp..wp] + [c];
      }
    }
  }

  /** Writing at the write index leaves what is before it as it was. */
  lemma SpanKept(a: seq<bv8>, rp: nat, wp: nat, wpx: nat, c: bv8)
    requires |a| == RING && rp < RING && wp < RING && wpx < RING
    requires |Span(a, rp, wp)| <= |Span(a, rp, wpx)|
    ensures Span(a[wpx := c], rp, wp) == Span(a, rp, wp)
  {
    SpanLength(a, rp, wp);
    SpanLength(a, rp, wpx);
    var b := a[wpx := c];
    if rp <= wp {
      assert b[rp..wp] == a[rp..wp];
    } else {
      assert b[rp..] == a[rp..] && b[..wp] == a[..wp];
    }
  }

  class Ring {
    const obuf: array<bv8>
    var wp: nat
    var rp: nat

    ghost predicate Valid()
      reads this
    {
      obuf.Length == RING && wp < RING && rp < RING
    }

    ghost function Contents(): (s: seq<bv8>)
      reads this, obuf
      requires Valid()
    {
      Span(obuf[..], rp, wp)
    }

    constructor ()
      ensures Valid() && fresh(obuf) && Contents() == []
    {
      obuf := new bv8[RING];
      wp, rp := 0, 0;
    }

    /** Put one byte behind wpx, unless the ring is full. */
    method AddChar(wpx: nat, c: bv8) returns (next: nat, ok: bool)
      requires Valid() && wpx < RING && |Contents()| <= |Span(obuf[..], rp, wpx)|
      modifies obuf
      ensures next < RING && Contents() == old(Contents())
      ensures ok <==> |old(Span(obuf[..], rp, wpx))| < RING - 1
      ensures ok ==> Span(obuf[..], rp, next) == old(Span(obuf[..], rp, wpx)) + [c]
    {
      hide Span;
      SpanGrows(obuf[..], rp, wpx, c);
      SpanKept(obuf[..], rp, wp, wpx, c);
      obuf[wpx] := c;
      next := (wpx + 1) % RING;
      ok := next != rp;
      SpanLength(old(obuf[..]), rp, wpx);
      if ok { SpanLength(obuf[..], rp, next); }
    }

    method AddKissChar(wpx: nat, c: bv8) returns (next: nat, ok: bool)
      requires Valid() && wpx < RING && |Contents()| <= |Span(obuf[..], rp, wpx)|
      modifies obuf
      ensures next < RING && Contents() == old(Contents())
      ensures ok <==> |old(Span(obuf[..], rp, wpx))| + |Escape(c)| <= RING - 1
      ensures ok ==> Span(obuf[..], rp, next) == old(Span(obuf[..], rp, wpx)) + Escape(c)
    {
      hide Span;
      if c == FEND {
        next, ok := AddChar(wpx, FESC);
        if ok { next, ok := AddChar(next, TFEND); }
      } else if c == FESC {
        next, ok := AddChar(wpx, FESC);
        if ok { next, ok := AddChar(next, TFESC); }
      } else {
        next, ok := AddChar(wpx, c);
      }
    }

    /** A packet from the interface: it is committed whole if it fits behind what is still to be
        drained, and otherwise leaves no trace. */
    method Encode(ibuf: array<bv8>, len: nat) returns (ok: bool)
      requires Valid() && ibuf != obuf && len <= ibuf.Length
      modifies this`wp, obuf
      ensures Valid()
      ensures ok <==> |old(Contents())| + |Frame(ibuf[..len])| <= 16383
      ensures Contents() == if ok then old(Contents()) + Frame(ibuf[..len]) else old(Contents())
    {
      hide Span, Escape, Escaped;
      ghost var s, p := Contents(), ibuf[..len];
      NothingEscaped();
      var wpx: nat := wp;
      wpx, ok := AddChar(wpx, FEND);
      if !ok { return; }
      var i := 0;
      while i < len
        invariant Valid() && i <= len && wpx < RING && Contents() == s && ibuf[..len] == p
        invariant Span(obuf[..], rp, wpx) == s + [FEND] + Escaped(p[..i])
      {
        FrontIsShorter(p, i);
        wpx, ok := AddKissChar(wpx, ibuf[i]);
        if !ok { return; }
        i := i + 1;
      }
      assert p[..len] == p;
      wpx, ok := AddChar(wpx, FEND);
      if !ok { return; }
      wp := wpx;
    }

    /** How much one write to the pty can take: up to the end of the buffer or to wp. */
    function Chunk(): nat
      reads this
      requires Valid()
    {
      if rp > wp then RING - rp else wp - rp
    }

    /** One write to the pty that takes `written` bytes of what is offered. */
    method Drain(written: nat) returns (out: seq<bv8>)
      requires Valid() && written <= Chunk()
      modifies this`rp
      ensures Valid() && |out| == written && out + Contents() == old(Contents())
    {
      out := obuf[rp..rp + written];
      rp := (rp + written) % RING;
    }
  }

  lemma NothingEscaped()
    ensures Escaped([]) == []
  {
  }

  lemma FrontIsShorter(p: seq<bv8>, i: nat)
    requires i < |p|
    ensures Escaped(p[..i + 1]) == Escaped(p[..i]) + Escape(p[i])
    ensures |Escaped(p[..i + 1])| <= |Escaped(p)|
  {
    hide Escaped;
    assert p[..i + 1] == p[..i] + [p[i]];
    EscapedSnoc(p[..i], p[i]);
    assert p == p[..i + 1] + p[i + 1..];
    EscapedConcat(p[..i + 1], p[i + 1..]);
  }

  // ----- the decoder

  datatype Mode = Hunt | Receiving | AfterEscape

  datatype Dec = Dec(mode: Mode, buf: seq<bv8>)

  function Step(d: Dec, c: bv8): Dec {
    match d.mode
    case Hunt => if c == FEND then Dec(Receiving, []) else d
    case Receiving =>
      if c == FESC then Dec(AfterEscape, d.buf)
      else if c == FEND then Dec(Receiving, [])
      else if |d.buf| >= PACKET then Dec(Hunt, d.buf)
      else Dec(Receiving, d.buf + [c])
    case AfterEscape =>
      if |d.buf| >= PACKET then Dec(Hunt, d.buf)
      else if c == TFESC then Dec(Receiving, d.buf + [FESC])
      else if c == TFEND then Dec(Receiving, d.buf + [FEND])
      else Dec(Hunt, d.buf)
  }

  /** The packet handed on to the interface with an octet, if any. */
  function Out(d: Dec, c: bv8): seq<seq<bv8>> {
    if d.mode == Receiving && c == FEND && |d.buf| >= 2 then [d.buf] else []
  }

  function After(d: Dec, cs: seq<bv8>): Dec
    decreases |cs|
  {
    if cs == [] then d else After(Step(d, cs[0]), cs[1..])
  }

  function Packets(d: Dec, cs: seq<bv8>): seq<seq<bv8>>
    decreases |cs|
  {
    if cs == [] then [] else Out(d, cs[0]) + Packets(Step(d, cs[0]), cs[1..])
  }

  class Decoder {
    const pktbuf: array<bv8>
    var pktptr: nat
    var pktstate: Mode

    ghost predicate Valid()
      reads this
    {
      pktbuf.Length == PACKET && pktptr <= PACKET
    }

    ghost function State(): (d: Dec)
      reads this, pktbuf
      requires Valid()
    {
      Dec(pktstate, pktbuf[..pktptr])
    }

    constructor ()
      ensures Valid() && State() == Dec(Hunt, []) && fresh(pktbuf)
    {
      pktbuf := new bv8[PACKET];
      pktptr, pktstate := 0, Hunt;
    }

    /** A read from the pty of any length; sent are the packets given to kiss_packet that it
        passes on. */
    method Read(bytes: seq<bv8>) returns (sent: seq<seq<bv8>>)
      requires Valid()
      modifies this, pktbuf
      ensures Valid() && State() == After(old(State()), bytes) && sent == Packets(old(State()), bytes)
    {
      hide Step, Out;
      sent := [];
      var i := 0;
      while i < |bytes|
        invariant Valid() && i <= |bytes|
        invariant After(State(), bytes[i..]) == After(old(State()), bytes)
        invariant sent + Packets(State(), bytes[i..]) == Packets(old(State()), bytes)
      {
        assert bytes[i..][1..] == bytes[i + 1..];
        var s := Take(bytes[i]);
        sent := sent + s;
        i := i + 1;
      }
    }

    method Take(c: bv8) returns (s: seq<seq<bv8>>)
      requires Valid()
      modifies this, pktbuf
      ensures Valid() && State() == Step(old(State()), c) && s == Out(old(State()), c)
    {
      s := [];
      match pktstate
      case Hunt =>
        if c == FEND {
          pktptr := 0;
          pktstate := Receiving;
        }
      case Receiving =>
        if c == FESC {
          pktstate := AfterEscape;
        } else if c == FEND {
          if pktptr >= 2 { s := [pktbuf[..pktptr]]; }
          pktptr := 0;
        } else if pktptr >= PACKET {
          pktstate := Hunt;
        } else {
          pktbuf[pktptr] := c;
          pktptr := pktptr + 1;
        }
      case AfterEscape =>
        if pktptr >= PACKET {
          pktstate := Hunt;
        } else if c == TFESC {
          pktbuf[pktptr] := FESC;
          pktptr := pktptr + 1;
          pktstate := Receiving;
        } else if c == TFEND {
          pktbuf[pktptr] := FEND;
          pktptr := pktptr + 1;
          pktstate := Receiving;
        } else {
          pktstate := Hunt;
        }
    }
  }

  // ----- the decoder undoes the encoder

  lemma {:induction false} AfterConcat(d: Dec, a: seq<bv8>, b: seq<bv8>)
    ensures After(d, a + b) == After(After(d, a), b)
    ensures Packets(d, a + b) == Packets(d, a) + Packets(After(d, a), b)
    decreases |a|
  {
    hide Step, Out;
    if a == [] {
      assert a + b == b;
    } else {
      assert (a + b)[1..] == a[1..] + b;
      AfterConcat(Step(d, a[0]), a[1..], b);
    }
  }

  lemma AfterOne(d: Dec, c: bv8)
    ensures After(d, [c]) == Step(d, c) && Packets(d, [c]) == Out(d, c)
  {
    hide Step, Out;
    assert [c][1..] == [];
  }

  lemma AfterTwo(d: Dec, a: bv8, b: bv8)
    ensures After(d, [a, b]) == Step(Step(d, a), b) && Packets(d, [a, b]) == Out(d, a) + Out(Step(d, a), b)
  {
    hide Step, Out;
    assert [a, b] == [a] + [b];
    AfterConcat(d, [a], [b]);
    AfterOne(d, a);
    AfterOne(Step(d, a), b);
  }

  lemma {:induction false} HuntSkips(d: Dec, cs: seq<bv8>)
    requires d.mode == Hunt && FEND !in cs
    ensures After(d, cs) == d && Packets(d, cs) == []
    decreases |cs|
  {
    if cs != [] { HuntSkips(d, cs[1..]); }
  }

  /** One encoded byte goes into the buffer, or makes the decoder give up when it is full. */
  lemma TakesByte(b: seq<bv8>, c: bv8)
    ensures var d := Dec(Receiving, b);
            && Packets(d, Escape(c)) == []
            && After(d, Escape(c)) == if |b| < PACKET then Dec(Receiving, b + [c]) else Dec(Hunt, b)
  {
    var d := Dec(Receiving, b);
    if c == FEND {
      AfterTwo(d, FESC, TFEND);
    } else if c == FESC {
      AfterTwo(d, FESC, TFESC);
    } else {
      AfterOne(d, c);
    }
  }

  lemma {:induction false} TakesBytes(b: seq<bv8>, p: seq<bv8>)
    ensures var d := Dec(Receiving, b);
            && Packets(d, Escaped(p)) == []
            && (|b| + |p| <= PACKET ==> After(d, Escaped(p)) == Dec(Receiving, b + p))
            && (|b| + |p| > PACKET && |b| <= PACKET ==> After(d, Escaped(p)).mode == Hunt)
    decreases |p|
  {
    hide Escape, Step, Out;
    var d := Dec(Receiving, b);
    if p == [] {
      assert b + p == b;
    } else {
      var c, rest := p[0], p[1..];
      AfterConcat(d, Escape(c), Escaped(rest));
      TakesByte(b, c);
      if |b| < PACKET {
        TakesBytes(b + [c], rest);
        assert b + [c] + rest == b + p;
      } else {
        NoFendInside(rest);
        HuntSkips(Dec(Hunt, b), Escaped(rest));
      }
    }
  }

  /** From any state of the decoder one encoded packet is delivered exactly when its length is
      between 2 and 2048, unless the decoder had just seen an escape. Either way it ends up
      ready for the next packet; what line noise left in the buffer comes out before. */
  lemma DecodeFrame(d: Dec, p: seq<bv8>)
    ensures Packets(d, Frame(p)) ==
            Out(d, FEND) + (if d.mode != AfterEscape && 2 <= |p| <= 2048 then [p] else [])
    ensures After(d, Frame(p)) == Dec(Receiving, [])
  {
    hide Escaped, After, Packets;
    var e := Step(d, FEND);
    AfterConcat(d, [FEND] + Escaped(p), [FEND]);
    AfterConcat(d, [FEND], Escaped(p));
    AfterOne(d, FEND);
    if d.mode == AfterEscape {
      NoFendInside(p);
      HuntSkips(e, Escaped(p));
      AfterOne(e, FEND);
    } else {
      TakesBytes([], p);
      assert [] + p == p;
      AfterOne(After(e, Escaped(p)), FEND);
    }
  }

  /** An escape in front of anything but its two companions costs the packet it is in, whatever
      comes until the next delimiter. */
  lemma BrokenEscape(d: Dec, p: seq<bv8>, x: bv8, rest: seq<bv8>)
    requires d.mode != AfterEscape && |p| <= 2048 && x != 0xdc && x != 0xdd && FEND !in rest
    ensures var cs := [FEND] + Escaped(p) + [FESC, x] + rest + [FEND];
            Packets(d, cs) == Out(d, FEND) && After(d, cs) == Dec(Receiving, [])
  {
    hide Escaped, After, Packets, Out;
    var e, h := Dec(Receiving, p), Dec(Hunt, p);
    var a, b := [FEND] + Escaped(p), [FEND] + Escaped(p) + [FESC, x];
    AfterConcat(d, b + rest, [FEND]);
    AfterConcat(d, b, rest);
    AfterConcat(d, a, [FESC, x]);
    AfterConcat(d, [FEND], Escaped(p));
    AfterOne(d, FEND);
    TakesBytes([], p);
    assert [] + p == p;
    AfterTwo(e, FESC, x);
    GivesUp(p, x);
    HuntSkips(h, rest);
    AfterOne(h, FEND);
    NothingOut(p);
  }

  lemma GivesUp(p: seq<bv8>, x: bv8)
    requires x != TFEND && x != TFESC
    ensures Step(Step(Dec(Receiving, p), FESC), x) == Dec(Hunt, p)
    ensures Out(Dec(Receiving, p), FESC) == [] && Out(Step(Dec(Receiving, p), FESC), x) == []
  {
  }

  lemma NothingOut(p: seq<bv8>)
    ensures Out(Dec(Hunt, p), FEND) == []
  {
  }

  /** The packets a decoder can pass on. */
  function Deliverable(ps: seq<seq<bv8>>): seq<seq<bv8>> {
    if ps == [] then []
    else
      var p := ps[|ps| - 1];
      Deliverable(ps[..|ps| - 1]) + if 2 <= |p| <= PACKET then [p] else []
  }

  lemma {:induction false} DecodeFrames(ps: seq<seq<bv8>>)
    ensures Packets(Dec(Hunt, []), Frames(ps)) == Deliverable(ps)
    ensures ps != [] ==> After(Dec(Hunt, []), Frames(ps)) == Dec(Receiving, [])
  {
    hide Frame;
    if ps != [] {
      var front, p := ps[..|ps| - 1], ps[|ps| - 1];
      var d := After(Dec(Hunt, []), Frames(front));
      DecodeFrames(front);
      AfterConcat(Dec(Hunt, []), Frames(front), Frame(p));
      DecodeFrame(d, p);
    }
  }

  // ----- runs of the ring

  datatype Event = Packet(p: seq<bv8>) | Write(n: nat)

  /** What the ring holds, what has gone out, and which packets were accepted. */
  datatype Stream = Stream(contents: seq<bv8>, out: seq<bv8>, accepted: seq<seq<bv8>>)

  function Next(s: Stream, e: Event): Stream {
    match e
    case Packet(p) =>
      if |s.contents| + |Frame(p)| <= RING - 1 then
        s.(contents := s.contents + Frame(p), accepted := s.accepted + [p])
      else s
    case Write(n) =>
      if n <= |s.contents| then s.(contents := s.contents[n..], out := s.out + s.contents[..n]) else s
  }

  function Run(es: seq<Event>): Stream {
    if es == [] then Stream([], [], []) else Next(Run(es[..|es| - 1]), es[|es| - 1])
  }

  /** What went out and what the ring still holds are the whole frames accepted, in order. */
  lemma {:induction false} StreamIsFrames(es: seq<Event>)
    ensures var s := Run(es); s.out + s.contents == Frames(s.accepted) && |s.contents| < RING
  {
    hide Frame;
    if es != [] {
      var s := Run(es[..|es| - 1]);
      StreamIsFrames(es[..|es| - 1]);
      match es[|es| - 1]
      case Packet(p) =>
        assert (s.accepted + [p])[..|s.accepted|] == s.accepted;
        assert s.out + (s.contents + Frame(p)) == (s.out + s.contents) + Frame(p);
      case Write(n) =>
        if n <= |s.contents| {
          assert s.out + s.contents[..n] + s.contents[n..] == s.out + s.contents;
        }
    }
  }

  /** Whatever the interleaving of packets and partial writes, the far decoder has at every
      moment delivered a prefix of the deliverable packets accepted, and all of them when the
      ring is drained. */
  lemma DeliversAccepted(es: seq<Event>)
    ensures var s := Run(es);
            && Packets(Dec(Hunt, []), s.out) <= Deliverable(s.accepted)
            && (s.contents == [] ==> Packets(Dec(Hunt, []), s.out) == Deliverable(s.accepted))
  {
    hide Packets, Frames, Deliverable, After, Run;
    var s := Run(es);
    StreamIsFrames(es);
    DecodeFrames(s.accepted);
    AfterConcat(Dec(Hunt, []), s.out, s.contents);
    if s.contents == [] { assert s.out + s.contents == s.out; }
  }
}
