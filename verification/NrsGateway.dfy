/**
 The gateway of nrsdrv as it runs: static states, counters and buffers of 512 bytes. Each read
 from one line is proved to put on the other what Nrs.dfy says.
 */
module NrsGateway {
  import opened KissBytes
  import opened Octets
  import opened Nrs

  /** What has been written of a frame: the lead and the payload bytes p in the line's own
      byte stuffing. */
  ghost predicate Written(buffer: array<bv8>, n: nat, s: seq<bv8>)
    reads buffer
  {
    n <= buffer.Length && buffer[..n] == s
  }

  method Put(buffer: array<bv8>, n: nat, c: bv8, ghost s: seq<bv8>) returns (n': nat)
    requires Written(buffer, n, s) && n < buffer.Length
    modifies buffer
    ensures n' == n + 1 && Written(buffer, n', s + [c])
  {
    buffer[n] := c;
    n' := n + 1;
  }

  lemma {:induction false} StuffedConcat(a: seq<bv8>, b: seq<bv8>)
    ensures Stuffed(a + b) == Stuffed(a) + Stuffed(b)
    decreases |a|
  {
    if a == [] {
      assert a + b == b;
    } else {
      assert (a + b)[1..] == a[1..] + b;
      StuffedConcat(a[1..], b);
    }
  }

  lemma StuffedStep(p: seq<bv8>, i: nat)
    requires i < |p|
    ensures Stuffed(p[..i + 1]) == Stuffed(p[..i]) + Stuff(p[i]) && |Stuffed(p[..i + 1])| <= |Stuffed(p)|
  {
    hide Stuff;
    assert p[..i + 1] == p[..i] + [p[i]];
    StuffedConcat(p[..i], [p[i]]);
    assert Stuffed([p[i]]) == Stuff(p[i]) + Stuffed([p[i]][1..]);
    assert p == p[..i + 1] + p[i + 1..];
    StuffedConcat(p[..i + 1], p[i + 1..]);
  }

  lemma EscapedStep(p: seq<bv8>, i: nat)
    requires i < |p|
    ensures Escaped(p[..i + 1]) == Escaped(p[..i]) + Escape(p[i]) && |Escaped(p[..i + 1])| <= |Escaped(p)|
  {
    hide Escaped;
    assert p[..i + 1] == p[..i] + [p[i]];
    EscapedSnoc(p[..i], p[i]);
    assert p == p[..i + 1] + p[i + 1..];
    EscapedConcat(p[..i + 1], p[i + 1..]);
  }

  /** nrs_esc up to the write: the frame for the NET/ROM line. */
  method NrsEsc(buffer: array<bv8>, s: array<bv8>, len: nat) returns (n: nat)
    requires buffer != s && len <= s.Length && |NrsFrame(s[..len])| <= buffer.Length
    modifies buffer
    ensures Written(buffer, n, NrsFrame(s[..len]))
  {
    hide Stuffed, Stuff, Sum, Val, Written;
    ghost var p := s[..len];
    var csum := 0;
    EmptyFrame(buffer);
    n := Put(buffer, 0, STX, []);
    var i := 0;
    NothingStuffed();
    assert [STX] + Stuffed(p[..0]) == [] + [STX];
    while i < len
      invariant i <= len && s[..len] == p
      invariant Written(buffer, n, [STX] + Stuffed(p[..i])) && n == 1 + |Stuffed(p[..i])|
      invariant csum == Sum(p[..i]) % 256
    {
      StuffedStep(p, i);
      n := StuffByte(buffer, n, s[i], [STX] + Stuffed(p[..i]));
      assert p[..i + 1] == p[..i] + [s[i]];
      assert [STX] + Stuffed(p[..i]) + Stuff(p[i]) == [STX] + Stuffed(p[..i + 1]);
      SumSnoc(p[..i], s[i]);
      SumWraps(Sum(p[..i]), Val(s[i]));
      csum := (csum + Val(s[i])) % 256;
      i := i + 1;
    }
    assert p[..len] == p;
    ghost var w := [STX] + Stuffed(p);
    n := Trailer(buffer, n, csum as bv8, w);
    assert w + [ETX] + [csum as bv8] + [NUL] + [NUL] == NrsFrame(p);
  }

  method Trailer(buffer: array<bv8>, n0: nat, csum: bv8, ghost w: seq<bv8>) returns (n: nat)
    requires Written(buffer, n0, w) && n0 + 4 <= buffer.Length
    modifies buffer
    ensures Written(buffer, n, w + [ETX] + [csum] + [NUL] + [NUL])
  {
    hide Written;
    n := Put(buffer, n0, ETX, w);
    n := Put(buffer, n, csum, w + [ETX]);
    n := Put(buffer, n, NUL, w + [ETX] + [csum]);
    n := Put(buffer, n, NUL, w + [ETX] + [csum] + [NUL]);
  }

  method StuffByte(buffer: array<bv8>, n: nat, c: bv8, ghost w: seq<bv8>) returns (n': nat)
    requires Written(buffer, n, w) && n + |Stuff(c)| <= buffer.Length
    modifies buffer
    ensures Written(buffer, n', w + Stuff(c)) && n' == n + |Stuff(c)|
  {
    hide Written;
    n' := n;
    ghost var v := w;
    if c == STX || c == ETX || c == DLE {
      n' := Put(buffer, n', DLE, v);
      v := v + [DLE];
    }
    n' := Put(buffer, n', c, v);
    assert v + [c] == w + Stuff(c);
  }

  lemma EmptyFrame(buffer: array<bv8>)
    ensures Written(buffer, 0, [])
  {
  }

  lemma NothingStuffed()
    ensures Stuffed([]) == [] && Escaped([]) == [] && Sum([]) == 0
  {
  }

  /** kiss_esc up to the write: the frame for the KISS line. */
  method KissEsc(buffer: array<bv8>, s: array<bv8>, len: nat) returns (n: nat)
    requires buffer != s && len <= s.Length && |KissFrame(0, s[..len])| <= buffer.Length
    modifies buffer
    ensures Written(buffer, n, KissFrame(0, s[..len]))
  {
    hide Escaped, Escape, Written;
    ghost var p := s[..len];
    EmptyFrame(buffer);
    n := Put(buffer, 0, FEND, []);
    n := Put(buffer, n, 0, [FEND]);
    var i := 0;
    NothingStuffed();
    assert [FEND, 0] + Escaped(p[..0]) == [FEND] + [0];
    while i < len
      invariant i <= len && s[..len] == p
      invariant Written(buffer, n, [FEND, 0] + Escaped(p[..i])) && n == 2 + |Escaped(p[..i])|
    {
      EscapedStep(p, i);
      n := EscapeByte(buffer, n, s[i], [FEND, 0] + Escaped(p[..i]));
      assert [FEND, 0] + Escaped(p[..i]) + Escape(p[i]) == [FEND, 0] + Escaped(p[..i + 1]);
      i := i + 1;
    }
    assert p[..len] == p;
    n := Put(buffer, n, FEND, [FEND, 0] + Escaped(p));
  }

  method EscapeByte(buffer: array<bv8>, n: nat, c: bv8, ghost w: seq<bv8>) returns (n': nat)
    requires Written(buffer, n, w) && n + |Escape(c)| <= buffer.Length
    modifies buffer
    ensures Written(buffer, n', w + Escape(c)) && n' == n + |Escape(c)|
  {
    hide Written;
    if c == FESC {
      n' := Put(buffer, n, FESC, w);
      n' := Put(buffer, n', TFESC, w + [FESC]);
      assert w + [FESC] + [TFESC] == w + Escape(c);
    } else if c == FEND {
      n' := Put(buffer, n, FESC, w);
      n' := Put(buffer, n', TFEND, w + [FESC]);
      assert w + [FESC] + [TFEND] == w + Escape(c);
    } else {
      n' := Put(buffer, n, c, w);
    }
  }

  predicate NrsFits(fs: seq<seq<bv8>>) {
    forall i | 0 <= i < |fs| :: |NrsFrame(fs[i])| <= BUFFER
  }

  predicate KissFits(fs: seq<seq<bv8>>) {
    forall i | 0 <= i < |fs| :: |KissFrame(0, fs[i])| <= BUFFER
  }

  /** The KISS side: what is read from the KISS line goes out on the NET/ROM line. */
  class KissSide {
    const rxbuffer: array<bv8>
    const txbuffer: array<bv8>
    var rxcount: nat
    var state: KissMode

    ghost predicate Valid()
      reads this
    {
      rxbuffer != txbuffer && rxbuffer.Length == BUFFER && txbuffer.Length == BUFFER && rxcount <= BUFFER
    }

    ghost function State(): Kiss
      reads this, rxbuffer
      requires Valid()
    {
      Kiss(state, rxbuffer[..rxcount])
    }

    constructor ()
      ensures Valid() && State() == Kiss(KissWait, []) && fresh(rxbuffer) && fresh(txbuffer)
    {
      rxbuffer := new bv8[BUFFER];
      txbuffer := new bv8[BUFFER];
      rxcount, state := 0, KissWait;
    }

    method KissUnesc(bytes: seq<bv8>) returns (sent: seq<bv8>)
      requires Valid() && NrsFits(KissFrames(State(), bytes))
      modifies this, rxbuffer, txbuffer
      ensures Valid() && State() == KissAfter(old(State()), bytes)
      ensures sent == NrsStream(KissFrames(old(State()), bytes))
    {
      hide KissStep, KissOut, NrsStream, NrsFrame, KissAfter, KissFrames, NrsFits;
      sent := [];
      var i := 0;
      ghost var was, done: seq<seq<bv8>> := State(), [];
      NothingSent();
      while i < |bytes|
        invariant Valid() && i <= |bytes|
        invariant KissAfter(State(), bytes[i..]) == KissAfter(was, bytes)
        invariant done + KissFrames(State(), bytes[i..]) == KissFrames(was, bytes)
        invariant sent == NrsStream(done)
      {
        KissUnfold(State(), bytes, i);
        ghost var f := KissOut(State(), bytes[i]);
        FitsInside(done, f, KissFrames(KissStep(State(), bytes[i]), bytes[i + 1..]));
        var out := Take(bytes[i]);
        NrsStreamConcat(done, f);
        assert done + (f + KissFrames(State(), bytes[i + 1..])) == (done + f) + KissFrames(State(), bytes[i + 1..]);
        sent, done := sent + out, done + f;
        i := i + 1;
      }
      KissEmpty(State());
      assert bytes[i..] == [] && done + [] == done;
    }

    method Take(c: bv8) returns (sent: seq<bv8>)
      requires Valid() && NrsFits(KissOut(State(), c))
      modifies this, rxbuffer, txbuffer
      ensures Valid() && State() == KissStep(old(State()), c) && sent == NrsStream(KissOut(old(State()), c))
    {
      hide NrsStream, NrsFrame;
      sent := [];
      NothingSent();
      match state
      case KissWait =>
        if c == FEND { state, rxcount := KissCtrl, 0; }
      case KissCtrl =>
        state, rxcount := if c & 0x0f == 0 then KissData else KissWait, 0;
      case KissData =>
        if c == FEND {
          if rxcount > 2 {
            assert KissOut(State(), c)[0] == rxbuffer[..rxcount];
            OneSent(rxbuffer[..rxcount]);
            var n := NrsEsc(txbuffer, rxbuffer, rxcount);
            sent := txbuffer[..n];
          }
          state, rxcount := KissWait, 0;
        } else if c == FESC {
          state := KissEscape;
        } else {
          Append(c);
        }
      case KissEscape =>
        state := KissData;
        if c == TFESC { Append(FESC); } else if c == TFEND { Append(FEND); }
    }

    method Append(c: bv8)
      requires Valid()
      modifies this`rxcount, rxbuffer
      ensures Valid() && rxbuffer[..rxcount] == Store(old(rxbuffer[..rxcount]), c)
    {
      if rxcount < BUFFER {
        rxbuffer[rxcount] := c;
        rxcount := rxcount + 1;
      }
    }
  }

  /** The NET/ROM side: what is read from the NET/ROM line goes out on the KISS line. */
  class NrsSide {
    const rxbuffer: array<bv8>
    const txbuffer: array<bv8>
    var rxcount: nat
    var cksum: nat
    var state: NrsMode

    ghost predicate Valid()
      reads this
    {
      rxbuffer != txbuffer && rxbuffer.Length == BUFFER && txbuffer.Length == BUFFER && rxcount <= BUFFER
    }

    ghost function State(): Nrs
      reads this, rxbuffer
      requires Valid()
    {
      Nrs(state, cksum, rxbuffer[..rxcount])
    }

    constructor ()
      ensures Valid() && State() == Nrs(NrsWait, 0, []) && fresh(rxbuffer) && fresh(txbuffer)
    {
      rxbuffer := new bv8[BUFFER];
      txbuffer := new bv8[BUFFER];
      rxcount, cksum, state := 0, 0, NrsWait;
    }

    method NrsUnesc(bytes: seq<bv8>) returns (sent: seq<bv8>)
      requires Valid() && KissFits(NrsFrames(State(), bytes))
      modifies this, rxbuffer, txbuffer
      ensures Valid() && State() == NrsAfter(old(State()), bytes)
      ensures sent == KissStream(NrsFrames(old(State()), bytes))
    {
      hide NrsStep, NrsOut, KissStream, KissFrame, NrsAfter, NrsFrames, KissFits;
      sent := [];
      var i := 0;
      ghost var was, done: seq<seq<bv8>> := State(), [];
      NothingSent();
      while i < |bytes|
        invariant Valid() && i <= |bytes|
        invariant NrsAfter(State(), bytes[i..]) == NrsAfter(was, bytes)
        invariant done + NrsFrames(State(), bytes[i..]) == NrsFrames(was, bytes)
        invariant sent == KissStream(done)
      {
        NrsUnfold(State(), bytes, i);
        ghost var f := NrsOut(State(), bytes[i]);
        FitsInside(done, f, NrsFrames(NrsStep(State(), bytes[i]), bytes[i + 1..]));
        var out := Take(bytes[i]);
        KissStreamConcat(done, f);
        assert done + (f + NrsFrames(State(), bytes[i + 1..])) == (done + f) + NrsFrames(State(), bytes[i + 1..]);
        sent, done := sent + out, done + f;
        i := i + 1;
      }
      NrsEmpty(State());
      assert bytes[i..] == [] && done + [] == done;
    }

    method Take(c: bv8) returns (sent: seq<bv8>)
      requires Valid() && KissFits(NrsOut(State(), c))
      modifies this, rxbuffer, txbuffer
      ensures Valid() && State() == NrsStep(old(State()), c) && sent == KissStream(NrsOut(old(State()), c))
    {
      hide KissStream, KissFrame, Val;
      sent := [];
      NothingSent();
      match state
      case NrsWait =>
        if c == STX { state, rxcount, cksum := NrsData, 0, 0; }
      case NrsData =>
        if c == STX {
          rxcount, cksum := 0, 0;
        } else if c == DLE {
          state := NrsEscape;
        } else if c == ETX {
          state := NrsCksum;
        } else {
          Append(c);
        }
      case NrsEscape =>
        state := NrsData;
        Append(c);
      case NrsCksum =>
        if Val(c) == cksum {
          assert NrsOut(State(), c)[0] == rxbuffer[..rxcount];
          OneSent(rxbuffer[..rxcount]);
          var n := KissEsc(txbuffer, rxbuffer, rxcount);
          sent := txbuffer[..n];
        }
        state, cksum, rxcount := NrsWait, 0, 0;
    }

    method Append(c: bv8)
      requires Valid() && state == NrsData
      modifies this`rxcount, this`cksum, rxbuffer
      ensures Valid() && State() == NrsStore(old(State()), c)
    {
      hide Val;
      if rxcount < BUFFER {
        cksum := (cksum + Val(c)) % 256;
        rxbuffer[rxcount] := c;
        rxcount := rxcount + 1;
      }
    }
  }

  lemma KissUnfold(k: Kiss, bytes: seq<bv8>, i: nat)
    requires i < |bytes|
    ensures KissAfter(k, bytes[i..]) == KissAfter(KissStep(k, bytes[i]), bytes[i + 1..])
    ensures KissFrames(k, bytes[i..]) == KissOut(k, bytes[i]) + KissFrames(KissStep(k, bytes[i]), bytes[i + 1..])
  {
    hide KissStep, KissOut;
    assert bytes[i..][1..] == bytes[i + 1..];
  }

  lemma KissEmpty(k: Kiss)
    ensures KissAfter(k, []) == k && KissFrames(k, []) == []
  {
  }

  lemma NrsUnfold(n: Nrs, bytes: seq<bv8>, i: nat)
    requires i < |bytes|
    ensures NrsAfter(n, bytes[i..]) == NrsAfter(NrsStep(n, bytes[i]), bytes[i + 1..])
    ensures NrsFrames(n, bytes[i..]) == NrsOut(n, bytes[i]) + NrsFrames(NrsStep(n, bytes[i]), bytes[i + 1..])
  {
    hide NrsStep, NrsOut;
    assert bytes[i..][1..] == bytes[i + 1..];
  }

  lemma NrsEmpty(n: Nrs)
    ensures NrsAfter(n, []) == n && NrsFrames(n, []) == []
  {
  }

  lemma NothingSent()
    ensures NrsStream([]) == [] && KissStream([]) == []
  {
  }

  lemma OneSent(p: seq<bv8>)
    ensures NrsStream([p]) == NrsFrame(p) && KissStream([p]) == KissFrame(0, p)
  {
    hide NrsFrame, KissFrame;
    assert [p][1..] == [];
  }

  lemma FitsInside(a: seq<seq<bv8>>, f: seq<seq<bv8>>, b: seq<seq<bv8>>)
    ensures NrsFits(a + (f + b)) ==> NrsFits(f)
    ensures KissFits(a + (f + b)) ==> KissFits(f)
  {
    hide NrsFrame, KissFrame;
    assert forall i | 0 <= i < |f| :: f[i] == (a + (f + b))[|a| + i];
  }

  lemma {:induction false} NrsStreamConcat(a: seq<seq<bv8>>, b: seq<seq<bv8>>)
    ensures NrsStream(a + b) == NrsStream(a) + NrsStream(b)
  {
    hide NrsFrame;
    if a == [] {
      assert a + b == b;
    } else {
      assert (a + b)[1..] == a[1..] + b;
      NrsStreamConcat(a[1..], b);
    }
  }

  lemma {:induction false} KissStreamConcat(a: seq<seq<bv8>>, b: seq<seq<bv8>>)
    ensures KissStream(a + b) == KissStream(a) + KissStream(b)
  {
    hide KissFrame;
    if a == [] {
      assert a + b == b;
    } else {
      assert (a + b)[1..] == a[1..] + b;
      KissStreamConcat(a[1..], b);
    }
  }
}
