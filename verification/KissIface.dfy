/**
 The KISS coder and decoder of mkiss as they run, over 4096-byte buffers and the table that
 init_crc filled; each call is proved to be the step of Kiss.dfy.
 */
module KissIface {
  import opened KissBytes
  import opened Kiss

  ghost predicate Table(crctab: array<bv16>)
    reads crctab
  {
    crctab.Length == 256 && forall i: bv8 :: crctab[i as nat] == Entry(i)
  }

  /** One running-checksum step through the table. */
  method Update(crctab: array<bv16>, mode: Check, crc: bv16, c: bv8) returns (next: bv16)
    requires Table(crctab)
    ensures next == CrcStep(mode, crc, c)
  {
    hide Entry;
    match mode
    case Plain => next := crc;
    case G8bpq => next := crc ^ (c as bv16);
    case Flex =>
      var i := ((crc >> 8) as bv8) ^ c;
      next := (crc << 8) ^ crctab[i as nat];
  }

  method PutUbyte(obuf: array<bv8>, p: nat, crctab: array<bv16>, crc: bv16, c: bv8, mode: Check)
    returns (len: nat, next: bv16)
    requires Table(crctab) && p + |Escape(c)| <= obuf.Length
    modifies obuf
    ensures len == |Escape(c)| && next == CrcStep(mode, crc, c)
    ensures obuf[..p + len] == old(obuf[..p]) + Escape(c)
  {
    hide CrcStep, Table;
    len := 1;
    if c == FEND {
      obuf[p] := FESC;
      obuf[p + 1] := TFEND;
      len := len + 1;
    } else {
      obuf[p] := c;
      if c == FESC {
        obuf[p + 1] := TFESC;
        len := len + 1;
      }
    }
    next := Update(crctab, mode, crc, c);
  }

  /** What has been written for the bytes p so far, after the opening FEND. */
  ghost predicate Written(obuf: array<bv8>, n: nat, p: seq<bv8>)
    reads obuf
  {
    n <= obuf.Length && obuf[..n] == [FEND] + Escaped(p)
  }

  /** One more byte of the frame, with its share of the checksum. */
  method PutByte(obuf: array<bv8>, n: nat, crctab: array<bv16>, crc: bv16, c: bv8, mode: Check, ghost p: seq<bv8>)
    returns (n': nat, crc': bv16)
    requires Table(crctab) && Written(obuf, n, p) && 1 + |Escaped(p + [c])| <= obuf.Length
    requires crc == Crc(mode, Start(mode), p)
    modifies obuf
    ensures Written(obuf, n', p + [c]) && crc' == Crc(mode, Start(mode), p + [c])
  {
    hide Escaped, Escape, Crc, CrcStep, Table;
    EscapedSnoc(p, c);
    CrcSnoc(mode, Start(mode), p, c);
    var len;
    len, crc' := PutUbyte(obuf, n, crctab, crc, c, mode);
    n' := n + len;
    assert obuf[..n'] == ([FEND] + Escaped(p)) + Escape(c);
  }

  lemma PrefixFits(p: seq<bv8>, k: nat)
    requires k <= |p|
    ensures |Escaped(p[..k])| <= |Escaped(p)|
  {
    hide Escaped;
    assert p == p[..k] + p[k..];
    EscapedConcat(p[..k], p[k..]);
  }

  method KissTx(obuf: array<bv8>, crctab: array<bv16>, port: bv8, s: array<bv8>, len: nat, usecrc: Check)
    returns (n: nat)
    requires Table(crctab) && obuf != s && 1 <= len <= s.Length
    requires |Sent(usecrc, port, s[..len])| <= obuf.Length
    modifies obuf
    ensures n <= obuf.Length && obuf[..n] == Sent(usecrc, port, s[..len])
  {
    hide Escaped, Escape, Crc, CrcStep, Table, Command, Hi, Lo, Written, Checked;
    ghost var was := s[..len];
    var mode := usecrc;
    var cmd := Command(s[0]);
    if mode == G8bpq && cmd != 0 && cmd != ACKREQ { mode := Plain; }
    ghost var p := Addressed(mode, port, was);
    CheckedExtends(mode, p);
    var crc;
    n, crc := PutFrame(obuf, crctab, port, s, len, mode, Checked(mode, p));
    n := PutChecksum(obuf, n, crctab, crc, mode, p);
    n := Close(obuf, n, Checked(mode, p));
  }

  lemma CheckedExtends(mode: Check, p: seq<bv8>)
    ensures p <= Checked(mode, p)
  {
    hide Crc, Hi, Lo;
  }

  /** The opening FEND, the command byte and the payload. */
  method PutFrame(obuf: array<bv8>, crctab: array<bv16>, port: bv8, s: array<bv8>, len: nat, mode: Check, ghost q: seq<bv8>)
    returns (n: nat, crc: bv16)
    requires Table(crctab) && obuf != s && 1 <= len <= s.Length
    requires Addressed(mode, port, s[..len]) <= q && 2 + |Escaped(q)| <= obuf.Length
    modifies obuf
    ensures var p := Addressed(mode, port, s[..len]);
            Written(obuf, n, p) && crc == Crc(mode, Start(mode), p)
  {
    hide Escaped, Escape, Crc, CrcStep, Table, Command, Written;
    ghost var p := Addressed(mode, port, s[..len]);
    obuf[0] := FEND;
    Opened(obuf, mode);
    PrefixFits(q, 1);
    assert q[..1] == [] + [p[0]] == p[..1];
    n, crc := PutByte(obuf, 1, crctab, if mode == Flex then 0xffff else 0,
                      if mode == Flex then CRCTYP else Command(s[0]) | (port << 4), mode, []);
    var i := 0;
    while i < len - 1
      invariant i <= len - 1 && Addressed(mode, port, s[..len]) == p
      invariant Written(obuf, n, p[..i + 1]) && crc == Crc(mode, Start(mode), p[..i + 1])
    {
      PrefixFits(q, i + 2);
      assert q[..i + 2] == p[..i + 2] == p[..i + 1] + [s[i + 1]];
      n, crc := PutByte(obuf, n, crctab, crc, s[i + 1], mode, p[..i + 1]);
      i := i + 1;
    }
    assert p[..len] == p;
  }

  lemma Opened(obuf: array<bv8>, mode: Check)
    requires obuf.Length >= 1 && obuf[0] == FEND
    ensures Written(obuf, 1, []) && Start(mode) == Crc(mode, Start(mode), [])
  {
  }

  method PutChecksum(obuf: array<bv8>, n: nat, crctab: array<bv16>, crc: bv16, mode: Check, ghost p: seq<bv8>)
    returns (n': nat)
    requires Table(crctab) && Written(obuf, n, p) && crc == Crc(mode, Start(mode), p)
    requires 2 + |Escaped(Checked(mode, p))| <= obuf.Length
    modifies obuf
    ensures Written(obuf, n', Checked(mode, p))
  {
    hide Escaped, Escape, Crc, CrcStep, Table, Written;
    n' := n;
    match mode
    case Plain =>
    case G8bpq =>
      var x;
      n', x := PutByte(obuf, n, crctab, crc, (crc & 0xff) as bv8, mode, p);
    case Flex =>
      var u, x := crc, crc;
      assert (p + [Hi(u), Lo(u)])[..|p| + 1] == p + [Hi(u)];
      PrefixFits(p + [Hi(u), Lo(u)], |p| + 1);
      n', x := PutByte(obuf, n, crctab, crc, (u >> 8) as bv8, mode, p);
      assert p + [Hi(u)] + [Lo(u)] == p + [Hi(u), Lo(u)];
      n', x := PutByte(obuf, n', crctab, x, (u & 0xff) as bv8, mode, p + [Hi(u)]);
  }

  method Close(obuf: array<bv8>, n: nat, ghost q: seq<bv8>) returns (n': nat)
    requires Written(obuf, n, q) && 2 + |Escaped(q)| <= obuf.Length
    modifies obuf
    ensures n' <= obuf.Length && obuf[..n'] == [FEND] + Escaped(q) + [FEND]
  {
    hide Escaped;
    assert n == 1 + |Escaped(q)|;
    obuf[n] := FEND;
    n' := n + 1;
  }

  class Iface {
    const obuf: array<bv8>
    var optr: nat
    var escaped: bool
    var crc: bv16

    ghost predicate Valid()
      reads this
    {
      obuf.Length == SIZE && optr <= SIZE
    }

    ghost function State(): (r: Rx)
      reads this, obuf
      requires Valid()
    {
      Rx(escaped, crc, obuf[..optr])
    }

    constructor ()
      ensures Valid() && State() == Rx(false, 0, []) && fresh(obuf)
    {
      obuf := new bv8[SIZE];
      optr, escaped, crc := 0, false, 0;
    }

    /** One octet received; a length other than zero is a complete frame at the front of obuf. */
    method KissRx(c: bv8, usecrc: Check, crctab: array<bv16>) returns (len: nat)
      requires Valid() && Table(crctab) && (c != FEND && c != FESC ==> optr < SIZE)
      modifies this, obuf
      ensures Valid() && State() == Step(usecrc, old(State()), c)
      ensures var fs := Out(usecrc, old(State()), c);
              if fs == [] then len == 0 else len <= SIZE && fs == [obuf[..len]]
    {
      hide CrcStep, Accepted, Table;
      len := 0;
      if c == FEND {
        len := EndOfFrame(usecrc);
      } else if c == FESC {
        escaped := true;
      } else {
        TakeByte(c, usecrc, crctab);
      }
    }

    /** A byte for the buffer, changed if it follows an escape. */
    method TakeByte(c: bv8, usecrc: Check, crctab: array<bv16>)
      requires Valid() && Table(crctab) && c != FEND && c != FESC && optr < SIZE
      modifies this, obuf
      ensures Valid() && State() == Step(usecrc, old(State()), c)
    {
      hide CrcStep, Table;
      var d := c;
      if escaped {
        escaped := false;
        if c == TFESC { d := FESC; } else if c == TFEND { d := FEND; }
      }
      assert d == Meant(old(State()), c);
      obuf[optr] := d;
      optr := optr + 1;
      assert obuf[..optr] == old(obuf[..optr]) + [d];
      crc := Update(crctab, usecrc, crc, d);
    }

    method EndOfFrame(usecrc: Check) returns (len: nat)
      requires Valid()
      modifies this, obuf
      ensures Valid() && State() == Rx(false, Start(usecrc), [])
      ensures len <= SIZE && obuf[..len] == Accepted(usecrc, old(State()))
    {
      hide Command;
      len := optr;
      if len != 0 && escaped { len := 0; }
      if len != 0 {
        match usecrc {
        case Plain =>
        case G8bpq =>
          if Command(obuf[0]) != 0 {
            if Command(obuf[0]) == POLL { len := 0; }
          } else if crc & 0xff != 0 {
            len := 0;
          } else {
            len := len - 1;
          }
        case Flex =>
          if len > 14 && crc == RESIDUE {
            len := len - 2;
            obuf[0] := 0;
          } else {
            len := 0;
          }
        }
      }
      optr := 0;
      crc := if usecrc == Flex then 0xffff else 0;
      escaped := false;
    }
  }
}
