/**
 The 6pack coder and decoder as they run: the encoder ORs bits into its output buffer, the
 receiver into databuf, octet by octet; each call is proved to be the step of SixPack.dfy.
 */
module SixPackIface {
  import opened Octets
  import opened SixPack

  datatype FrameType = DataFrame | CommandFrame

  const ADDR: bv8 := 0xe8

  function Opcode(c: bv8): bv8 { c & 0xf8 }

  /** The ports waiting for the answer to a "TNC Address" command: a ring of eight that neither
      side checks for overrun. The ghost fields record all requests and how many were served. */
  class AddrFifo {
    const slots: array<bv8>
    var head: nat
    var tail: nat
    ghost var requests: seq<bv8>
    ghost var served: nat

    ghost predicate Valid()
      reads this, slots
    {
      && slots.Length == 8 && head == served % 8 && tail == |requests| % 8
      && (forall p | 0 <= p < |requests| && |requests| - 8 <= p :: slots[p % 8] == requests[p])
      && (forall q | |requests| <= q < 8 :: slots[q] == 0)
    }

    constructor ()
      ensures Valid() && fresh(slots) && requests == [] && served == 0
    {
      slots := new bv8[8](_ => 0);
      head, tail, requests, served := 0, 0, [], 0;
    }

    method Enqueue(id: bv8)
      requires Valid()
      modifies this`tail, this`requests, slots
      ensures Valid() && requests == old(requests) + [id]
    {
      ghost var n := |requests|;
      slots[tail] := id;
      tail := (tail + 1) % 8;
      requests := requests + [id];
      NextSlot(n);
      forall p | 0 <= p < |requests| && |requests| - 8 <= p ensures slots[p % 8] == requests[p] {
        if p < n { OtherSlot(n, p); }
      }
    }

    /** The answer goes to the latest request for the slot that is due, or to port 0 if there was
        none: in the order of the requests as long as no more than eight wait. */
    method Dequeue() returns (id: bv8)
      requires Valid()
      modifies this`head, this`served
      ensures Valid() && served == old(served) + 1
      ensures var p := Latest(|requests|, old(served)); id == if p >= 0 then requests[p] else 0
      ensures old(served) < |requests| <= old(served) + 8 ==> id == requests[old(served)]
    {
      hide Latest;
      NextSlot(served);
      LatestIs(|requests|, served);
      ghost var p := Latest(|requests|, served);
      if p < 0 { assert served % 8 == p + 8; }
      id := slots[head];
      head := (head + 1) % 8;
      served := served + 1;
    }
  }

  /** The last number before n for the slot of a request number; negative if there is none. */
  function Latest(n: nat, served: nat): int {
    n - 1 - (n - 1 - served) % 8
  }

  /** When more than eight requests wait, the one that is due has been overtaken by a later one. */
  lemma LatestIs(n: nat, served: nat)
    ensures var p := Latest(n, served);
            && n - 8 <= p < n && p % 8 == served % 8 && (p < 0 ==> served % 8 == p + 8)
            && (p == served <==> served < n <= served + 8)
            && (n > served + 8 ==> p > served)
  {
    var d := n - 1 - served;
    var p := Latest(n, served);
    var k := d / 8;
    assert p == served + 8 * k;
    SameSlot(served, k, p);
    if p < 0 { assert (p + 8) % 8 == p + 8; }
  }

  lemma SameSlot(n: int, k: int, p: int)
    requires p == n + 8 * k
    ensures p % 8 == n % 8
  {
  }

  lemma NextSlot(n: nat)
    ensures (n % 8 + 1) % 8 == (n + 1) % 8
  {
  }

  lemma OtherSlot(n: nat, p: nat)
    requires n - 8 < p < n
    ensures p % 8 != n % 8
  {
  }

  class Iface {
    const databuf: array<bv8>
    const isTty: bool
    const ptyId: bv8
    var seof: bv8
    var cmdbuf: bv8
    var optr: nat
    var sixpCnt: nat
    var errors: nat
    var rxpackets: nat
    var rxbytes: nat
    ghost var octets: seq<bv8>

    /** databuf holds the bytes completed and, behind them, the one begun. */
    ghost predicate Valid()
      reads this, databuf
    {
      && databuf.Length == SIZE && optr <= SIZE && sixpCnt == |octets|
      && databuf[..optr] == Out(octets)
      && (sixpCnt % 4 != 0 ==> optr < SIZE && databuf[optr] == Part(octets))
    }

    ghost function State(): Rx
      reads this
    {
      Rx(seof, octets)
    }

    /** Room in databuf for what the octet completes and begins. */
    predicate Room(c: bv8)
      reads this
    {
      IsData(c) ==> optr + (if sixpCnt % 4 == 1 || sixpCnt % 4 == 2 then 1 else 0) < SIZE
    }

    constructor (isTty: bool, ptyId: bv8)
      ensures Valid() && State() == Rx(0, []) && fresh(databuf) && this.isTty == isTty && this.ptyId == ptyId
    {
      databuf := new bv8[SIZE];
      this.isTty, this.ptyId := isTty, ptyId;
      seof, cmdbuf, optr, sixpCnt, errors, rxpackets, rxbytes, octets := 0, 0, 0, 0, 0, 0, 0, [];
    }

    /** One octet received. A result of zero is "nothing complete yet". */
    method SixpackRx(c: bv8, fifo: AddrFifo) returns (len: nat, addr: bv8, kind: FrameType)
      requires Valid() && Room(c) && fifo.Valid() && fifo.slots != databuf
      modifies this, databuf, fifo, fifo.slots
      ensures Valid() && fifo.Valid() && State() == Next(old(State()), c)
      ensures var es := Delivered(old(State()), c);
              && (es == [] <==> len == 0)
              && (es != [] && es[0].Data? ==>
                    kind == DataFrame && addr == es[0].addr && len == |es[0].bytes| && databuf[..len] == es[0].bytes)
              && (es != [] && es[0].Command? ==> kind == CommandFrame && len == 1)
      ensures IsCommand(c) && Opcode(c) != ADDR ==> cmdbuf == Opcode(c) && addr == Addr(c)
      ensures Opcode(c) == ADDR ==> cmdbuf == if isTty then ADDR | 1 else ADDR
      ensures errors == old(errors) + if IsSeof(c) && !Acceptable(old(State())) then 1 else 0
      ensures fifo.requests == old(fifo.requests) + if Opcode(c) == ADDR && !isTty then [ptyId] else []
      ensures fifo.served == old(fifo.served) + if Opcode(c) == ADDR && isTty then 1 else 0
      ensures Opcode(c) == ADDR && isTty && old(fifo.served) < |fifo.requests| <= old(fifo.served) + 8
              ==> addr == fifo.requests[old(fifo.served)]
    {
      hide Out, Part, Sum, Joined, Low, High, Acceptable;
      OpcodeKinds(c);
      addr, kind := 0, DataFrame;
      if IsData(c) {
        StoreOctet(c);
        len := 0;
      } else if Opcode(c) != SEOF {
        len := 1;
        kind := CommandFrame;
        addr := TakeCommand(c, fifo);
      } else {
        len, addr := EndOfFrame(c);
      }
    }

    /** Put the bits of a data octet where they belong. */
    method StoreOctet(c: bv8)
      requires Valid() && IsData(c) && Room(c)
      modifies this`optr, this`sixpCnt, this`octets, databuf
      ensures Valid() && octets == old(octets) + [c]
    {
      hide Out, Part, Joined, IsData, Low, High;
      PartOf(octets, c);
      JoinedIs(octets, c);
      HighLow(sixpCnt, c);
      match sixpCnt % 4 {
      case 0 =>
        Begin(c & 0x3f);
      case 1 =>
        Finish((c & 0x30) << 2);
        Begin(c & 0x0f);
      case 2 =>
        Finish((c & 0x3c) << 2);
        Begin(c & 0x03);
      case _ =>
        Finish((c & 0x3f) << 2);
      }
      sixpCnt := sixpCnt + 1;
      octets := octets + [c];
    }

    /** OR the missing bits into the byte begun, and step behind it. */
    method Finish(bits: bv8)
      requires databuf.Length == SIZE && optr < SIZE
      modifies this`optr, databuf
      ensures optr == old(optr) + 1 && databuf[..optr] == old(databuf[..optr]) + [old(databuf[optr]) | bits]
    {
      databuf[optr] := databuf[optr] | bits;
      optr := optr + 1;
    }

    method Begin(bits: bv8)
      requires databuf.Length == SIZE && optr < SIZE
      modifies databuf
      ensures databuf[optr] == bits && databuf[..optr] == old(databuf[..optr])
    {
      databuf[optr] := bits;
    }

    /** Commands other than SEOF touch neither the frame under way nor its buffer. */
    method TakeCommand(c: bv8, fifo: AddrFifo) returns (addr: bv8)
      requires fifo.Valid()
      modifies this`cmdbuf, this`rxpackets, this`rxbytes, fifo, fifo.slots
      ensures fifo.Valid()
      ensures Opcode(c) != ADDR ==> cmdbuf == Opcode(c) && addr == Addr(c)
      ensures Opcode(c) == ADDR ==> cmdbuf == (if isTty then ADDR | 1 else ADDR)
      ensures fifo.requests == old(fifo.requests) + if Opcode(c) == ADDR && !isTty then [ptyId] else []
      ensures fifo.served == old(fifo.served) + if Opcode(c) == ADDR && isTty then 1 else 0
      ensures Opcode(c) == ADDR && isTty && old(fifo.served) < |fifo.requests| <= old(fifo.served) + 8
              ==> addr == fifo.requests[old(fifo.served)]
    {
      if Opcode(c) == ADDR {
        if isTty {
          cmdbuf := Opcode(c) | 1;
          addr := fifo.Dequeue();
        } else {
          cmdbuf := Opcode(c) | 0;
          addr := 0;
          fifo.Enqueue(ptyId);
        }
      } else {
        cmdbuf := Opcode(c);
        addr := Addr(c);
      }
      rxpackets := rxpackets + 1;
      rxbytes := rxbytes + 1;
    }

    /** A SEOF: check what has been received and start afresh. After an error the address of
        the last good SEOF stays. */
    method EndOfFrame(c: bv8) returns (len: nat, addr: bv8)
      requires Valid()
      modifies this
      ensures Valid() && octets == []
      ensures seof == if Acceptable(old(State())) then c else old(seof)
      ensures errors == old(errors) + if Acceptable(old(State())) then 0 else 1
      ensures var d := Out(old(octets));
              if d == [] || !Acceptable(old(State())) then len == 0
              else addr == Addr(old(seof)) && len == |d| - 1 >= 2 && databuf[..len] == d[..|d| - 1]
    {
      hide Out, Part, Sum, Val, Addr;
      len, addr := optr, 0;
      assert len == |Out(octets)|;
      NothingPacked();
      if len > 0 {
        if len >= 3 {
          var checksum := SumOf(len);
          addr := Addr(seof);
          checksum := (checksum + Val(addr)) % 256;
          SumWraps(Sum(Out(octets)), Val(addr));
          if checksum == 255 {
            len := len - 1;
            rxpackets := rxpackets + 1;
            rxbytes := rxbytes + len;
            optr, seof, sixpCnt, octets := 0, c, 0, [];
            return;
          }
        }
        errors := errors + 1;
        optr, sixpCnt, octets := 0, 0, [];
        return 0, addr;
      }
      optr, seof, sixpCnt, octets := 0, c, 0, [];
    }

    method SumOf(len: nat) returns (checksum: nat)
      requires len <= databuf.Length
      ensures checksum == Sum(databuf[..len]) % 256
    {
      hide Sum, Val;
      checksum := 0;
      NoBytes();
      for i := 0 to len
        invariant checksum == Sum(databuf[..i]) % 256
      {
        assert databuf[..i + 1] == databuf[..i] + [databuf[i]];
        SumSnoc(databuf[..i], databuf[i]);
        SumWraps(Sum(databuf[..i]), Val(databuf[i]));
        checksum := (checksum + Val(databuf[i])) % 256;
      }
    }
  }

  lemma OpcodeKinds(c: bv8)
    ensures Opcode(c) == SEOF <==> IsSeof(c)
    ensures IsData(c) ==> Opcode(c) != ADDR && !IsSeof(c)
    ensures Opcode(c) == ADDR ==> !IsSeof(c)
  {
  }

  lemma JoinedIs(o: seq<bv8>, c: bv8)
    ensures Joined(o, c) == Part(o) | High(|o|, c)
  {
    hide Part, High;
  }

  lemma HighLow(n: nat, c: bv8)
    ensures n % 4 == 0 ==> Low(n, c) == c & 0x3f
    ensures n % 4 == 1 ==> High(n, c) == (c & 0x30) << 2 && Low(n, c) == c & 0x0f
    ensures n % 4 == 2 ==> High(n, c) == (c & 0x3c) << 2 && Low(n, c) == c & 0x03
    ensures n % 4 == 3 ==> High(n, c) == (c & 0x3f) << 2
  {
  }

  // ----- transmission

  /** What the encoder has written for the first bytes, with the bits begun behind it. */
  ghost predicate Written(obuf: array<bv8>, p: nat, s: seq<bv8>)
    reads obuf
  {
    && p == 1 + |Packed(s)| <= obuf.Length
    && obuf[1..p] == Packed(s)
    && (|s| % 3 != 0 ==> p < obuf.Length && obuf[p] == Left(s))
  }

  method SixpackTx(obuf: array<bv8>, addr: bv8, ibuf: array<bv8>, len: nat, kind: FrameType) returns (n: nat)
    requires obuf != ibuf && len <= ibuf.Length
    requires kind == DataFrame ==> |Frame(addr, ibuf[..len])| <= obuf.Length
    requires kind == CommandFrame ==> len >= 1 && obuf.Length >= 1
    modifies obuf
    ensures n <= obuf.Length
    ensures kind == DataFrame ==> obuf[..n] == Frame(addr, ibuf[..len])
    ensures kind == CommandFrame ==> obuf[..n] == [if ibuf[0] & 0xf8 == 0xe8 then ibuf[0] else (ibuf[0] & 0xf8) | addr]
  {
    hide Packed, Left, Sum, Val, CheckByte, Encode, Written;
    if kind == CommandFrame {
      obuf[0] := if Opcode(ibuf[0]) == ADDR then ibuf[0] else Opcode(ibuf[0]) | addr;
      return 1;
    }
    ghost var s, check := ibuf[..len], CheckByte(addr, ibuf[..len]);
    obuf[0] := SEOF | addr;
    var checksum;
    n, checksum := PutBytes(obuf, ibuf, len, check);
    SumWraps(Sum(s), Val(addr));
    CheckByteIs(addr, s);
    n := PutByte(obuf, n, CHKSUM - ((checksum + Val(addr)) % 256) as bv8, len, s);
    n := EndFrame(obuf, n, (len + 1) % 3 != 0, s + [check]);
  }

  method PutBytes(obuf: array<bv8>, ibuf: array<bv8>, len: nat, ghost check: bv8) returns (n: nat, checksum: nat)
    requires obuf != ibuf && len <= ibuf.Length && 1 + |Encode(ibuf[..len] + [check])| <= obuf.Length
    modifies obuf
    ensures Written(obuf, n, ibuf[..len]) && obuf[0] == old(obuf[0]) && checksum == Sum(ibuf[..len]) % 256
  {
    hide Packed, Left, Sum, Val, Encode, Written;
    n, checksum := 1, 0;
    NothingWritten(obuf);
    NoBytes();
    for count := 0 to len
      invariant Written(obuf, n, ibuf[..count]) && obuf[0] == old(obuf[0])
      invariant checksum == Sum(ibuf[..count]) % 256
    {
      ghost var s := ibuf[..len] + [check];
      assert ibuf[..count + 1] == ibuf[..count] + [ibuf[count]] == s[..count + 1];
      EncodeGrows(s, count + 1);
      n := PutByte(obuf, n, ibuf[count], count, ibuf[..count]);
      SumSnoc(ibuf[..count], ibuf[count]);
      SumWraps(Sum(ibuf[..count]), Val(ibuf[count]));
      checksum := (checksum + Val(ibuf[count])) % 256;
    }
  }

  lemma NothingWritten(obuf: array<bv8>)
    requires obuf.Length >= 1
    ensures Written(obuf, 1, [])
  {
  }

  /** The octet begun, if any, is complete, and the trailing SEOF follows. */
  method EndFrame(obuf: array<bv8>, p: nat, more: bool, ghost s: seq<bv8>) returns (n: nat)
    requires Written(obuf, p, s) && more == (|s| % 3 != 0) && |Encode(s)| + 2 <= obuf.Length
    modifies obuf
    ensures n <= obuf.Length && obuf[..n] == [old(obuf[0])] + Encode(s) + [SEOF]
  {
    hide Packed, Left, Encode;
    EncodeIs(s);
    n := p;
    ghost var lead := obuf[0];
    if more { n := n + 1; }
    assert obuf[..n] == [lead] + Encode(s);
    obuf[n] := SEOF;
    n := n + 1;
  }

  /** One byte of a frame: its bits complete the octet begun and begin the next one. */
  method PutByte(obuf: array<bv8>, p: nat, x: bv8, count: nat, ghost s: seq<bv8>) returns (q: nat)
    requires Written(obuf, p, s) && count == |s| && 1 + |Encode(s + [x])| <= obuf.Length
    modifies obuf
    ensures Written(obuf, q, s + [x]) && obuf[0] == old(obuf[0])
  {
    hide Packed, Left, Encode, First, Second, Third, Fourth;
    PackedStep(s, x);
    EncodeIs(s + [x]);
    LeftIs(s, x);
    match count % 3
    case 0 =>
      q := Emit(obuf, p, x & 0x3f);
      obuf[q] := (x & 0xc0) >> 2;
    case 1 =>
      q := Emit(obuf, p, obuf[p] | (x & 0x0f));
      obuf[q] := (x & 0xf0) >> 2;
    case _ =>
      q := Emit(obuf, p, obuf[p] | (x & 0x03));
      q := Emit(obuf, q, (x & 0xfc) >> 2);
  }

  method Emit(obuf: array<bv8>, p: nat, c: bv8) returns (q: nat)
    requires 1 <= p < obuf.Length
    modifies obuf
    ensures q == p + 1 && obuf[1..q] == old(obuf[1..p]) + [c] && obuf[0] == old(obuf[0])
  {
    obuf[p] := c;
    q := p + 1;
  }

  lemma EncodeIs(s: seq<bv8>)
    ensures Encode(s) == if |s| % 3 == 0 then Packed(s) else Packed(s) + [Left(s)]
  {
    hide Packed, Left;
  }

  lemma LeftIs(s: seq<bv8>, x: bv8)
    ensures |s| % 3 == 0 ==> Left(s + [x]) == (x & 0xc0) >> 2 && First(x) == x & 0x3f
    ensures |s| % 3 == 1 ==> Left(s + [x]) == (x & 0xf0) >> 2 && Second(Left(s), x) == Left(s) | (x & 0x0f)
    ensures |s| % 3 == 2 ==> Third(Left(s), x) == Left(s) | (x & 0x03) && Fourth(x) == (x & 0xfc) >> 2
  {
  }

  lemma {:induction false} PackedLength(s: seq<bv8>)
    ensures |Packed(s)| == 4 * |s| / 3
  {
    hide First, Second, Third, Fourth, Left;
    if s != [] {
      var n := |s| - 1;
      PackedLength(s[..n]);
      assert n == 3 * (n / 3) + n % 3;
    }
  }

  lemma EncodeGrows(s: seq<bv8>, k: nat)
    requires k <= |s|
    ensures |Encode(s[..k])| <= |Encode(s)|
  {
    hide Packed, Left;
    PackedLength(s);
    PackedLength(s[..k]);
  }
}
