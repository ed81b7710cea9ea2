/**
 The uploader and downloader of call as they run: static variables, a receive buffer of
 1024 bytes shifted in place, an output buffer of 512 bytes. Each step is proved to be
 the step of the value model in Yapp.dfy.
 */
module YappProcess {
  import opened Yapp

  const BUFFER := 1024
  const READ := 511

  /** What stays in a receive buffer after the loop has consumed every complete message
      leaves room for another read. */
  lemma DrainedIsShort(buf: seq<Byte>, extra: nat)
    requires Complete(buf, extra) == 0 && extra <= 1
    ensures |buf| <= 258 && |buf| + READ <= BUFFER
  {
  }

  lemma FieldsUnfold(s: seq<Byte>, max: nat)
    requires max > 0
    ensures var h := Strnlen(s);
            h <= |s| && Fields(s, max) == if h == |s| then 0 else 1 + Fields(s[h + 1..], max - 1)
  {
  }

  lemma FieldsEnd(s: seq<Byte>, max: nat)
    ensures s == [] || max == 0 || Strnlen(s) == |s| ==> Fields(s, max) == 0
  {
  }

  lemma CompleteIsLong(buf: seq<Byte>, extra: nat)
    ensures Complete(buf, extra) > 0 ==> Complete(buf, extra) >= 2
  {
  }

  class Receiver {
    const buffer: array<Byte>
    var buflen: nat

    constructor ()
      ensures fresh(buffer) && buffer.Length == BUFFER && buflen == 0
    {
      buffer := new Byte[BUFFER];
      buflen := 0;
    }

    ghost predicate Valid()
      reads this
    {
      buffer.Length == BUFFER && buflen <= BUFFER
    }

    ghost function Contents(): (s: seq<Byte>)
      reads this, buffer
      requires Valid()
    {
      buffer[..buflen]
    }

    /** read(fd, buffer + buflen, 511) */
    method Append(chunk: seq<Byte>)
      requires Valid() && buflen + |chunk| <= BUFFER
      modifies this`buflen, buffer
      ensures Valid() && Contents() == old(Contents()) + chunk
    {
      for i := 0 to |chunk|
        invariant buflen == old(buflen)
        invariant buffer[..buflen] == old(Contents()) && buffer[buflen..buflen + i] == chunk[..i]
      {
        buffer[buflen + i] := chunk[i];
      }
      buflen := buflen + |chunk|;
      assert chunk[..|chunk|] == chunk;
    }

    /** Move what follows the first n bytes to the front. */
    method Shift(n: nat)
      requires Valid() && n <= buflen
      modifies this`buflen, buffer
      ensures Valid() && Contents() == old(Contents())[n..]
    {
      for i := 0 to buflen - n
        invariant buflen == old(buflen) && buffer[..i] == old(buffer[n..n + i])
        invariant forall k | i <= k < buflen :: buffer[k] == old(buffer[k])
      {
        buffer[i] := buffer[i + n];
      }
      buflen := buflen - n;
    }

    /** The length of the message at the front, or zero: the switch of the receive loops. */
    method Message(extra: nat) returns (k: nat)
      requires Valid()
      ensures k == Complete(Contents(), extra)
    {
      k := 0;
      var first := buffer[0];
      if first == ACK || first == ENQ || first == ETX || first == EOT {
        if buflen >= 2 { k := 2; }
      } else {
        var length: nat := buffer[1];
        if length == 0 { length := 256; }
        if first == STX { length := length + extra; }
        if buflen >= length + 2 { k := length + 2; }
      }
    }
  }

  class Downloader {
    const job: Job
    const input: Receiver
    var status: Status
    var state: DownState
    var total: int
    var yappc: bool
    var open: bool
    var filename: seq<Byte>
    var disk: seq<Byte>
    var tx: seq<Byte>

    constructor (j: Job)
      requires j.Valid()
      ensures Valid() && Idle() && View() == DownInit(j) && job == j && fresh(input) && fresh(input.buffer)
    {
      job, status, state, total, yappc := j, Running, R, 0, false;
      open, filename, disk, tx := j.hasFile, [], j.existing, [];
      input := new Receiver();
    }

    ghost predicate Valid()
      reads this, input
    {
      job.Valid() && input.Valid()
    }

    ghost function View(): Down
      reads this, input, input.buffer
      requires Valid()
    {
      Down(status, state, total, yappc, open, filename, disk, input.Contents(), tx)
    }

    /** Between reads no complete message is waiting, so the next read fits the buffer. */
    ghost predicate Idle()
      reads this, input, input.buffer
      requires Valid()
    {
      status == Running ==> Complete(input.Contents(), View().Extra()) == 0 && input.buflen + READ <= BUFFER
    }

    method Write(s: seq<Byte>)
      modifies this`tx
      ensures tx == old(tx) + s
    {
      tx := tx + s;
    }

    method SendCn(why: Failure, reason: Text)
      modifies this`tx, this`status
      ensures tx == old(tx) + Cancel(reason) && status == Aborted(why)
    {
      Write([CAN, |reason|] + reason);
      status := Aborted(why);
    }

    /** Count the header fields of a payload that starts at byte 2 of the buffer. */
    method ParseHeader(payload: nat) returns (nfield: nat)
      requires Valid() && 2 + payload <= input.buflen
      ensures nfield == Fields(input.Contents()[2..2 + payload], 3)
    {
      hide Fields, Strnlen;
      var length, at := payload, 2;
      ghost var s := input.Contents()[2..2 + payload];
      ghost var rest := s;
      nfield := 0;
      SliceIs(2, payload);
      while length > 0 && nfield < 3
        invariant 2 <= at && 0 <= length && at + length == 2 + payload && nfield <= 3
        invariant rest == input.buffer[at..at + length]
        invariant nfield + Fields(rest, 3 - nfield) == Fields(s, 3)
        decreases length
      {
        var hlen := Nul(at, length);
        FieldsUnfold(rest, 3 - nfield);
        if hlen == length { break; }
        hlen := hlen + 1;
        assert rest[hlen..] == input.buffer[at + hlen..at + length];
        rest := rest[hlen..];
        nfield := nfield + 1;
        at := at + hlen;
        length := length - hlen;
      }
      FieldsEnd(rest, 3 - nfield);
    }

    lemma SliceIs(at: nat, n: nat)
      requires Valid() && at + n <= input.buflen
      ensures input.Contents()[at..at + n] == input.buffer[at..at + n]
    {
    }

    lemma PrefixIs(msg: seq<Byte>, at: nat, n: nat)
      requires Valid() && msg <= input.Contents() && at + n <= |msg|
      ensures input.Contents()[at..at + n] == msg[at..at + n] == input.buffer[at..at + n]
    {
    }

    /** strnlen */
    method Nul(at: nat, length: nat) returns (n: nat)
      requires Valid() && at + length <= input.buflen
      ensures n == Strnlen(input.buffer[at..at + length])
    {
      n := 0;
      ghost var s := input.buffer[at..at + length];
      while n < length && input.buffer[at + n] != 0
        invariant n <= length && n + Strnlen(s[n..]) == Strnlen(s)
      {
        assert s[n] == input.buffer[at + n] && s[n..][1..] == s[n + 1..];
        n := n + 1;
      }
      assert n < length ==> s[n..][0] == 0;
    }

    method Checksum(length: nat) returns (sum: Byte)
      requires Valid() && 2 + length <= input.buflen
      ensures sum == Sum(input.Contents()[2..2 + length])
    {
      sum := 0;
      for i := 0 to length
        invariant sum == Sum(input.Contents()[2..2 + i])
      {
        assert input.Contents()[2..2 + i + 1][..i] == input.Contents()[2..2 + i];
        sum := (sum + input.buffer[2 + i]) % 256;
      }
    }

    /** yapp_download_data on the message of k bytes at the front of the buffer. */
    method Data(ghost k: nat)
      requires Valid() && status == Running
      requires k == Complete(input.Contents(), View().Extra()) && k > 0
      modifies this
      ensures Valid() && View() == DownData(old(View()), job, old(input.Contents()[..k]))
    {
      ghost var msg := input.Contents()[..k];
      var b0, b1 := input.buffer[0], input.buffer[1];
      assert b0 == msg[0] && b1 == msg[1] && (msg[..2] == [b0, b1]);
      if b0 == CAN || b0 == NAK {
        status := Aborted(PeerAbort);
        return;
      }
      match state {
        case R =>
          if b0 == ENQ && b1 == 1 {
            Write([ACK, 1]);
            state := RH;
          } else {
            SendCn(UnknownCode, UNKNOWN_CODE);
          }
        case RH =>
          if b0 == SOH {
            HeaderData(msg);
          } else if b0 == ENQ && b1 == 1 {
          } else if b0 == EOT && b1 == 1 {
            Write([ACK, 4]);
            status := Finished;
          } else {
            SendCn(UnknownCode, UNKNOWN_CODE);
          }
        case RD =>
          if b0 == STX {
            BlockData(msg);
          } else if b0 == ETX && b1 == 1 {
            Write([ACK, 3]);
            state := RH;
            open := false;
          } else {
            SendCn(UnknownCode, UNKNOWN_CODE);
          }
      }
    }

    /** The first field of a header: what open() gets. */
    method FirstName(payload: nat) returns (name: seq<Byte>)
      requires Valid() && 2 + payload <= input.buflen
      ensures name == FirstField(input.Contents()[2..2 + payload])
    {
      hide Strnlen;
      SliceIs(2, payload);
      var n := Nul(2, payload);
      name := input.buffer[2..2 + n];
    }

    method HeaderData(ghost msg: seq<Byte>)
      requires Valid() && status == Running && state == RH
      requires Framed(msg, View().Extra()) && msg[0] == SOH && msg <= input.Contents()
      modifies this
      ensures Valid() && View() == DownData(old(View()), job, msg)
    {
      hide Fields, Resume, FirstField;
      var length: nat := input.buffer[1];
      if length == 0 { length := 256; }
      assert input.Contents()[2..2 + length] == msg[2..];
      var nfield := ParseHeader(length);
      if nfield < 2 {
        Write([NAK, |INVALID_HEADER|] + INVALID_HEADER);
        status := Aborted(InvalidHeader);
        return;
      }
      yappc := nfield >= 3;
      if !open {
        if !job.canOpen {
          Write([NAK, |INVALID_FILENAME|] + INVALID_FILENAME);
          status := Aborted(OpenFailed);
          return;
        }
        open := true;
        filename := FirstName(length);
      }
      if yappc {
        if disk != [] {
          Write(Resume(job));
        } else {
          Write([ACK, ACK]);
        }
      } else {
        Write([ACK, 2]);
      }
      state := RD;
    }

    method BlockData(ghost msg: seq<Byte>)
      requires Valid() && status == Running && state == RD
      requires Framed(msg, View().Extra()) && msg[0] == STX && msg <= input.Contents()
      modifies this
      ensures Valid() && View() == DownData(old(View()), job, msg)
    {
      hide Sum, Cancel;
      var length: nat := input.buffer[1];
      if length == 0 { length := 256; }
      PrefixIs(msg, 2, length);
      total := total + length;
      if yappc {
        var sum := Checksum(length);
        if sum != input.buffer[length + 2] {
          SendCn(BadChecksum, BAD_CHECKSUM);
          return;
        }
      }
      disk := disk + input.buffer[2..2 + length];
    }

    /** The readable branch of yapp_download. */
    method Readable(chunk: seq<Byte>)
      requires Valid() && Idle() && status == Running && |chunk| <= READ
      modifies this, input, input.buffer
      ensures Valid() && Idle()
      ensures View() == DownDrain(old(View()).(rbuf := old(input.Contents()) + chunk), job)
    {
      input.Append(chunk);
      ghost var goal := DownDrain(View(), job);
      var used := true;
      while used
        invariant Valid() && status == Running
        invariant DownDrain(View(), job) == goal
        invariant !used ==> Complete(input.Contents(), View().Extra()) == 0
        decreases input.buflen, used
      {
        used := false;
        var k := input.Message(if yappc then 1 else 0);
        if k > 0 {
          Data(k);
          if status != Running { return; }
          input.Shift(k);
          used := true;
        }
      }
      DrainedIsShort(input.Contents(), View().Extra());
    }

    /** A timeout, a cancelling user or a failing select. */
    method Quit(reason: Text)
      requires Valid() && status == Running
      modifies this
      ensures Valid() && View() == old(View()).Fail(Local, Cancel(reason))
    {
      SendCn(Local, reason);
    }
  }

  class Uploader {
    const job: Job
    const input: Receiver
    const outbuffer: array<Byte>
    var outlen: nat
    var outbufptr: nat
    var status: Status
    var state: UpState
    var total: int
    var yappc: bool
    var unread: seq<Byte>
    var tx: seq<Byte>

    constructor (j: Job)
      requires j.Valid()
      ensures Valid() && Idle() && View() == UpInit(j) && job == j
      ensures fresh(input) && fresh(input.buffer) && fresh(outbuffer)
    {
      job, status, state, total, yappc := j, Running, S, 0, false;
      unread, tx := j.file, [ENQ, 1];
      outbuffer := new Byte[512];
      outlen, outbufptr := 0, 0;
      input := new Receiver();
    }

    ghost predicate Valid()
      reads this, input
    {
      job.Valid() && input.Valid() && input.buffer != outbuffer && outbuffer.Length == 512 && outbufptr + outlen <= 512
    }

    ghost function View(): Up
      reads this, input, input.buffer, outbuffer
      requires Valid()
    {
      Up(status, state, total, yappc, unread, outbuffer[outbufptr..outbufptr + outlen], input.Contents(), tx)
    }

    ghost predicate Idle()
      reads this, input, input.buffer
      requires Valid()
    {
      status == Running ==> Complete(input.Contents(), 0) == 0 && input.buflen + READ <= BUFFER
    }

    method Write(s: seq<Byte>)
      modifies this`tx
      ensures tx == old(tx) + s
    {
      tx := tx + s;
    }

    method UnknownMessage()
      modifies this`tx, this`status
      ensures tx == old(tx) + Cancel(UNKNOWN_CODE) && status == Aborted(UnknownCode)
    {
      Write([CAN, |UNKNOWN_CODE|] + UNKNOWN_CODE);
      status := Aborted(UnknownCode);
    }

    method Checksum() returns (sum: Byte)
      requires Valid() && outbufptr == 0
      ensures sum == Sum(outbuffer[..outlen])
    {
      sum := 0;
      for i := 0 to outlen
        invariant sum == Sum(outbuffer[..i])
      {
        assert outbuffer[..i + 1][..i] == outbuffer[..i];
        sum := (sum + outbuffer[i]) % 256;
      }
    }

    /** read(filefd, outbuffer, readlen) */
    method ReadBlock(pick: nat)
      requires Valid()
      modifies this`outlen, this`outbufptr, this`unread, outbuffer
      ensures Valid() && outbufptr == 0 && outlen == ReadCount(old(unread), job.readlen, pick) && outlen <= 253
      ensures outbuffer[..outlen] == old(unread)[..outlen] && unread == old(unread)[outlen..]
      ensures input.Contents() == old(input.Contents())
    {
      outlen := ReadCount(unread, job.readlen, pick);
      outbufptr := 0;
      forall i | 0 <= i < outlen {
        outbuffer[i] := unread[i];
      }
      unread := unread[outlen..];
    }

    /** The next block, announced by Send_DT. */
    method ReadFile(pick: nat)
      requires Valid() && status == Running
      modifies this`outlen, this`outbufptr, this`unread, this`tx, outbuffer
      ensures Valid() && View() == FillBlock(old(View()).(yappc := false), job.readlen, pick).(yappc := yappc)
      ensures outbufptr == 0 && outlen <= 253
    {
      hide Sum, ReadCount;
      ReadBlock(pick);
      assert outbuffer[0..outlen] == old(unread)[..outlen] == old(unread)[..outlen] + [];
      if outlen > 0 {
        Write([STX, outlen]);
      }
    }

    method AppendChecksum()
      requires Valid() && status == Running && outbufptr == 0 && outlen <= 253
      modifies this`outlen, outbuffer
      ensures Valid() && View() == old(View()).(out := old(View()).out + [Sum(old(View()).out)])
    {
      ghost var data := outbuffer[..outlen];
      var sum := Checksum();
      outbuffer[outlen] := sum;
      outlen := outlen + 1;
      assert outbuffer[0..outlen] == data + [Sum(data)];
    }

    /** The next block with its checksum. */
    method Fill(pick: nat)
      requires Valid() && status == Running
      modifies this`outlen, this`outbufptr, this`unread, this`tx, outbuffer
      ensures Valid() && View() == FillBlock(old(View()), job.readlen, pick)
    {
      hide Sum;
      ghost var u := View();
      ReadFile(pick);
      assert View().out == u.unread[..ReadCount(u.unread, job.readlen, pick)];
      if yappc {
        AppendChecksum();
      }
    }

    /** yapp_upload_data on the message at the front of the buffer. */
    method Data(ghost msg: seq<Byte>, pick: nat)
      requires Valid() && status == Running
      requires |msg| >= 2 && msg <= input.Contents()
      modifies this, outbuffer
      ensures Valid() && View() == UpData(old(View()), job, msg, pick)
    {
      hide FillBlock, Header, Cancel;
      var b0, b1 := input.buffer[0], input.buffer[1];
      assert b0 == msg[0] && b1 == msg[1] && msg[..2] == [b0, b1];
      if b0 == CAN || b0 == NAK {
        status := Aborted(PeerAbort);
      } else if state == S || state == SH {
        Begin(b0, b1, msg, pick);
      } else {
        Finish(b0, b1, msg, pick);
      }
    }

    /** The answers to the request and to the header. */
    method Begin(b0: Byte, b1: Byte, ghost msg: seq<Byte>, pick: nat)
      requires Valid() && status == Running && (state == S || state == SH)
      requires |msg| >= 2 && msg[..2] == [b0, b1] && b0 == msg[0] && b1 == msg[1] && b0 != CAN && b0 != NAK
      modifies this, outbuffer
      ensures Valid() && View() == UpData(old(View()), job, msg, pick)
    {
      hide FillBlock, Header, Cancel;
      ghost var u := View();
      if state == S && b0 == ACK && b1 == 1 {
        Write(Header(job));
        state := SH;
      } else if b0 == ACK && (b1 == 2 || (state == SH && b1 == ACK)) {
        if b1 == ACK { yappc := true; }
        assert View() == u.(yappc := yappc);
        Fill(pick);
        state := SD;
      } else {
        UnknownMessage();
      }
    }

    /** The answers to the end of file and to the end of the transfer. */
    method Finish(b0: Byte, b1: Byte, ghost msg: seq<Byte>, ghost pick: nat)
      requires Valid() && status == Running && state != S && state != SH
      requires |msg| >= 2 && msg[..2] == [b0, b1] && b0 == msg[0] && b1 == msg[1] && b0 != CAN && b0 != NAK
      modifies this
      ensures Valid() && View() == UpData(old(View()), job, msg, pick)
    {
      hide FillBlock, Header, Cancel;
      if state == SE && b0 == ACK && b1 == 3 {
        Write([EOT, 1]);
        state := ST;
      } else if state == ST && b0 == ACK && b1 == 4 {
        status := Finished;
      } else {
        UnknownMessage();
      }
    }

    /** The readable branch of yapp_upload. */
    method Readable(chunk: seq<Byte>, pick: nat)
      requires Valid() && Idle() && status == Running && |chunk| <= READ
      modifies this, input, input.buffer, outbuffer
      ensures Valid() && Idle()
      ensures View() == UpDrain(old(View()).(rbuf := old(input.Contents()) + chunk), job, pick)
    {
      hide UpStep, Complete;
      input.Append(chunk);
      ghost var goal := UpDrain(View(), job, pick);
      var used := true;
      while used
        invariant Valid() && status == Running
        invariant UpDrain(View(), job, pick) == goal
        invariant !used ==> Complete(input.Contents(), 0) == 0
        decreases input.buflen, used
      {
        used := Message(pick);
        if status != Running { return; }
      }
      DrainedIsShort(input.Contents(), 0);
    }

    /** One turn of the receive loop. */
    method Message(pick: nat) returns (used: bool)
      requires Valid() && status == Running
      modifies this, input, input.buffer, outbuffer
      ensures Valid() && used == (Complete(old(input.Contents()), 0) > 0)
      ensures View() == if used then UpStep(old(View()), job, pick) else old(View())
      ensures used && status == Running ==> input.buflen < old(input.buflen)
    {
      hide UpData, Complete;
      used := false;
      var k := input.Message(0);
      if k > 0 {
        CompleteIsLong(input.Contents(), 0);
        Data(input.Contents()[..k], pick);
        if status == Running { input.Shift(k); }
        used := true;
      }
    }

    /** write(fd, outbuffer + outbufptr, outlen), taking w bytes. */
    method WriteOut(w: nat)
      requires Valid() && w <= outlen
      modifies this`outlen, this`outbufptr, this`total, this`tx
      ensures Valid()
      ensures var u := old(View()); View() == u.(out := u.out[w..], total := u.total + w, tx := u.tx + u.out[..w])
    {
      Write(outbuffer[outbufptr..outbufptr + w]);
      outbufptr := outbufptr + w;
      outlen := outlen - w;
      total := total + w;
    }

    /** The writable branch of yapp_upload. */
    method Writable(w: nat, pick: nat)
      requires Valid() && status == Running && state == SD && w <= outlen
      modifies this, outbuffer
      ensures Valid() && View() == UpWrite(old(View()), job, w, pick)
    {
      hide FillBlock;
      ghost var u := View();
      if outlen > 0 {
        WriteOut(w);
      } else {
        assert u.out[w..] == u.out && u.tx + u.out[..w] == u.tx;
      }
      if outlen == 0 {
        BlockDone(pick);
      }
    }

    method BlockDone(pick: nat)
      requires Valid() && status == Running && outlen == 0
      modifies this, outbuffer
      ensures Valid()
      ensures var u := old(View());
              var t := u.(total := u.total - (if u.yappc then 1 else 0));
              View() == if ReadCount(t.unread, job.readlen, pick) > 0 then FillBlock(t, job.readlen, pick)
                        else t.(state := SE).Send([ETX, 1])
    {
      hide FillBlock;
      total := total - (if yappc then 1 else 0);
      if ReadCount(unread, job.readlen, pick) > 0 {
        Fill(pick);
      } else {
        state := SE;
        Write([ETX, 1]);
      }
    }

    /** A timeout, a cancelling user or a failing select. */
    method Quit(reason: Text)
      requires Valid() && status == Running
      modifies this
      ensures Valid() && View() == old(View()).Fail(Local, Cancel(reason))
    {
      Write([CAN, |reason|] + reason);
      status := Aborted(Local);
    }
  }
}
