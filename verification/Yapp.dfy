/**
 The YAPP file transfer of call: the uploader and the downloader as values that
 step on whole bytes, and the system of both connected by two FIFO byte channels.
 */
module Yapp {

  type Byte = x: int | 0 <= x < 256

  const SOH: Byte := 0x01
  const STX: Byte := 0x02
  const ETX: Byte := 0x03
  const EOT: Byte := 0x04
  const ENQ: Byte := 0x05
  const ACK: Byte := 0x06
  const NAK: Byte := 0x15
  const CAN: Byte := 0x18

  /** A reason text of Send_CN or Send_NR. */
  type Text = t: seq<Byte> | 1 <= |t| <= 255 witness [0]

  datatype Failure = PeerAbort | UnknownCode | BadChecksum | InvalidHeader | OpenFailed | Local
  datatype Status = Running | Finished | Aborted(why: Failure)
  datatype Stamp = NoStamp | Stamp(hex: seq<Byte>)

  /** What one transfer is about: the file, its name and size as sent in the header, the time
      stamp if stat succeeded, the read size, and the situation at the receiver. */
  datatype Job = Job(name: seq<Byte>, size: seq<Byte>, stamp: Stamp, file: seq<Byte>, readlen: nat,
                     existing: seq<Byte>, hasFile: bool, canOpen: bool, existingSize: seq<Byte>)
  {
    predicate Valid() {
      && name != [] && 0 !in name
      && 1 <= |size| <= 11 && 0 !in size
      && (stamp.Stamp? ==> |stamp.hex| == 8 && 0 !in stamp.hex)
      && 1 <= readlen <= 253
      && 1 <= |existingSize| <= 11
    }

    /** Whether the header announces YAPP C: it has a third field. */
    predicate Checked() {
      stamp.Stamp?
    }
  }

  // ----- messages

  function Cancel(reason: Text): seq<Byte> {
    [CAN, |reason|] + reason
  }

  function Nak(reason: Text): seq<Byte> {
    [NAK, |reason|] + reason
  }

  function Ack(code: Byte): seq<Byte> {
    [ACK, code]
  }

  function Sum(s: seq<Byte>): Byte {
    if s == [] then 0 else (Sum(s[..|s| - 1]) + s[|s| - 1]) % 256
  }

  /** Send_HD clamps the name so that the length of the header fits one byte. */
  function SentName(j: Job): (r: seq<Byte>)
    requires j.Valid()
    ensures 1 <= |r| <= |j.name|
  {
    var room := 255 - (|j.size| + 1) - (if j.stamp.Stamp? then 9 else 0);
    var nameLen := if |j.name| + 1 > room then room else |j.name| + 1;
    j.name[..nameLen - 1]
  }

  function HeaderFields(j: Job): (r: seq<Byte>)
    requires j.Valid()
    ensures 2 <= |r| <= 255
  {
    SentName(j) + [0] + j.size + [0] + (if j.stamp.Stamp? then j.stamp.hex + [0] else [])
  }

  function Header(j: Job): seq<Byte>
    requires j.Valid()
  {
    var f := HeaderFields(j);
    [SOH, |f|] + f
  }

  /** Send_RS: the resume request. */
  function Resume(j: Job): seq<Byte>
    requires j.Valid()
  {
    [NAK, |j.existingSize| + 5, 'R' as int, 0] + j.existingSize + [0, 'C' as int, 0]
  }

  const UNKNOWN_CODE: Text := [0x55, 0x6e, 0x6b, 0x6e, 0x6f, 0x77, 0x6e, 0x20, 0x63, 0x6f, 0x64, 0x65]
  const BAD_CHECKSUM: Text := [0x42, 0x61, 0x64, 0x20, 0x43, 0x68, 0x65, 0x63, 0x6b, 0x73, 0x75, 0x6d]
  const INVALID_HEADER: Text := [0x49, 0x6e, 0x76, 0x61, 0x6c, 0x69, 0x64, 0x20, 0x68, 0x65, 0x61, 0x64, 0x65, 0x72]
  const INVALID_FILENAME: Text := [0x49, 0x6e, 0x76, 0x61, 0x6c, 0x69, 0x64, 0x20, 0x66, 0x69, 0x6c, 0x65, 0x6e, 0x61, 0x6d, 0x65]

  /** Re-framing: the length of the message at the front of a receive buffer, or zero when it
      is not complete. STX messages carry extra bytes behind their data. */
  function Complete(buf: seq<Byte>, extra: nat): (k: nat)
    ensures k <= |buf|
  {
    if |buf| < 2 then 0
    else if buf[0] == ACK || buf[0] == ENQ || buf[0] == ETX || buf[0] == EOT then 2
    else
      var length: nat := if buf[1] == 0 then 256 else buf[1];
      var need := length + (if buf[0] == STX then extra else 0) + 2;
      if |buf| >= need then need else 0
  }

  // ----- the uploader

  datatype UpState = S | SH | SD | SE | ST

  /** out holds the unsent rest of outbuffer, tx the bytes written but not yet read by the peer. */
  datatype Up = Up(status: Status, state: UpState, total: int, yappc: bool,
                   unread: seq<Byte>, out: seq<Byte>, rbuf: seq<Byte>, tx: seq<Byte>)
  {
    function Send(s: seq<Byte>): Up {
      this.(tx := tx + s)
    }

    function Fail(why: Failure, message: seq<Byte>): Up {
      this.(status := Aborted(why), tx := tx + message)
    }
  }

  function UpInit(j: Job): Up {
    Up(Running, S, 0, false, j.file, [], [], [ENQ, 1])
  }

  /** How many bytes read() returns when it could return pick: at least one before the end. */
  function ReadCount(unread: seq<Byte>, readlen: nat, pick: nat): (n: nat)
    ensures n <= |unread| && (n == 0 <==> unread == [] || readlen == 0) && n <= readlen
  {
    var limit := if |unread| < readlen then |unread| else readlen;
    if limit == 0 then 0 else if pick == 0 then 1 else if pick > limit then limit else pick
  }

  /** Fill outbuffer from the file and announce the block; the checksum follows the data. */
  function FillBlock(u: Up, readlen: nat, pick: nat): Up
    requires readlen <= 253
  {
    var n := ReadCount(u.unread, readlen, pick);
    var data := u.unread[..n];
    var v := u.(unread := u.unread[n..], out := data + (if u.yappc then [Sum(data)] else []));
    if n > 0 then v.Send([STX, n]) else v
  }

  /** yapp_upload_data: one complete message. */
  function UpData(u: Up, j: Job, msg: seq<Byte>, pick: nat): Up
    requires j.Valid() && |msg| >= 2
  {
    if msg[0] == CAN || msg[0] == NAK then u.(status := Aborted(PeerAbort))
    else
      match u.state
      case S =>
        if msg[..2] == Ack(1) then u.Send(Header(j)).(state := SH)
        else if msg[..2] == Ack(2) then FillBlock(u, j.readlen, pick).(state := SD)
        else u.Fail(UnknownCode, Cancel(UNKNOWN_CODE))
      case SH =>
        if msg[..2] == Ack(2) || msg[..2] == Ack(ACK) then
          FillBlock(u.(yappc := u.yappc || msg[1] == ACK), j.readlen, pick).(state := SD)
        else u.Fail(UnknownCode, Cancel(UNKNOWN_CODE))
      case SD => u.Fail(UnknownCode, Cancel(UNKNOWN_CODE))
      case SE =>
        if msg[..2] == Ack(3) then u.Send([EOT, 1]).(state := ST)
        else u.Fail(UnknownCode, Cancel(UNKNOWN_CODE))
      case ST =>
        if msg[..2] == Ack(4) then u.(status := Finished)
        else u.Fail(UnknownCode, Cancel(UNKNOWN_CODE))
  }

  function UpStep(u: Up, j: Job, pick: nat): Up
    requires j.Valid() && Complete(u.rbuf, 0) > 0
  {
    var k := Complete(u.rbuf, 0);
    var v := UpData(u, j, u.rbuf[..k], pick);
    if v.status == Running then v.(rbuf := u.rbuf[k..]) else v
  }

  /** The do-while loop over the receive buffer. */
  function UpDrain(u: Up, j: Job, pick: nat): Up
    requires j.Valid()
    decreases |u.rbuf|
  {
    if u.status == Running && Complete(u.rbuf, 0) > 0 then
      var v := UpStep(u, j, pick);
      if v.status == Running then UpDrain(v, j, pick) else v
    else u
  }

  /** The writable branch of yapp_upload, with write() taking w bytes. */
  function UpWrite(u: Up, j: Job, w: nat, pick: nat): Up
    requires j.Valid() && w <= |u.out|
  {
    var v := u.(out := u.out[w..], total := u.total + w).Send(u.out[..w]);
    if v.out != [] then v
    else
      var t := v.(total := v.total - (if v.yappc then 1 else 0));
      if ReadCount(t.unread, j.readlen, pick) > 0 then FillBlock(t, j.readlen, pick)
      else t.(state := SE).Send([ETX, 1])
  }

  // ----- the downloader

  datatype DownState = R | RH | RD

  /** filename is the name given to open(), if the file was not open from the start. */
  datatype Down = Down(status: Status, state: DownState, total: int, yappc: bool, open: bool, filename: seq<Byte>,
                       disk: seq<Byte>, rbuf: seq<Byte>, tx: seq<Byte>)
  {
    function Send(s: seq<Byte>): Down {
      this.(tx := tx + s)
    }

    function Fail(why: Failure, message: seq<Byte>): Down {
      this.(status := Aborted(why), tx := tx + message)
    }

    function Extra(): nat {
      if yappc then 1 else 0
    }
  }

  function DownInit(j: Job): Down {
    Down(Running, R, 0, false, j.hasFile, [], j.existing, [], [])
  }

  /** The index of the first NUL, or the length when there is none: strnlen. */
  function Strnlen(s: seq<Byte>): (n: nat)
    ensures n <= |s| && 0 !in s[..n] && (n < |s| ==> s[n] == 0)
  {
    if s == [] || s[0] == 0 then 0
    else
      assert s == [s[0]] + s[1..];
      1 + Strnlen(s[1..])
  }

  function FirstField(s: seq<Byte>): seq<Byte> {
    s[..Strnlen(s)]
  }

  /** The number of NUL-terminated header fields, counted up to max. */
  function Fields(s: seq<Byte>, max: nat): (n: nat)
    ensures n <= max
  {
    var h := Strnlen(s);
    if max == 0 || h == |s| then 0 else 1 + Fields(s[h + 1..], max - 1)
  }

  /** What the receive loop hands over: headers and data come with their announced length. */
  predicate Framed(msg: seq<Byte>, extra: nat) {
    |msg| >= 2 &&
    (msg[0] == SOH || msg[0] == STX ==>
       |msg| == (if msg[1] == 0 then 256 else msg[1]) + 2 + (if msg[0] == STX then extra else 0))
  }

  /** yapp_download_data: one complete message. */
  function DownData(d: Down, j: Job, msg: seq<Byte>): Down
    requires j.Valid() && Framed(msg, d.Extra())
  {
    if msg[0] == CAN || msg[0] == NAK then d.(status := Aborted(PeerAbort))
    else
      match d.state
      case R =>
        if msg[..2] == [ENQ, 1] then d.Send(Ack(1)).(state := RH)
        else d.Fail(UnknownCode, Cancel(UNKNOWN_CODE))
      case RH =>
        if msg[0] == SOH then
          var n := Fields(msg[2..], 3);
          if n < 2 then d.Fail(InvalidHeader, Nak(INVALID_HEADER))
          else
            var e := d.(yappc := n == 3);
            if !e.open && !j.canOpen then e.Fail(OpenFailed, Nak(INVALID_FILENAME))
            else
              var o := e.(open := true, state := RD, filename := if e.open then e.filename else FirstField(msg[2..]));
              if !o.yappc then o.Send(Ack(2))
              else if o.disk != [] then o.Send(Resume(j))
              else o.Send(Ack(ACK))
        else if msg[..2] == [ENQ, 1] then d
        else if msg[..2] == [EOT, 1] then d.Send(Ack(4)).(status := Finished)
        else d.Fail(UnknownCode, Cancel(UNKNOWN_CODE))
      case RD =>
        if msg[0] == STX then
          var length: nat := if msg[1] == 0 then 256 else msg[1];
          var data := msg[2..length + 2];
          var e := d.(total := d.total + length);
          if e.yappc && Sum(data) != msg[length + 2] then e.Fail(BadChecksum, Cancel(BAD_CHECKSUM))
          else e.(disk := e.disk + data)
        else if msg[..2] == [ETX, 1] then d.Send(Ack(3)).(state := RH, open := false)
        else d.Fail(UnknownCode, Cancel(UNKNOWN_CODE))
  }

  function DownStep(d: Down, j: Job): Down
    requires j.Valid() && Complete(d.rbuf, d.Extra()) > 0
  {
    var k := Complete(d.rbuf, d.Extra());
    var e := DownData(d, j, d.rbuf[..k]);
    if e.status == Running then e.(rbuf := d.rbuf[k..]) else e
  }

  function DownDrain(d: Down, j: Job): Down
    requires j.Valid()
    decreases |d.rbuf|
  {
    if d.status == Running && Complete(d.rbuf, d.Extra()) > 0 then
      var e := DownStep(d, j);
      if e.status == Running then DownDrain(e, j) else e
    else d
  }

  // ----- the system

  datatype Sys = Sys(up: Up, down: Down)

  /** UpWritable and the two Readable events are what select reports; the Quit events are
      a timeout, a cancelling user or a select error, each announced by Send_CN. */
  datatype Event =
    | UpWritable(w: nat, pick: nat)
    | UpReadable(k: nat, pick: nat)
    | DownReadable(k: nat)
    | UpQuit(reason: Text)
    | DownQuit(reason: Text)

  function Init(j: Job): Sys {
    Sys(UpInit(j), DownInit(j))
  }

  /** An uploader cancelled while a block is half sent is the subject of YappCut. */
  predicate Enabled(s: Sys, e: Event) {
    match e
    case UpWritable(w, _) => s.up.status == Running && s.up.state == SD && w <= |s.up.out|
    case UpReadable(k, _) => s.up.status == Running && 1 <= k <= 511 && k <= |s.down.tx|
    case DownReadable(k) => s.down.status == Running && 1 <= k <= 511 && k <= |s.up.tx|
    case UpQuit(_) => s.up.status == Running && s.up.out == []
    case DownQuit(_) => s.down.status == Running
  }

  function Next(s: Sys, j: Job, e: Event): Sys
    requires j.Valid() && Enabled(s, e)
  {
    match e
    case UpWritable(w, pick) => s.(up := UpWrite(s.up, j, w, pick))
    case UpReadable(k, pick) =>
      Sys(UpDrain(s.up.(rbuf := s.up.rbuf + s.down.tx[..k]), j, pick), s.down.(tx := s.down.tx[k..]))
    case DownReadable(k) =>
      Sys(s.up.(tx := s.up.tx[k..]), DownDrain(s.down.(rbuf := s.down.rbuf + s.up.tx[..k]), j))
    case UpQuit(reason) => s.(up := s.up.Fail(Local, Cancel(reason)))
    case DownQuit(reason) => s.(down := s.down.Fail(Local, Cancel(reason)))
  }

  /** The state after a run; events that are not enabled are skipped. */
  function Run(j: Job, events: seq<Event>): Sys
    requires j.Valid()
  {
    if events == [] then Init(j)
    else
      var s := Run(j, events[..|events| - 1]);
      var e := events[|events| - 1];
      if Enabled(s, e) then Next(s, j, e) else s
  }

  predicate IsQuit(e: Event) {
    e.UpQuit? || e.DownQuit?
  }

  predicate NobodyQuits(events: seq<Event>) {
    forall i | 0 <= i < |events| :: !IsQuit(events[i])
  }

  /** An event that does something; write() takes at least a byte when select says it can. */
  predicate Effective(s: Sys, e: Event) {
    Enabled(s, e) && (e.UpWritable? ==> e.w >= 1 || s.up.out == [])
  }

  /** Every event of the run does something when its turn comes. */
  predicate AllEffective(j: Job, events: seq<Event>)
    requires j.Valid()
  {
    forall i | 0 <= i < |events| :: Effective(Run(j, events[..i]), events[i])
  }
}
