/**
 Safety of YAPP transfers: what holds after every run of an uploader and a downloader,
 and exactly which transfers it holds for.
 */
module YappSafety {
  import opened Yapp

  // ----- streams of messages

  function Cat(ms: seq<seq<Byte>>): seq<Byte> {
    if ms == [] then [] else ms[0] + Cat(ms[1..])
  }

  /** A message is complete in itself, whatever follows it. */
  predicate IsMessage(m: seq<Byte>, extra: nat) {
    |m| >= 2 && Complete(m, extra) == |m|
  }

  predicate Messages(ms: seq<seq<Byte>>, extra: nat) {
    forall i | 0 <= i < |ms| :: IsMessage(ms[i], extra)
  }

  lemma {:induction false} CatAppend(ms: seq<seq<Byte>>, m: seq<Byte>)
    ensures Cat(ms + [m]) == Cat(ms) + m
  {
    if ms == [] {
      assert ([] + [m])[1..] == [];
    } else {
      assert (ms + [m])[1..] == ms[1..] + [m];
      CatAppend(ms[1..], m);
    }
  }

  /** Re-framing finds the message boundaries, however the stream is cut into reads. */
  lemma FrontMessage(rbuf: seq<Byte>, rest: seq<Byte>, ms: seq<seq<Byte>>, extra: nat)
    requires rbuf + rest == Cat(ms) && Messages(ms, extra)
    requires Complete(rbuf, extra) > 0
    ensures ms != [] && Complete(rbuf, extra) == |ms[0]|
    ensures rbuf[..|ms[0]|] == ms[0] && rbuf[|ms[0]|..] + rest == Cat(ms[1..])
  {
    assert |rbuf| >= 2;
    assert ms != [];
    var m := ms[0];
    assert IsMessage(m, extra);
    var all := rbuf + rest;
    assert all == m + Cat(ms[1..]);
    assert all[0] == rbuf[0] == m[0] && all[1] == rbuf[1] == m[1];
    assert all[..|m|] == m && all[|m|..] == Cat(ms[1..]);
    assert rbuf[..|m|] == all[..|m|];
    assert rbuf[|m|..] + rest == all[|m|..];
  }

  // ----- the data in flight

  function Block(j: Job, data: seq<Byte>): seq<Byte>
    requires 1 <= |data| <= 253
  {
    [STX, |data|] + data + (if j.Checked() then [Sum(data)] else [])
  }

  predicate Readable(ds: seq<seq<Byte>>) {
    forall i | 0 <= i < |ds| :: 1 <= |ds[i]| <= 253
  }

  function Blocks(j: Job, ds: seq<seq<Byte>>): (r: seq<seq<Byte>>)
    requires Readable(ds)
    ensures |r| == |ds| && forall i | 0 <= i < |r| :: r[i] == Block(j, ds[i])
  {
    seq(|ds|, i requires 0 <= i < |ds| => Block(j, ds[i]))
  }

  // ----- the invariant

  /** In YAPP C mode the transfer of an empty file into a new or empty file is broken. */
  predicate Fits(j: Job) {
    j.Checked() && (j.hasFile || j.canOpen) && j.existing == [] ==> j.file != []
  }

  function Whole(j: Job): seq<Byte> {
    j.existing + j.file
  }

  /** The answer to the header of a receiver that could open its file. */
  function Reply(j: Job): seq<Byte>
    requires j.Valid()
  {
    if !j.Checked() then Ack(2) else if j.existing != [] then Resume(j) else Ack(ACK)
  }

  predicate Refusal(m: seq<Byte>) {
    IsMessage(m, 0) && (m[0] == NAK || m[0] == CAN)
  }

  ghost predicate UpOwn(j: Job, u: Up) {
    match u.state
    case S => u.unread == j.file && u.out == [] && u.total == 0 && !u.yappc
    case SH => u.unread == j.file && u.out == [] && u.total == 0 && !u.yappc
    case SD =>
      && u.yappc == j.Checked() && (j.Checked() ==> u.out != [])
      && |u.unread| <= |j.file| && u.unread == j.file[|j.file| - |u.unread|..]
      && u.total == |j.file| - |u.unread| - |u.out| + (if u.yappc then 1 else 0)
    case _ => u.unread == [] && u.out == [] && u.total == |j.file| && u.yappc == j.Checked()
  }

  /** A block is announced as it is read, so what is left to send is the rest of the last block. */
  ghost predicate OutIsTail(j: Job, u: Up, ds: seq<seq<Byte>>) {
    u.status == Running && u.state == SD && u.out != [] ==>
      ds != [] && |u.out| <= |ds[|ds| - 1]| + (if j.Checked() then 1 else 0)
  }

  ghost predicate DownOwn(j: Job, d: Down) {
    && j.existing <= d.disk <= Whole(j)
    && d.total == |d.disk| - |j.existing|
  }

  /** The file that receives is the one the sender named, unless it was open from the start. */
  ghost predicate Named(j: Job, d: Down)
    requires j.Valid()
  {
    && (d.filename == [] || d.filename == SentName(j))
    && (d.state == RD && !j.hasFile ==> d.filename == SentName(j))
  }

  /** Where the two state machines can be together, and what travels to the downloader then. */
  ghost predicate DownPhase(j: Job, st: UpState, unread: seq<Byte>, d: Down, ds: seq<seq<Byte>>, core: seq<seq<Byte>>)
    requires j.Valid()
  {
    && Readable(ds)
    && match (st, d.state)
       case (S, R) => core == [[ENQ, 1]] && Waiting(j, d)
       case (S, RH) => core == [] && Waiting(j, d)
       case (SH, RH) => core == [Header(j)] && Waiting(j, d)
       case (SH, RD) => core == [] && d.disk == j.existing && Receiving(j, d)
       case (SD, RD) => core == Blocks(j, ds) && d.disk + Cat(ds) + unread == Whole(j) && Receiving(j, d)
       case (SE, RD) => core == Blocks(j, ds) + [[ETX, 1]] && d.disk + Cat(ds) == Whole(j) && Receiving(j, d)
       case (SE, RH) => core == [] && d.disk == Whole(j)
       case (ST, RH) => core == [[EOT, 1]] && d.disk == Whole(j)
       case _ => false
  }

  ghost predicate Waiting(j: Job, d: Down) {
    d.disk == j.existing && !d.yappc && d.open == j.hasFile
  }

  ghost predicate Receiving(j: Job, d: Down) {
    d.yappc == j.Checked() && (j.hasFile || j.canOpen)
  }

  /** What travels to the uploader while both are running. */
  ghost predicate UpPhase(j: Job, st: UpState, dst: DownState, toUp: seq<seq<Byte>>)
    requires j.Valid()
  {
    match (st, dst)
    case (S, RH) => toUp == [Ack(1)]
    case (SH, RD) => toUp == [Reply(j)]
    case (SE, RH) => toUp == [Ack(3)]
    case _ => toUp == []
  }

  /** What travels to the uploader from a downloader that has stopped: never nothing. */
  ghost predicate Leftover(j: Job, st: UpState, finished: bool, whole: bool, toUp: seq<seq<Byte>>)
    requires j.Valid()
  {
    if finished then st == ST && whole && toUp == [Ack(4)]
    else
      || (|toUp| == 1 && Refusal(toUp[0]))
      || (|toUp| == 2 && Expected(j, st, whole, toUp[0]) && Refusal(toUp[1]))
  }

  ghost predicate Expected(j: Job, st: UpState, whole: bool, m: seq<Byte>)
    requires j.Valid()
  {
    match st
    case S => m == Ack(1)
    case SH => m == Reply(j) && (j.hasFile || j.canOpen)
    case SD => false
    case SE => m == Ack(3) && whole
    case ST => m == Ack(4) && whole
  }

  /** The invariant, with the messages in flight as witnesses. */
  ghost predicate InvWith(j: Job, s: Sys, ds: seq<seq<Byte>>, core: seq<seq<Byte>>, toUp: seq<seq<Byte>>)
    requires j.Valid()
  {
    && DownOwn(j, s.down) && Named(j, s.down)
    && Harmless(s.up.status) && Harmless(s.down.status)
    && (s.up.status == Running ==> UpOwn(j, s.up))
    && (s.up.state == ST ==> s.down.disk == Whole(j))
    && (s.down.status == Finished ==> s.up.state == ST)
    && (s.up.status == Finished ==> s.up.state == ST && s.up.total == |j.file|)
    && (s.down.status == Running ==>
          && DownPhase(j, s.up.state, s.up.unread, s.down, ds, core) && DownStream(s, core)
          && OutIsTail(j, s.up, ds))
    && (s.up.status == Running ==>
          && s.up.rbuf + s.down.tx == Cat(toUp) && Messages(toUp, 0)
          && if s.down.status == Running then UpPhase(j, s.up.state, s.down.state, toUp)
             else Leftover(j, s.up.state, s.down.status == Finished, s.down.disk == Whole(j), toUp))
  }

  /** None of the endings that a protocol violation would cause. */
  predicate Harmless(st: Status) {
    st != Aborted(UnknownCode) && st != Aborted(BadChecksum) && st != Aborted(InvalidHeader)
  }

  /** The bytes the downloader has not consumed are those of core, and of the cancellation
      of an uploader that has quit. */
  ghost predicate DownStream(s: Sys, core: seq<seq<Byte>>) {
    match s.up.status
    case Running => Messages(core, s.down.Extra()) && s.down.rbuf + s.up.tx + s.up.out == Cat(core)
    case Aborted(Local) =>
      exists reason: Text :: CancelledStream(s, core, reason)
    case Aborted(PeerAbort) => core == [] && s.down.rbuf + s.up.tx == []
    case _ => false
  }

  ghost predicate CancelledStream(s: Sys, core: seq<seq<Byte>>, reason: Text) {
    Messages(core + [Cancel(reason)], s.down.Extra()) && s.down.rbuf + s.up.tx == Cat(core + [Cancel(reason)])
  }

  ghost predicate Inv(j: Job, s: Sys)
    requires j.Valid()
  {
    exists ds, core, toUp :: InvWith(j, s, ds, core, toUp)
  }

  // ----- messages of the protocol are complete in themselves

  lemma ShortMessages(extra: nat)
    ensures IsMessage([ENQ, 1], extra) && IsMessage([ETX, 1], extra) && IsMessage([EOT, 1], extra)
    ensures IsMessage(Ack(1), extra) && IsMessage(Ack(2), extra) && IsMessage(Ack(3), extra)
    ensures IsMessage(Ack(4), extra) && IsMessage(Ack(ACK), extra)
  {
  }

  lemma RefusalMessages(j: Job, reason: Text, extra: nat)
    requires j.Valid()
    ensures IsMessage(Cancel(reason), extra) && IsMessage(Nak(reason), extra) && IsMessage(Resume(j), extra)
    ensures Refusal(Cancel(reason)) && Refusal(Nak(reason)) && Refusal(Resume(j))
  {
  }

  lemma HeaderMessage(j: Job, extra: nat)
    requires j.Valid()
    ensures IsMessage(Header(j), extra)
  {
  }

  lemma BlockMessage(j: Job, data: seq<Byte>, extra: nat)
    requires 1 <= |data| <= 253 && extra == if j.Checked() then 1 else 0
    ensures IsMessage(Block(j, data), extra)
  {
  }

  lemma BlockMessages(j: Job, ds: seq<seq<Byte>>, extra: nat)
    requires Readable(ds) && extra == if j.Checked() then 1 else 0
    ensures Messages(Blocks(j, ds), extra)
  {
  }

  lemma MessagesAppend(ms: seq<seq<Byte>>, m: seq<Byte>, extra: nat)
    requires Messages(ms, extra) && IsMessage(m, extra)
    ensures Messages(ms + [m], extra)
  {
  }

  lemma MessagesTail(ms: seq<seq<Byte>>, extra: nat)
    requires Messages(ms, extra) && ms != []
    ensures Messages(ms[1..], extra)
  {
  }

  // ----- the header announces as many fields as were sent

  lemma {:induction false} StrnlenIs(s: seq<Byte>, t: seq<Byte>)
    requires 0 !in s
    ensures Strnlen(s + [0] + t) == |s|
  {
    if s == [] {
      assert (s + [0] + t)[0] == 0;
    } else {
      assert (s + [0] + t)[1..] == s[1..] + [0] + t;
      StrnlenIs(s[1..], t);
    }
  }

  lemma FieldsStep(s: seq<Byte>, t: seq<Byte>, max: nat)
    requires 0 !in s && max > 0
    ensures Fields(s + [0] + t, max) == 1 + Fields(t, max - 1)
  {
    StrnlenIs(s, t);
    assert (s + [0] + t)[|s| + 1..] == t;
  }

  lemma HeaderHasFields(j: Job)
    requires j.Valid()
    ensures Fields(HeaderFields(j), 3) == if j.Checked() then 3 else 2
  {
    var name := SentName(j);
    var third := if j.stamp.Stamp? then j.stamp.hex + [0] else [];
    assert HeaderFields(j) == name + [0] + (j.size + [0] + third);
    assert 0 !in name;
    hide *;
    FieldsStep(name, j.size + [0] + third, 3);
    FieldsStep(j.size, third, 2);
    ThirdField(j.stamp, third);
  }

  lemma NameIsFirst(j: Job)
    requires j.Valid()
    ensures FirstField(HeaderFields(j)) == SentName(j)
  {
    hide Strnlen;
    var rest := j.size + [0] + (if j.stamp.Stamp? then j.stamp.hex + [0] else []);
    assert HeaderFields(j) == SentName(j) + [0] + rest;
    StrnlenIs(SentName(j), rest);
  }

  lemma ThirdField(stamp: Stamp, third: seq<Byte>)
    requires stamp.Stamp? ==> 0 !in stamp.hex
    requires third == if stamp.Stamp? then stamp.hex + [0] else []
    ensures Fields(third, 1) == if stamp.Stamp? then 1 else 0
  {
    if stamp.Stamp? {
      assert third == stamp.hex + [0] + [];
      FieldsStep(stamp.hex, [], 1);
    }
  }

  // ----- the invariant holds at the start and is kept by every event

  lemma InitInv(j: Job)
    requires j.Valid()
    ensures Inv(j, Init(j))
  {
    ShortMessages(0);
    var core := [[ENQ, 1]];
    assert Cat(core) == [ENQ, 1] + Cat([]) == [ENQ, 1];
    assert Init(j).down.rbuf + Init(j).up.tx + Init(j).up.out == [ENQ, 1];
    assert InvWith(j, Init(j), [], core, []);
  }

  lemma UpWriteInv(j: Job, s: Sys, w: nat, pick: nat)
    requires j.Valid() && Inv(j, s) && Enabled(s, UpWritable(w, pick))
    ensures Inv(j, Next(s, j, UpWritable(w, pick)))
  {
    hide DownPhase, UpPhase, Leftover, DownOwn, Cat, Messages, FillBlock;
    var ds, core, toUp :| InvWith(j, s, ds, core, toUp);
    var u, d := s.up, s.down;
    var v := u.(out := u.out[w..], total := u.total + w, tx := u.tx + u.out[..w]);
    assert d.rbuf + v.tx + v.out == d.rbuf + u.tx + u.out;
    if v.out != [] {
      assert InvWith(j, s.(up := v), ds, core, toUp);
    } else {
      var t := v.(total := v.total - (if v.yappc then 1 else 0));
      assert d.rbuf + t.tx == d.rbuf + u.tx + u.out;
      if ReadCount(t.unread, j.readlen, pick) > 0 {
        NextBlockInv(j, s, t, pick, ds, core, toUp);
      } else {
        EofInv(j, s, t, ds, core, toUp);
      }
    }
  }

  /** A filled buffer and its announcement are one block message. */
  lemma Filled(t: Up, j: Job, pick: nat) returns (data: seq<Byte>)
    requires j.Valid() && t.unread != [] && t.yappc == j.Checked() && t.out == []
    ensures 1 <= |data| <= 253
    ensures var v := FillBlock(t, j.readlen, pick);
            && v == t.(unread := v.unread, out := v.out, tx := v.tx)
            && t.unread == data + v.unread
            && |v.out| == |data| + (if t.yappc then 1 else 0)
            && v.tx + v.out == t.tx + Block(j, data)
  {
    data := t.unread[..ReadCount(t.unread, j.readlen, pick)];
  }

  /** t is the uploader once the current block is sent. */
  lemma NextBlockInv(j: Job, s: Sys, t: Up, pick: nat, ds: seq<seq<Byte>>, core: seq<seq<Byte>>, toUp: seq<seq<Byte>>)
    requires j.Valid() && InvWith(j, s, ds, core, toUp)
    requires s.up.status == Running && s.up.state == SD
    requires t == s.up.(out := [], total := t.total, tx := t.tx)
    requires t.total == |j.file| - |t.unread| && s.down.rbuf + t.tx == s.down.rbuf + s.up.tx + s.up.out
    requires ReadCount(t.unread, j.readlen, pick) > 0
    ensures Inv(j, s.(up := FillBlock(t, j.readlen, pick)))
  {
    hide UpPhase, Leftover, DownOwn, Cat, Messages, FillBlock, Block;
    var d := s.down;
    var data := Filled(t, j, pick);
    var v := FillBlock(t, j.readlen, pick);
    CatAppend(core, Block(j, data));
    CatAppend(ds, data);
    if d.status == Running {
      BlockMessages(j, ds + [data], d.Extra());
      assert Blocks(j, ds + [data]) == core + [Block(j, data)];
      assert d.rbuf + v.tx + v.out == d.rbuf + (t.tx + Block(j, data)) == (d.rbuf + t.tx) + Block(j, data);
      assert d.disk + Cat(ds + [data]) + v.unread == d.disk + Cat(ds) + t.unread;
    }
    assert InvWith(j, s.(up := v), ds + [data], core + [Block(j, data)], toUp);
  }

  lemma EofInv(j: Job, s: Sys, t: Up, ds: seq<seq<Byte>>, core: seq<seq<Byte>>, toUp: seq<seq<Byte>>)
    requires j.Valid() && InvWith(j, s, ds, core, toUp)
    requires s.up.status == Running && s.up.state == SD
    requires t == s.up.(out := [], total := t.total, tx := t.tx) && t.unread == []
    requires t.total == |j.file| && s.down.rbuf + t.tx == s.down.rbuf + s.up.tx + s.up.out
    ensures Inv(j, s.(up := t.(state := SE).Send([ETX, 1])))
  {
    hide DownOwn, Cat, Messages;
    var v, d := t.(state := SE).Send([ETX, 1]), s.down;
    CatAppend(core, [ETX, 1]);
    if d.status == Running {
      ShortMessages(d.Extra());
      MessagesAppend(core, [ETX, 1], d.Extra());
      assert d.rbuf + v.tx + v.out == (d.rbuf + t.tx) + [ETX, 1];
    }
    assert InvWith(j, s.(up := v), ds, core + [[ETX, 1]], toUp);
  }

  // ----- one message arrives at the uploader

  /** The first message for the uploader is complete in its buffer; rbuf is what follows it. */
  ghost predicate Arrival(j: Job, s: Sys, rbuf: seq<Byte>, ds: seq<seq<Byte>>, core: seq<seq<Byte>>, toUp: seq<seq<Byte>>)
    requires j.Valid()
  {
    && InvWith(j, s, ds, core, toUp) && s.up.status == Running && toUp != []
    && rbuf + s.down.tx == Cat(toUp[1..]) && Messages(toUp[1..], 0)
    && (|toUp| == 1 || (s.down.status != Running && |toUp| == 2 && Refusal(toUp[1])))
    && (s.down.status != Running && !Refusal(toUp[0]) && s.up.state != ST ==> |toUp| == 2 && s.down.status != Finished)
    && |toUp[0]| >= 2
  }

  ghost predicate Wanted(j: Job, s: Sys, m: seq<Byte>)
    requires j.Valid()
  {
    Expected(j, s.up.state, s.down.disk == Whole(j), m)
  }

  lemma UpStepInv(j: Job, s: Sys, pick: nat)
    requires j.Valid() && Inv(j, s) && (s.up.state == SH ==> Fits(j))
    requires s.up.status == Running && Complete(s.up.rbuf, 0) > 0
    ensures Inv(j, s.(up := UpStep(s.up, j, pick)))
  {
    hide DownPhase, DownOwn, DownStream, Cat, UpData, UpOwn, Wanted, Refusal, Fits;
    var ds, core, toUp :| InvWith(j, s, ds, core, toUp);
    var u := s.up;
    FrontMessage(u.rbuf, s.down.tx, toUp, 0);
    var m, rbuf := toUp[0], u.rbuf[|toUp[0]|..];
    MessagesTail(toUp, 0);
    RunningExpects(j, s, ds, core, toUp);
    if Refusal(m) {
      UpRefusedInv(j, s, rbuf, pick, ds, core, toUp);
    } else {
      match u.state
      case S => UpStartInv(j, s, rbuf, pick, ds, core, toUp);
      case SH => UpBeginInv(j, s, rbuf, pick, ds, core, toUp);
      case SD => assert false by { NothingWanted(j, s, m); }
      case SE => UpEofInv(j, s, rbuf, pick, ds, core, toUp);
      case ST => UpFinishInv(j, s, rbuf, pick, ds, core, toUp);
    }
  }

  lemma NothingWanted(j: Job, s: Sys, m: seq<Byte>)
    requires j.Valid() && s.up.state == SD
    ensures !Wanted(j, s, m)
  {
  }

  /** Whether or not the downloader is running, the next message is wanted or a refusal. */
  lemma RunningExpects(j: Job, s: Sys, ds: seq<seq<Byte>>, core: seq<seq<Byte>>, toUp: seq<seq<Byte>>)
    requires j.Valid() && InvWith(j, s, ds, core, toUp)
    requires s.up.status == Running && toUp != []
    ensures Wanted(j, s, toUp[0]) || Refusal(toUp[0])
    ensures |toUp| == 1 || (s.down.status != Running && |toUp| == 2 && Refusal(toUp[1]))
    ensures s.down.status != Running && !Refusal(toUp[0]) && s.up.state != ST ==> |toUp| == 2 && s.down.status != Finished
    ensures s.down.status == Running && Refusal(toUp[0]) ==> s.up.state == SH
  {
    hide Refusal, DownStream, UpOwn, DownOwn, Cat, Messages;
    PlainRepliesAreNoRefusals();
  }

  lemma PlainRepliesAreNoRefusals()
    ensures !Refusal(Ack(1)) && !Refusal(Ack(2)) && !Refusal(Ack(3)) && !Refusal(Ack(4)) && !Refusal(Ack(ACK))
  {
  }

  lemma LeftoverTail(j: Job, st: UpState, whole: bool, toUp: seq<seq<Byte>>)
    requires j.Valid() && |toUp| == 2 && Refusal(toUp[1])
    ensures Leftover(j, st, false, whole, toUp[1..])
  {
    hide Expected, Refusal;
  }

  lemma UpStartInv(j: Job, s: Sys, rbuf: seq<Byte>, pick: nat,
        ds: seq<seq<Byte>>, core: seq<seq<Byte>>, toUp: seq<seq<Byte>>)
    requires j.Valid() && Arrival(j, s, rbuf, ds, core, toUp)
    requires s.up.state == S && Wanted(j, s, toUp[0]) && !Refusal(toUp[0])
    ensures UpData(s.up, j, toUp[0], pick).status == Running
    ensures Inv(j, s.(up := UpData(s.up, j, toUp[0], pick).(rbuf := rbuf)))
  {
    hide DownOwn, Cat, Messages, Leftover, Header;
    var t := s.(up := UpData(s.up, j, toUp[0], pick).(rbuf := rbuf));
    if s.down.status != Running { LeftoverTail(j, SH, s.down.disk == Whole(j), toUp); }
    if s.down.status == Running {
      HeaderMessage(j, s.down.Extra());
      CatEmpty();
      StreamAppend(s.down.rbuf + s.up.tx + s.up.out, core, Header(j), s.down.Extra());
      assert s.down.rbuf + t.up.tx + t.up.out == s.down.rbuf + s.up.tx + s.up.out + Header(j);
    }
    assert InvWith(j, t, ds, [Header(j)], toUp[1..]);
  }

  lemma CatEmpty()
    ensures Cat([]) == []
  {
  }

  lemma StreamAppend(stream: seq<Byte>, ms: seq<seq<Byte>>, m: seq<Byte>, extra: nat)
    requires stream == Cat(ms) && Messages(ms, extra) && IsMessage(m, extra)
    ensures stream + m == Cat(ms + [m]) && Messages(ms + [m], extra)
    ensures ms == [] ==> ms + [m] == [m]
  {
    CatAppend(ms, m);
    MessagesAppend(ms, m, extra);
  }

  lemma UpBeginInv(j: Job, s: Sys, rbuf: seq<Byte>, pick: nat,
        ds: seq<seq<Byte>>, core: seq<seq<Byte>>, toUp: seq<seq<Byte>>)
    requires j.Valid() && Fits(j) && Arrival(j, s, rbuf, ds, core, toUp)
    requires s.up.state == SH && Wanted(j, s, toUp[0]) && !Refusal(toUp[0])
    ensures UpData(s.up, j, toUp[0], pick).status == Running
    ensures Inv(j, s.(up := UpData(s.up, j, toUp[0], pick).(rbuf := rbuf)))
  {
    hide DownOwn, Cat, Messages, Leftover, DownPhase, DownStream, UpPhase, FillBlock;
    RefusalMessages(j, UNKNOWN_CODE, 0);
    var m, u := toUp[0], s.up;
    assert m == if j.Checked() then Ack(ACK) else Ack(2);
    var t := u.(yappc := j.Checked());
    assert UpData(u, j, m, pick) == FillBlock(t, j.readlen, pick).(state := SD);
    if u.unread == [] {
      EmptyBlockInv(j, s, rbuf, t, pick, ds, core, toUp);
    } else {
      FirstBlockInv(j, s, rbuf, t, pick, ds, core, toUp);
    }
  }

  lemma EmptyBlockInv(j: Job, s: Sys, rbuf: seq<Byte>, t: Up, pick: nat,
        ds: seq<seq<Byte>>, core: seq<seq<Byte>>, toUp: seq<seq<Byte>>)
    requires j.Valid() && Fits(j) && Arrival(j, s, rbuf, ds, core, toUp)
    requires s.up.state == SH && Wanted(j, s, toUp[0]) && !Refusal(toUp[0])
    requires t == s.up.(yappc := j.Checked()) && t.unread == []
    ensures FillBlock(t, j.readlen, pick).status == Running
    ensures Inv(j, s.(up := FillBlock(t, j.readlen, pick).(state := SD, rbuf := rbuf)))
  {
    hide DownOwn, Cat, Messages, Leftover, FillBlock, DownPhase, DownStream, UpOwn;
    EmptyIsPlain(j, s, toUp[0]);
    if s.down.status != Running { LeftoverTail(j, SD, s.down.disk == Whole(j), toUp); }
    FirstBlockOwn(j, s);
    NothingToFill(t, j.readlen, pick);
    var v := t.(state := SD, rbuf := rbuf);
    FirstBlockIsFirst(j, t, v, []);
    if s.down.status == Running { EmptyBlockPhase(j, s, v, ds, core, toUp); }
    assert InvWith(j, s.(up := v), [], [], toUp[1..]);
  }

  /** Where an empty file is no problem, it comes without checksums. */
  lemma EmptyIsPlain(j: Job, s: Sys, m: seq<Byte>)
    requires j.Valid() && Fits(j) && UpOwn(j, s.up) && s.up.state == SH && s.up.unread == []
    requires Wanted(j, s, m) && !Refusal(m)
    ensures !j.Checked()
  {
    RefusalMessages(j, UNKNOWN_CODE, 0);
  }

  lemma EmptyBlockPhase(j: Job, s: Sys, v: Up, ds: seq<seq<Byte>>, core: seq<seq<Byte>>, toUp: seq<seq<Byte>>)
    requires j.Valid() && InvWith(j, s, ds, core, toUp) && s.up.status == v.status == Running && s.down.status == Running
    requires s.up.state == SH && j.file == [] && v.unread == [] && toUp != []
    requires v.state == SD && v.tx == s.up.tx && v.out == s.up.out
    ensures DownPhase(j, SD, v.unread, s.down, [], []) && DownStream(s.(up := v), [])
    ensures s.down.state == RD && |toUp| == 1
  {
    hide DownOwn, Messages, Leftover, Block, UpOwn;
    assert Blocks(j, []) == [];
    assert s.down.disk + [] + [] == j.existing + [];
  }

  lemma NothingToFill(t: Up, readlen: nat, pick: nat)
    requires readlen <= 253 && t.unread == [] && t.out == [] && !t.yappc
    ensures FillBlock(t, readlen, pick) == t
  {
  }

  lemma FirstBlockInv(j: Job, s: Sys, rbuf: seq<Byte>, t: Up, pick: nat,
        ds: seq<seq<Byte>>, core: seq<seq<Byte>>, toUp: seq<seq<Byte>>)
    requires j.Valid() && Arrival(j, s, rbuf, ds, core, toUp)
    requires s.up.state == SH && !Refusal(toUp[0]) && t == s.up.(yappc := j.Checked()) && t.unread != []
    ensures FillBlock(t, j.readlen, pick).status == Running
    ensures Inv(j, s.(up := FillBlock(t, j.readlen, pick).(state := SD, rbuf := rbuf)))
  {
    hide DownOwn, Cat, Messages, Leftover, FillBlock, Block, DownPhase, DownStream, UpOwn;
    if s.down.status != Running { LeftoverTail(j, SD, s.down.disk == Whole(j), toUp); }
    FirstBlockOwn(j, s);
    var data := Filled(t, j, pick);
    var v := FillBlock(t, j.readlen, pick).(state := SD, rbuf := rbuf);
    FirstBlockIsFirst(j, t, v, data);
    if s.down.status == Running { FirstBlockPhase(j, s, v, data, ds, core, toUp); }
    assert InvWith(j, s.(up := v), [data], [Block(j, data)], toUp[1..]);
  }

  lemma FirstBlockOwn(j: Job, s: Sys)
    requires j.Valid() && s.up.state == SH && UpOwn(j, s.up)
    ensures s.up.unread == j.file && s.up.out == [] && s.up.total == 0 && !s.up.yappc
  {
  }

  /** The uploader's own part: v has the first block in its buffer. */
  lemma FirstBlockIsFirst(j: Job, t: Up, v: Up, data: seq<Byte>)
    requires t.unread == j.file == data + v.unread && v.state == SD && v.total == t.total == 0
    requires v.yappc == j.Checked() && |v.out| == |data| + (if v.yappc then 1 else 0)
    ensures UpOwn(j, v)
  {
    assert v.unread == j.file[|j.file| - |v.unread|..];
  }

  /** The downloader's part: the block is what travels to it now. */
  lemma FirstBlockPhase(j: Job, s: Sys, v: Up, data: seq<Byte>,
        ds: seq<seq<Byte>>, core: seq<seq<Byte>>, toUp: seq<seq<Byte>>)
    requires j.Valid() && InvWith(j, s, ds, core, toUp) && s.up.status == v.status == Running && s.down.status == Running
    requires s.up.state == SH && s.up.unread == j.file && toUp != [] && v.state == SD
    requires 1 <= |data| <= 253 && j.file == data + v.unread && v.tx + v.out == s.up.tx + Block(j, data) && s.up.out == []
    ensures DownPhase(j, SD, v.unread, s.down, [data], [Block(j, data)])
    ensures DownStream(s.(up := v), [Block(j, data)])
    ensures s.down.state == RD && |toUp| == 1
  {
    hide DownOwn, Cat, Messages, Leftover, Block, UpOwn;
    var u, d := s.up, s.down;
    BlockMessage(j, data, d.Extra());
    assert Blocks(j, [data]) == [Block(j, data)];
    StreamAppend(d.rbuf + u.tx + u.out, core, Block(j, data), d.Extra());
    assert d.rbuf + v.tx + v.out == d.rbuf + (u.tx + Block(j, data)) == d.rbuf + u.tx + u.out + Block(j, data);
    CatOne(data);
    assert d.disk + data + v.unread == j.existing + j.file;
  }

  lemma CatOne(m: seq<Byte>)
    ensures Cat([m]) == m
  {
    assert Cat([m]) == m + Cat([]);
  }

  lemma UpEofInv(j: Job, s: Sys, rbuf: seq<Byte>, pick: nat,
        ds: seq<seq<Byte>>, core: seq<seq<Byte>>, toUp: seq<seq<Byte>>)
    requires j.Valid() && Arrival(j, s, rbuf, ds, core, toUp)
    requires s.up.state == SE && Wanted(j, s, toUp[0]) && !Refusal(toUp[0])
    ensures UpData(s.up, j, toUp[0], pick).status == Running
    ensures Inv(j, s.(up := UpData(s.up, j, toUp[0], pick).(rbuf := rbuf)))
  {
    hide DownOwn, Cat, Messages, Leftover;
    var t := s.(up := UpData(s.up, j, toUp[0], pick).(rbuf := rbuf));
    if s.down.status != Running { LeftoverTail(j, ST, true, toUp); }
    if s.down.status == Running {
      ShortMessages(s.down.Extra());
      StreamAppend(s.down.rbuf + s.up.tx + s.up.out, core, [EOT, 1], s.down.Extra());
      assert s.down.rbuf + t.up.tx + t.up.out == s.down.rbuf + s.up.tx + s.up.out + [EOT, 1];
    }
    assert InvWith(j, t, ds, [[EOT, 1]], toUp[1..]);
  }

  lemma UpFinishInv(j: Job, s: Sys, rbuf: seq<Byte>, pick: nat,
        ds: seq<seq<Byte>>, core: seq<seq<Byte>>, toUp: seq<seq<Byte>>)
    requires j.Valid() && Arrival(j, s, rbuf, ds, core, toUp)
    requires s.up.state == ST && Wanted(j, s, toUp[0])
    ensures UpData(s.up, j, toUp[0], pick) == s.up.(status := Finished)
    ensures Inv(j, s.(up := UpData(s.up, j, toUp[0], pick)))
  {
    hide DownOwn, Cat, Messages;
    assert InvWith(j, s.(up := s.up.(status := Finished)), ds, core, toUp);
  }

  /** A refusal ends the upload; in particular the resume request does. */
  lemma UpRefusedInv(j: Job, s: Sys, rbuf: seq<Byte>, pick: nat,
        ds: seq<seq<Byte>>, core: seq<seq<Byte>>, toUp: seq<seq<Byte>>)
    requires j.Valid() && Arrival(j, s, rbuf, ds, core, toUp)
    requires Refusal(toUp[0]) && (s.down.status == Running ==> s.up.state == SH)
    ensures UpData(s.up, j, toUp[0], pick) == s.up.(status := Aborted(PeerAbort))
    ensures Inv(j, s.(up := UpData(s.up, j, toUp[0], pick)))
  {
    hide DownOwn, Messages;
    var t := s.(up := s.up.(status := Aborted(PeerAbort)));
    assert InvWith(j, t, ds, core, toUp);
  }

  // ----- one message arrives at the downloader

  /** The first message in the stream is the first of core, or the cancellation behind it. */
  lemma ConsumeStream(s: Sys, core: seq<seq<Byte>>)
    requires DownStream(s, core) && Complete(s.down.rbuf, s.down.Extra()) > 0
    ensures core == [] ==> s.down.rbuf[0] == CAN && s.up.status == Aborted(Local)
    ensures core != [] ==>
              var k := Complete(s.down.rbuf, s.down.Extra());
              && s.down.rbuf[..k] == core[0] && |core[0]| >= 2
              && DownStream(s.(down := s.down.(rbuf := s.down.rbuf[k..])), core[1..])
  {
    hide Cat;
    var d, u := s.down, s.up;
    match u.status
    case Running =>
      assert d.rbuf + (u.tx + u.out) == d.rbuf + u.tx + u.out;
      CatEmpty();
      FrontMessage(d.rbuf, u.tx + u.out, core, d.Extra());
      assert d.rbuf[|core[0]|..] + u.tx + u.out == d.rbuf[|core[0]|..] + (u.tx + u.out);
    case Aborted(_) =>
      if u.status == Aborted(Local) {
        var reason: Text :| CancelledStream(s, core, reason);
        var ms := core + [Cancel(reason)];
        FrontMessage(d.rbuf, u.tx, ms, d.Extra());
        if core != [] {
          assert ms[1..] == core[1..] + [Cancel(reason)];
          assert CancelledStream(s.(down := d.(rbuf := d.rbuf[|core[0]|..])), core[1..], reason);
        }
      }
    case Finished =>
  }

  /** With no message left but a cancellation, the checksum mode does not matter. */
  lemma IdleStream(s: Sys, d: Down)
    requires DownStream(s, []) && d.rbuf == s.down.rbuf
    ensures DownStream(s.(down := d), [])
  {
    hide Cat;
    if s.up.status == Aborted(Local) {
      var reason: Text :| CancelledStream(s, [], reason);
      assert IsMessage(Cancel(reason), d.Extra());
      assert CancelledStream(s.(down := d), [], reason);
    }
  }

  /** The first message for the downloader is complete in its buffer; rbuf is what follows it. */
  ghost predicate Delivery(j: Job, s: Sys, rbuf: seq<Byte>, ds: seq<seq<Byte>>, core: seq<seq<Byte>>, toUp: seq<seq<Byte>>)
    requires j.Valid()
  {
    && InvWith(j, s, ds, core, toUp) && s.down.status == Running && core != []
    && Framed(core[0], s.down.Extra())
    && DownStream(s.(down := s.down.(rbuf := rbuf)), core[1..])
  }

  lemma DownStepInv(j: Job, s: Sys)
    requires j.Valid() && Inv(j, s)
    requires s.down.status == Running && Complete(s.down.rbuf, s.down.Extra()) > 0
    ensures Inv(j, s.(down := DownStep(s.down, j)))
  {
    hide DownOwn, DownStream, Cat, UpOwn, UpPhase, Leftover, DownData;
    var ds, core, toUp :| InvWith(j, s, ds, core, toUp);
    var d := s.down;
    var k := Complete(d.rbuf, d.Extra());
    ConsumeStream(s, core);
    if core == [] {
      DownCancelledInv(j, s, d.rbuf[..k], ds, toUp);
    } else {
      var rbuf := d.rbuf[k..];
      match (s.up.state, d.state)
      case (S, R) => DownEnqInv(j, s, rbuf, ds, core, toUp);
      case (SH, RH) => DownHeaderInv(j, s, rbuf, ds, core, toUp);
      case (ST, RH) => DownEotInv(j, s, rbuf, ds, core, toUp);
      case (_, RD) =>
        if ds == [] {
          DownEofInv(j, s, rbuf, ds, core, toUp);
        } else {
          DownBlockInv(j, s, rbuf, ds, core, toUp);
        }
      case _ => assert false;
    }
  }

  lemma DownCancelledInv(j: Job, s: Sys, m: seq<Byte>, ds: seq<seq<Byte>>, toUp: seq<seq<Byte>>)
    requires j.Valid() && InvWith(j, s, ds, [], toUp) && s.up.status == Aborted(Local)
    requires Framed(m, s.down.Extra()) && m[0] == CAN
    ensures DownData(s.down, j, m) == s.down.(status := Aborted(PeerAbort))
    ensures Inv(j, s.(down := DownData(s.down, j, m)))
  {
    hide DownOwn, DownStream, Cat, UpOwn, UpPhase, Leftover;
    DownOwnKept(j, s.down, s.down.(status := Aborted(PeerAbort)));
    assert InvWith(j, s.(down := s.down.(status := Aborted(PeerAbort))), ds, [], toUp);
  }

  /** The downloader answers while the uploader may be running. */
  lemma AnswerStream(s: Sys, toUp: seq<seq<Byte>>, m: seq<Byte>)
    requires s.up.rbuf + s.down.tx == Cat(toUp) && Messages(toUp, 0) && IsMessage(m, 0)
    ensures s.up.rbuf + (s.down.tx + m) == Cat(toUp + [m]) && Messages(toUp + [m], 0)
  {
    StreamAppend(s.up.rbuf + s.down.tx, toUp, m, 0);
    assert s.up.rbuf + (s.down.tx + m) == s.up.rbuf + s.down.tx + m;
  }

  lemma DownEnqInv(j: Job, s: Sys, rbuf: seq<Byte>, ds: seq<seq<Byte>>, core: seq<seq<Byte>>, toUp: seq<seq<Byte>>)
    requires j.Valid() && Delivery(j, s, rbuf, ds, core, toUp)
    requires s.up.state == S && s.down.state == R
    ensures DownData(s.down, j, core[0]).status == Running
    ensures Inv(j, s.(down := DownData(s.down, j, core[0]).(rbuf := rbuf)))
  {
    hide DownOwn, DownStream, Cat, UpOwn, Messages;
    var t := s.(down := DownData(s.down, j, core[0]).(rbuf := rbuf));
    assert core[1..] == [];
    IdleStream(s.(down := s.down.(rbuf := rbuf)), t.down);
    DownOwnKept(j, s.down, t.down);
    if s.up.status == Running {
      ShortMessages(0);
      AnswerStream(s, toUp, Ack(1));
    }
    assert InvWith(j, t, ds, [], toUp + [Ack(1)]);
  }

  lemma DownOwnKept(j: Job, d: Down, e: Down)
    requires DownOwn(j, d) && e.disk == d.disk && e.total == d.total
    ensures DownOwn(j, e)
  {
  }

  lemma DownHeaderInv(j: Job, s: Sys, rbuf: seq<Byte>, ds: seq<seq<Byte>>, core: seq<seq<Byte>>, toUp: seq<seq<Byte>>)
    requires j.Valid() && Delivery(j, s, rbuf, ds, core, toUp)
    requires s.up.state == SH && s.down.state == RH
    ensures var e := DownData(s.down, j, core[0]);
            Inv(j, s.(down := if e.status == Running then e.(rbuf := rbuf) else e))
  {
    hide DownOwn, DownStream, Cat, UpOwn, Messages, Fields, Resume, HeaderFields, FirstField;
    var d := s.down;
    assert core[0][2..] == HeaderFields(j);
    HeaderHasFields(j);
    NameIsFirst(j);
    RefusalMessages(j, INVALID_FILENAME, 0);
    ShortMessages(0);
    var e := DownData(d, j, core[0]);
    DownOwnKept(j, d, e);
    if !(j.hasFile || j.canOpen) {
      if s.up.status == Running { AnswerStream(s, toUp, Nak(INVALID_FILENAME)); }
      assert InvWith(j, s.(down := e), ds, [], toUp + [Nak(INVALID_FILENAME)]);
    } else {
      var t := s.(down := e.(rbuf := rbuf));
      assert core[1..] == [];
      DownOwnKept(j, d, t.down);
      IdleStream(s.(down := d.(rbuf := rbuf)), t.down);
      if s.up.status == Running { AnswerStream(s, toUp, Reply(j)); }
      assert InvWith(j, t, ds, [], toUp + [Reply(j)]);
    }
  }

  lemma DownEotInv(j: Job, s: Sys, rbuf: seq<Byte>, ds: seq<seq<Byte>>, core: seq<seq<Byte>>, toUp: seq<seq<Byte>>)
    requires j.Valid() && Delivery(j, s, rbuf, ds, core, toUp)
    requires s.up.state == ST && s.down.state == RH
    ensures DownData(s.down, j, core[0]).status == Finished
    ensures Inv(j, s.(down := DownData(s.down, j, core[0])))
  {
    hide DownOwn, DownStream, Cat, UpOwn, Messages;
    var t := s.(down := DownData(s.down, j, core[0]));
    DownOwnKept(j, s.down, t.down);
    if s.up.status == Running {
      ShortMessages(0);
      AnswerStream(s, toUp, Ack(4));
    }
    assert InvWith(j, t, ds, [], toUp + [Ack(4)]);
  }

  lemma DownEofInv(j: Job, s: Sys, rbuf: seq<Byte>, ds: seq<seq<Byte>>, core: seq<seq<Byte>>, toUp: seq<seq<Byte>>)
    requires j.Valid() && Delivery(j, s, rbuf, ds, core, toUp)
    requires s.down.state == RD && ds == []
    ensures DownData(s.down, j, core[0]).status == Running
    ensures Inv(j, s.(down := DownData(s.down, j, core[0]).(rbuf := rbuf)))
  {
    hide DownOwn, DownStream, UpOwn, Messages;
    assert core == [[ETX, 1]] && s.up.state == SE;
    var t := s.(down := DownData(s.down, j, core[0]).(rbuf := rbuf));
    CatEmpty();
    assert s.down.disk + [] == s.down.disk;
    assert core[1..] == [];
    IdleStream(s.(down := s.down.(rbuf := rbuf)), t.down);
    DownOwnKept(j, s.down, t.down);
    if s.up.status == Running {
      ShortMessages(0);
      AnswerStream(s, toUp, Ack(3));
    }
    assert InvWith(j, t, ds, [], toUp + [Ack(3)]);
  }

  lemma DownBlockInv(j: Job, s: Sys, rbuf: seq<Byte>, ds: seq<seq<Byte>>, core: seq<seq<Byte>>, toUp: seq<seq<Byte>>)
    requires j.Valid() && Delivery(j, s, rbuf, ds, core, toUp)
    requires s.down.state == RD && ds != []
    ensures DownData(s.down, j, core[0]).status == Running
    ensures Inv(j, s.(down := DownData(s.down, j, core[0]).(rbuf := rbuf)))
  {
    hide DownStream, UpOwn, Messages, Leftover, DownData, DownPhase, DownOwn, Cat, OutIsTail;
    var d := s.down;
    BlockIsFirst(j, s, ds, core);
    BlockAccepted(d, j, ds[0]);
    var e := DownData(d, j, core[0]).(rbuf := rbuf);
    SameStream(s.(down := d.(rbuf := rbuf)), e, core[1..]);
    BlockTaken(j, s, e, ds, core);
    TailStays(j, s, rbuf, ds, core);
    assert InvWith(j, s.(down := e), ds[1..], core[1..], toUp);
  }

  lemma BlockIsFirst(j: Job, s: Sys, ds: seq<seq<Byte>>, core: seq<seq<Byte>>)
    requires j.Valid() && DownPhase(j, s.up.state, s.up.unread, s.down, ds, core)
    requires s.down.state == RD && ds != [] && core != []
    ensures 1 <= |ds[0]| <= 253 && core[0] == Block(j, ds[0]) && s.down.yappc == j.Checked()
    ensures s.up.state == SD || s.up.state == SE
  {
    hide Cat, Block;
  }

  /** A block of which part is left to send does not arrive. */
  lemma TailStays(j: Job, s: Sys, rbuf: seq<Byte>, ds: seq<seq<Byte>>, core: seq<seq<Byte>>)
    requires j.Valid() && DownPhase(j, s.up.state, s.up.unread, s.down, ds, core) && s.down.state == RD
    requires ds != [] && core != []
    requires DownStream(s.(down := s.down.(rbuf := rbuf)), core[1..]) && OutIsTail(j, s.up, ds)
    ensures OutIsTail(j, s.up, ds[1..])
  {
    hide Block;
    if s.up.status == Running && s.up.state == SD && |ds| == 1 {
      assert core[1..] == [];
      CatEmpty();
      assert |rbuf + s.up.tx + s.up.out| == 0;
    }
  }

  /** Once the first block is on disk the rest is what travels. */
  lemma BlockTaken(j: Job, s: Sys, e: Down, ds: seq<seq<Byte>>, core: seq<seq<Byte>>)
    requires j.Valid() && DownPhase(j, s.up.state, s.up.unread, s.down, ds, core) && DownOwn(j, s.down)
    requires s.down.state == RD && ds != [] && core != [] && s.up.state in {SD, SE}
    requires e == s.down.(total := s.down.total + |ds[0]|, disk := s.down.disk + ds[0], rbuf := e.rbuf)
    ensures DownPhase(j, s.up.state, s.up.unread, e, ds[1..], core[1..]) && DownOwn(j, e)
  {
    hide Block;
    assert s.down.disk + Cat(ds) == e.disk + Cat(ds[1..]);
    assert Blocks(j, ds)[1..] == Blocks(j, ds[1..]);
    if s.up.state == SE {
      assert core[1..] == Blocks(j, ds[1..]) + [[ETX, 1]];
    }
    DataFits(j, s, ds);
  }

  lemma SameStream(s: Sys, d: Down, core: seq<seq<Byte>>)
    requires DownStream(s, core) && d.rbuf == s.down.rbuf && d.yappc == s.down.yappc
    ensures DownStream(s.(down := d), core)
  {
    hide Cat, Messages;
    if s.up.status == Aborted(Local) {
      var reason: Text :| CancelledStream(s, core, reason);
      assert CancelledStream(s.(down := d), core, reason);
    }
  }

  lemma BlockAccepted(d: Down, j: Job, data: seq<Byte>)
    requires j.Valid() && 1 <= |data| <= 253
    requires d.status == Running && d.state == RD && d.yappc == j.Checked()
    requires Framed(Block(j, data), d.Extra())
    ensures DownData(d, j, Block(j, data)) == d.(total := d.total + |data|, disk := d.disk + data)
  {
    var m := Block(j, data);
    assert m[2..|data| + 2] == data;
  }

  lemma DataFits(j: Job, s: Sys, ds: seq<seq<Byte>>)
    requires j.Valid() && ds != [] && j.existing <= s.down.disk
    requires (s.down.disk + Cat(ds) + s.up.unread == Whole(j)) || (s.down.disk + Cat(ds) == Whole(j))
    ensures j.existing <= s.down.disk + ds[0] <= Whole(j)
  {
    hide Cat, Whole;
    CatUnfold(ds);
    PrefixOf(s.down.disk, ds[0], Cat(ds[1..]), s.up.unread);
  }

  lemma CatUnfold(ms: seq<seq<Byte>>)
    requires ms != []
    ensures Cat(ms) == ms[0] + Cat(ms[1..])
  {
  }

  lemma PrefixOf(a: seq<Byte>, b: seq<Byte>, c: seq<Byte>, rest: seq<Byte>)
    ensures a + b <= a + (b + c) + rest && a + b <= a + (b + c) && a <= a + b
  {
    assert a + (b + c) == (a + b) + c;
  }

  // ----- quitting

  lemma UpQuitInv(j: Job, s: Sys, reason: Text)
    requires j.Valid() && Inv(j, s) && Enabled(s, UpQuit(reason))
    ensures Inv(j, Next(s, j, UpQuit(reason)))
  {
    hide DownOwn, Cat, UpOwn, UpPhase, Leftover, DownPhase;
    var ds, core, toUp :| InvWith(j, s, ds, core, toUp);
    var t := Next(s, j, UpQuit(reason));
    if s.down.status == Running {
      StreamAppend(s.down.rbuf + s.up.tx + s.up.out, core, Cancel(reason), s.down.Extra()) by {
        RefusalMessages(j, reason, s.down.Extra());
      }
      assert s.down.rbuf + t.up.tx == s.down.rbuf + s.up.tx + s.up.out + Cancel(reason);
      assert CancelledStream(t, core, reason);
    }
    assert InvWith(j, t, ds, core, toUp);
  }

  lemma DownQuitInv(j: Job, s: Sys, reason: Text)
    requires j.Valid() && Inv(j, s) && Enabled(s, DownQuit(reason))
    ensures Inv(j, Next(s, j, DownQuit(reason)))
  {
    hide DownOwn, Cat, UpOwn, DownStream, Messages;
    var ds, core, toUp :| InvWith(j, s, ds, core, toUp);
    var t := Next(s, j, DownQuit(reason));
    DownOwnKept(j, s.down, t.down);
    RefusalMessages(j, reason, 0);
    if s.up.status == Running {
      AnswerStream(s, toUp, Cancel(reason));
    }
    assert InvWith(j, t, ds, core, toUp + [Cancel(reason)]);
  }

  // ----- whole events

  /** Buffers are no part of what the two sides know about each other. */
  lemma BuffersDoNotMatter(j: Job, s: Sys, t: Sys, ds: seq<seq<Byte>>, core: seq<seq<Byte>>, toUp: seq<seq<Byte>>)
    requires j.Valid() && InvWith(j, s, ds, core, toUp)
    requires t == Sys(s.up.(rbuf := t.up.rbuf, tx := t.up.tx), s.down.(rbuf := t.down.rbuf, tx := t.down.tx))
    requires s.up.status == Running ==> t.up.rbuf + t.down.tx == s.up.rbuf + s.down.tx
    requires s.down.status == Running ==> t.down.rbuf + t.up.tx == s.down.rbuf + s.up.tx
    ensures InvWith(j, t, ds, core, toUp)
  {
    hide Cat, Messages, UpPhase, Leftover;
    if s.down.status == Running && s.up.status == Aborted(Local) {
      var reason: Text :| CancelledStream(s, core, reason);
      assert CancelledStream(t, core, reason);
    }
  }

  lemma UpReadInv(j: Job, s: Sys, k: nat)
    requires j.Valid() && Inv(j, s) && k <= |s.down.tx|
    requires s.up.status == Running
    ensures Inv(j, Sys(s.up.(rbuf := s.up.rbuf + s.down.tx[..k]), s.down.(tx := s.down.tx[k..])))
  {
    hide InvWith;
    var ds, core, toUp :| InvWith(j, s, ds, core, toUp);
    var t := Sys(s.up.(rbuf := s.up.rbuf + s.down.tx[..k]), s.down.(tx := s.down.tx[k..]));
    assert t.up.rbuf + t.down.tx == s.up.rbuf + s.down.tx;
    BuffersDoNotMatter(j, s, t, ds, core, toUp);
  }

  lemma DownReadInv(j: Job, s: Sys, k: nat)
    requires j.Valid() && Inv(j, s) && k <= |s.up.tx|
    requires s.down.status == Running
    ensures Inv(j, Sys(s.up.(tx := s.up.tx[k..]), s.down.(rbuf := s.down.rbuf + s.up.tx[..k])))
  {
    hide InvWith;
    var ds, core, toUp :| InvWith(j, s, ds, core, toUp);
    var t := Sys(s.up.(tx := s.up.tx[k..]), s.down.(rbuf := s.down.rbuf + s.up.tx[..k]));
    assert t.down.rbuf + t.up.tx == s.down.rbuf + s.up.tx;
    BuffersDoNotMatter(j, s, t, ds, core, toUp);
  }

  lemma {:induction false} UpDrainInv(j: Job, s: Sys, pick: nat)
    requires j.Valid() && Fits(j) && Inv(j, s)
    ensures Inv(j, s.(up := UpDrain(s.up, j, pick)))
    decreases |s.up.rbuf|
  {
    hide Inv, UpData;
    if s.up.status == Running && Complete(s.up.rbuf, 0) > 0 {
      UpStepInv(j, s, pick);
      var v := UpStep(s.up, j, pick);
      if v.status == Running {
        UpDrainInv(j, s.(up := v), pick);
      }
    }
  }

  lemma {:induction false} DownDrainInv(j: Job, s: Sys)
    requires j.Valid() && Inv(j, s)
    ensures Inv(j, s.(down := DownDrain(s.down, j)))
    decreases |s.down.rbuf|
  {
    hide Inv, DownData;
    if s.down.status == Running && Complete(s.down.rbuf, s.down.Extra()) > 0 {
      DownStepInv(j, s);
      var e := DownStep(s.down, j);
      if e.status == Running {
        DownDrainInv(j, s.(down := e));
      }
    }
  }

  lemma NextInv(j: Job, s: Sys, e: Event)
    requires j.Valid() && Fits(j) && Inv(j, s) && Enabled(s, e)
    ensures Inv(j, Next(s, j, e))
  {
    hide Inv, UpDrain, DownDrain;
    match e
    case UpWritable(w, pick) => UpWriteInv(j, s, w, pick);
    case UpReadable(k, pick) =>
      UpReadInv(j, s, k);
      UpDrainInv(j, Sys(s.up.(rbuf := s.up.rbuf + s.down.tx[..k]), s.down.(tx := s.down.tx[k..])), pick);
    case DownReadable(k) =>
      DownReadInv(j, s, k);
      DownDrainInv(j, Sys(s.up.(tx := s.up.tx[k..]), s.down.(rbuf := s.down.rbuf + s.up.tx[..k])));
    case UpQuit(reason) => UpQuitInv(j, s, reason);
    case DownQuit(reason) => DownQuitInv(j, s, reason);
  }

  lemma {:induction false} RunInv(j: Job, events: seq<Event>)
    requires j.Valid() && Fits(j)
    ensures Inv(j, Run(j, events))
  {
    hide Inv, Next, Enabled;
    if events == [] {
      InitInv(j);
    } else {
      RunInv(j, events[..|events| - 1]);
      var s, e := Run(j, events[..|events| - 1]), events[|events| - 1];
      if Enabled(s, e) { NextInv(j, s, e); }
    }
  }

  // ----- the theorem

  /** What a transfer promises in every state: the receiver has a prefix of the file behind what
      it had before; all of it once the end of file is acknowledged, and so when it has finished; no
      protocol error; one checksum mode while data is in flight; and the right byte counts. */
  predicate Good(j: Job, s: Sys) {
    && j.existing <= s.down.disk <= j.existing + j.file
    && (s.up.state == ST ==> s.down.disk == j.existing + j.file)
    && (s.down.status == Finished ==> s.up.state == ST)
    && (s.up.status == Finished ==> s.up.state == ST && s.up.total == s.down.total == |j.file|)
    && Harmless(s.up.status) && Harmless(s.down.status)
    && (s.up.status == Running && s.up.state in {SD, SE} && s.down.status == Running && s.down.state == RD ==>
          s.up.yappc == s.down.yappc)
  }

  /** For every run, with any cutting of reads and writes and any quitting outside a block, a
      transfer is safe exactly when it is not a YAPP C transfer of an empty file into a new or
      empty one. */
  lemma SafeExactlyWhenFits(j: Job)
    requires j.Valid()
    ensures (forall events: seq<Event> :: Good(j, Run(j, events))) <==> Fits(j)
  {
    hide Good, Run;
    if Fits(j) {
      forall events: seq<Event> ensures Good(j, Run(j, events)) {
        RunInv(j, events);
        InvIsGood(j, Run(j, events));
      }
    } else {
      var events := BrokenRun(j);
    }
  }

  lemma InvIsGood(j: Job, s: Sys)
    requires j.Valid() && Inv(j, s)
    ensures Good(j, s)
  {
    hide Cat, Messages, DownStream, UpPhase, Leftover;
    var ds, core, toUp :| InvWith(j, s, ds, core, toUp);
  }

  // ----- the broken transfer

  const TIMEOUT: Text := [0x54, 0x69, 0x6d, 0x65, 0x6f, 0x75, 0x74]

  /** The checksum octet of an empty first block is sent without a block: the receiver takes it
      for a message and swallows the end-of-file mark. */
  lemma BrokenRun(j: Job) returns (events: seq<Event>)
    requires j.Valid() && !Fits(j)
    ensures !Good(j, Run(j, events)) && AllEffective(j, events)
  {
    hide Run, Next, Enabled, Good, AllEffective;
    var s := Sys(UpInit(j), DownInit(j));
    events := Handshake(j);
    events, s := BrokenStart(j, events);
    events, s := StrayChecksum(j, events, s);
    Misread(j, s);
    events := Extend(j, events, s, DownReadable(5));
  }

  /** Both sides once the header is sent. */
  function HeaderSent(j: Job): Sys
    requires j.Valid()
  {
    Sys(UpInit(j).(state := SH, tx := Header(j)), DownInit(j).(state := RH))
  }

  lemma Handshake(j: Job) returns (events: seq<Event>)
    requires j.Valid()
    ensures Run(j, events) == HeaderSent(j) && AllEffective(j, events) && NobodyQuits(events)
  {
    hide Header;
    var s0 := Init(j);
    var s1 := Deliver(j, s0, [ENQ, 1]);
    var s2 := Answer(j, s1, Ack(1));
    assert [] + Header(j) == Header(j);
    assert s2 == HeaderSent(j);
    hide Next, Enabled, HeaderSent, AllEffective;
    NothingHappened(j);
    events := Extend(j, [], s0, DownReadable(2));
    events := Extend(j, events, s1, UpReadable(2, 0));
  }

  lemma NothingHappened(j: Job)
    requires j.Valid()
    ensures Run(j, []) == Init(j) && AllEffective(j, []) && NobodyQuits([])
  {
  }

  lemma BrokenStart(j: Job, before: seq<Event>) returns (events: seq<Event>, s: Sys)
    requires j.Valid() && !Fits(j) && Run(j, before) == HeaderSent(j) && AllEffective(j, before) && NobodyQuits(before)
    ensures AllEffective(j, events) && NobodyQuits(events)
    ensures Run(j, events) == s && s.up == UpInit(j).(state := SD, yappc := true, out := [0], tx := [])
    ensures s.down.status == Running && s.down.state == RD && s.down.yappc && s.down.rbuf == [] && s.down.tx == []
    ensures s.down.disk == j.existing
  {
    hide Next, Enabled, Header, Run, Fits, HeaderSent, AllEffective;
    var t := HeaderTaken(j);
    s := EmptyFill(j, t);
    events := Extend(j, before, HeaderSent(j), DownReadable(|Header(j)|));
    events := Extend(j, events, t, UpReadable(2, 0));
  }

  lemma HeaderTaken(j: Job) returns (t: Sys)
    requires j.Valid() && !Fits(j)
    ensures Enabled(HeaderSent(j), DownReadable(|Header(j)|))
    ensures t == Next(HeaderSent(j), j, DownReadable(|Header(j)|))
    ensures t.up == UpInit(j).(state := SH, tx := []) && t.down.tx == Ack(ACK)
    ensures t.down.status == Running && t.down.state == RD && t.down.yappc && t.down.rbuf == [] && t.down.disk == j.existing
  {
    hide HeaderFields, Fields;
    HeaderMessage(j, 0);
    HeaderHasFields(j);
    assert Header(j)[2..] == HeaderFields(j);
    t := Deliver(j, HeaderSent(j), Header(j));
  }

  lemma EmptyFill(j: Job, t: Sys) returns (s: Sys)
    requires j.Valid() && !Fits(j) && t.up == UpInit(j).(state := SH, tx := []) && t.down.tx == Ack(ACK)
    ensures Enabled(t, UpReadable(2, 0)) && s == Next(t, j, UpReadable(2, 0))
    ensures s.up == UpInit(j).(state := SD, yappc := true, out := [0], tx := []) && s.down == t.down.(tx := [])
  {
    s := Answer(j, t, Ack(ACK));
  }

  lemma StrayChecksum(j: Job, before: seq<Event>, s: Sys) returns (events: seq<Event>, t: Sys)
    requires j.Valid() && j.file == [] && Run(j, before) == s && AllEffective(j, before)
    requires s.up == UpInit(j).(state := SD, yappc := true, out := [0], tx := [])
    ensures Run(j, events) == t && AllEffective(j, events) && t.down == s.down && t.up.tx == [0, ETX, 1] + Cancel(TIMEOUT)
  {
    hide Run, AllEffective;
    var v := Next(s, j, UpWritable(1, 0));
    assert v.up.tx == [0, ETX, 1] && v.up.status == Running && v.up.out == [];
    t := Next(v, j, UpQuit(TIMEOUT));
    assert Enabled(s, UpWritable(1, 0)) && Enabled(v, UpQuit(TIMEOUT));
    hide Next, Enabled;
    events := Extend(j, before, s, UpWritable(1, 0));
    events := Extend(j, events, v, UpQuit(TIMEOUT));
  }

  lemma Misread(j: Job, s: Sys)
    requires j.Valid() && s.up.tx == [0, ETX, 1] + Cancel(TIMEOUT)
    requires s.down.status == Running && s.down.state == RD && s.down.yappc && s.down.rbuf == []
    ensures Enabled(s, DownReadable(5)) && !Good(j, Next(s, j, DownReadable(5)))
  {
    var stray := [0, ETX, 1, CAN, |TIMEOUT|];
    assert s.up.tx[..5] == stray && [] + stray == stray;
    DownDrainsOne(s.down.(rbuf := stray), j, stray);
  }

  lemma Extend(j: Job, events: seq<Event>, s: Sys, e: Event) returns (longer: seq<Event>)
    requires j.Valid() && Run(j, events) == s && AllEffective(j, events) && Effective(s, e)
    ensures longer == events + [e] && Enabled(s, e) && Run(j, longer) == Next(s, j, e) && AllEffective(j, longer)
    ensures NobodyQuits(events) && !IsQuit(e) ==> NobodyQuits(longer)
  {
    hide Next, Enabled;
    longer := events + [e];
    assert longer[..|events|] == events;
    forall i | 0 <= i < |longer| ensures Effective(Run(j, longer[..i]), longer[i]) {
      if i < |events| { assert longer[..i] == events[..i]; }
    }
  }

  lemma DownDrainsOne(d: Down, j: Job, m: seq<Byte>)
    requires j.Valid() && d.status == Running && d.rbuf == m && IsMessage(m, d.Extra())
    ensures Framed(m, d.Extra())
    ensures var e := DownData(d, j, m); DownDrain(d, j) == if e.status == Running then e.(rbuf := []) else e
  {
    assert m[..|m|] == m && m[|m|..] == [];
  }

  lemma UpDrainsOne(u: Up, j: Job, m: seq<Byte>)
    requires j.Valid() && u.status == Running && u.rbuf == m && IsMessage(m, 0)
    ensures var v := UpData(u, j, m, 0); UpDrain(u, j, 0) == if v.status == Running then v.(rbuf := []) else v
  {
    assert m[..|m|] == m && m[|m|..] == [];
  }

  /** The downloader reads exactly the one message in flight. */
  lemma Deliver(j: Job, s: Sys, m: seq<Byte>) returns (t: Sys)
    requires j.Valid() && s.down.status == Running && s.up.tx == m && s.down.rbuf == []
    requires |m| <= 511 && IsMessage(m, s.down.Extra())
    ensures Enabled(s, DownReadable(|m|)) && t == Next(s, j, DownReadable(|m|))
    ensures Framed(m, s.down.Extra())
    ensures var e := DownData(s.down.(rbuf := m), j, m);
            t == Sys(s.up.(tx := []), if e.status == Running then e.(rbuf := []) else e)
  {
    t := Next(s, j, DownReadable(|m|));
    assert [] + m[..|m|] == m && m[|m|..] == [];
    DownDrainsOne(s.down.(rbuf := m), j, m);
  }

  lemma Answer(j: Job, s: Sys, m: seq<Byte>) returns (t: Sys)
    requires j.Valid() && s.up.status == Running && s.down.tx == m && s.up.rbuf == []
    requires |m| <= 511 && IsMessage(m, 0)
    ensures Enabled(s, UpReadable(|m|, 0)) && t == Next(s, j, UpReadable(|m|, 0))
    ensures var v := UpData(s.up.(rbuf := m), j, m, 0);
            t == Sys(if v.status == Running then v.(rbuf := []) else v, s.down.(tx := []))
  {
    t := Next(s, j, UpReadable(|m|, 0));
    assert [] + m[..|m|] == m && m[|m|..] == [];
    UpDrainsOne(s.up.(rbuf := m), j, m);
  }
}
