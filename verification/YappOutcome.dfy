/**
 How YAPP transfers end: no deadlock in any run, and without cancellation exactly one of three
 outcomes, which the two sides' situation decides. YappExact shows for exactly which transfers.
 */
module YappOutcome {
  import opened Yapp
  import opened YappSafety

  /** Nothing can happen any more but somebody giving up. */
  ghost predicate Stuck(s: Sys) {
    forall e: Event :: Enabled(s, e) ==> e.UpQuit? || e.DownQuit?
  }

  lemma EnabledIsNotStuck(s: Sys, e: Event)
    requires Enabled(s, e) && !e.UpQuit? && !e.DownQuit?
    ensures !Stuck(s)
  {
  }

  lemma StuckMeans(s: Sys)
    requires Stuck(s)
    ensures s.up.status == Running ==> s.up.state != SD && s.down.tx == []
    ensures s.down.status == Running ==> s.up.tx == []
  {
    hide Stuck;
    if s.up.status == Running && s.up.state == SD { EnabledIsNotStuck(s, UpWritable(0, 0)); }
    if s.up.status == Running && s.down.tx != [] { EnabledIsNotStuck(s, UpReadable(1, 0)); }
    if s.down.status == Running && s.up.tx != [] { EnabledIsNotStuck(s, DownReadable(1)); }
  }

  // ----- between events no complete message is left in a receive buffer

  predicate Drained(s: Sys) {
    && (s.up.status == Running ==> Complete(s.up.rbuf, 0) == 0)
    && (s.down.status == Running ==> Complete(s.down.rbuf, s.down.Extra()) == 0)
  }

  lemma {:induction false} UpDrainDrains(u: Up, j: Job, pick: nat)
    requires j.Valid()
    ensures var v := UpDrain(u, j, pick); v.status == Running ==> Complete(v.rbuf, 0) == 0
    decreases |u.rbuf|
  {
    hide UpData;
    if u.status == Running && Complete(u.rbuf, 0) > 0 {
      var v := UpStep(u, j, pick);
      if v.status == Running { UpDrainDrains(v, j, pick); }
    }
  }

  lemma {:induction false} DownDrainDrains(d: Down, j: Job)
    requires j.Valid()
    ensures var e := DownDrain(d, j); e.status == Running ==> Complete(e.rbuf, e.Extra()) == 0
    decreases |d.rbuf|
  {
    hide DownData;
    if d.status == Running && Complete(d.rbuf, d.Extra()) > 0 {
      var e := DownStep(d, j);
      if e.status == Running { DownDrainDrains(e, j); }
    }
  }

  lemma NextDrained(s: Sys, j: Job, e: Event)
    requires j.Valid() && Enabled(s, e) && Drained(s)
    ensures Drained(Next(s, j, e))
  {
    hide UpDrain, DownDrain, Complete;
    match e
    case UpWritable(_, _) =>
    case UpReadable(k, pick) => UpDrainDrains(s.up.(rbuf := s.up.rbuf + s.down.tx[..k]), j, pick);
    case DownReadable(k) => DownDrainDrains(s.down.(rbuf := s.down.rbuf + s.up.tx[..k]), j);
    case UpQuit(_) =>
    case DownQuit(_) =>
  }

  lemma {:induction false} RunDrained(j: Job, events: seq<Event>)
    requires j.Valid()
    ensures Drained(Run(j, events))
  {
    hide Next, Enabled;
    if events != [] {
      RunDrained(j, events[..|events| - 1]);
      var s, e := Run(j, events[..|events| - 1]), events[|events| - 1];
      if Enabled(s, e) { NextDrained(s, j, e); }
    }
  }

  /** A buffer that begins with a whole message is not drained. */
  lemma WholeMessage(rbuf: seq<Byte>, ms: seq<seq<Byte>>, extra: nat)
    requires rbuf == Cat(ms) && ms != [] && Messages(ms, extra)
    ensures Complete(rbuf, extra) > 0
  {
    var m := ms[0];
    assert IsMessage(m, extra);
    assert rbuf == m + Cat(ms[1..]);
    assert rbuf[0] == m[0] && rbuf[1] == m[1];
  }

  // ----- when the uploader has been refused, the downloader has stopped or wants to resume

  /** The receiver has part of the file already and asks to resume; the sender does not know how. */
  predicate Resumes(j: Job) {
    j.Checked() && j.existing != [] && (j.hasFile || j.canOpen)
  }

  predicate Refuses(j: Job) {
    !(j.hasFile || j.canOpen)
  }

  predicate RefusedRight(j: Job, s: Sys) {
    s.up.status == Aborted(PeerAbort) && s.down.status == Running ==> Resumes(j)
  }

  lemma FillBlockRuns(u: Up, readlen: nat, pick: nat)
    requires readlen <= 253
    ensures FillBlock(u, readlen, pick).status == u.status && FillBlock(u, readlen, pick).rbuf == u.rbuf
  {
  }

  lemma UpWriteRuns(u: Up, j: Job, w: nat, pick: nat)
    requires j.Valid() && w <= |u.out|
    ensures UpWrite(u, j, w, pick).status == u.status
  {
  }

  lemma UpStepRefusedRight(j: Job, s: Sys, pick: nat)
    requires j.Valid() && Inv(j, s) && s.up.status == Running && Complete(s.up.rbuf, 0) > 0
    ensures RefusedRight(j, s.(up := UpStep(s.up, j, pick)))
  {
    hide DownPhase, DownOwn, DownStream, Cat, UpOwn, FillBlock, Header;
    var ds, core, toUp :| InvWith(j, s, ds, core, toUp);
    FrontMessage(s.up.rbuf, s.down.tx, toUp, 0);
    assert IsMessage(toUp[0], 0);
    FillBlockRuns(s.up, j.readlen, pick);
    FillBlockRuns(s.up.(yappc := s.up.yappc || toUp[0][1] == ACK), j.readlen, pick);
    var v := UpData(s.up, j, toUp[0], pick);
    if v.status == Aborted(PeerAbort) && s.down.status == Running {
      RefusedByReply(j, s, ds, core, toUp);
    }
  }

  lemma RefusedByReply(j: Job, s: Sys, ds: seq<seq<Byte>>, core: seq<seq<Byte>>, toUp: seq<seq<Byte>>)
    requires j.Valid() && InvWith(j, s, ds, core, toUp) && s.up.status == Running && s.down.status == Running
    requires toUp != [] && |toUp[0]| >= 2 && (toUp[0][0] == CAN || toUp[0][0] == NAK)
    ensures Resumes(j)
  {
    hide DownOwn, DownStream, Cat, UpOwn, Messages, Resume;
  }

  lemma {:induction false} UpDrainRefusedRight(j: Job, s: Sys, pick: nat)
    requires j.Valid() && Fits(j) && Inv(j, s) && RefusedRight(j, s)
    ensures RefusedRight(j, s.(up := UpDrain(s.up, j, pick)))
    decreases |s.up.rbuf|
  {
    hide Inv, UpData;
    if s.up.status == Running && Complete(s.up.rbuf, 0) > 0 {
      UpStepInv(j, s, pick);
      UpStepRefusedRight(j, s, pick);
      var v := UpStep(s.up, j, pick);
      if v.status == Running { UpDrainRefusedRight(j, s.(up := v), pick); }
    }
  }

  lemma NextRefusedRight(j: Job, s: Sys, e: Event)
    requires j.Valid() && Fits(j) && Inv(j, s) && RefusedRight(j, s) && Enabled(s, e)
    ensures RefusedRight(j, Next(s, j, e))
  {
    hide Inv, UpDrain, DownDrain, Resumes, UpWrite;
    match e
    case UpWritable(w, pick) => UpWriteRuns(s.up, j, w, pick);
    case UpReadable(k, pick) =>
      UpReadInv(j, s, k);
      UpDrainRefusedRight(j, Sys(s.up.(rbuf := s.up.rbuf + s.down.tx[..k]), s.down.(tx := s.down.tx[k..])), pick);
    case DownReadable(_) =>
    case UpQuit(_) =>
    case DownQuit(_) =>
  }

  lemma {:induction false} RunRefusedRight(j: Job, events: seq<Event>)
    requires j.Valid() && Fits(j)
    ensures RefusedRight(j, Run(j, events))
  {
    hide Inv, Next, Enabled, Resumes;
    if events != [] {
      RunRefusedRight(j, events[..|events| - 1]);
      RunInv(j, events[..|events| - 1]);
      var s, e := Run(j, events[..|events| - 1]), events[|events| - 1];
      if Enabled(s, e) { NextRefusedRight(j, s, e); }
    }
  }

  /** Both sides have ended, but for a downloader whose resume request was taken for a refusal. */
  predicate Ended(j: Job, s: Sys) {
    && s.up.status != Running
    && (s.down.status == Running ==> s.up.status == Aborted(PeerAbort) && Resumes(j))
  }

  /** No run, with or without cancellation, leaves anybody waiting for a message that does not
      come, except a downloader whose resume request the uploader has taken for a refusal. */
  lemma NoDeadlock(j: Job, events: seq<Event>)
    requires j.Valid() && Fits(j) && Stuck(Run(j, events))
    ensures Ended(j, Run(j, events))
  {
    hide Run, Inv, Resumes, Stuck;
    var s := Run(j, events);
    RunInv(j, events);
    RunDrained(j, events);
    RunRefusedRight(j, events);
    StuckMeans(s);
    StuckStates(j, s);
  }

  lemma StuckStates(j: Job, s: Sys)
    requires j.Valid() && Inv(j, s) && Drained(s) && RefusedRight(j, s)
    requires s.up.status == Running ==> s.up.state != SD && s.down.tx == []
    requires s.down.status == Running ==> s.up.tx == []
    ensures s.up.status != Running
    ensures s.down.status == Running ==> s.up.status == Aborted(PeerAbort) && Resumes(j)
  {
    hide DownOwn, Cat, Messages, Complete, DownPhase, UpPhase, Leftover, DownStream, Resumes;
    var ds, core, toUp :| InvWith(j, s, ds, core, toUp);
    if s.up.status == Running {
      assert s.up.rbuf + [] == s.up.rbuf;
      if toUp != [] { WholeMessage(s.up.rbuf, toUp, 0); }
      if s.down.status != Running {
        LeftoverIsSomething(j, s.up.state, s.down.status == Finished, s.down.disk == Whole(j), toUp);
      }
    }
    if s.down.status == Running {
      NothingLeft(j, s, ds, core);
      if s.up.status == Running { SomebodyHasSent(j, s, ds, core, toUp); }
    }
  }

  lemma LeftoverIsSomething(j: Job, st: UpState, finished: bool, whole: bool, toUp: seq<seq<Byte>>)
    requires j.Valid() && Leftover(j, st, finished, whole, toUp)
    ensures toUp != []
  {
  }

  /** A drained downloader with nothing on the way has received all of core. */
  lemma NothingLeft(j: Job, s: Sys, ds: seq<seq<Byte>>, core: seq<seq<Byte>>)
    requires j.Valid() && DownStream(s, core) && s.down.status == Running && s.up.tx == []
    requires Complete(s.down.rbuf, s.down.Extra()) == 0
    requires s.up.status == Running ==> s.up.out == []
    ensures core == [] && (s.up.status == Running || s.up.status == Aborted(PeerAbort))
  {
    hide Cat, Messages, Complete;
    var d := s.down;
    assert d.rbuf + [] == d.rbuf && d.rbuf + [] + [] == d.rbuf;
    if s.up.status == Running {
      if core != [] { WholeMessage(d.rbuf, core, d.Extra()); }
    } else if s.up.status == Aborted(Local) {
      var reason: Text :| CancelledStream(s, core, reason);
      WholeMessage(d.rbuf, core + [Cancel(reason)], d.Extra());
    }
  }

  /** In every phase of the protocol a message is on its way in one of the directions. */
  lemma SomebodyHasSent(j: Job, s: Sys, ds: seq<seq<Byte>>, core: seq<seq<Byte>>, toUp: seq<seq<Byte>>)
    requires j.Valid()
    requires DownPhase(j, s.up.state, s.up.unread, s.down, ds, core) && UpPhase(j, s.up.state, s.down.state, toUp)
    requires s.up.state != SD
    ensures core != [] || toUp != []
  {
    hide Header, Reply;
  }

  // ----- runs that nobody cancels

  predicate Normal(j: Job) {
    !Refuses(j) && !Resumes(j)
  }

  predicate Uncancelled(j: Job, s: Sys) {
    && s.up.status in {Running, Finished, Aborted(PeerAbort)}
    && s.down.status in {Running, Finished, Aborted(OpenFailed)}
    && (s.up.status == Finished ==> s.down.status == Finished)
    && (s.up.status == Aborted(PeerAbort) ==> s.down.status != Finished)
    && (s.down.status == Aborted(OpenFailed) ==> Refuses(j))
    && (s.up.state in {SD, SE, ST} ==> Normal(j))
    && (s.down.status == Finished ==> s.up.state == ST)
  }

  lemma UpStepUncancelled(j: Job, s: Sys, pick: nat)
    requires j.Valid() && Inv(j, s) && Uncancelled(j, s)
    requires s.up.status == Running && Complete(s.up.rbuf, 0) > 0
    ensures Uncancelled(j, s.(up := UpStep(s.up, j, pick)))
  {
    hide DownPhase, DownOwn, DownStream, Cat, FillBlock, Header, Refusal;
    var ds, core, toUp :| InvWith(j, s, ds, core, toUp);
    FrontMessage(s.up.rbuf, s.down.tx, toUp, 0);
    var m := toUp[0];
    assert IsMessage(m, 0);
    RunningExpects(j, s, ds, core, toUp);
    FillBlockRuns(s.up, j.readlen, pick);
    FillBlockRuns(s.up.(yappc := s.up.yappc || m[1] == ACK), j.readlen, pick);
    if Refusal(m) {
      RefusalStarts(m);
      FinishedSays(j, s, ds, core, toUp);
    } else {
      hide UpPhase, Leftover, Normal;
      WantedIs(j, s, m);
      if s.up.state == ST { LastAnswer(j, s, ds, core, toUp); }
    }
  }

  lemma RefusalStarts(m: seq<Byte>)
    requires Refusal(m)
    ensures |m| >= 2 && (m[0] == NAK || m[0] == CAN)
  {
  }

  /** A downloader that has finished has said so, and nothing else. */
  lemma FinishedSays(j: Job, s: Sys, ds: seq<seq<Byte>>, core: seq<seq<Byte>>, toUp: seq<seq<Byte>>)
    requires j.Valid() && InvWith(j, s, ds, core, toUp) && s.up.status == Running
    ensures s.down.status == Finished ==> toUp == [Ack(4)] && !Refusal(toUp[0])
  {
    hide DownOwn, Cat, Messages, Refusal;
    PlainRepliesAreNoRefusals();
  }

  /** What the uploader waits for in each state; past the header it means that all is well. */
  lemma WantedIs(j: Job, s: Sys, m: seq<Byte>)
    requires j.Valid() && Wanted(j, s, m) && !Refusal(m)
    ensures s.up.state == S ==> m == Ack(1)
    ensures s.up.state == SH ==> (m == Ack(2) || m == Ack(ACK)) && Normal(j)
    ensures s.up.state != SD
    ensures s.up.state == SE ==> m == Ack(3)
    ensures s.up.state == ST ==> m == Ack(4)
  {
    if s.up.state == SH { RefusalMessages(j, UNKNOWN_CODE, 0); }
  }

  lemma LastAnswer(j: Job, s: Sys, ds: seq<seq<Byte>>, core: seq<seq<Byte>>, toUp: seq<seq<Byte>>)
    requires j.Valid() && InvWith(j, s, ds, core, toUp) && s.up.status == Running && s.up.state == ST && toUp != []
    ensures s.down.status != Running
  {
    hide DownOwn, Cat, Messages, Refusal;
  }

  lemma DownStepUncancelled(j: Job, s: Sys)
    requires j.Valid() && Inv(j, s) && Uncancelled(j, s)
    requires s.down.status == Running && Complete(s.down.rbuf, s.down.Extra()) > 0
    ensures Uncancelled(j, s.(down := DownStep(s.down, j)))
  {
    hide DownOwn, DownStream, Cat, UpOwn, UpPhase, Leftover, DownData, Normal, Refuses;
    var ds, core, toUp :| InvWith(j, s, ds, core, toUp);
    var d := s.down;
    var k := Complete(d.rbuf, d.Extra());
    ConsumeStream(s, core);
    SomethingToRead(s, core);
    var rbuf := d.rbuf[k..];
    match (s.up.state, d.state)
    case (S, R) => DownEnqInv(j, s, rbuf, ds, core, toUp);
    case (SH, RH) => HeaderAnswered(j, d);
    case (ST, RH) => DownEotInv(j, s, rbuf, ds, core, toUp);
    case (_, RD) =>
      if ds == [] { DownEofInv(j, s, rbuf, ds, core, toUp); } else { DownBlockInv(j, s, rbuf, ds, core, toUp); }
    case _ => assert false;
  }

  lemma SomethingToRead(s: Sys, core: seq<seq<Byte>>)
    requires DownStream(s, core) && Complete(s.down.rbuf, s.down.Extra()) > 0
    ensures s.up.status == Running || s.up.status == Aborted(Local)
  {
    hide Cat, Messages;
    if s.up.status == Aborted(PeerAbort) { assert |s.down.rbuf + s.up.tx| >= 2; }
  }

  lemma HeaderAnswered(j: Job, d: Down)
    requires j.Valid() && d.status == Running && d.state == RH && d.open == j.hasFile
    requires Framed(Header(j), d.Extra())
    ensures DownData(d, j, Header(j)).status == if Refuses(j) then Aborted(OpenFailed) else Running
  {
    hide Fields, HeaderFields, Resume;
    assert Header(j)[2..] == HeaderFields(j);
    HeaderHasFields(j);
  }

  lemma {:induction false} UpDrainUncancelled(j: Job, s: Sys, pick: nat)
    requires j.Valid() && Fits(j) && Inv(j, s) && Uncancelled(j, s)
    ensures Uncancelled(j, s.(up := UpDrain(s.up, j, pick)))
    decreases |s.up.rbuf|
  {
    hide Inv, UpData, Uncancelled;
    if s.up.status == Running && Complete(s.up.rbuf, 0) > 0 {
      UpStepInv(j, s, pick);
      UpStepUncancelled(j, s, pick);
      var v := UpStep(s.up, j, pick);
      if v.status == Running { UpDrainUncancelled(j, s.(up := v), pick); }
    }
  }

  lemma {:induction false} DownDrainUncancelled(j: Job, s: Sys)
    requires j.Valid() && Inv(j, s) && Uncancelled(j, s)
    ensures Uncancelled(j, s.(down := DownDrain(s.down, j)))
    decreases |s.down.rbuf|
  {
    hide Inv, DownData, Uncancelled;
    if s.down.status == Running && Complete(s.down.rbuf, s.down.Extra()) > 0 {
      DownStepInv(j, s);
      DownStepUncancelled(j, s);
      var e := DownStep(s.down, j);
      if e.status == Running { DownDrainUncancelled(j, s.(down := e)); }
    }
  }

  lemma NextUncancelled(j: Job, s: Sys, e: Event)
    requires j.Valid() && Fits(j) && Inv(j, s) && Uncancelled(j, s) && Enabled(s, e) && !IsQuit(e)
    ensures Uncancelled(j, Next(s, j, e))
  {
    hide Inv, UpDrain, DownDrain, UpWrite, Normal, Refuses;
    match e
    case UpWritable(w, pick) =>
      UpWriteRuns(s.up, j, w, pick);
      UpWriteStays(s.up, j, w, pick);
    case UpReadable(k, pick) =>
      UpReadInv(j, s, k);
      UpDrainUncancelled(j, Sys(s.up.(rbuf := s.up.rbuf + s.down.tx[..k]), s.down.(tx := s.down.tx[k..])), pick);
    case DownReadable(k) =>
      DownReadInv(j, s, k);
      DownDrainUncancelled(j, Sys(s.up.(tx := s.up.tx[k..]), s.down.(rbuf := s.down.rbuf + s.up.tx[..k])));
  }

  lemma UpWriteStays(u: Up, j: Job, w: nat, pick: nat)
    requires j.Valid() && w <= |u.out|
    ensures UpWrite(u, j, w, pick).state == u.state || UpWrite(u, j, w, pick).state == SE
  {
  }

  lemma {:induction false} RunUncancelled(j: Job, events: seq<Event>)
    requires j.Valid() && Fits(j) && NobodyQuits(events)
    ensures Uncancelled(j, Run(j, events))
  {
    hide Inv, Next, Enabled, Normal, Refuses, IsQuit;
    if events != [] {
      RunUncancelled(j, events[..|events| - 1]);
      RunInv(j, events[..|events| - 1]);
      var s, e := Run(j, events[..|events| - 1]), events[|events| - 1];
      if Enabled(s, e) { NextUncancelled(j, s, e); }
    }
  }

  /** The transfer has ended in the one way the situation allows: refused because the file cannot
      be opened; refused by an uploader that does not understand the resume request, with nothing
      added to the file; or complete. */
  predicate Decided(j: Job, s: Sys) {
    && (Refuses(j) ==> s.up.status == Aborted(PeerAbort) && s.down.status == Aborted(OpenFailed))
    && (Resumes(j) ==> s.up.status == Aborted(PeerAbort) && s.down.status == Running && s.down.disk == j.existing)
    && (Normal(j) ==> s.up.status == s.down.status == Finished && s.down.disk == j.existing + j.file)
  }

  /** Without cancellation a run that can go no further has a decided outcome. */
  lemma OutcomeIsDecided(j: Job, events: seq<Event>)
    requires j.Valid() && Fits(j) && NobodyQuits(events)
    requires Stuck(Run(j, events))
    ensures Decided(j, Run(j, events))
  {
    hide Run, Inv, Stuck, IsQuit, Good;
    var s := Run(j, events);
    NoDeadlock(j, events);
    RunUncancelled(j, events);
    RunInv(j, events);
    if s.down.status == Running { NothingAdded(j, s); }
    if s.up.status == Finished { FinishedIsWhole(j, s); }
  }

  lemma NothingAdded(j: Job, s: Sys)
    requires j.Valid() && Inv(j, s) && s.down.status == Running && s.up.state !in {SD, SE, ST}
    ensures s.down.disk == j.existing
  {
    hide DownOwn, DownStream, Cat, UpOwn, UpPhase, Leftover;
    var ds, core, toUp :| InvWith(j, s, ds, core, toUp);
  }

  lemma FinishedIsWhole(j: Job, s: Sys)
    requires j.Valid() && Inv(j, s) && s.up.status == Finished
    ensures s.down.disk == j.existing + j.file
  {
    InvIsGood(j, s);
  }
}
