/**
 Every YAPP transfer comes to an end: a bound on the number of events of any run. With
 YappOutcome this is total correctness: a run that nobody cancels can only go on for so long,
 and where it stops the outcome is the one the situation decides.
 */
module YappProgress {
  import opened Yapp
  import opened YappSafety
  import opened YappOutcome

  // ----- the work that is left

  const STAGE := 20000

  function Stages(u: Up): nat {
    if u.status != Running then 0
    else
      match u.state
      case S => 6
      case SH => 5
      case SD => 4
      case SE => 2
      case ST => 1
  }

  function UpWork(u: Up): nat {
    130 * |u.unread| + 31 * |u.out| + 30 * |u.tx| + |u.rbuf| + STAGE * Stages(u)
  }

  function DownWork(d: Down): nat {
    29 * |d.rbuf| + 2 * |d.tx| + (if d.status == Running then STAGE else 0)
  }

  function Work(s: Sys): nat {
    UpWork(s.up) + DownWork(s.down)
  }

  // ----- every step leaves less

  lemma HeaderIsShort(j: Job)
    requires j.Valid()
    ensures |Header(j)| <= 257
  {
    hide HeaderFields;
  }

  lemma FillBlockWork(u: Up, readlen: nat, pick: nat)
    requires readlen <= 253
    ensures var v := FillBlock(u, readlen, pick);
            && v.status == u.status && v.state == u.state && v.rbuf == u.rbuf
            && UpWork(v) <= UpWork(u) + 31
            && (ReadCount(u.unread, readlen, pick) > 0 ==> UpWork(v) < UpWork(u))
  {
    hide Sum;
  }

  lemma UpDataWork(u: Up, j: Job, msg: seq<Byte>, pick: nat)
    requires j.Valid() && |msg| >= 2 && u.status == Running
    ensures UpWork(UpData(u, j, msg, pick)) < UpWork(u) && UpData(u, j, msg, pick).rbuf == u.rbuf
  {
    hide UpData, UpWork;
    if u.state == S {
      UpDataBegins(u, j, msg, pick);
    } else if u.state == SH {
      UpDataAnswered(u, j, msg, pick);
    } else {
      UpDataEnds(u, j, msg, pick);
    }
  }

  lemma UpDataBegins(u: Up, j: Job, msg: seq<Byte>, pick: nat)
    requires j.Valid() && |msg| >= 2 && u.status == Running && u.state == S
    ensures UpWork(UpData(u, j, msg, pick)) < UpWork(u) && UpData(u, j, msg, pick).rbuf == u.rbuf
  {
    hide FillBlock, Header;
    HeaderIsShort(j);
    FillBlockWork(u, j.readlen, pick);
  }

  lemma UpDataAnswered(u: Up, j: Job, msg: seq<Byte>, pick: nat)
    requires j.Valid() && |msg| >= 2 && u.status == Running && u.state == SH
    ensures UpWork(UpData(u, j, msg, pick)) < UpWork(u) && UpData(u, j, msg, pick).rbuf == u.rbuf
  {
    hide FillBlock;
    FillBlockWork(u.(yappc := u.yappc || msg[1] == ACK), j.readlen, pick);
  }

  lemma UpDataEnds(u: Up, j: Job, msg: seq<Byte>, pick: nat)
    requires j.Valid() && |msg| >= 2 && u.status == Running && u.state != S && u.state != SH
    ensures UpWork(UpData(u, j, msg, pick)) < UpWork(u) && UpData(u, j, msg, pick).rbuf == u.rbuf
  {
    hide FillBlock, Header;
  }

  lemma MessageIsLong(buf: seq<Byte>, extra: nat)
    ensures Complete(buf, extra) > 0 ==> Complete(buf, extra) >= 2
  {
  }

  lemma {:induction false} UpDrainWork(u: Up, j: Job, pick: nat)
    requires j.Valid()
    ensures UpWork(UpDrain(u, j, pick)) <= UpWork(u)
    decreases |u.rbuf|
  {
    hide UpData, Complete, Stages;
    if u.status == Running && Complete(u.rbuf, 0) > 0 {
      var k := Complete(u.rbuf, 0);
      MessageIsLong(u.rbuf, 0);
      UpDataWork(u, j, u.rbuf[..k], pick);
      var v := UpStep(u, j, pick);
      if v.status == Running {
        SameStages(UpData(u, j, u.rbuf[..k], pick), v);
        UpDrainWork(v, j, pick);
      }
    }
  }

  lemma SameStages(u: Up, v: Up)
    requires u.status == v.status && u.state == v.state
    ensures Stages(u) == Stages(v)
  {
  }

  lemma UpWriteWork(u: Up, j: Job, w: nat, pick: nat)
    requires j.Valid() && u.status == Running && u.state == SD && w <= |u.out| && (w >= 1 || u.out == [])
    ensures UpWork(UpWrite(u, j, w, pick)) < UpWork(u)
  {
    hide FillBlock, ReadCount;
    var v := u.(out := u.out[w..], total := u.total + w).Send(u.out[..w]);
    assert UpWork(v) == UpWork(u) - w;
    var t := v.(total := v.total - (if v.yappc then 1 else 0));
    FillBlockWork(t, j.readlen, pick);
  }

  lemma ResumeIsShort(j: Job)
    requires j.Valid()
    ensures |Resume(j)| <= 18
  {
  }

  /** The downloader's answers are short. */
  lemma AnswersAreShort(d: Down, j: Job, msg: seq<Byte>)
    requires j.Valid() && Framed(msg, d.Extra()) && d.status == Running
    ensures var e := DownData(d, j, msg);
            e.rbuf == d.rbuf && |e.tx| <= |d.tx| + 18
  {
    hide Resume;
    ResumeIsShort(j);
    match d.state
    case R =>
    case RH => HeaderAnswerIsShort(d, j, msg);
    case RD => DataAnswerIsShort(d, j, msg);
  }

  lemma HeaderAnswerIsShort(d: Down, j: Job, msg: seq<Byte>)
    requires j.Valid() && Framed(msg, d.Extra()) && d.status == Running && d.state == RH
    ensures var e := DownData(d, j, msg);
            e.rbuf == d.rbuf && |e.tx| <= |d.tx| + 18
  {
    hide Fields, Resume;
    ResumeIsShort(j);
  }

  lemma DataAnswerIsShort(d: Down, j: Job, msg: seq<Byte>)
    requires j.Valid() && Framed(msg, d.Extra()) && d.status == Running && d.state == RD
    ensures var e := DownData(d, j, msg);
            e.rbuf == d.rbuf && |e.tx| <= |d.tx| + 18
  {
    hide Sum;
  }

  lemma FrontIsFramed(buf: seq<Byte>, extra: nat)
    requires Complete(buf, extra) > 0
    ensures Framed(buf[..Complete(buf, extra)], extra)
  {
  }

  lemma {:induction false} DownDrainWork(d: Down, j: Job)
    requires j.Valid()
    ensures DownWork(DownDrain(d, j)) <= DownWork(d)
    decreases |d.rbuf|
  {
    hide DownData, Complete;
    if d.status == Running && Complete(d.rbuf, d.Extra()) > 0 {
      var k := Complete(d.rbuf, d.Extra());
      MessageIsLong(d.rbuf, d.Extra());
      FrontIsFramed(d.rbuf, d.Extra());
      AnswersAreShort(d, j, d.rbuf[..k]);
      var e := DownStep(d, j);
      if e.status == Running { DownDrainWork(e, j); }
    }
  }

  lemma NextWork(s: Sys, j: Job, e: Event)
    requires j.Valid() && Effective(s, e)
    ensures Work(Next(s, j, e)) < Work(s)
  {
    hide UpDrain, DownDrain, UpWrite;
    match e
    case UpWritable(w, pick) => UpWriteWork(s.up, j, w, pick);
    case UpReadable(k, pick) => UpDrainWork(s.up.(rbuf := s.up.rbuf + s.down.tx[..k]), j, pick);
    case DownReadable(k) => DownDrainWork(s.down.(rbuf := s.down.rbuf + s.up.tx[..k]), j);
    case UpQuit(_) =>
    case DownQuit(_) =>
  }

  // ----- the bound

  /** No run goes on for longer than the work there was at the start: it depends on the length
      of the file alone. */
  lemma {:induction false} RunsAreBounded(j: Job, events: seq<Event>)
    requires j.Valid() && AllEffective(j, events)
    ensures |events| + Work(Run(j, events)) <= Work(Init(j)) == 130 * |j.file| + 7 * STAGE + 60
  {
    hide Work, Next, Effective;
    InitialWork(j);
    if events != [] {
      var front, e := events[..|events| - 1], events[|events| - 1];
      forall i | 0 <= i < |front| ensures Effective(Run(j, front[..i]), front[i]) {
        assert front[..i] == events[..i];
        assert Effective(Run(j, events[..i]), events[i]);
      }
      RunsAreBounded(j, front);
      assert Effective(Run(j, events[..|events| - 1]), e);
      EffectiveIsEnabled(Run(j, front), e);
      NextWork(Run(j, front), j, e);
    }
  }

  lemma EffectiveIsEnabled(s: Sys, e: Event)
    requires Effective(s, e)
    ensures Enabled(s, e)
  {
  }

  lemma InitialWork(j: Job)
    requires j.Valid()
    ensures Work(Init(j)) == 130 * |j.file| + 7 * STAGE + 60
  {
  }

  /** A state that is not stuck has an event to go on with. */
  lemma GoesOn(s: Sys) returns (e: Event)
    requires !Stuck(s)
    ensures Effective(s, e) && !IsQuit(e)
  {
    var f :| Enabled(s, f) && !IsQuit(f);
    e := if f.UpWritable? then UpWritable(|s.up.out|, f.pick) else f;
  }

  /** Total correctness: any run that nobody cancels can be completed to one that is stuck, and
      then the outcome is decided. */
  lemma Completes(j: Job, events: seq<Event>) returns (longer: seq<Event>)
    requires j.Valid() && Fits(j) && AllEffective(j, events) && NobodyQuits(events)
    ensures events <= longer && AllEffective(j, longer) && NobodyQuits(longer)
    ensures Stuck(Run(j, longer)) && Decided(j, Run(j, longer))
    decreases Work(Run(j, events))
  {
    hide Run, Stuck, Effective, AllEffective, Work, Decided;
    if Stuck(Run(j, events)) {
      longer := events;
      OutcomeIsDecided(j, events);
    } else {
      var e := GoesOn(Run(j, events));
      OneMore(j, events, e);
      longer := Completes(j, events + [e]);
    }
  }

  lemma OneMore(j: Job, events: seq<Event>, e: Event)
    requires j.Valid() && AllEffective(j, events) && Effective(Run(j, events), e)
    ensures AllEffective(j, events + [e]) && Work(Run(j, events + [e])) < Work(Run(j, events))
  {
    hide Work, Next, Effective, AllEffective;
    var longer := Extend(j, events, Run(j, events), e);
    NextWork(Run(j, events), j, e);
  }
}
