/**
 The YAPP transfers that go wrong: a YAPP C transfer of an empty file into a new or empty one.
 There the two sides come to wait for each other, so that the promises of YappSafety, YappOutcome
 and YappProgress hold for exactly the other transfers.
 */
module YappExact {
  import opened Yapp
  import opened YappSafety
  import opened YappOutcome
  import opened YappProgress

  /** The uploader has sent the checksum of no data and the end of file, and waits for the
      acknowledgement; the downloader takes the three octets for the start of a message of five. */
  predicate BothWait(j: Job, s: Sys) {
    && s.up.status == Running && s.up.state == SE && s.up.tx == [] && s.up.rbuf == []
    && s.down.status == Running && s.down.state == RD && s.down.tx == [] && s.down.rbuf == [0, ETX, 1]
  }

  lemma BothWaitIsStuck(j: Job, s: Sys)
    requires BothWait(j, s)
    ensures Stuck(s)
  {
  }

  lemma StrayOctetWritten(j: Job, s: Sys) returns (v: Sys)
    requires j.Valid() && j.file == [] && s.up == UpInit(j).(state := SD, yappc := true, out := [0], tx := [])
    ensures Effective(s, UpWritable(1, 0)) && v == Next(s, j, UpWritable(1, 0)) && v.down == s.down
    ensures v.up.status == Running && v.up.state == SE && v.up.tx == [0, ETX, 1] && v.up.rbuf == []
  {
    v := Next(s, j, UpWritable(1, 0));
  }

  lemma StrayOctetRead(j: Job, v: Sys) returns (t: Sys)
    requires j.Valid() && v.up.status == Running && v.up.state == SE && v.up.tx == [0, ETX, 1] && v.up.rbuf == []
    requires v.down.status == Running && v.down.state == RD && v.down.rbuf == [] && v.down.tx == []
    ensures Effective(v, DownReadable(3)) && t == Next(v, j, DownReadable(3)) && BothWait(j, t)
  {
    hide DownData;
    t := Next(v, j, DownReadable(3));
    assert v.up.tx[..3] == v.up.tx && [] + v.up.tx == v.up.tx;
  }

  /** A run of the broken transfer that nobody cancels and that goes no further. */
  lemma WaitingRun(j: Job) returns (events: seq<Event>)
    requires j.Valid() && !Fits(j)
    ensures AllEffective(j, events) && NobodyQuits(events)
    ensures BothWait(j, Run(j, events)) && Stuck(Run(j, events))
  {
    hide Run, Next, Effective, AllEffective, Fits, Stuck, BothWait;
    assert j.file == [] by { BrokenIsEmpty(j); }
    var s := Init(j);
    events := Handshake(j);
    events, s := BrokenStart(j, events);
    var v := StrayOctetWritten(j, s);
    var t := StrayOctetRead(j, v);
    events := Extend(j, events, s, UpWritable(1, 0));
    events := Extend(j, events, v, DownReadable(3));
    BothWaitIsStuck(j, t);
  }

  lemma BrokenIsEmpty(j: Job)
    requires !Fits(j)
    ensures j.file == [] && Normal(j)
  {
  }

  /** Every run that can go no further, cancelled or not, has ended on both sides (but for the
      resume request) if and only if the transfer is not the broken one. */
  lemma NoDeadlockExactly(j: Job)
    requires j.Valid()
    ensures (forall events: seq<Event> :: Stuck(Run(j, events)) ==> Ended(j, Run(j, events))) <==> Fits(j)
  {
    hide Run, Stuck, Fits;
    if Fits(j) {
      forall events: seq<Event> | Stuck(Run(j, events)) ensures Ended(j, Run(j, events)) {
        NoDeadlock(j, events);
      }
    } else {
      var events := WaitingRun(j);
      assert !Ended(j, Run(j, events));
    }
  }

  /** Every run that nobody cancels and that can go no further has the decided outcome if and
      only if the transfer is not the broken one. */
  lemma OutcomeExactly(j: Job)
    requires j.Valid()
    ensures (forall events: seq<Event> :: NobodyQuits(events) && Stuck(Run(j, events)) ==> Decided(j, Run(j, events)))
            <==> Fits(j)
  {
    hide Run, Stuck, Fits, Normal, NobodyQuits;
    if Fits(j) {
      forall events: seq<Event> | NobodyQuits(events) && Stuck(Run(j, events)) ensures Decided(j, Run(j, events)) {
        OutcomeIsDecided(j, events);
      }
    } else {
      var events := WaitingRun(j);
      BrokenIsEmpty(j);
      assert !Decided(j, Run(j, events));
    }
  }

  ghost predicate Completion(j: Job, events: seq<Event>, longer: seq<Event>)
    requires j.Valid()
  {
    && events <= longer && AllEffective(j, longer) && NobodyQuits(longer)
    && Stuck(Run(j, longer)) && Decided(j, Run(j, longer))
  }

  /** Every run that nobody cancels can be completed to one with the decided outcome if and only
      if the transfer is not the broken one. */
  lemma CompletesExactly(j: Job)
    requires j.Valid()
    ensures (forall events: seq<Event> :: AllEffective(j, events) && NobodyQuits(events) ==>
               exists longer :: Completion(j, events, longer)) <==> Fits(j)
  {
    hide Run, Stuck, Fits, Normal, NobodyQuits, AllEffective, Decided;
    if Fits(j) {
      forall events: seq<Event> | AllEffective(j, events) && NobodyQuits(events)
        ensures exists longer :: Completion(j, events, longer)
      {
        var longer := Completes(j, events);
        assert Completion(j, events, longer);
      }
    } else {
      var events := WaitingRun(j);
      forall longer ensures !Completion(j, events, longer) {
        if Completion(j, events, longer) { StuckStays(j, events, longer); }
      }
    }
  }

  /** Nobody but a canceller can continue a stuck run; so the waiting one is not completed. */
  lemma StuckStays(j: Job, events: seq<Event>, longer: seq<Event>)
    requires j.Valid() && !Fits(j) && BothWait(j, Run(j, events)) && Stuck(Run(j, events))
    requires events <= longer && AllEffective(j, longer) && NobodyQuits(longer)
    ensures !Decided(j, Run(j, longer))
  {
    hide Run, Next, Stuck, Fits, Normal;
    BrokenIsEmpty(j);
    if longer == events {
    } else {
      var e := longer[|events|];
      assert longer[..|events|] == events;
      assert Effective(Run(j, longer[..|events|]), e);
      EnabledIsNotStuck(Run(j, events), e);
    }
  }

  /** The joint invariant holds in every run if and only if the transfer is not the broken one. */
  lemma InvariantExactly(j: Job)
    requires j.Valid()
    ensures (forall events: seq<Event> :: Inv(j, Run(j, events))) <==> Fits(j)
  {
    hide Run, Inv, Good, Fits, AllEffective;
    if Fits(j) {
      forall events: seq<Event> ensures Inv(j, Run(j, events)) {
        RunInv(j, events);
      }
    } else {
      var events := BrokenRun(j);
      if Inv(j, Run(j, events)) { InvIsGood(j, Run(j, events)); }
    }
  }

  /** Every event keeps the joint invariant. */
  ghost predicate Inductive(j: Job)
    requires j.Valid()
  {
    forall s: Sys, e: Event :: Inv(j, s) && Enabled(s, e) ==> Inv(j, Next(s, j, e))
  }

  lemma InductiveExactly(j: Job)
    requires j.Valid()
    ensures Inductive(j) <==> Fits(j)
  {
    hide Run, Inv, Fits, Next, Enabled, Inductive;
    if Fits(j) {
      StepsKeep(j);
    } else if Inductive(j) {
      forall events: seq<Event> ensures Inv(j, Run(j, events)) {
        InductiveHolds(j, events);
      }
      InvariantExactly(j);
    }
  }

  lemma StepsKeep(j: Job)
    requires j.Valid() && Fits(j)
    ensures Inductive(j)
  {
    hide Inv, Fits, Next, Enabled;
    forall s: Sys, e: Event | Inv(j, s) && Enabled(s, e) ensures Inv(j, Next(s, j, e)) {
      NextInv(j, s, e);
    }
  }

  lemma {:induction false} InductiveHolds(j: Job, events: seq<Event>)
    requires j.Valid() && Inductive(j)
    ensures Inv(j, Run(j, events))
  {
    hide Inv, Next, Enabled;
    if events == [] {
      InitInv(j);
    } else {
      InductiveHolds(j, events[..|events| - 1]);
    }
  }
}
