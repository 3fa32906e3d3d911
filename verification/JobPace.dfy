/** When a job is executed: not before the backoff has passed, not before its dependencies succeeded, never again once
    the slot is closed, and otherwise at once. */
module JobPace {
  import opened Bytes
  import opened Jobs
  import opened JobCuts

  /** Attempts of one slot that follow one another are at least the backoff apart. */
  ghost predicate Spaced(events: seq<Event>, backoff: nat) {
    forall i :: 0 < i < |events| && events[i - 1].slot == events[i].slot ==>
                  events[i - 1].time + backoff <= events[i].time
  }

  predicate HasClock(step: Step) { step.Wait? || step.Begin? }

  /** The clock the calls read does not go back. */
  ghost predicate Forward(steps: seq<Step>) {
    forall i, j :: 0 <= i < j < |steps| && HasClock(steps[i]) && HasClock(steps[j]) ==> steps[i].now <= steps[j].now
  }

  /** The running mark of the attempt after `p`, if there is one, was set when the backoff after `p` had passed. */
  ghost predicate MarkedInTime(job: Job, backoff: nat) {
    job.status.Some? && job.status.value.phase.Running? && job.events != [] ==>
      var p, m := job.events[|job.events| - 1], job.status.value;
      p.slot == m.slot && m.attempt == p.attempt + 1 ==> p.time + backoff <= m.time
  }

  /** No running mark is from the future of step `n`. */
  ghost predicate MarkedBefore(job: Job, steps: seq<Step>, n: nat) {
    job.status.Some? && job.status.value.phase.Running? ==>
      forall i :: n <= i < |steps| && HasClock(steps[i]) ==> job.status.value.time <= steps[i].now
  }

  ghost predicate JobPaced(job: Job, backoff: nat, steps: seq<Step>, n: nat) {
    Spaced(Listed(job), backoff) && MarkedInTime(job, backoff) && MarkedBefore(job, steps, n)
  }

  /** The call in progress carries the time of its running mark. */
  ghost predicate CallTimed(s: System) {
    (s.progress.Started? || s.progress.Executed?) && s.progress.job < |s.jobs| &&
    s.jobs[s.progress.job].status.Some? ==>
      s.jobs[s.progress.job].status.value.time == s.progress.time
  }

  ghost predicate Paced(s: System, specs: seq<Spec>, steps: seq<Step>, n: nat) {
    && |specs| == |s.jobs| && CallTimed(s)
    && forall j :: 0 <= j < |s.jobs| ==> JobPaced(s.jobs[j], specs[j].backoff, steps, n)
  }

  // ---- steps ----

  lemma {:induction false} Later(job: Job, backoff: nat, steps: seq<Step>, n: nat)
    requires JobPaced(job, backoff, steps, n)
    ensures JobPaced(job, backoff, steps, n + 1)
  {
    hide Spaced, MarkedInTime;
  }

  /** One job changes. */
  lemma {:induction false} OthersPaced(s: System, specs: seq<Spec>, steps: seq<Step>, n: nat, j: nat, job: Job,
                                       t: System)
    requires Paced(s, specs, steps, n) && j < |s.jobs| && t.jobs == s.jobs[j := job] && CallTimed(t)
    requires JobPaced(job, specs[j].backoff, steps, n + 1)
    ensures Paced(t, specs, steps, n + 1)
  {
    hide JobPaced, CallTimed;
    forall i | 0 <= i < |t.jobs| ensures JobPaced(t.jobs[i], specs[i].backoff, steps, n + 1) {
      if i != j { Later(s.jobs[i], specs[i].backoff, steps, n); }
    }
  }

  lemma {:induction false} NoneChanges(s: System, specs: seq<Spec>, steps: seq<Step>, n: nat, t: System)
    requires Paced(s, specs, steps, n) && t.jobs == s.jobs && t.progress.Idle?
    ensures Paced(t, specs, steps, n + 1)
  {
    hide JobPaced;
    forall i | 0 <= i < |t.jobs| ensures JobPaced(t.jobs[i], specs[i].backoff, steps, n + 1) {
      Later(s.jobs[i], specs[i].backoff, steps, n);
    }
  }

  /** A status that is not a running mark needs nothing. */
  lemma {:induction false} NotRunning(job: Job, backoff: nat, steps: seq<Step>, n: nat)
    requires Spaced(Listed(job), backoff) && (job.status.Some? ==> !job.status.value.phase.Running?)
    ensures JobPaced(job, backoff, steps, n)
  {
  }

  lemma {:induction false} BeginPaced(s: System, j: nat, slot: int, now: int, t: System, specs: seq<Spec>,
                                      steps: seq<Step>, n: nat)
    requires Inv(s, specs) && Paced(s, specs, steps, n) && Next(s, Begin(j, slot, now), t, specs)
    requires n < |steps| && steps[n] == Begin(j, slot, now) && Forward(steps)
    ensures JobPaced(t.jobs[j], specs[j].backoff, steps, n + 1)
  {
    hide Ledger, DepsMet, Spaced;
    var job := s.jobs[j];
    assert JobOk(job, specs[j].maxRetries) && JobPaced(job, specs[j].backoff, steps, n);
    ListedPrefix(job, specs[j].maxRetries);
    assert HasClock(steps[n]);
    assert job.status.Some? && job.status.value.phase.Running? ==> job.status.value.time <= now;
    if job.events != [] { SoundLast(job.events, specs[j].maxRetries); }
    assert Listed(t.jobs[j]) == Listed(job);
    assert MarkedInTime(t.jobs[j], specs[j].backoff);
  }

  lemma {:induction false} SoundLast(events: seq<Event>, maxRetries: nat)
    requires Ledger(events, maxRetries) && events != []
    ensures events[|events| - 1].attempt >= 1
  {
    assert Sound(events[|events| - 1], maxRetries);
  }

  lemma {:induction false} SpacedPrefix(events: seq<Event>, e: Event, backoff: nat)
    requires Spaced(events + [e], backoff)
    ensures Spaced(events, backoff)
  {
    var all := events + [e];
    forall i | 0 < i < |events| && events[i - 1].slot == events[i].slot
      ensures events[i - 1].time + backoff <= events[i].time
    {
      assert all[i - 1] == events[i - 1] && all[i] == events[i];
    }
  }

  lemma {:induction false} SpacedMore(events: seq<Event>, e: Event, backoff: nat)
    requires Spaced(events, backoff)
    requires events != [] && events[|events| - 1].slot == e.slot ==> events[|events| - 1].time + backoff <= e.time
    ensures Spaced(events + [e], backoff)
  {
  }

  lemma {:induction false} WritePaced(s: System, t: System, specs: seq<Spec>, steps: seq<Step>, n: nat)
    requires Inv(s, specs) && Paced(s, specs, steps, n) && Next(s, Write, t, specs) && !Reckless(s, Write)
    ensures JobPaced(t.jobs[s.progress.job], specs[s.progress.job].backoff, steps, n + 1)
  {
    var Executed(j, slot, attempt, time, ok) := s.progress;
    var job, spec := s.jobs[j], specs[j];
    var e := Judged(slot, attempt, ok, time, spec.maxRetries);
    assert JobOk(job, spec.maxRetries) && JobPaced(job, spec.backoff, steps, n);
    WriteKeepsLedgerIff(job, slot, attempt, ok, time, spec.maxRetries);
    if job.events != [] { LastFollows(job.events, e, spec.maxRetries); }
    hide Ledger, Due, Stale;
    if job.unacked.Some? { SpacedPrefix(job.events, job.unacked.value, spec.backoff); }
    SpacedMore(job.events, e, spec.backoff);
    assert Listed(t.jobs[j]) == job.events + [e];
    hide Spaced;
    Later(job, spec.backoff, steps, n);
  }

  lemma {:induction false} LastFollows(events: seq<Event>, e: Event, maxRetries: nat)
    requires Ledger(events + [e], maxRetries) && events != []
    ensures Follows(events[|events| - 1], e)
  {
    var all := events + [e];
    assert Follows(all[|events| - 1], all[|events|]);
  }

  lemma {:induction false} CallPaced(s: System, step: Step, t: System, specs: seq<Spec>, steps: seq<Step>, n: nat)
    requires step.Work? || step.Acknowledge? || step.Finish?
    requires Inv(s, specs) && Paced(s, specs, steps, n) && Next(s, step, t, specs)
    ensures JobPaced(t.jobs[s.progress.job], specs[s.progress.job].backoff, steps, n + 1)
  {
    var j := s.progress.job;
    hide JobOk, Spaced;
    assert JobPaced(s.jobs[j], specs[j].backoff, steps, n);
    assert Listed(t.jobs[j]) == Listed(s.jobs[j]);
    Later(s.jobs[j], specs[j].backoff, steps, n);
  }

  lemma {:induction false} WaitPaced(s: System, j: nat, slot: int, now: int, t: System, specs: seq<Spec>,
                                     steps: seq<Step>, n: nat)
    requires Paced(s, specs, steps, n) && Next(s, Wait(j, slot, now), t, specs)
    ensures JobPaced(t.jobs[j], specs[j].backoff, steps, n + 1)
  {
    hide Spaced;
    assert JobPaced(s.jobs[j], specs[j].backoff, steps, n);
    assert Listed(t.jobs[j]) == Listed(s.jobs[j]);
    Later(s.jobs[j], specs[j].backoff, steps, n);
  }

  lemma {:induction false} RecoverPaced(s: System, t: System, specs: seq<Spec>, steps: seq<Step>, n: nat)
    requires Paced(s, specs, steps, n) && Next(s, RecoverOne, t, specs)
    ensures JobPaced(t.jobs[s.mode.next], specs[s.mode.next].backoff, steps, n + 1)
  {
    var j := s.mode.next;
    hide Spaced, LatestIn;
    assert JobPaced(s.jobs[j], specs[j].backoff, steps, n);
    assert Listed(t.jobs[j]) == Listed(s.jobs[j]);
    Later(s.jobs[j], specs[j].backoff, steps, n);
    if t.jobs[j].status != s.jobs[j].status { NotRunning(t.jobs[j], specs[j].backoff, steps, n + 1); }
  }

  lemma {:induction false} TimedStep(s: System, step: Step, t: System, specs: seq<Spec>)
    requires Always(s, specs) && CallTimed(s) && Next(s, step, t, specs)
    ensures CallTimed(t)
  {
    hide Decided, Recovered, StatusOf, Judged;
  }

  lemma {:induction false} StepPaced(s: System, t: System, specs: seq<Spec>, steps: seq<Step>, n: nat)
    requires n < |steps| && Forward(steps)
    requires Inv(s, specs) && Paced(s, specs, steps, n) && Next(s, steps[n], t, specs) && !Reckless(s, steps[n])
    ensures Paced(t, specs, steps, n + 1)
  {
    TimedStep(s, steps[n], t, specs);
    hide JobPaced, JobOk, Decided, Recovered, Forward, Reckless, CallTimed;
    match steps[n]
    case Begin(j, slot, now) =>
      BeginPaced(s, j, slot, now, t, specs, steps, n);
      OthersPaced(s, specs, steps, n, j, t.jobs[j], t);
    case Wait(j, slot, now) =>
      WaitPaced(s, j, slot, now, t, specs, steps, n);
      OthersPaced(s, specs, steps, n, j, t.jobs[j], t);
    case Write =>
      WritePaced(s, t, specs, steps, n);
      OthersPaced(s, specs, steps, n, s.progress.job, t.jobs[s.progress.job], t);
    case RecoverOne =>
      RecoverPaced(s, t, specs, steps, n);
      OthersPaced(s, specs, steps, n, s.mode.next, t.jobs[s.mode.next], t);
    case Fail => NoneChanges(s, specs, steps, n, t);
    case Stop => NoneChanges(s, specs, steps, n, t);
    case RecoverFails => StillPaced(s, specs, steps, n, t);
    case RecoverDone => StillPaced(s, specs, steps, n, t);
    case _ =>
      CallPaced(s, steps[n], t, specs, steps, n);
      OthersPaced(s, specs, steps, n, s.progress.job, t.jobs[s.progress.job], t);
  }

  lemma {:induction false} StillPaced(s: System, specs: seq<Spec>, steps: seq<Step>, n: nat, t: System)
    requires Paced(s, specs, steps, n) && t.jobs == s.jobs && CallTimed(t)
    ensures Paced(t, specs, steps, n + 1)
  {
    hide JobPaced, CallTimed;
    forall i | 0 <= i < |t.jobs| ensures JobPaced(t.jobs[i], specs[i].backoff, steps, n + 1) {
      Later(s.jobs[i], specs[i].backoff, steps, n);
    }
  }

  lemma {:induction false} StartPaced(s: System, specs: seq<Spec>, steps: seq<Step>)
    requires IsStart(s, specs)
    ensures Paced(s, specs, steps, 0)
  {
    forall j | 0 <= j < |s.jobs| ensures JobPaced(s.jobs[j], specs[j].backoff, steps, 0) {
      assert s.jobs[j].status.None? && Listed(s.jobs[j]) == [];
    }
  }

  lemma {:induction false} RunPaced(states: seq<System>, steps: seq<Step>, specs: seq<Spec>, n: nat)
    requires IsRun(states, steps, specs) && n < |states| && NoReckless(states, steps, n) && Forward(steps)
    ensures Paced(states[n], specs, steps, n)
  {
    hide Next, Reckless, Forward, Paced, Inv, IsStart;
    if n == 0 {
      StartPaced(states[0], specs, steps);
    } else {
      RunPaced(states, steps, specs, n - 1);
      RunKeeps(states, steps, specs, n - 1);
      assert Next(states[n - 1], steps[n - 1], states[n - 1 + 1], specs);
      StepPaced(states[n - 1], states[n], specs, steps, n - 1);
    }
  }

  lemma {:induction false} OneMoreSpaced(g: seq<Event>, e: Event, backoff: nat)
    requires forall i :: 0 < i < |g| ==> g[i - 1].time + backoff <= g[i].time
    ensures var h := g + [e];
            (g != [] ==> g[|g| - 1].time + backoff <= e.time) ==>
              forall i :: 0 < i < |h| ==> h[i - 1].time + backoff <= h[i].time
  {
  }

  /** In a ledger, events of one slot that follow one another in the slot follow one another in the ledger. */
  lemma {:induction false} SlotSpaced(events: seq<Event>, backoff: nat, maxRetries: nat, slot: int)
    requires Ledger(events, maxRetries) && Spaced(events, backoff)
    ensures var h := OfSlot(events, slot);
            forall i :: 0 < i < |h| ==> h[i - 1].time + backoff <= h[i].time
  {
    if events != [] {
      var n := |events| - 1;
      var init, e := events[..n], events[n];
      assert events == init + [e];
      LedgerPrefix(events, maxRetries);
      SpacedPrefix(init, e, backoff);
      SlotSpaced(init, backoff, maxRetries, slot);
      var g := OfSlot(init, slot);
      if e.slot == slot && g != [] {
        LastOfSlot(events, maxRetries, slot);
        assert g[|g| - 1] == events[n - 1];
        assert events[n - 1].time + backoff <= events[n].time;
      }
      assert OfSlot(events, slot) == if e.slot == slot then g + [e] else g;
      OneMoreSpaced(g, e, backoff);
    }
  }

  /** Before an event of the slot, the last event of the slot is the last event. */
  lemma {:induction false} LastOfSlot(events: seq<Event>, maxRetries: nat, slot: int)
    requires Ledger(events, maxRetries) && events != [] && events[|events| - 1].slot == slot
    requires OfSlot(events[..|events| - 1], slot) != []
    ensures var init := events[..|events| - 1];
            && init != [] && init[|init| - 1].slot == slot
            && OfSlot(init, slot)[|OfSlot(init, slot)| - 1] == init[|init| - 1]
  {
    var init := events[..|events| - 1];
    LedgerPrefix(events, maxRetries);
    SlotsAscend(init, maxRetries);
    SlotsAscend(events, maxRetries);
    if init[|init| - 1].slot < slot { NoneOfSlot(init, slot); }
    assert init[|init| - 1] == events[|init| - 1];
    OfSlotEnds(init, slot);
  }

  /** In every run that keeps its ledgers whole and whose clock does not go back, the attempts of a slot are at least
      the job's backoff apart. */
  lemma {:induction false} AttemptsAreSpaced(states: seq<System>, steps: seq<Step>, specs: seq<Spec>, n: nat, j: nat,
                                             slot: int)
    requires IsRun(states, steps, specs) && NoReckless(states, steps, |steps|) && Forward(steps)
    requires n < |states| && j < |specs|
    ensures |states[n].jobs| == |specs|
    ensures var h := OfSlot(Listed(states[n].jobs[j]), slot);
            forall i :: 0 < i < |h| ==> h[i - 1].time + specs[j].backoff <= h[i].time
  {
    hide Next, Reckless, Forward;
    RunKeeps(states, steps, specs, n);
    RunPaced(states, steps, specs, n);
    assert JobOk(states[n].jobs[j], specs[j].maxRetries);
    assert JobPaced(states[n].jobs[j], specs[j].backoff, steps, n);
    SlotSpaced(Listed(states[n].jobs[j]), specs[j].backoff, specs[j].maxRetries, slot);
  }

  /** So in every careful run. */
  lemma {:induction false} CarefulAttemptsAreSpaced(states: seq<System>, steps: seq<Step>, specs: seq<Spec>, n: nat,
                                                    j: nat, slot: int)
    requires IsRun(states, steps, specs) && AllCareful(states, steps) && Forward(steps) && n < |states| && j < |specs|
    ensures |states[n].jobs| == |specs|
    ensures var h := OfSlot(Listed(states[n].jobs[j]), slot);
            forall i :: 0 < i < |h| ==> h[i - 1].time + specs[j].backoff <= h[i].time
  {
    hide IsRun, Forward, AllTame, AllDepsFirst;
    RunLength(states, steps, specs);
    CarefulIsTame(states, steps, specs, |steps|);
    AttemptsAreSpaced(states, steps, specs, n, j, slot);
  }

  lemma {:induction false} RunLength(states: seq<System>, steps: seq<Step>, specs: seq<Spec>)
    requires IsRun(states, steps, specs)
    ensures |states| == |steps| + 1
  {
  }

  // ---- which calls execute ----

  ghost predicate Begins(s: System, j: nat, slot: int, now: int, specs: seq<Spec>) {
    exists t :: Next(s, Begin(j, slot, now), t, specs)
  }

  ghost predicate Waits(s: System, j: nat, slot: int, now: int, specs: seq<Spec>) {
    exists t :: Next(s, Wait(j, slot, now), t, specs)
  }

  lemma {:induction false} BeginsIffDecided(s: System, j: nat, slot: int, now: int, specs: seq<Spec>)
    requires |specs| == |s.jobs| && s.mode.Up? && s.progress.Idle? && j < |s.jobs| && slot >= s.jobs[j].asked
    ensures Begins(s, j, slot, now, specs) <==> Decided(s, j, slot, now, specs).Execute?
    ensures Waits(s, j, slot, now, specs) <==> !Decided(s, j, slot, now, specs).Execute?
  {
    var d, job := Decided(s, j, slot, now, specs), s.jobs[j].(asked := slot);
    hide Decided;
    if d.Execute? {
      var running := job.(status := Some(Status(Running, slot, d.attempt, now)));
      assert Next(s, Begin(j, slot, now), With(s, j, running, Started(j, slot, d.attempt, now)), specs);
    } else if d.Stay? {
      assert Next(s, Wait(j, slot, now), With(s, j, job, Idle), specs);
    } else {
      var pending := job.(status := Some(Status(Pending, slot, 0, 0)));
      assert Next(s, Wait(j, slot, now), With(s, j, pending, Idle), specs);
    }
  }

  /** The acknowledged events of the latest slot asked for: none, or the last of the ledger. */
  lemma {:induction false} SlotSoFar(job: Job, maxRetries: nat, slot: int)
    requires JobOk(job, maxRetries) && slot >= job.asked
    ensures var h := OfSlot(job.events, slot);
            && (h == [] <==> job.events == [] || job.events[|job.events| - 1].slot < slot)
            && (h != [] ==> h[|h| - 1] == job.events[|job.events| - 1] && h[|h| - 1].attempt == |h|)
  {
    var events := job.events;
    ListedPrefix(job, maxRetries);
    SlotHistory(events, maxRetries, slot);
    assert forall i :: 0 <= i < |events| ==> events[i] == Listed(job)[i] && events[i].slot <= slot;
    if events != [] {
      SlotsAscend(events, maxRetries);
      if events[|events| - 1].slot < slot { NoneOfSlot(events, slot); } else { OfSlotEnds(events, slot); }
    }
  }

  /** What a call decides on the jobs of a careful run, said of the ledger. With `h` the acknowledged events of the
      slot: a job marked as running in the slot is executed. Otherwise, if `h` is not empty, the job is executed if and
      only if the last of them failed and the backoff after it has passed; and if `h` is empty, if and only if
      every dependency succeeded in the slot. A call that executes begins the attempt after those in `h`; every other
      call waits. */
  lemma {:induction false} CallBeginsIff(s: System, j: nat, slot: int, now: int, specs: seq<Spec>)
    requires AllTame(s, specs) && s.mode.Up? && s.progress.Idle? && j < |s.jobs| && slot >= s.jobs[j].asked
    ensures Waits(s, j, slot, now, specs) <==> !Begins(s, j, slot, now, specs)
    ensures Marked(s.jobs[j], slot, |OfSlot(s.jobs[j].events, slot)| + 1) ==> Begins(s, j, slot, now, specs)
    ensures var h := OfSlot(s.jobs[j].events, slot);
            !Marked(s.jobs[j], slot, |h| + 1) && h != [] ==>
              (Begins(s, j, slot, now, specs) <==>
                 h[|h| - 1].outcome.Failure? && h[|h| - 1].time + specs[j].backoff <= now)
    ensures var h := OfSlot(s.jobs[j].events, slot);
            !Marked(s.jobs[j], slot, |h| + 1) && h == [] ==>
              (Begins(s, j, slot, now, specs) <==>
                 forall d :: d in specs[j].dependsOn ==>
                   d < |s.jobs| && s.jobs[d].status.Some? &&
                   s.jobs[d].status.value.phase.Succeeded? && s.jobs[d].status.value.slot == slot)
    ensures forall t :: Next(s, Begin(j, slot, now), t, specs) ==>
              |t.jobs| == |s.jobs| &&
              t.jobs[j].status == Some(Status(Running, slot, |OfSlot(s.jobs[j].events, slot)| + 1, now))
  {
    BeginsIffDecided(s, j, slot, now, specs);
    StatusBySlot(s, j, slot, specs);
    DepsMetIs(s.jobs, specs[j].dependsOn, slot);
    hide OfSlot, DepsMet, Begins, Waits, AllTame;
    var deps := DepsMet(s.jobs, specs[j].dependsOn, slot);
    DecidedBySlot(s.jobs[j], OfSlot(s.jobs[j].events, slot), slot, now, specs[j].backoff, deps);
  }

  /** What the status of a job says about a slot whose acknowledged events are `h`. */
  ghost predicate Tells(job: Job, h: seq<Event>, slot: int) {
    && (SameTrack(job.status, slot) && job.status.value.phase.Running? ==> job.status.value.attempt == |h| + 1)
    && (!Marked(job, slot, |h| + 1) && h != [] ==>
          job.status == Some(StatusOf(h[|h| - 1])) && h[|h| - 1].slot == slot && h[|h| - 1].attempt == |h|)
    && (!Marked(job, slot, |h| + 1) && h == [] && SameTrack(job.status, slot) ==>
          job.status.value.phase.Pending? && job.status.value.attempt == 0)
  }

  lemma {:induction false} StatusBySlot(s: System, j: nat, slot: int, specs: seq<Spec>)
    requires AllTame(s, specs) && s.mode.Up? && s.progress.Idle? && j < |s.jobs| && slot >= s.jobs[j].asked
    ensures Tells(s.jobs[j], OfSlot(s.jobs[j].events, slot), slot)
  {
    var job, m := s.jobs[j], specs[j].maxRetries;
    assert JobOk(job, m) && Tame(s, j, m);
    SlotSoFar(job, m, slot);
    ListedPrefix(job, m);
    hide Ledger, OfSlot;
    if job.unacked.Some? {
      assert Listed(job)[|job.events|] == job.unacked.value;
    } else {
      assert Listed(job) == job.events;
    }
  }

  lemma {:induction false} DecidedBySlot(job: Job, h: seq<Event>, slot: int, now: int, backoff: nat, deps: bool)
    requires Tells(job, h, slot)
    ensures var d := Decide(job.status, slot, now, backoff, deps);
            && (Marked(job, slot, |h| + 1) ==> d.Execute?)
            && (!Marked(job, slot, |h| + 1) && h != [] ==>
                  (d.Execute? <==> h[|h| - 1].outcome.Failure? && h[|h| - 1].time + backoff <= now))
            && (!Marked(job, slot, |h| + 1) && h == [] ==> (d.Execute? <==> deps))
            && (d.Execute? ==> d.attempt == |h| + 1)
  {
  }

  /** What a call that executes and is not cut short leaves behind: one more event, a success if and only if the
      execution succeeded, an alert if and only if it failed on the last attempt allowed, and the status to match. */
  lemma {:induction false} CallRecords(s: System, j: nat, slot: int, now: int, ok: bool, path: seq<System>,
                                       specs: seq<Spec>)
    requires AllTame(s, specs) && s.mode.Up? && s.progress.Idle? && j < |s.jobs| && slot >= s.jobs[j].asked
    requires |path| == 5 && Next(s, Begin(j, slot, now), path[0], specs) && Next(path[0], Work(ok), path[1], specs)
    requires Next(path[1], Write, path[2], specs) && Next(path[2], Acknowledge, path[3], specs)
    requires Next(path[3], Finish, path[4], specs)
    ensures |path[4].jobs| == |s.jobs| && path[4].progress.Idle?
    ensures var attempt := |OfSlot(s.jobs[j].events, slot)| + 1;
            var job := path[4].jobs[j];
            exists e: Event ::
              && job.events == s.jobs[j].events + [e] && e.slot == slot && e.attempt == attempt && e.time == now
              && (e.outcome.Success? <==> ok) && (e.outcome.Alert? <==> !ok && attempt > specs[j].maxRetries)
              && job.status.Some? && job.status.value.slot == slot && job.status.value.attempt == attempt
              && (job.status.value.phase.Succeeded? <==> ok)
              && (job.status.value.phase.Alerting? <==> !ok && attempt > specs[j].maxRetries)
              && (job.status.value.phase.Failed? <==> !ok && attempt <= specs[j].maxRetries)
  {
    CallBeginsIff(s, j, slot, now, specs);
    var attempt := |OfSlot(s.jobs[j].events, slot)| + 1;
    hide AllTame, OfSlot, Decided, Begins, Waits;
    assert path[0].progress == Started(j, slot, attempt, now) && path[0].jobs[j].events == s.jobs[j].events;
    AttemptRecords(path, j, slot, attempt, now, ok, specs);
    hide Next;
    var e := Judged(slot, attempt, ok, now, specs[j].maxRetries);
    assert path[4].jobs[j].events == s.jobs[j].events + [e];
  }

  lemma {:induction false} AttemptRecords(path: seq<System>, j: nat, slot: int, attempt: nat, now: int, ok: bool,
                                          specs: seq<Spec>)
    requires |path| == 5 && path[0].progress == Started(j, slot, attempt, now) && j < |path[0].jobs|
    requires Next(path[0], Work(ok), path[1], specs) && Next(path[1], Write, path[2], specs)
    requires Next(path[2], Acknowledge, path[3], specs) && Next(path[3], Finish, path[4], specs)
    ensures |path[4].jobs| == |path[0].jobs| == |specs| && path[4].progress.Idle?
    ensures var e := Judged(slot, attempt, ok, now, specs[j].maxRetries);
            path[4].jobs[j].events == path[0].jobs[j].events + [e] && path[4].jobs[j].status == Some(StatusOf(e))
  {
    hide Judged, StatusOf;
    var e := Judged(slot, attempt, ok, now, specs[j].maxRetries);
    assert path[1].progress == Executed(j, slot, attempt, now, ok) && path[1].jobs[j].events == path[0].jobs[j].events;
    assert path[2].progress == Written(j, e) && path[2].jobs[j].events == path[0].jobs[j].events;
    assert path[3].jobs[j].events == path[0].jobs[j].events + [e];
  }

  lemma {:induction false} DepsMetIs(jobs: seq<Job>, deps: seq<nat>, slot: int)
    ensures DepsMet(jobs, deps, slot) <==>
            forall d :: d in deps ==>
              d < |jobs| && jobs[d].status.Some? &&
              jobs[d].status.value.phase.Succeeded? && jobs[d].status.value.slot == slot
  {
    assert forall i :: 0 <= i < |deps| ==> deps[i] in deps;
  }
}
