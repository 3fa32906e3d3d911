/** Which cuts the ledger survives: from which states an undisturbed loop is safe, which runs with cuts are,
    and runs that are not. */
module JobCuts {
  import opened Bytes
  import opened Jobs

  // ---- from here on undisturbed ----

  predicate Calm(step: Step) {
    !step.Fail? && !step.Stop? && !step.RecoverOne? && !step.RecoverFails? && !step.RecoverDone?
  }

  /** The loop goes on from `s` without a stop or a failed write. */
  ghost predicate GoesOn(states: seq<System>, steps: seq<Step>, specs: seq<Spec>, s: System) {
    && |states| == |steps| + 1 && states[0] == s
    && forall i :: 0 <= i < |steps| ==> Calm(steps[i]) && Next(states[i], steps[i], states[i + 1], specs)
  }

  /** The slot the job was last asked for is still open, and the job is risky in it. */
  predicate AtRisk(j: Job) {
    j.status.Some? && !Terminal(j.status.value.phase) && Risky(j, j.asked)
  }

  ghost predicate SafeNow(s: System, j: nat)
    requires j < |s.jobs|
  {
    match s.progress
    case Started(i, slot, attempt, _) => if i == j then !Stale(s.jobs[j], slot, attempt) else !AtRisk(s.jobs[j])
    case Executed(i, slot, attempt, _, _) => if i == j then !Stale(s.jobs[j], slot, attempt) else !AtRisk(s.jobs[j])
    case Written(i, _) => i == j || !AtRisk(s.jobs[j])
    case Logged(i) => i == j || !AtRisk(s.jobs[j])
    case Idle => !AtRisk(s.jobs[j])
  }

  lemma {:induction false} WaitIsSafe(s: System, j: nat, slot: int, now: int, t: System, specs: seq<Spec>)
    requires Inv(s, specs) && Next(s, Wait(j, slot, now), t, specs) && !AtRisk(s.jobs[j])
    ensures !AtRisk(t.jobs[j])
  {
    hide Ledger, Decide;
    assert JobOk(s.jobs[j], specs[j].maxRetries);
    if Decided(s, j, slot, now, specs).Defer? {
      var job := s.jobs[j];
      DeferIsAligned(job, slot, now, specs[j].backoff, DepsMet(s.jobs, specs[j].dependsOn, slot), specs[j].maxRetries);
    }
  }

  lemma {:induction false} BeginIsSafe(s: System, j: nat, slot: int, now: int, t: System, specs: seq<Spec>)
    requires Inv(s, specs) && Next(s, Begin(j, slot, now), t, specs) && !AtRisk(s.jobs[j])
    ensures !Stale(t.jobs[j], slot, t.progress.attempt)
  {
    hide Ledger, DepsMet;
    var job := s.jobs[j];
    assert JobOk(job, specs[j].maxRetries);
    StaleIffRisky(job, slot, now, specs[j].backoff, DepsMet(s.jobs, specs[j].dependsOn, slot), specs[j].maxRetries);
  }

  lemma {:induction false} CalmIsSafe(s: System, step: Step, t: System, specs: seq<Spec>, j: nat)
    requires Inv(s, specs) && Next(s, step, t, specs) && Calm(step) && j < |s.jobs| && SafeNow(s, j)
    ensures SafeNow(t, j)
  {
    hide JobOk, Decided;
    match step
    case Wait(i, slot, now) => if i == j { WaitIsSafe(s, i, slot, now, t, specs); }
    case Begin(i, slot, now) => if i == j { BeginIsSafe(s, i, slot, now, t, specs); }
    case _ =>
  }

  lemma {:induction false} GoingOnKeeps(states: seq<System>, steps: seq<Step>, specs: seq<Spec>, s: System, n: nat)
    requires GoesOn(states, steps, specs, s) && n < |states| && Inv(s, specs)
    requires forall j :: 0 <= j < |s.jobs| ==> SafeNow(s, j)
    ensures Inv(states[n], specs) && forall j :: 0 <= j < |states[n].jobs| ==> SafeNow(states[n], j)
  {
    hide SafeNow, Inv;
    if n > 0 {
      var a, b, step := states[n - 1], states[n], steps[n - 1];
      GoingOnKeeps(states, steps, specs, s, n - 1);
      assert Calm(steps[n - 1]) && Next(states[n - 1], steps[n - 1], states[n - 1 + 1], specs);
      NotReckless(a, step, specs);
      hide Next;
      StepKeeps(a, step, b, specs);
      SameJobs(a, step, b, specs);
      forall j | 0 <= j < |b.jobs| ensures SafeNow(b, j) { CalmIsSafe(a, step, b, specs, j); }
    }
  }

  lemma {:induction false} NotReckless(s: System, step: Step, specs: seq<Spec>)
    requires Inv(s, specs) && forall j :: 0 <= j < |s.jobs| ==> SafeNow(s, j)
    ensures !Reckless(s, step)
  {
    hide JobOk, Stale;
    if s.progress.Executed? && s.progress.job < |s.jobs| { assert SafeNow(s, s.progress.job); }
  }

  lemma {:induction false} SameJobs(s: System, step: Step, t: System, specs: seq<Spec>)
    requires Next(s, step, t, specs)
    ensures |t.jobs| == |s.jobs|
  {
    hide Decided, Recovered;
  }

  lemma {:induction false} RiskDecides(s: System, specs: seq<Spec>, j: nat)
    requires Inv(s, specs) && j < |s.jobs| && AtRisk(s.jobs[j])
    ensures var slot, now := s.jobs[j].asked, s.jobs[j].status.value.time + specs[j].backoff;
            var d := Decided(s, j, slot, now, specs);
            d.Execute? && Stale(s.jobs[j], slot, d.attempt)
  {
    var job := s.jobs[j];
    assert JobOk(job, specs[j].maxRetries);
    ListedPrefix(job, specs[j].maxRetries);
    hide Ledger, DepsMet;
    var slot, now := job.asked, job.status.value.time + specs[j].backoff;
    assert !job.status.value.phase.Pending?;
    StaleIffRisky(job, slot, now, specs[j].backoff, DepsMet(s.jobs, specs[j].dependsOn, slot), specs[j].maxRetries);
  }

  /** The three steps of an attempt, up to the version write of its event. */
  lemma {:induction false} AttemptSteps(s: System, specs: seq<Spec>, j: nat, slot: int, now: int, ok: bool)
    returns (a: System, b: System, c: System)
    requires s.mode.Up? && s.progress.Idle? && j < |s.jobs| == |specs| && slot >= s.jobs[j].asked
    requires Decided(s, j, slot, now, specs).Execute?
    ensures Next(s, Begin(j, slot, now), a, specs) && Next(a, Work(ok), b, specs) && Next(b, Write, c, specs)
    ensures var attempt, job := Decided(s, j, slot, now, specs).attempt, s.jobs[j];
            var e := Judged(slot, attempt, ok, now, specs[j].maxRetries);
            var run := Some(Status(Running, slot, attempt, now));
            && b.progress == Executed(j, slot, attempt, now, ok)
            && b.jobs == s.jobs[j := Job(run, job.events, job.unacked, job.runs + 1, slot)]
            && c == With(s, j, Job(run, job.events, Some(e), job.runs + 1, slot), Written(j, e))
  {
    hide Decide, DepsMet;
    var attempt, job := Decided(s, j, slot, now, specs).attempt, s.jobs[j];
    var e := Judged(slot, attempt, ok, now, specs[j].maxRetries);
    var run := Some(Status(Running, slot, attempt, now));
    a := With(s, j, Job(run, job.events, job.unacked, job.runs, slot), Started(j, slot, attempt, now));
    b := With(s, j, Job(run, job.events, job.unacked, job.runs + 1, slot), Executed(j, slot, attempt, now, ok));
    c := With(s, j, Job(run, job.events, Some(e), job.runs + 1, slot), Written(j, e));
    assert a.jobs[j := b.jobs[j]] == b.jobs && b.jobs[j := c.jobs[j]] == c.jobs;
  }

  /** A job at risk: its next attempt, whatever comes of it, breaks the ledger. */
  lemma {:induction false} RiskTaken(s: System, specs: seq<Spec>, j: nat, ok: bool)
    returns (states: seq<System>, steps: seq<Step>)
    requires Inv(s, specs) && s.mode.Up? && s.progress.Idle? && j < |s.jobs| && AtRisk(s.jobs[j])
    ensures GoesOn(states, steps, specs, s) && !LedgersOk(states[|steps|], specs)
  {
    RiskDecides(s, specs, j);
    var slot, now := s.jobs[j].asked, s.jobs[j].status.value.time + specs[j].backoff;
    var attempt := Decided(s, j, slot, now, specs).attempt;
    var a, b, c := AttemptSteps(s, specs, j, slot, now, ok);
    hide Next, Inv, LedgersOk, Decided, With, AtRisk;
    SameStale(s.jobs[j], b.jobs[j], slot, attempt);
    assert Reckless(b, Write);
    hide Reckless, Stale;
    ThreeStepsBreak(s, Begin(j, slot, now), a, Work(ok), b, c, specs);
    states, steps := [s, a, b, c], [Begin(j, slot, now), Work(ok), Write];
  }

  lemma {:induction false} ThreeStepsBreak(s: System, p: Step, a: System, q: Step, b: System, c: System,
                                           specs: seq<Spec>)
    requires Inv(s, specs) && Next(s, p, a, specs) && Next(a, q, b, specs) && Next(b, Write, c, specs)
    requires Calm(p) && Calm(q) && !p.Write? && !q.Write? && Reckless(b, Write)
    ensures GoesOn([s, a, b, c], [p, q, Write], specs, s) && !LedgersOk(c, specs)
  {
    hide Next, Inv, LedgersOk, Stale;
    StepKeeps(s, p, a, specs);
    StepKeeps(a, q, b, specs);
    RecklessBreaks(b, c, specs);
  }

  lemma {:induction false} SameStale(j: Job, k: Job, slot: int, attempt: nat)
    requires j.events == k.events && j.unacked == k.unacked
    ensures Stale(j, slot, attempt) <==> Stale(k, slot, attempt)
  {
  }

  /** From any state between calls, every undisturbed continuation keeps every ledger whole if and only if no
      job is at risk: none whose open slot has an unacknowledged event that its status has moved on from, and
      none still marked as running an attempt that is acknowledged. */
  lemma {:induction false} SafeFromHereIff(s: System, specs: seq<Spec>)
    requires Inv(s, specs) && s.mode.Up? && s.progress.Idle?
    ensures (forall states, steps :: GoesOn(states, steps, specs, s) ==> LedgersOk(states[|steps|], specs)) <==>
            (forall j :: 0 <= j < |s.jobs| ==> !AtRisk(s.jobs[j]))
  {
    hide AtRisk, LedgersOk, Inv, Next;
    if forall j :: 0 <= j < |s.jobs| ==> !AtRisk(s.jobs[j]) {
      forall states, steps | GoesOn(states, steps, specs, s) ensures LedgersOk(states[|steps|], specs) {
        GoingOnKeeps(states, steps, specs, s, |steps|);
        InvIsLedgers(states[|steps|], specs);
      }
    } else {
      var j :| 0 <= j < |s.jobs| && AtRisk(s.jobs[j]);
      var states, steps := RiskTaken(s, specs, j, true);
      assert GoesOn(states, steps, specs, s);
    }
  }

  // ---- runs with cuts that are safe ----

  /** No recovery reads an unacknowledged event, none fails, and a status write that fails after its event is
      acknowledged is followed by a restart. */
  ghost predicate Careful(s: System, step: Step) {
    && !step.RecoverFails? && (step.Fail? ==> !s.progress.Logged?)
    && (step.RecoverOne? && s.mode.Recovering? && s.mode.next < |s.jobs| ==> s.jobs[s.mode.next].unacked.None?)
  }

  ghost predicate AllCareful(states: seq<System>, steps: seq<Step>)
    requires |steps| < |states|
  {
    forall i :: 0 <= i < |steps| ==> Careful(states[i], steps[i])
  }

  /** A status that has not read an unacknowledged event, and agrees with the acknowledged ones unless its
      own call or a recovery is still to see to that. */
  ghost predicate Tame(s: System, j: nat, maxRetries: nat)
    requires j < |s.jobs|
  {
    var job := s.jobs[j];
    if job.unacked.Some? then
      && job.status.Some?
      && (Marked(job, job.unacked.value.slot, job.unacked.value.attempt) ||
          job.status.value.slot > job.unacked.value.slot)
    else
      || Aligned(job.status, job.events, maxRetries)
      || s.progress == Logged(j) || (s.mode.Recovering? && s.mode.next <= j)
  }

  ghost predicate AllTame(s: System, specs: seq<Spec>) {
    && Inv(s, specs) && (s.mode.Recovering? ==> s.progress.Idle?)
    && forall j :: 0 <= j < |s.jobs| ==> Tame(s, j, specs[j].maxRetries)
  }

  lemma {:induction false} TameIsNotReckless(s: System, step: Step, specs: seq<Spec>)
    requires AllTame(s, specs)
    ensures !Reckless(s, step)
  {
    hide Ledger;
    if s.progress.Executed? && s.progress.job < |s.jobs| {
      var j := s.progress.job;
      assert Tame(s, j, specs[j].maxRetries) && JobOk(s.jobs[j], specs[j].maxRetries);
    }
  }

  lemma {:induction false} BeginIsTame(s: System, j: nat, slot: int, now: int, t: System, specs: seq<Spec>)
    requires AllTame(s, specs) && Next(s, Begin(j, slot, now), t, specs)
    ensures Tame(t, j, specs[j].maxRetries)
  {
    hide Ledger, DepsMet;
    var job := s.jobs[j];
    assert JobOk(job, specs[j].maxRetries) && Tame(s, j, specs[j].maxRetries);
    if job.unacked.None? {
      DecisionIsDue(job, slot, now, specs[j].backoff, DepsMet(s.jobs, specs[j].dependsOn, slot), specs[j].maxRetries);
    } else {
      assert Listed(job)[|job.events|] == job.unacked.value;
    }
  }

  lemma {:induction false} WaitIsTame(s: System, j: nat, slot: int, now: int, t: System, specs: seq<Spec>)
    requires AllTame(s, specs) && Next(s, Wait(j, slot, now), t, specs)
    ensures Tame(t, j, specs[j].maxRetries)
  {
    hide Ledger, DepsMet;
    var job := s.jobs[j];
    assert JobOk(job, specs[j].maxRetries) && Tame(s, j, specs[j].maxRetries);
    if Decided(s, j, slot, now, specs).Defer? {
      DeferIsAligned(job, slot, now, specs[j].backoff, DepsMet(s.jobs, specs[j].dependsOn, slot), specs[j].maxRetries);
      if job.unacked.Some? { assert Listed(job)[|job.events|] == job.unacked.value; }
    }
  }

  lemma {:induction false} RecoverIsTame(s: System, t: System, specs: seq<Spec>)
    requires AllTame(s, specs) && Next(s, RecoverOne, t, specs) && Careful(s, RecoverOne)
    ensures Tame(t, s.mode.next, specs[s.mode.next].maxRetries)
  {
    hide Ledger, Recovered, Aligned;
    var j := s.mode.next;
    assert JobOk(s.jobs[j], specs[j].maxRetries);
    RecoveredIsAligned(s.jobs[j], specs[j].maxRetries);
  }

  lemma {:induction false} CallIsTame(s: System, step: Step, t: System, specs: seq<Spec>)
    requires AllTame(s, specs) && Next(s, step, t, specs)
    requires step.Work? || step.Write? || step.Acknowledge? || step.Finish?
    ensures Tame(t, s.progress.job, specs[s.progress.job].maxRetries)
  {
    hide Ledger;
    assert Tame(s, s.progress.job, specs[s.progress.job].maxRetries);
  }

  lemma {:induction false} StepIsTame(s: System, step: Step, t: System, specs: seq<Spec>, j: nat)
    requires AllTame(s, specs) && Next(s, step, t, specs) && Careful(s, step) && j < |s.jobs| == |t.jobs|
    ensures Tame(t, j, specs[j].maxRetries)
  {
    assert Tame(s, j, specs[j].maxRetries);
    hide Ledger, JobOk, Aligned, Decided, Recovered;
    match step
    case Wait(i, slot, now) => if i == j { WaitIsTame(s, i, slot, now, t, specs); }
    case Begin(i, slot, now) => if i == j { BeginIsTame(s, i, slot, now, t, specs); }
    case RecoverOne => if s.mode.next == j { RecoverIsTame(s, t, specs); }
    case Fail =>
    case Stop =>
    case RecoverFails =>
    case RecoverDone =>
    case _ => if s.progress.job == j { CallIsTame(s, step, t, specs); }
  }

  lemma {:induction false} StartIsTame(s: System, specs: seq<Spec>)
    requires IsStart(s, specs)
    ensures AllTame(s, specs)
  {
  }

  lemma {:induction false} CarefulIsTame(states: seq<System>, steps: seq<Step>, specs: seq<Spec>, n: nat)
    requires IsRun(states, steps, specs) && AllCareful(states, steps) && n < |states|
    ensures AllTame(states[n], specs) && NoReckless(states, steps, n) && AllDepsFirst(states[n], specs, false)
  {
    hide AllTame, AllDepsFirst, Reckless, Next, Careful;
    if n == 0 {
      NothingRelies(states[0], specs, false);
      StartIsTame(states[0], specs);
    } else {
      var s, t, step := states[n - 1], states[n], steps[n - 1];
      CarefulIsTame(states, steps, specs, n - 1);
      assert Next(states[n - 1], steps[n - 1], states[n - 1 + 1], specs) && Careful(states[n - 1], steps[n - 1]);
      CarefulStep(s, step, t, specs);
    }
  }

  lemma {:induction false} CarefulStep(s: System, step: Step, t: System, specs: seq<Spec>)
    requires AllTame(s, specs) && AllDepsFirst(s, specs, false) && Valid(specs)
    requires Next(s, step, t, specs) && Careful(s, step)
    ensures AllTame(t, specs) && AllDepsFirst(t, specs, false) && !Reckless(s, step)
  {
    assert t.mode.Recovering? ==> t.progress.Idle? by { hide Decided, Recovered; }
    TameIsNotReckless(s, step, specs);
    SameJobs(s, step, t, specs);
    StepKeepsDeps(s, step, t, specs, false) by { hide Ledger, Decided, Recovered; }
    hide Next, Tame, Inv, AllDepsFirst;
    StepKeeps(s, step, t, specs);
    forall j | 0 <= j < |t.jobs| ensures Tame(t, j, specs[j].maxRetries) { StepIsTame(s, step, t, specs, j); }
  }

  lemma {:induction false} FactsAreListed(s: System, specs: seq<Spec>)
    requires AllDepsFirst(s, specs, false)
    ensures AllDepsFirst(s, specs, true)
  {
    hide Relies;
    forall j | 0 <= j < |s.jobs| ensures DepsFirst(s.jobs, j, specs[j].dependsOn, true) {
      assert DepsFirst(s.jobs, j, specs[j].dependsOn, false);
      forall i, slot | 0 <= i < |s.jobs| && HasSuccess(s.jobs[i].events, slot)
        ensures HasSuccess(Listed(s.jobs[i]), slot)
      {
        SuccessOfListed(s.jobs[i], slot);
      }
      hide HasSuccess;
      forall slot | Relies(s.jobs[j], slot) ensures DepsDone(s.jobs, specs[j].dependsOn, slot, true) {
        assert DepsDone(s.jobs, specs[j].dependsOn, slot, false);
      }
    }
  }

  /** In a careful run, cut short wherever the conditions allow, every ledger is whole and every dependency
      comes first, at every moment. */
  lemma {:induction false} CarefulRunsAreExact(states: seq<System>, steps: seq<Step>, specs: seq<Spec>, n: nat)
    requires IsRun(states, steps, specs) && AllCareful(states, steps) && n < |states|
    ensures LedgersOk(states[n], specs) && AllDepsFirst(states[n], specs, true)
  {
    hide LedgersOk, AllDepsFirst, Inv, Next;
    CarefulIsTame(states, steps, specs, n);
    InvIsLedgers(states[n], specs);
    FactsAreListed(states[n], specs);
  }

  // ---- runs that are not ----

  lemma {:induction false} Onward(states: seq<System>, steps: seq<Step>, step: Step, t: System, specs: seq<Spec>)
    requires IsRun(states, steps, specs) && Next(states[|steps|], step, t, specs)
    ensures IsRun(states + [t], steps + [step], specs) && (states + [t])[|steps + [step]|] == t
  {
    hide Next, IsStart, Valid;
    var ss, ps := states + [t], steps + [step];
    forall i | 0 <= i < |ps| ensures Next(ss[i], ps[i], ss[i + 1], specs) {
      if i < |steps| { assert Next(states[i], steps[i], states[i + 1], specs); }
    }
  }

  /** A run goes on with an attempt, up to the version write of its event. */
  lemma {:induction false} RunAttempt(states: seq<System>, steps: seq<Step>, specs: seq<Spec>, j: nat, slot: int,
                                      now: int, ok: bool) returns (more: seq<System>, ps: seq<Step>)
    requires IsRun(states, steps, specs)
    requires var s := states[|steps|];
             && s.mode.Up? && s.progress.Idle? && j < |s.jobs| == |specs| && slot >= s.jobs[j].asked
             && Decided(s, j, slot, now, specs).Execute?
    ensures IsRun(more, ps, specs)
    ensures var s := states[|steps|];
            var attempt, job := Decided(s, j, slot, now, specs).attempt, s.jobs[j];
            var e := Judged(slot, attempt, ok, now, specs[j].maxRetries);
            var run := Some(Status(Running, slot, attempt, now));
            more[|ps|] == With(s, j, Job(run, job.events, Some(e), job.runs + 1, slot), Written(j, e))
  {
    var a, b, c := AttemptSteps(states[|steps|], specs, j, slot, now, ok);
    hide Next, IsRun, Decided;
    Onward(states, steps, Begin(j, slot, now), a, specs);
    Onward(states + [a], steps + [Begin(j, slot, now)], Work(ok), b, specs);
    Onward(states + [a] + [b], steps + [Begin(j, slot, now)] + [Work(ok)], Write, c, specs);
    more, ps := states + [a] + [b] + [c], steps + [Begin(j, slot, now)] + [Work(ok)] + [Write];
  }

  function Fresh(n: nat, slot: int): System { System(seq(n, _ => Job(None, [], None, 0, slot)), Idle, Up, 0) }

  lemma {:induction false} FreshRun(specs: seq<Spec>, slot: int)
    requires Valid(specs)
    ensures IsRun([Fresh(|specs|, slot)], [], specs)
  {
  }

  /** Stop with an event written and not acknowledged, and recover every job: the first now reads it. */
  lemma {:induction false} RunStopped(states: seq<System>, steps: seq<Step>, specs: seq<Spec>)
    returns (more: seq<System>, ps: seq<Step>)
    requires IsRun(states, steps, specs) && |specs| == |states[|steps|].jobs| <= 2 && specs != []
    requires |specs| == 2 ==> Listed(states[|steps|].jobs[1]) == []
    ensures IsRun(more, ps, specs)
    ensures var s := states[|steps|];
            var job := s.jobs[0].(status := Recovered(s.jobs[0].status, Listed(s.jobs[0])));
            more[|ps|] == System(s.jobs[0 := job], Idle, Up, s.cuts + 1)
  {
    var s := states[|steps|];
    var job := s.jobs[0].(status := Recovered(s.jobs[0].status, Listed(s.jobs[0])));
    var a := s.(progress := Idle, mode := Recovering(0), cuts := s.cuts + 1);
    var b := a.(jobs := s.jobs[0 := job], mode := Recovering(1));
    assert Next(s, Stop, a, specs) && Next(a, RecoverOne, b, specs);
    var c := b;
    if |specs| == 2 {
      c := b.(mode := Recovering(2));
      assert Recovered(b.jobs[1].status, []) == b.jobs[1].status;
      assert b.jobs[1 := b.jobs[1].(status := Recovered(b.jobs[1].status, Listed(b.jobs[1])))] == b.jobs;
      assert Next(b, RecoverOne, c, specs);
    }
    var d := c.(mode := Up);
    assert Next(c, RecoverDone, d, specs);
    hide Next, IsRun, Recovered;
    Onward(states, steps, Stop, a, specs);
    more, ps := states + [a], steps + [Stop];
    Onward(more, ps, RecoverOne, b, specs);
    more, ps := more + [b], ps + [RecoverOne];
    if |specs| == 2 {
      Onward(more, ps, RecoverOne, c, specs);
      more, ps := more + [c], ps + [RecoverOne];
    }
    Onward(more, ps, RecoverDone, d, specs);
    more, ps := more + [d], ps + [RecoverDone];
  }

  /** A stop between the two writes of a first, failed attempt: recovery counts the failure, the retry takes
      its place in the store, and the slot's only event is attempt 2. */
  lemma {:induction false} RetryReplacesUnacknowledged(spec: Spec, slot: int, t0: int, t1: int, ok: bool)
    returns (states: seq<System>, steps: seq<Step>)
    requires spec.maxRetries >= 1 && spec.dependsOn == [] && t1 >= t0 + spec.backoff
    ensures IsRun(states, steps, [spec])
    ensures |states[|steps|].jobs| == 1 && Listed(states[|steps|].jobs[0]) == [Judged(slot, 2, ok, t1, spec.maxRetries)]
    ensures !LedgersOk(states[|steps|], [spec])
  {
    var specs := [spec];
    FreshRun(specs, slot);
    states, steps := [Fresh(1, slot)], [];
    assert Decided(Fresh(1, slot), 0, slot, t0, specs) == Decision.Execute(1);
    states, steps := RunAttempt(states, steps, specs, 0, slot, t0, false);
    var e := Judged(slot, 1, false, t0, spec.maxRetries);
    assert Listed(states[|steps|].jobs[0]) == [e];
    states, steps := RunStopped(states, steps, specs);
    assert LatestIn([e], slot) == Some(e);
    assert Decided(states[|steps|], 0, slot, t1, specs) == Decision.Execute(2);
    states, steps := RunAttempt(states, steps, specs, 0, slot, t1, ok);
    assert [] + [Judged(slot, 2, ok, t1, spec.maxRetries)] == [Judged(slot, 2, ok, t1, spec.maxRetries)];
  }

  /** The first job succeeds, the stop leaves its success unacknowledged, recovery reads it, and the second
      job runs in the slot. */
  lemma {:induction false} DependentRelies(first: Spec, second: Spec, slot: int, t: int, ok: bool)
    returns (states: seq<System>, steps: seq<Step>)
    requires first.dependsOn == [] && second.dependsOn == [0]
    ensures IsRun(states, steps, [first, second])
    ensures var s := states[|steps|];
            && |s.jobs| == 2 && s.mode.Up? && s.progress.Idle? && s.jobs[0].asked == slot && s.jobs[0].events == []
            && s.jobs[0].status == Some(Status(Succeeded, slot, 1, t))
            && s.jobs[1].status == Some(StatusOf(Judged(slot, 1, ok, t, second.maxRetries)))
  {
    var specs := [first, second];
    FreshRun(specs, slot);
    states, steps := [Fresh(2, slot)], [];
    assert Decided(Fresh(2, slot), 0, slot, t, specs) == Decision.Execute(1);
    hide IsRun;
    states, steps := RunAttempt(states, steps, specs, 0, slot, t, true);
    var e := Judged(slot, 1, true, t, first.maxRetries);
    assert Listed(states[|steps|].jobs[0]) == [e] && Listed(states[|steps|].jobs[1]) == [];
    states, steps := RunStopped(states, steps, specs);
    assert LatestIn([e], slot) == Some(e);
    var s := states[|steps|];
    assert s.jobs[0] == Job(Some(StatusOf(e)), [], Some(e), 1, slot) && s.jobs[1] == Job(None, [], None, 0, slot);
    assert DepsMet(s.jobs, [0], slot);
    assert Decided(s, 1, slot, t, specs) == Decision.Execute(1);
    states, steps := RunAttempt(states, steps, specs, 1, slot, t, ok);
    states, steps := RunFinish(states, steps, specs);
  }

  /** The next slot's event then takes the place of the success the second job relied on. */
  lemma {:induction false} UnacknowledgedSuccessIsLost(first: Spec, second: Spec, slot: int, later: int, t: int,
                                                       ok: bool)
    returns (states: seq<System>, steps: seq<Step>)
    requires first.dependsOn == [] && second.dependsOn == [0] && slot < later
    ensures IsRun(states, steps, [first, second])
    ensures var s := states[|steps|];
            |s.jobs| == 2 && Relies(s.jobs[1], slot) && !HasSuccess(Listed(s.jobs[0]), slot)
    ensures !AllDepsFirst(states[|steps|], [first, second], true)
  {
    var specs := [first, second];
    states, steps := DependentRelies(first, second, slot, t, ok);
    hide IsRun;
    assert Decided(states[|steps|], 0, later, t, specs) == Decision.Execute(1);
    states, steps := RunAttempt(states, steps, specs, 0, later, t, true);
    var s := states[|steps|];
    assert Relies(s.jobs[1], slot);
    hide Relies;
    assert specs[1].dependsOn[0] == 0 && !HasSuccess(Listed(s.jobs[0]), slot);
    hide HasSuccess;
    assert !DepsDone(s.jobs, specs[1].dependsOn, slot, true);
    assert !DepsFirst(s.jobs, 1, specs[1].dependsOn, true);
  }

  /** Acknowledge the written event and write the status. */
  lemma {:induction false} RunFinish(states: seq<System>, steps: seq<Step>, specs: seq<Spec>)
    returns (more: seq<System>, ps: seq<Step>)
    requires IsRun(states, steps, specs) && |specs| == |states[|steps|].jobs|
    requires var s := states[|steps|]; s.mode.Up? && s.progress.Written? && s.progress.job < |s.jobs|
    ensures IsRun(more, ps, specs)
    ensures var s := states[|steps|];
            var e, job := s.progress.event, s.jobs[s.progress.job];
            more[|ps|] == With(s, s.progress.job,
                               job.(status := Some(StatusOf(e)), events := job.events + [e], unacked := None), Idle)
  {
    var s := states[|steps|];
    var Written(j, e) := s.progress;
    var job := s.jobs[j].(events := s.jobs[j].events + [e], unacked := None);
    var a, b := With(s, j, job, Logged(j)), With(s, j, job.(status := Some(StatusOf(e))), Idle);
    assert a.jobs[j := b.jobs[j]] == b.jobs;
    assert Next(s, Acknowledge, a, specs) && Next(a, Finish, b, specs);
    hide Next, IsRun;
    Onward(states, steps, Acknowledge, a, specs);
    Onward(states + [a], steps + [Acknowledge], Finish, b, specs);
    more, ps := states + [a] + [b], steps + [Acknowledge] + [Finish];
  }
}
