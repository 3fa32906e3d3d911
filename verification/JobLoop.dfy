/** The reconciler and its loop as they run: store writes in order, one job at a time. */
module JobLoop {
  import opened Bytes
  import opened Jobs
  import opened JobCuts

  /** Scan the ledger from its end. */
  method LatestMatchingEvent(events: seq<Event>, slot: int) returns (r: Option<Event>)
    ensures r == LatestIn(events, slot)
  {
    var i := |events|;
    assert events[..i] == events;
    while i > 0
      invariant i <= |events| && LatestIn(events, slot) == LatestIn(events[..i], slot)
    {
      i := i - 1;
      assert events[..i + 1][..|events[..i + 1]| - 1] == events[..i];
      if events[i].slot == slot { return Some(events[i]); }
    }
    return None;
  }

  /** An attempt of whose writes the first `writes` succeed: the running mark, the event's version, the
      event's pointer and the final status. */
  function Attempted(job: Job, spec: Spec, slot: int, attempt: nat, now: int, ok: bool, writes: nat): Job {
    var e := Judged(slot, attempt, ok, now, spec.maxRetries);
    var run := Some(Status(Running, slot, attempt, now));
    if writes == 0 then job
    else if writes == 1 then Job(run, job.events, job.unacked, job.runs + 1, slot)
    else if writes == 2 then Job(run, job.events, Some(e), job.runs + 1, slot)
    else Job(if writes == 3 then run else Some(StatusOf(e)), job.events + [e], None, job.runs + 1, slot)
  }

  /** A call of `Reconcile`, with as many writes as succeed. */
  function Reconciled(job: Job, spec: Spec, slot: int, now: int, depsMet: bool, ok: bool, writes: nat): Job {
    match Decide(job.status, slot, now, spec.backoff, depsMet)
    case Stay => job.(asked := slot)
    case Defer => if writes == 0 then job else job.(asked := slot, status := Some(Status(Pending, slot, 0, 0)))
    case Execute(attempt) => Attempted(job, spec, slot, attempt, now, ok, writes)
  }

  ghost predicate IsPath(states: seq<System>, steps: seq<Step>, specs: seq<Spec>, s: System) {
    && |states| == |steps| + 1 && states[0] == s
    && forall i :: 0 <= i < |steps| ==> Next(states[i], steps[i], states[i + 1], specs)
  }

  lemma {:induction false} Further(states: seq<System>, steps: seq<Step>, specs: seq<Spec>, s: System, step: Step,
                                   t: System)
    requires IsPath(states, steps, specs, s) && Next(states[|steps|], step, t, specs)
    ensures IsPath(states + [t], steps + [step], specs, s) && (states + [t])[|steps + [step]|] == t
  {
    hide Next;
    var ss, ps := states + [t], steps + [step];
    forall i | 0 <= i < |ps| ensures Next(ss[i], ps[i], ss[i + 1], specs) {
      if i < |steps| { assert Next(states[i], steps[i], states[i + 1], specs); }
    }
  }

  /** An attempt, up to as many writes as succeed, is a path of steps. */
  lemma {:induction false} AttemptIsPath(s: System, specs: seq<Spec>, j: nat, slot: int, now: int, ok: bool,
                                         writes: nat)
    returns (states: seq<System>, steps: seq<Step>)
    requires |specs| == |s.jobs| && s.mode.Up? && s.progress.Idle? && j < |s.jobs| && slot >= s.jobs[j].asked
    requires Decided(s, j, slot, now, specs).Execute? && writes >= 1
    ensures IsPath(states, steps, specs, s)
    ensures var job := Reconciled(s.jobs[j], specs[j], slot, now, DepsMet(s.jobs, specs[j].dependsOn, slot), ok,
                                  writes);
            states[|steps|] == With(s, j, job, Idle).(cuts := if writes < 4 then s.cuts + 1 else s.cuts)
  {
    var a, b, c := AttemptSteps(s, specs, j, slot, now, ok);
    var attempt, job := Decided(s, j, slot, now, specs).attempt, s.jobs[j];
    var e, run := Judged(slot, attempt, ok, now, specs[j].maxRetries), Some(Status(Running, slot, attempt, now));
    var logged := Job(run, job.events + [e], None, job.runs + 1, slot);
    var d, f := With(s, j, logged, Logged(j)), With(s, j, logged.(status := Some(StatusOf(e))), Idle);
    assert c.jobs[j := logged] == d.jobs && d.jobs[j := f.jobs[j]] == f.jobs;
    assert Next(c, Acknowledge, d, specs) && Next(d, Finish, f, specs);
    var last := if writes == 1 then b else if writes == 2 then c else d;
    var cut := last.(progress := Idle, cuts := last.cuts + 1);
    assert Next(last, Fail, cut, specs);
    hide Next, Decide, DepsMet, IsPath;
    assert IsPath([s], [], specs, s);
    Further([s], [], specs, s, Begin(j, slot, now), a);
    states, steps := [s] + [a], [] + [Begin(j, slot, now)];
    Further(states, steps, specs, s, Work(ok), b);
    states, steps := states + [b], steps + [Work(ok)];
    if writes > 1 {
      Further(states, steps, specs, s, Write, c);
      states, steps := states + [c], steps + [Write];
    }
    if writes > 2 {
      Further(states, steps, specs, s, Acknowledge, d);
      states, steps := states + [d], steps + [Acknowledge];
    }
    if writes > 3 {
      Further(states, steps, specs, s, Finish, f);
      states, steps := states + [f], steps + [Finish];
    } else {
      Further(states, steps, specs, s, Fail, cut);
      states, steps := states + [cut], steps + [Fail];
    }
  }

  /** Every call, whole or cut short by a failed write, is a path of the steps the run theorems speak of. */
  lemma {:induction false} CallIsSteps(s: System, specs: seq<Spec>, j: nat, slot: int, now: int, ok: bool, writes: nat)
    returns (states: seq<System>, steps: seq<Step>)
    requires |specs| == |s.jobs| && s.mode.Up? && s.progress.Idle? && j < |s.jobs| && slot >= s.jobs[j].asked
    ensures IsPath(states, steps, specs, s)
    ensures var t := states[|steps|];
            var job := Reconciled(s.jobs[j], specs[j], slot, now, DepsMet(s.jobs, specs[j].dependsOn, slot), ok,
                                  writes);
            t.jobs == s.jobs[j := job] && t.progress.Idle? && t.mode.Up? && s.cuts <= t.cuts <= s.cuts + 1
  {
    hide DepsMet;
    var d := Decided(s, j, slot, now, specs);
    if d.Execute? && writes >= 1 {
      states, steps := AttemptIsPath(s, specs, j, slot, now, ok, writes);
    } else if d.Execute? || (d.Defer? && writes == 0) {
      states, steps := [s], [];
    } else {
      var job := Reconciled(s.jobs[j], specs[j], slot, now, DepsMet(s.jobs, specs[j].dependsOn, slot), ok, writes);
      states, steps := [s, With(s, j, job, Idle)], [Wait(j, slot, now)];
    }
  }

  class Loop {
    const specs: seq<Spec>
    var jobs: seq<Job>

    constructor (specs: seq<Spec>, jobs: seq<Job>)
      requires |specs| == |jobs|
      ensures this.specs == specs && this.jobs == jobs
    {
      this.specs, this.jobs := specs, jobs;
    }

    method DepsSatisfied(deps: seq<nat>, slot: int) returns (ok: bool)
      ensures ok <==> DepsMet(jobs, deps, slot)
    {
      ok := true;
      var i := 0;
      while i < |deps|
        invariant 0 <= i <= |deps| && (ok <==> DepsMet(jobs, deps[..i], slot))
      {
        var d := deps[i];
        assert forall x :: 0 <= x <= i ==> deps[..i + 1][x] == deps[x];
        if d >= |jobs| || jobs[d].status.None? || jobs[d].status.value.slot != slot ||
            !jobs[d].status.value.phase.Succeeded? {
          assert deps[..i + 1][i] == d;
          ok := false;
        }
        assert forall x :: 0 <= x < i ==> deps[..i][x] == deps[x];
        i := i + 1;
      }
      assert deps[..i] == deps;
    }

    /** `Reconcile`: the decision, then running mark, execution, event version, event pointer and status, in
        that order, of which the first `writes` writes succeed. */
    method Reconcile(j: nat, slot: int, now: int, result: bool, writes: nat)
      requires |specs| == |jobs| && j < |jobs|
      modifies this
      ensures jobs == old(jobs)[j := Reconciled(old(jobs)[j], specs[j], slot, now,
                                                DepsMet(old(jobs), specs[j].dependsOn, slot), result, writes)]
    {
      var prev, spec := jobs[j].status, specs[j];
      ghost var met := DepsMet(jobs, spec.dependsOn, slot);
      var same := prev.Some? && prev.value.slot == slot;
      if same && (prev.value.phase.Succeeded? || prev.value.phase.Alerting?) { AskFor(j, slot); return; }
      if same && prev.value.phase.Failed? && now < prev.value.time + spec.backoff { AskFor(j, slot); return; }
      if !same || prev.value.phase.Pending? {
        var ok := DepsSatisfied(spec.dependsOn, slot);
        if !ok {
          if writes >= 1 { jobs := jobs[j := jobs[j].(status := Some(Status(Pending, slot, 0, 0)), asked := slot)]; }
          return;
        }
      }
      var attempt := 1;
      if same {
        attempt := if prev.value.phase.Running? then prev.value.attempt else prev.value.attempt + 1;
      }
      assert Decide(prev, slot, now, spec.backoff, met) == Decision.Execute(attempt);
      hide DepsMet, Decide, Attempted;
      Attempt(j, slot, attempt, now, result, writes);
    }

    method Attempt(j: nat, slot: int, attempt: nat, now: int, result: bool, writes: nat)
      requires |specs| == |jobs| && j < |jobs|
      modifies this
      ensures jobs == old(jobs)[j := Attempted(old(jobs)[j], specs[j], slot, attempt, now, result, writes)]
    {
      if writes == 0 { return; }
      jobs := jobs[j := jobs[j].(status := Some(Status(Running, slot, attempt, now)), asked := slot)];
      jobs := jobs[j := jobs[j].(runs := jobs[j].runs + 1)];
      var outcome := if result then Success else if attempt >= specs[j].maxRetries + 1 then Alert else Failure;
      var e := Event(slot, attempt, outcome, now);
      if writes == 1 { return; }
      jobs := jobs[j := jobs[j].(unacked := Some(e))];
      if writes == 2 { return; }
      jobs := jobs[j := jobs[j].(events := jobs[j].events + [e], unacked := None)];
      if writes == 3 { return; }
      jobs := jobs[j := jobs[j].(status := Some(StatusOf(e)))];
    }

    method AskFor(j: nat, slot: int)
      requires j < |jobs|
      modifies this
      ensures jobs == old(jobs)[j := old(jobs)[j].(asked := slot)]
    {
      jobs := jobs[j := jobs[j].(asked := slot)];
    }

    /** `Recover` for one job. */
    method RecoverJob(j: nat)
      requires j < |jobs|
      modifies this
      ensures jobs == old(jobs)[j := old(jobs)[j].(status := Recovered(old(jobs)[j].status, Listed(old(jobs)[j])))]
    {
      var status, events := jobs[j].status, Listed(jobs[j]);
      if |events| == 0 { return; }
      var rebuilt;
      if status.None? {
        rebuilt := StatusOf(events[|events| - 1]);
      } else if status.value.phase.Running? || status.value.phase.Failed? {
        var e := LatestMatchingEvent(events, status.value.slot);
        if e.None? { return; }
        rebuilt := StatusOf(e.value);
      } else if status.value.phase.Succeeded? || status.value.phase.Alerting? {
        rebuilt := StatusOf(events[|events| - 1]);
      } else {
        return;
      }
      if status == Some(rebuilt) { return; }
      jobs := jobs[j := jobs[j].(status := Some(rebuilt))];
    }

    /** `Loop.Recover`: every job once, before the first tick. Afterwards every job that was left in any
        state a stop can leave is aligned with its ledger. */
    method RecoverAll()
      requires |specs| == |jobs| && forall i :: 0 <= i < |jobs| ==> JobOk(jobs[i], specs[i].maxRetries)
      modifies this
      ensures |jobs| == |specs|
      ensures forall i :: 0 <= i < |jobs| ==>
                && JobOk(jobs[i], specs[i].maxRetries) && Aligned(jobs[i].status, Listed(jobs[i]), specs[i].maxRetries)
                && jobs[i].events == old(jobs)[i].events && jobs[i].unacked == old(jobs)[i].unacked
    {
      hide JobOk, Aligned, Recovered;
      var i := 0;
      while i < |jobs|
        invariant 0 <= i <= |jobs| == |specs|
        invariant forall n :: 0 <= n < |jobs| ==>
                    && JobOk(jobs[n], specs[n].maxRetries)
                    && jobs[n].events == old(jobs)[n].events && jobs[n].unacked == old(jobs)[n].unacked
        invariant forall n :: 0 <= n < i ==> Aligned(jobs[n].status, Listed(jobs[n]), specs[n].maxRetries)
      {
        RecoveredIsAligned(jobs[i], specs[i].maxRetries);
        RecoverJob(i);
        i := i + 1;
      }
    }
  }
}
