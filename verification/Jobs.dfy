/** The job reconciler: what one call decides, the ledger it keeps, and what survives stops and failed
    writes between any two of its writes. The spec of a job does not change during a run. */
module Jobs {
  import opened Bytes

  datatype Phase = Pending | Running | Succeeded | Failed | Alerting

  datatype Status = Status(phase: Phase, slot: int, attempt: nat, time: int)

  datatype Outcome = Success | Failure | Alert

  datatype Event = Event(slot: int, attempt: nat, outcome: Outcome, time: int)

  datatype Spec = Spec(maxRetries: nat, backoff: nat, dependsOn: seq<nat>)

  predicate Terminal(p: Phase) { p.Succeeded? || p.Alerting? }

  /** `jobStatusFromEvent`. */
  function StatusOf(e: Event): Status {
    var phase := match e.outcome case Success => Succeeded case Failure => Failed case Alert => Alerting;
    Status(phase, e.slot, e.attempt, e.time)
  }

  datatype Decision = Stay | Defer | Execute(attempt: nat)

  predicate SameTrack(prev: Option<Status>, slot: int) { prev.Some? && prev.value.slot == slot }

  /** The decision part of `Reconcile`. */
  function Decide(prev: Option<Status>, slot: int, now: int, backoff: nat, depsMet: bool): Decision {
    if SameTrack(prev, slot) && Terminal(prev.value.phase) then Stay
    else if SameTrack(prev, slot) && prev.value.phase.Failed? && now < prev.value.time + backoff then Stay
    else if (!SameTrack(prev, slot) || prev.value.phase.Pending?) && !depsMet then Defer
    else if !SameTrack(prev, slot) then Execute(1)
    else if prev.value.phase.Running? then Execute(prev.value.attempt)
    else Execute(prev.value.attempt + 1)
  }

  function Judged(slot: int, attempt: nat, ok: bool, time: int, maxRetries: nat): Event {
    Event(slot, attempt, if ok then Success else if attempt >= maxRetries + 1 then Alert else Failure, time)
  }

  /** `latestMatchingEvent`. */
  function LatestIn(events: seq<Event>, slot: int): Option<Event> {
    if events == [] then None
    else if events[|events| - 1].slot == slot then Some(events[|events| - 1])
    else LatestIn(events[..|events| - 1], slot)
  }

  /** `Recover`: rebuild the status from the ledger. */
  function Recovered(status: Option<Status>, events: seq<Event>): Option<Status> {
    if events == [] then status
    else
      var last := StatusOf(events[|events| - 1]);
      match status
      case None => Some(last)
      case Some(s) =>
        match s.phase
        case Pending => status
        case Succeeded => Some(last)
        case Alerting => Some(last)
        case _ => if LatestIn(events, s.slot).Some? then Some(StatusOf(LatestIn(events, s.slot).value)) else status
  }

  // ---- the ledger ----

  /** An event is within the retry budget, and an alert marks exactly its end. */
  predicate Sound(e: Event, maxRetries: nat) {
    && 1 <= e.attempt <= maxRetries + 1
    && (e.outcome.Failure? ==> e.attempt <= maxRetries) && (e.outcome.Alert? ==> e.attempt == maxRetries + 1)
  }

  /** `e` may come right after `d`: a retry of a failure, or the first attempt of a later slot. */
  predicate Follows(d: Event, e: Event) {
    (e.slot == d.slot && d.outcome.Failure? && e.attempt == d.attempt + 1) || (e.slot > d.slot && e.attempt == 1)
  }

  ghost predicate Ledger(events: seq<Event>, maxRetries: nat) {
    && (forall i :: 0 <= i < |events| ==> Sound(events[i], maxRetries))
    && (events != [] ==> events[0].attempt == 1)
    && (forall i :: 0 < i < |events| ==> Follows(events[i - 1], events[i]))
  }

  /** The events of one slot, in ledger order. */
  function OfSlot(events: seq<Event>, slot: int): seq<Event> {
    if events == [] then []
    else OfSlot(events[..|events| - 1], slot) + if events[|events| - 1].slot == slot then [events[|events| - 1]] else []
  }

  lemma {:induction false} LedgerPrefix(events: seq<Event>, maxRetries: nat)
    requires Ledger(events, maxRetries) && events != []
    ensures Ledger(events[..|events| - 1], maxRetries)
  {
  }

  lemma {:induction false} SlotsAscend(events: seq<Event>, maxRetries: nat)
    requires Ledger(events, maxRetries) && events != []
    ensures forall i :: 0 <= i < |events| ==> events[i].slot <= events[|events| - 1].slot
  {
    var n := |events| - 1;
    if n > 0 {
      LedgerPrefix(events, maxRetries);
      SlotsAscend(events[..n], maxRetries);
      assert Follows(events[n - 1], events[n]);
    }
  }

  lemma {:induction false} NoneOfSlot(events: seq<Event>, slot: int)
    requires forall i :: 0 <= i < |events| ==> events[i].slot != slot
    ensures OfSlot(events, slot) == []
  {
    if events != [] { NoneOfSlot(events[..|events| - 1], slot); }
  }

  /** Attempts 1 to n in order, n within the budget, only the last one final, and an alert only when
      the budget is spent. */
  ghost predicate Tries(h: seq<Event>, slot: int, maxRetries: nat) {
    && |h| <= maxRetries + 1
    && (forall i :: 0 <= i < |h| ==> h[i].slot == slot && h[i].attempt == i + 1)
    && (forall i :: 0 <= i < |h| - 1 ==> h[i].outcome.Failure?)
    && (forall i :: 0 <= i < |h| && h[i].outcome.Alert? ==> i == maxRetries)
  }

  lemma {:induction false} OneMoreTry(h: seq<Event>, e: Event, maxRetries: nat)
    requires Tries(h, e.slot, maxRetries) && Sound(e, maxRetries)
    requires if h == [] then e.attempt == 1 else Follows(h[|h| - 1], e)
    ensures Tries(h + [e], e.slot, maxRetries)
  {
  }

  lemma {:induction false} OfSlotEnds(events: seq<Event>, slot: int)
    requires events != [] && events[|events| - 1].slot == slot
    ensures OfSlot(events, slot) != [] && OfSlot(events, slot)[|OfSlot(events, slot)| - 1] == events[|events| - 1]
  {
  }

  /** What the ledger says about each slot. */
  lemma {:induction false} SlotHistory(events: seq<Event>, maxRetries: nat, slot: int)
    requires Ledger(events, maxRetries)
    ensures Tries(OfSlot(events, slot), slot, maxRetries)
  {
    hide Tries;
    if events == [] {
      NoTries(slot, maxRetries);
    } else {
      var n := |events| - 1;
      var init, e := events[..n], events[n];
      LedgerPrefix(events, maxRetries);
      SlotHistory(init, maxRetries, slot);
      if e.slot == slot {
        if n > 0 {
          assert Follows(events[n - 1], e);
          if events[n - 1].slot < slot {
            SlotsAscend(init, maxRetries);
            NoneOfSlot(init, slot);
          } else {
            OfSlotEnds(init, slot);
          }
        }
        assert Sound(e, maxRetries);
        OneMoreTry(OfSlot(init, slot), e, maxRetries);
      } else {
        assert OfSlot(events, slot) == OfSlot(init, slot);
      }
    }
  }

  lemma {:induction false} NoTries(slot: int, maxRetries: nat)
    ensures Tries([], slot, maxRetries)
  {
  }

  // ---- runs ----

  /** A job: the stored status; the acknowledged events, and perhaps one more whose version was written and
      whose pointer was not; how often it was executed, and the latest slot it was asked for. */
  datatype Job = Job(status: Option<Status>, events: seq<Event>, unacked: Option<Event>, runs: nat, asked: int)

  /** The ledger as `ListVersions` returns it, acknowledged or not. */
  function Listed(j: Job): seq<Event> { if j.unacked.Some? then j.events + [j.unacked.value] else j.events }

  /** Where the one reconcile call in progress is. */
  datatype Progress =
    | Idle
    | Started(job: nat, slot: int, attempt: nat, time: int)
    | Executed(job: nat, slot: int, attempt: nat, time: int, ok: bool)
    | Written(job: nat, event: Event)
    | Logged(job: nat)

  datatype Mode = Up | Recovering(next: nat)

  /** The jobs, the call in progress, whether recovery is under way, and how many calls were cut short. */
  datatype System = System(jobs: seq<Job>, progress: Progress, mode: Mode, cuts: nat)

  /** `Write` and `Acknowledge` are the two store writes behind one event. `Fail` is a write that fails
      without a restart, `RecoverFails` a recovery whose error the loop goes on from. */
  datatype Step =
    | Wait(job: nat, slot: int, now: int)
    | Begin(job: nat, slot: int, now: int)
    | Work(ok: bool)
    | Write
    | Acknowledge
    | Finish
    | Fail
    | Stop
    | RecoverOne
    | RecoverFails
    | RecoverDone

  /** `depsSatisfied`. */
  ghost predicate DepsMet(jobs: seq<Job>, deps: seq<nat>, slot: int) {
    forall i :: 0 <= i < |deps| ==>
      deps[i] < |jobs| && jobs[deps[i]].status.Some? &&
      jobs[deps[i]].status.value.slot == slot && jobs[deps[i]].status.value.phase.Succeeded?
  }

  /** What a call for `slot` decides in state `s`. */
  ghost function Decided(s: System, j: nat, slot: int, now: int, specs: seq<Spec>): Decision
    requires j < |s.jobs| == |specs|
  {
    Decide(s.jobs[j].status, slot, now, specs[j].backoff, DepsMet(s.jobs, specs[j].dependsOn, slot))
  }

  function With(s: System, j: nat, job: Job, progress: Progress): System
    requires j < |s.jobs|
  {
    s.(jobs := s.jobs[j := job], progress := progress)
  }

  ghost predicate Next(s: System, step: Step, t: System, specs: seq<Spec>) {
    |specs| == |s.jobs| &&
    match step
    case Wait(j, slot, now) =>
      && s.mode.Up? && s.progress.Idle? && j < |s.jobs| && slot >= s.jobs[j].asked
      && var d, job := Decided(s, j, slot, now, specs), s.jobs[j].(asked := slot);
         || (d.Stay? && t == With(s, j, job, Idle))
         || (d.Defer? && t == With(s, j, job.(status := Some(Status(Pending, slot, 0, 0))), Idle))
    case Begin(j, slot, now) =>
      && s.mode.Up? && s.progress.Idle? && j < |s.jobs| && slot >= s.jobs[j].asked
      && var d, job := Decided(s, j, slot, now, specs), s.jobs[j].(asked := slot);
         && d.Execute?
         && t == With(s, j, job.(status := Some(Status(Running, slot, d.attempt, now))),
                      Started(j, slot, d.attempt, now))
    case Work(ok) =>
      && s.mode.Up? && s.progress.Started? && s.progress.job < |s.jobs|
      && var Started(j, slot, attempt, time) := s.progress;
         t == With(s, j, s.jobs[j].(runs := s.jobs[j].runs + 1), Executed(j, slot, attempt, time, ok))
    case Write =>
      && s.mode.Up? && s.progress.Executed? && s.progress.job < |s.jobs|
      && var Executed(j, slot, attempt, time, ok) := s.progress;
         var e := Judged(slot, attempt, ok, time, specs[j].maxRetries);
         t == With(s, j, s.jobs[j].(unacked := Some(e)), Written(j, e))
    case Acknowledge =>
      && s.mode.Up? && s.progress.Written? && s.progress.job < |s.jobs|
      && var Written(j, e) := s.progress;
         t == With(s, j, s.jobs[j].(events := s.jobs[j].events + [e], unacked := None), Logged(j))
    case Finish =>
      && s.mode.Up? && s.progress.Logged? && s.progress.job < |s.jobs| && s.jobs[s.progress.job].events != []
      && var j := s.progress.job;
         t == With(s, j, s.jobs[j].(status := Some(StatusOf(s.jobs[j].events[|s.jobs[j].events| - 1]))), Idle)
    case Fail =>
      s.mode.Up? && !s.progress.Idle? && t == s.(progress := Idle, cuts := s.cuts + 1)
    case Stop =>
      t == s.(progress := Idle, mode := Recovering(0), cuts := s.cuts + 1)
    case RecoverOne =>
      && s.mode.Recovering? && s.mode.next < |s.jobs|
      && var j := s.mode.next;
         t == s.(jobs := s.jobs[j := s.jobs[j].(status := Recovered(s.jobs[j].status, Listed(s.jobs[j])))],
                 mode := Recovering(j + 1))
    case RecoverFails =>
      s.mode.Recovering? && s.mode.next < |s.jobs| && t == s.(mode := Recovering(s.mode.next + 1))
    case RecoverDone =>
      s.mode == Recovering(|s.jobs|) && t == s.(mode := Up)
  }

  /** No job depends on itself; `Validate` refuses such a spec. */
  ghost predicate Valid(specs: seq<Spec>) {
    forall j :: 0 <= j < |specs| ==> j !in specs[j].dependsOn
  }

  ghost predicate IsStart(s: System, specs: seq<Spec>) {
    && |s.jobs| == |specs| && s.progress.Idle? && s.mode.Up? && s.cuts == 0
    && forall i :: 0 <= i < |specs| ==>
         s.jobs[i].status.None? && s.jobs[i].events == [] && s.jobs[i].unacked.None? && s.jobs[i].runs == 0
  }

  ghost predicate IsRun(states: seq<System>, steps: seq<Step>, specs: seq<Spec>) {
    && |states| == |steps| + 1 && IsStart(states[0], specs) && Valid(specs)
    && forall i :: 0 <= i < |steps| ==> Next(states[i], steps[i], states[i + 1], specs)
  }

  // ---- what holds in every run ----

  ghost predicate Marked(j: Job, slot: int, attempt: nat) {
    && j.status.Some? && j.status.value.phase.Running?
    && j.status.value.slot == slot && j.status.value.attempt == attempt
  }

  /** What the call in progress has established for its job. */
  ghost predicate CallOk(s: System) {
    match s.progress
    case Idle => true
    case Started(j, slot, attempt, _) => s.mode.Up? && j < |s.jobs| && Marked(s.jobs[j], slot, attempt)
    case Executed(j, slot, attempt, _, _) => s.mode.Up? && j < |s.jobs| && Marked(s.jobs[j], slot, attempt)
    case Written(j, e) =>
      s.mode.Up? && j < |s.jobs| && Marked(s.jobs[j], e.slot, e.attempt) && s.jobs[j].unacked == Some(e)
    case Logged(j) => s.mode.Up? && j < |s.jobs| && s.jobs[j].events != [] && s.jobs[j].unacked.None?
  }

  /** An execution of job `i` whose event is not acknowledged yet. */
  function UnderWay(s: System, i: nat): nat {
    if (s.progress.Executed? || s.progress.Written?) && s.progress.job == i then 1 else 0
  }

  /** Executions of a job: one per acknowledged event, one under way, and those a cut wasted. */
  ghost predicate Counted(s: System) {
    forall i :: 0 <= i < |s.jobs| ==> s.jobs[i].runs <= |s.jobs[i].events| + s.cuts + UnderWay(s, i)
  }

  ghost predicate Always(s: System, specs: seq<Spec>) { |specs| == |s.jobs| && CallOk(s) && Counted(s) }

  lemma {:induction false} StepKeepsAlways(s: System, step: Step, t: System, specs: seq<Spec>)
    requires Always(s, specs) && Next(s, step, t, specs)
    ensures Always(t, specs)
  {
    hide Decided, Recovered, StatusOf;
  }

  lemma {:induction false} RunKeepsAlways(states: seq<System>, steps: seq<Step>, specs: seq<Spec>, n: nat)
    requires IsRun(states, steps, specs) && n < |states|
    ensures Always(states[n], specs)
  {
    if n > 0 {
      RunKeepsAlways(states, steps, specs, n - 1);
      assert Next(states[n - 1], steps[n - 1], states[n - 1 + 1], specs);
      StepKeepsAlways(states[n - 1], steps[n - 1], states[n], specs);
    }
  }

  /** In every run, a stop or a failed write costs a job at most one execution beyond its acknowledged
      events and the one under way. */
  lemma {:induction false} ExecutionsAreCounted(states: seq<System>, steps: seq<Step>, specs: seq<Spec>, n: nat, j: nat)
    requires IsRun(states, steps, specs) && n < |states| && j < |specs|
    ensures |states[n].jobs| == |specs|
    ensures states[n].jobs[j].runs <= |states[n].jobs[j].events| + states[n].cuts + UnderWay(states[n], j)
  {
    RunKeepsAlways(states, steps, specs, n);
  }

  // ---- one job's invariant ----

  /** The attempt that comes next: its slot and number continue the ledger. */
  ghost predicate Due(events: seq<Event>, slot: int, attempt: nat, maxRetries: nat) {
    && 1 <= attempt <= maxRetries + 1
    && (events == [] ==> attempt == 1)
    && (events != [] ==>
          var e := events[|events| - 1];
          (e.slot == slot && e.outcome.Failure? && attempt == e.attempt + 1) || (e.slot < slot && attempt == 1))
  }

  ghost predicate EndsWith(events: seq<Event>, slot: int, attempt: nat) {
    events != [] && events[|events| - 1].slot == slot && events[|events| - 1].attempt == attempt
  }

  /** The status says what the ledger says. */
  ghost predicate Aligned(status: Option<Status>, events: seq<Event>, maxRetries: nat) {
    match status
    case None => events == []
    case Some(s) =>
      match s.phase
      case Pending => s.attempt == 0 && (events != [] ==> events[|events| - 1].slot < s.slot)
      case Running => Due(events, s.slot, s.attempt, maxRetries)
      case _ => events != [] && s == StatusOf(events[|events| - 1])
  }

  /** The event is written, the status not yet. */
  ghost predicate Behind(status: Option<Status>, events: seq<Event>) {
    status.Some? && status.value.phase.Running? && EndsWith(events, status.value.slot, status.value.attempt)
  }

  ghost predicate Asked(j: Job) {
    && (j.status.Some? ==> j.status.value.slot <= j.asked)
    && (forall i :: 0 <= i < |Listed(j)| ==> Listed(j)[i].slot <= j.asked)
  }

  ghost predicate JobOk(j: Job, maxRetries: nat) {
    && Ledger(Listed(j), maxRetries) && Asked(j)
    && (Aligned(j.status, Listed(j), maxRetries) || Behind(j.status, Listed(j)))
  }

  ghost predicate Inv(s: System, specs: seq<Spec>) {
    Always(s, specs) && forall i :: 0 <= i < |s.jobs| ==> JobOk(s.jobs[i], specs[i].maxRetries)
  }

  lemma {:induction false} LedgerGrowsIff(events: seq<Event>, slot: int, attempt: nat, ok: bool, time: int,
                                          maxRetries: nat)
    requires Ledger(events, maxRetries) && 1 <= attempt <= maxRetries + 1
    ensures Ledger(events + [Judged(slot, attempt, ok, time, maxRetries)], maxRetries) <==>
            Due(events, slot, attempt, maxRetries)
  {
    var e := Judged(slot, attempt, ok, time, maxRetries);
    var all := events + [e];
    if Due(events, slot, attempt, maxRetries) {
      forall i | 0 < i < |all| ensures Follows(all[i - 1], all[i]) {
        if i < |events| { assert Follows(events[i - 1], events[i]); }
      }
    } else if events != [] {
      assert !Follows(all[|events| - 1], all[|events|]);
    } else {
      assert all[0] == e;
    }
  }

  /** A decided execution is due, or repeats the attempt the ledger ends with. */
  lemma {:induction false} DecisionIsDue(j: Job, slot: int, now: int, backoff: nat, depsMet: bool, maxRetries: nat)
    requires JobOk(j, maxRetries) && slot >= j.asked && Decide(j.status, slot, now, backoff, depsMet).Execute?
    ensures var attempt := Decide(j.status, slot, now, backoff, depsMet).attempt;
            Due(Listed(j), slot, attempt, maxRetries) || EndsWith(Listed(j), slot, attempt)
  {
    if Listed(j) != [] { assert Sound(Listed(j)[|Listed(j)| - 1], maxRetries); }
  }

  lemma {:induction false} DeferIsAligned(j: Job, slot: int, now: int, backoff: nat, depsMet: bool, maxRetries: nat)
    requires JobOk(j, maxRetries) && slot >= j.asked && Decide(j.status, slot, now, backoff, depsMet).Defer?
    ensures Listed(j) != [] ==> Listed(j)[|Listed(j)| - 1].slot < slot
  {
  }

  lemma {:induction false} LatestIsLast(events: seq<Event>, maxRetries: nat, slot: int)
    requires Ledger(events, maxRetries) && events != [] && slot == events[|events| - 1].slot
    ensures LatestIn(events, slot) == Some(events[|events| - 1])
  {
  }

  lemma {:induction false} LatestIsPast(events: seq<Event>, slot: int)
    requires forall i :: 0 <= i < |events| ==> events[i].slot < slot
    ensures LatestIn(events, slot).None?
  {
    if events != [] { LatestIsPast(events[..|events| - 1], slot); }
  }

  /** Recovery makes the status of any job say what the listed ledger says, whichever two writes the stop
      fell between. */
  lemma {:induction false} RecoveredIsAligned(j: Job, maxRetries: nat)
    requires JobOk(j, maxRetries)
    ensures var r := j.(status := Recovered(j.status, Listed(j)));
            JobOk(r, maxRetries) && Aligned(r.status, Listed(r), maxRetries)
  {
    var events := Listed(j);
    if events != [] && j.status.Some? && (j.status.value.phase.Running? || j.status.value.phase.Failed?) {
      if events[|events| - 1].slot == j.status.value.slot {
        LatestIsLast(events, maxRetries, j.status.value.slot);
      } else {
        SlotsAscend(events, maxRetries);
        LatestIsPast(events, j.status.value.slot);
      }
    }
  }

  // ---- when a write keeps the ledger ----

  /** The number to be logged counts an event that is not acknowledged and is about to be replaced, or
      repeats an acknowledged one. */
  predicate Stale(j: Job, slot: int, attempt: nat) {
    if j.unacked.Some? then j.unacked.value.slot == slot && j.unacked.value.attempt != attempt
    else j.events != [] && j.events[|j.events| - 1].slot == slot && j.events[|j.events| - 1].attempt == attempt
  }

  lemma {:induction false} ListedPrefix(j: Job, maxRetries: nat)
    requires Ledger(Listed(j), maxRetries)
    ensures Ledger(j.events, maxRetries)
    ensures j.unacked.Some? ==>
              && Sound(j.unacked.value, maxRetries)
              && (j.events == [] ==> j.unacked.value.attempt == 1)
              && (j.events != [] ==> Follows(j.events[|j.events| - 1], j.unacked.value))
  {
    if j.unacked.Some? {
      var all := Listed(j);
      assert all[..|all| - 1] == j.events && all[|all| - 1] == j.unacked.value;
      LedgerPrefix(all, maxRetries);
      assert Sound(all[|all| - 1], maxRetries);
      if j.events != [] { assert Follows(all[|all| - 2], all[|all| - 1]); }
    }
  }

  /** The version write replaces an unacknowledged event; the ledger stays a ledger if and only if the number
      is not stale. */
  lemma {:induction false} WriteKeepsLedgerIff(j: Job, slot: int, attempt: nat, ok: bool, time: int, maxRetries: nat)
    requires Ledger(Listed(j), maxRetries)
    requires Due(Listed(j), slot, attempt, maxRetries) || EndsWith(Listed(j), slot, attempt)
    ensures Ledger(j.events + [Judged(slot, attempt, ok, time, maxRetries)], maxRetries) <==> !Stale(j, slot, attempt)
  {
    ListedPrefix(j, maxRetries);
    if Listed(j) != [] { assert Sound(Listed(j)[|Listed(j)| - 1], maxRetries); }
    hide Ledger;
    LedgerGrowsIff(j.events, slot, attempt, ok, time, maxRetries);
  }

  /** What a caller can see before the call. An unacknowledged event of this slot is there and the status is
      no longer running its attempt; or none is there and the status still runs an attempt that the ledger
      already holds. */
  predicate Risky(j: Job, slot: int) {
    SameTrack(j.status, slot) &&
    var marked := j.status.value.phase.Running?;
    if j.unacked.Some? then
      j.unacked.value.slot == slot && !(marked && j.status.value.attempt == j.unacked.value.attempt)
    else
      && marked && j.events != []
      && j.events[|j.events| - 1].slot == slot && j.events[|j.events| - 1].attempt == j.status.value.attempt
  }

  lemma {:induction false} StaleIffRisky(j: Job, slot: int, now: int, backoff: nat, depsMet: bool, maxRetries: nat)
    requires JobOk(j, maxRetries) && slot >= j.asked && Decide(j.status, slot, now, backoff, depsMet).Execute?
    ensures Stale(j, slot, Decide(j.status, slot, now, backoff, depsMet).attempt) <==> Risky(j, slot)
  {
    ListedPrefix(j, maxRetries);
    hide Ledger;
  }

  /** Whether recovery ran or not, going on keeps the ledger if and only if the job is not risky in that
      slot. */
  lemma {:induction false} GoingOnIsSafeIff(j: Job, slot: int, now: int, backoff: nat, depsMet: bool, ok: bool,
                                            maxRetries: nat)
    requires JobOk(j, maxRetries) && slot >= j.asked && Decide(j.status, slot, now, backoff, depsMet).Execute?
    ensures var d := Decide(j.status, slot, now, backoff, depsMet);
            Ledger(j.events + [Judged(slot, d.attempt, ok, now, maxRetries)], maxRetries) <==> !Risky(j, slot)
  {
    hide Ledger, Decide, Risky, Stale;
    DecisionIsDue(j, slot, now, backoff, depsMet, maxRetries);
    WriteKeepsLedgerIff(j, slot, Decide(j.status, slot, now, backoff, depsMet).attempt, ok, now, maxRetries);
    StaleIffRisky(j, slot, now, backoff, depsMet, maxRetries);
  }

  /** The failing half, in detail: going on with a status behind an acknowledged ledger, as after a failed
      status write without a restart, executes and logs the attempt the ledger already ends with. */
  lemma {:induction false} GoingOnRepeatsTheAttempt(j: Job, slot: int, now: int, backoff: nat, depsMet: bool, ok: bool,
                                                    maxRetries: nat)
    requires j.unacked.None? && Behind(j.status, j.events) && Ledger(j.events, maxRetries)
    requires slot == j.status.value.slot
    ensures var d := Decide(j.status, slot, now, backoff, depsMet);
            && d == Decision.Execute(j.events[|j.events| - 1].attempt)
            && !Ledger(j.events + [Judged(slot, d.attempt, ok, now, maxRetries)], maxRetries)
  {
    var n := |j.events|;
    var all := j.events + [Judged(slot, j.events[n - 1].attempt, ok, now, maxRetries)];
    assert !Follows(all[n - 1], all[n]);
  }

  /** A call cut short after it wrote its event: going on without recovery is safe if and only if the event
      is not acknowledged, and recovering first is safe if and only if it is, or no attempt is left. */
  lemma {:induction false} AfterACut(j: Job, now: int, backoff: nat, depsMet: bool, maxRetries: nat)
    requires JobOk(j, maxRetries) && Behind(j.status, Listed(j)) && j.asked == j.status.value.slot
    ensures var slot, r := j.status.value.slot, j.(status := Recovered(j.status, Listed(j)));
            && Decide(j.status, slot, now, backoff, depsMet).Execute?
            && (!Risky(j, slot) <==> j.unacked.Some?)
            && (Decide(r.status, slot, now, backoff, depsMet).Execute? ==> (!Risky(r, slot) <==> j.unacked.None?))
  {
    hide Ledger;
    var slot := j.status.value.slot;
    assert LatestIn(Listed(j), slot) == Some(Listed(j)[|Listed(j)| - 1]);
  }

  // ---- steps ----

  /** A write that logs a stale number. */
  ghost predicate Reckless(s: System, step: Step) {
    && step.Write? && s.progress.Executed? && s.progress.job < |s.jobs|
    && Stale(s.jobs[s.progress.job], s.progress.slot, s.progress.attempt)
  }

  /** Only the stepping job changes. */
  lemma {:induction false} OthersOk(s: System, j: nat, job: Job, specs: seq<Spec>)
    requires Inv(s, specs) && j < |s.jobs| && JobOk(job, specs[j].maxRetries)
    ensures forall i :: 0 <= i < |s.jobs| ==> JobOk(s.jobs[j := job][i], specs[i].maxRetries)
  {
    hide JobOk;
  }

  lemma {:induction false} WaitKeeps(s: System, j: nat, slot: int, now: int, t: System, specs: seq<Spec>)
    requires Inv(s, specs) && Next(s, Wait(j, slot, now), t, specs)
    ensures JobOk(t.jobs[j], specs[j].maxRetries)
  {
    hide Ledger, Decide;
    assert JobOk(s.jobs[j], specs[j].maxRetries);
    if Decided(s, j, slot, now, specs).Defer? {
      DeferIsAligned(s.jobs[j], slot, now, specs[j].backoff, DepsMet(s.jobs, specs[j].dependsOn, slot),
                     specs[j].maxRetries);
    }
  }

  lemma {:induction false} BeginKeeps(s: System, j: nat, slot: int, now: int, t: System, specs: seq<Spec>)
    requires Inv(s, specs) && Next(s, Begin(j, slot, now), t, specs)
    ensures JobOk(t.jobs[j], specs[j].maxRetries)
  {
    hide Ledger, Decide;
    assert JobOk(s.jobs[j], specs[j].maxRetries);
    DecisionIsDue(s.jobs[j], slot, now, specs[j].backoff, DepsMet(s.jobs, specs[j].dependsOn, slot),
                  specs[j].maxRetries);
  }

  lemma {:induction false} WriteKeepsIff(s: System, t: System, specs: seq<Spec>)
    requires Inv(s, specs) && Next(s, Write, t, specs)
    ensures var j := s.progress.job;
            && (Reckless(s, Write) ==> !Ledger(Listed(t.jobs[j]), specs[j].maxRetries))
            && (!Reckless(s, Write) ==> JobOk(t.jobs[j], specs[j].maxRetries))
  {
    var Executed(j, slot, attempt, time, ok) := s.progress;
    assert JobOk(s.jobs[j], specs[j].maxRetries);
    WriteKeepsLedgerIff(s.jobs[j], slot, attempt, ok, time, specs[j].maxRetries);
    hide Ledger, Due;
    var e := Judged(slot, attempt, ok, time, specs[j].maxRetries);
    assert Listed(t.jobs[j]) == s.jobs[j].events + [e];
    forall i | 0 <= i < |Listed(t.jobs[j])| ensures Listed(t.jobs[j])[i].slot <= t.jobs[j].asked {
      if i < |s.jobs[j].events| { assert Listed(s.jobs[j])[i] == s.jobs[j].events[i]; }
    }
  }

  lemma {:induction false} QuietKeeps(s: System, step: Step, t: System, specs: seq<Spec>)
    requires step.Work? || step.Acknowledge? || step.Finish?
    requires Inv(s, specs) && Next(s, step, t, specs)
    ensures JobOk(t.jobs[s.progress.job], specs[s.progress.job].maxRetries)
  {
    hide Ledger, Due;
    var j := s.progress.job;
    assert JobOk(s.jobs[j], specs[j].maxRetries);
    assert Listed(t.jobs[j]) == Listed(s.jobs[j]);
  }

  lemma {:induction false} StepKeepsJobs(s: System, step: Step, t: System, specs: seq<Spec>)
    requires Inv(s, specs) && Next(s, step, t, specs) && !Reckless(s, step)
    ensures forall i :: 0 <= i < |t.jobs| ==> JobOk(t.jobs[i], specs[i].maxRetries)
  {
    match step
    case Wait(j, slot, now) => WaitKeeps(s, j, slot, now, t, specs); OthersOk(s, j, t.jobs[j], specs);
    case Begin(j, slot, now) => BeginKeeps(s, j, slot, now, t, specs); OthersOk(s, j, t.jobs[j], specs);
    case Write => WriteKeepsIff(s, t, specs); OthersOk(s, s.progress.job, t.jobs[s.progress.job], specs);
    case RecoverOne =>
      RecoveredIsAligned(s.jobs[s.mode.next], specs[s.mode.next].maxRetries);
      OthersOk(s, s.mode.next, t.jobs[s.mode.next], specs);
    case Fail =>
    case Stop =>
    case RecoverFails =>
    case RecoverDone =>
    case _ =>
      QuietKeeps(s, step, t, specs);
      OthersOk(s, s.progress.job, t.jobs[s.progress.job], specs);
  }

  lemma {:induction false} StepKeeps(s: System, step: Step, t: System, specs: seq<Spec>)
    requires Inv(s, specs) && Next(s, step, t, specs) && !Reckless(s, step)
    ensures Inv(t, specs)
  {
    hide Next, Always, JobOk, Reckless;
    StepKeepsAlways(s, step, t, specs);
    StepKeepsJobs(s, step, t, specs);
  }

  ghost predicate LedgersOk(s: System, specs: seq<Spec>) {
    |specs| == |s.jobs| && forall j :: 0 <= j < |s.jobs| ==> Ledger(Listed(s.jobs[j]), specs[j].maxRetries)
  }

  ghost predicate NoReckless(states: seq<System>, steps: seq<Step>, n: nat)
    requires n <= |steps| < |states|
  {
    forall i :: 0 <= i < n ==> !Reckless(states[i], steps[i])
  }

  lemma {:induction false} RunKeeps(states: seq<System>, steps: seq<Step>, specs: seq<Spec>, n: nat)
    requires IsRun(states, steps, specs) && n < |states| && NoReckless(states, steps, n)
    ensures Inv(states[n], specs)
  {
    if n > 0 {
      RunKeeps(states, steps, specs, n - 1);
      assert Next(states[n - 1], steps[n - 1], states[n - 1 + 1], specs);
      StepKeeps(states[n - 1], steps[n - 1], states[n], specs);
    }
  }

  lemma {:induction false} InvIsLedgers(s: System, specs: seq<Spec>)
    requires Inv(s, specs)
    ensures LedgersOk(s, specs)
  {
    hide Ledger;
    forall j | 0 <= j < |s.jobs| ensures Ledger(Listed(s.jobs[j]), specs[j].maxRetries) {
      assert JobOk(s.jobs[j], specs[j].maxRetries);
    }
  }

  /** Whole ledgers up to `n` mean no reckless write before `n`. */
  lemma {:induction false} WholeMeansCareful(states: seq<System>, steps: seq<Step>, specs: seq<Spec>, n: nat)
    requires IsRun(states, steps, specs) && n < |states|
    requires forall i :: 0 <= i <= n ==> LedgersOk(states[i], specs)
    ensures NoReckless(states, steps, n)
  {
    hide LedgersOk, Next, Always, JobOk;
    if n > 0 {
      WholeMeansCareful(states, steps, specs, n - 1);
      RunKeeps(states, steps, specs, n - 1);
      assert Next(states[n - 1], steps[n - 1], states[n - 1 + 1], specs);
      if Reckless(states[n - 1], steps[n - 1]) { RecklessBreaks(states[n - 1], states[n], specs); }
    }
  }

  lemma {:induction false} RecklessBreaks(s: System, t: System, specs: seq<Spec>)
    requires Inv(s, specs) && Next(s, Write, t, specs) && Reckless(s, Write)
    ensures !LedgersOk(t, specs)
  {
    WriteKeepsIff(s, t, specs);
    hide Ledger, Stale;
  }

  /** A run keeps every ledger whole, at every moment, if and only if it never writes a stale number. */
  lemma {:induction false} LedgersAreWholeIff(states: seq<System>, steps: seq<Step>, specs: seq<Spec>)
    requires IsRun(states, steps, specs)
    ensures (forall n :: 0 <= n < |states| ==> LedgersOk(states[n], specs)) <==> NoReckless(states, steps, |steps|)
  {
    hide LedgersOk, Next, Reckless, Inv;
    if NoReckless(states, steps, |steps|) {
      forall n | 0 <= n < |states| ensures LedgersOk(states[n], specs) {
        RunKeeps(states, steps, specs, n);
        InvIsLedgers(states[n], specs);
      }
    } else if forall n :: 0 <= n < |states| ==> LedgersOk(states[n], specs) {
      WholeMeansCareful(states, steps, specs, |steps|);
    }
  }

  /** In every such run, for every job and slot, the ledger holds attempts 1 to n in order, n at most the
      retries plus one, only the last one final, and an alert only at the end of the budget. */
  lemma {:induction false} LedgerIsExact(states: seq<System>, steps: seq<Step>, specs: seq<Spec>, n: nat, j: nat,
                                         slot: int)
    requires IsRun(states, steps, specs) && NoReckless(states, steps, |steps|) && n < |states| && j < |specs|
    ensures |states[n].jobs| == |specs|
    ensures Tries(OfSlot(Listed(states[n].jobs[j]), slot), slot, specs[j].maxRetries)
  {
    hide Next, Reckless;
    RunKeeps(states, steps, specs, n);
    assert JobOk(states[n].jobs[j], specs[j].maxRetries);
    SlotHistory(Listed(states[n].jobs[j]), specs[j].maxRetries, slot);
  }

  // ---- dependencies ----

  /** The events that count as facts: all that are listed, or only the acknowledged ones. */
  function Facts(j: Job, all: bool): seq<Event> { if all then Listed(j) else j.events }

  ghost predicate HasSuccess(events: seq<Event>, slot: int) {
    exists i :: 0 <= i < |events| && events[i].slot == slot && events[i].outcome.Success?
  }

  /** Every dependency has succeeded in `slot`. */
  ghost predicate DepsDone(jobs: seq<Job>, deps: seq<nat>, slot: int, all: bool) {
    forall i :: 0 <= i < |deps| ==> deps[i] < |jobs| && HasSuccess(Facts(jobs[deps[i]], all), slot)
  }

  /** The job has an event of the slot, or is past waiting in it. */
  ghost predicate Relies(j: Job, slot: int) {
    || (exists i :: 0 <= i < |Listed(j)| && Listed(j)[i].slot == slot)
    || (j.status.Some? && !j.status.value.phase.Pending? && j.status.value.slot == slot)
  }

  /** What a job has logged, or has marked as running, its dependencies did first. */
  ghost predicate DepsFirst(jobs: seq<Job>, j: nat, deps: seq<nat>, all: bool)
    requires j < |jobs|
  {
    && (forall slot :: Relies(jobs[j], slot) ==> DepsDone(jobs, deps, slot, all))
    && (jobs[j].status.Some? && jobs[j].status.value.phase.Succeeded? ==>
          HasSuccess(Facts(jobs[j], all), jobs[j].status.value.slot))
  }

  ghost predicate AllDepsFirst(s: System, specs: seq<Spec>, all: bool) {
    |specs| == |s.jobs| && forall j :: 0 <= j < |s.jobs| ==> DepsFirst(s.jobs, j, specs[j].dependsOn, all)
  }

  /** No success of the changing job on which another one relies is lost. */
  ghost predicate KeepsSuccesses(s: System, specs: seq<Spec>, j: nat, job: Job, all: bool)
    requires j < |s.jobs| == |specs|
  {
    forall i, slot :: 0 <= i < |s.jobs| && i != j && j in specs[i].dependsOn && Relies(s.jobs[i], slot) ==>
                        (HasSuccess(Facts(s.jobs[j], all), slot) ==> HasSuccess(Facts(job, all), slot))
  }

  lemma {:induction false} MetIsDone(s: System, specs: seq<Spec>, deps: seq<nat>, slot: int, all: bool)
    requires AllDepsFirst(s, specs, all) && DepsMet(s.jobs, deps, slot)
    ensures DepsDone(s.jobs, deps, slot, all)
  {
    hide HasSuccess, Relies;
    forall i | 0 <= i < |deps| ensures deps[i] < |s.jobs| && HasSuccess(Facts(s.jobs[deps[i]], all), slot) {
      assert DepsFirst(s.jobs, deps[i], specs[deps[i]].dependsOn, all);
    }
  }

  lemma {:induction false} DoneElsewhere(jobs: seq<Job>, j: nat, job: Job, deps: seq<nat>, slot: int, all: bool)
    requires j < |jobs| && j !in deps
    ensures DepsDone(jobs[j := job], deps, slot, all) <==> DepsDone(jobs, deps, slot, all)
  {
    hide HasSuccess;
    assert forall i :: 0 <= i < |deps| ==> deps[i] in deps;
  }

  lemma {:induction false} DoneStays(s: System, specs: seq<Spec>, j: nat, job: Job, i: nat, slot: int, all: bool)
    requires j < |s.jobs| == |specs| && i < |s.jobs| && i != j && KeepsSuccesses(s, specs, j, job, all)
    requires Relies(s.jobs[i], slot) && DepsDone(s.jobs, specs[i].dependsOn, slot, all)
    ensures DepsDone(s.jobs[j := job], specs[i].dependsOn, slot, all)
  {
    hide HasSuccess, Relies;
    var deps := specs[i].dependsOn;
    forall n | 0 <= n < |deps| ensures HasSuccess(Facts(s.jobs[j := job][deps[n]], all), slot) {
      assert deps[n] in deps;
    }
  }

  /** Only one job changes, loses no success, and relies on nothing new that is not done. */
  lemma {:induction false} OneJobChanges(s: System, specs: seq<Spec>, j: nat, job: Job, all: bool)
    requires Valid(specs) && AllDepsFirst(s, specs, all) && j < |s.jobs| && KeepsSuccesses(s, specs, j, job, all)
    requires forall slot :: Relies(job, slot) && !Relies(s.jobs[j], slot) ==>
                              DepsDone(s.jobs, specs[j].dependsOn, slot, all)
    requires job.status.Some? && job.status.value.phase.Succeeded? ==>
               HasSuccess(Facts(job, all), job.status.value.slot)
    ensures forall i :: 0 <= i < |s.jobs| ==> DepsFirst(s.jobs[j := job], i, specs[i].dependsOn, all)
  {
    hide HasSuccess, Relies, DepsDone, KeepsSuccesses;
    var more := s.jobs[j := job];
    forall i | 0 <= i < |s.jobs| ensures DepsFirst(more, i, specs[i].dependsOn, all) {
      assert DepsFirst(s.jobs, i, specs[i].dependsOn, all);
      forall slot | Relies(more[i], slot) ensures DepsDone(more, specs[i].dependsOn, slot, all) {
        if i != j {
          DoneStays(s, specs, j, job, i, slot, all);
        } else {
          DoneElsewhere(s.jobs, j, job, specs[j].dependsOn, slot, all);
        }
      }
    }
  }

  lemma {:induction false} LatestIsIn(events: seq<Event>, slot: int)
    requires LatestIn(events, slot).Some?
    ensures LatestIn(events, slot).value in events
  {
    if events[|events| - 1].slot != slot {
      LatestIsIn(events[..|events| - 1], slot);
    }
  }

  /** A status taken from an event relies on nothing new. */
  lemma {:induction false} StatusFromEvent(j: Job, e: Event, events: seq<Event>)
    requires e in events && (events == Listed(j) || events == j.events)
    ensures forall slot :: Relies(j.(status := Some(StatusOf(e))), slot) ==> Relies(j, slot)
    ensures StatusOf(e).phase.Succeeded? ==> HasSuccess(events, StatusOf(e).slot)
  {
    var i :| 0 <= i < |events| && events[i] == e;
    assert Listed(j)[i] == e && Listed(j.(status := Some(StatusOf(e)))) == Listed(j);
  }

  lemma {:induction false} RecoverRelies(j: Job)
    ensures var r := j.(status := Recovered(j.status, Listed(j)));
            && (forall slot :: Relies(r, slot) ==> Relies(j, slot))
            && (r.status.Some? && r.status.value.phase.Succeeded? ==>
                  r.status == j.status || HasSuccess(Listed(j), r.status.value.slot))
  {
    hide Relies, HasSuccess;
    var events := Listed(j);
    if events != [] {
      StatusFromEvent(j, events[|events| - 1], events);
      if j.status.Some? && LatestIn(events, j.status.value.slot).Some? {
        LatestIsIn(events, j.status.value.slot);
        StatusFromEvent(j, LatestIn(events, j.status.value.slot).value, events);
      }
    }
    assert j.(status := j.status) == j;
  }

  /** A write for job `d` that replaces an unacknowledged success on which another job relies. */
  ghost predicate LosesSuccess(s: System, step: Step, specs: seq<Spec>) {
    && step.Write? && s.progress.Executed? && s.progress.job < |s.jobs| == |specs|
    && var d := s.progress.job;
       s.jobs[d].unacked.Some? &&
       var p := s.jobs[d].unacked.value;
       && p.outcome.Success? && !HasSuccess(s.jobs[d].events, p.slot) && !(s.progress.slot == p.slot && s.progress.ok)
       && exists i :: 0 <= i < |s.jobs| && d in specs[i].dependsOn && Relies(s.jobs[i], p.slot)
  }

  lemma {:induction false} SuccessOfListed(j: Job, slot: int)
    ensures HasSuccess(Listed(j), slot) <==>
            HasSuccess(j.events, slot) ||
            (j.unacked.Some? && j.unacked.value.slot == slot && j.unacked.value.outcome.Success?)
  {
    if HasSuccess(j.events, slot) {
      var i :| 0 <= i < |j.events| && j.events[i].slot == slot && j.events[i].outcome.Success?;
      assert Listed(j)[i] == j.events[i];
    }
    if j.unacked.Some? { assert Listed(j)[|j.events|] == j.unacked.value; }
  }

  lemma {:induction false} WriteDeps(s: System, t: System, specs: seq<Spec>, all: bool)
    requires Valid(specs) && Always(s, specs) && AllDepsFirst(s, specs, all) && Next(s, Write, t, specs)
    requires all ==> !LosesSuccess(s, Write, specs)
    ensures AllDepsFirst(t, specs, all)
  {
    var j := s.progress.job;
    var job := t.jobs[j];
    hide HasSuccess, DepsDone, Counted, AllDepsFirst;
    forall slot ensures HasSuccess(Listed(s.jobs[j]), slot) <==>
                        HasSuccess(s.jobs[j].events, slot) ||
                        (s.jobs[j].unacked.Some? && s.jobs[j].unacked.value.slot == slot &&
                         s.jobs[j].unacked.value.outcome.Success?)
                ensures HasSuccess(Listed(job), slot) <==>
                        HasSuccess(job.events, slot) ||
                        (job.unacked.value.slot == slot && job.unacked.value.outcome.Success?)
    {
      SuccessOfListed(s.jobs[j], slot);
      SuccessOfListed(job, slot);
    }
    assert KeepsSuccesses(s, specs, j, job, all);
    WriteRelies(s.jobs[j], job.unacked.value);
    hide Relies, KeepsSuccesses;
    OneJobChanges(s, specs, j, job, all);
    SpreadDeps(s, specs, j, job, t, all);
  }

  /** A written event relies on nothing that the running mark did not rely on already. */
  lemma {:induction false} WriteRelies(j: Job, e: Event)
    requires Marked(j, e.slot, e.attempt)
    ensures forall slot :: Relies(j.(unacked := Some(e)), slot) ==> Relies(j, slot)
  {
    var more := j.(unacked := Some(e));
    forall slot | Relies(more, slot) ensures Relies(j, slot) {
      if exists i :: 0 <= i < |Listed(more)| && Listed(more)[i].slot == slot {
        var i :| 0 <= i < |Listed(more)| && Listed(more)[i].slot == slot;
        if i < |j.events| { assert Listed(j)[i] == j.events[i]; }
      }
    }
  }

  lemma {:induction false} SpreadDeps(s: System, specs: seq<Spec>, j: nat, job: Job, t: System, all: bool)
    requires |specs| == |s.jobs| && j < |s.jobs| && t.jobs == s.jobs[j := job]
    requires forall i :: 0 <= i < |s.jobs| ==> DepsFirst(s.jobs[j := job], i, specs[i].dependsOn, all)
    ensures AllDepsFirst(t, specs, all)
  {
    hide DepsFirst;
  }

  /** Steps that keep the listed ledger and lose no acknowledged event. */
  lemma {:induction false} QuietDeps(s: System, specs: seq<Spec>, j: nat, job: Job, t: System, all: bool)
    requires Valid(specs) && AllDepsFirst(s, specs, all) && j < |s.jobs| && t.jobs == s.jobs[j := job]
    requires Listed(job) == Listed(s.jobs[j]) && s.jobs[j].events <= job.events
    requires forall slot :: Relies(job, slot) && !Relies(s.jobs[j], slot) ==>
                              DepsDone(s.jobs, specs[j].dependsOn, slot, all)
    requires job.status.Some? && job.status.value.phase.Succeeded? ==>
               job.status == s.jobs[j].status || HasSuccess(Facts(job, all), job.status.value.slot)
    ensures AllDepsFirst(t, specs, all)
  {
    forall slot | HasSuccess(Facts(s.jobs[j], all), slot) ensures HasSuccess(Facts(job, all), slot) {
      var i :| 0 <= i < |Facts(s.jobs[j], all)| && Facts(s.jobs[j], all)[i].slot == slot &&
          Facts(s.jobs[j], all)[i].outcome.Success?;
      assert Facts(job, all)[i] == Facts(s.jobs[j], all)[i];
    }
    hide HasSuccess, Relies, DepsDone;
    assert DepsFirst(s.jobs, j, specs[j].dependsOn, all);
    OneJobChanges(s, specs, j, job, all);
    SpreadDeps(s, specs, j, job, t, all);
  }

  /** A status written without touching the ledger. */
  lemma {:induction false} StatusRelies(j: Job, job: Job)
    requires Listed(job) == Listed(j)
    ensures forall slot :: Relies(job, slot) ==>
              Relies(j, slot) || (job.status.Some? && !job.status.value.phase.Pending? && job.status.value.slot == slot)
  {
  }

  lemma {:induction false} BeginDeps(s: System, j: nat, slot: int, now: int, t: System, specs: seq<Spec>, all: bool)
    requires Valid(specs) && AllDepsFirst(s, specs, all) && Next(s, Begin(j, slot, now), t, specs)
    ensures AllDepsFirst(t, specs, all)
  {
    StatusRelies(s.jobs[j], t.jobs[j]);
    if DepsMet(s.jobs, specs[j].dependsOn, slot) { MetIsDone(s, specs, specs[j].dependsOn, slot, all); }
    assert !DepsMet(s.jobs, specs[j].dependsOn, slot) ==> Relies(s.jobs[j], slot);
    hide HasSuccess, Relies, DepsDone, DepsMet, AllDepsFirst;
    QuietDeps(s, specs, j, t.jobs[j], t, all);
  }

  lemma {:induction false} WaitDeps(s: System, j: nat, slot: int, now: int, t: System, specs: seq<Spec>, all: bool)
    requires Valid(specs) && AllDepsFirst(s, specs, all) && Next(s, Wait(j, slot, now), t, specs)
    ensures AllDepsFirst(t, specs, all)
  {
    StatusRelies(s.jobs[j], t.jobs[j]);
    assert forall slot :: Relies(t.jobs[j], slot) ==> Relies(s.jobs[j], slot);
    hide HasSuccess, Relies, DepsDone, DepsMet, AllDepsFirst;
    QuietDeps(s, specs, j, t.jobs[j], t, all);
  }

  lemma {:induction false} CallDeps(s: System, step: Step, t: System, specs: seq<Spec>, all: bool)
    requires Valid(specs) && Always(s, specs) && AllDepsFirst(s, specs, all) && Next(s, step, t, specs)
    requires step.Work? || step.Acknowledge? || step.Finish?
    ensures AllDepsFirst(t, specs, all)
  {
    var j := s.progress.job;
    var job := s.jobs[j];
    hide HasSuccess, DepsDone, AllDepsFirst, Counted;
    assert Listed(t.jobs[j]) == Listed(job);
    if step.Finish? {
      StatusFromEvent(job, job.events[|job.events| - 1], job.events);
    } else {
      assert forall slot :: Relies(t.jobs[j], slot) ==> Relies(job, slot);
    }
    hide Relies;
    QuietDeps(s, specs, j, t.jobs[j], t, all);
  }

  lemma {:induction false} RecoverDeps(s: System, t: System, specs: seq<Spec>, all: bool)
    requires Valid(specs) && AllDepsFirst(s, specs, all) && Next(s, RecoverOne, t, specs)
    requires all || s.jobs[s.mode.next].unacked.None?
    ensures AllDepsFirst(t, specs, all)
  {
    hide HasSuccess, Relies, DepsDone, AllDepsFirst, Recovered;
    var j := s.mode.next;
    RecoverRelies(s.jobs[j]);
    QuietDeps(s, specs, j, t.jobs[j], t, all);
  }

  lemma {:induction false} StepKeepsDeps(s: System, step: Step, t: System, specs: seq<Spec>, all: bool)
    requires Valid(specs) && Always(s, specs) && AllDepsFirst(s, specs, all) && Next(s, step, t, specs)
    requires if all then !LosesSuccess(s, step, specs) else step.RecoverOne? ==> s.jobs[s.mode.next].unacked.None?
    ensures AllDepsFirst(t, specs, all)
  {
    match step
    case Wait(j, slot, now) => WaitDeps(s, j, slot, now, t, specs, all);
    case Begin(j, slot, now) => BeginDeps(s, j, slot, now, t, specs, all);
    case Write => WriteDeps(s, t, specs, all);
    case RecoverOne => RecoverDeps(s, t, specs, all);
    case Fail =>
    case Stop =>
    case RecoverFails =>
    case RecoverDone =>
    case _ => CallDeps(s, step, t, specs, all);
  }

  lemma {:induction false} LosingBreaks(s: System, t: System, specs: seq<Spec>)
    requires Valid(specs) && Always(s, specs) && Next(s, Write, t, specs) && LosesSuccess(s, Write, specs)
    ensures !AllDepsFirst(t, specs, true)
  {
    var d := s.progress.job;
    var slot := s.jobs[d].unacked.value.slot;
    var i :| 0 <= i < |s.jobs| && d in specs[i].dependsOn && Relies(s.jobs[i], slot);
    SuccessOfListed(t.jobs[d], slot);
    hide HasSuccess, Relies, Counted;
    assert i != d && t.jobs[i] == s.jobs[i];
    var n :| 0 <= n < |specs[i].dependsOn| && specs[i].dependsOn[n] == d;
    assert !DepsDone(t.jobs, specs[i].dependsOn, slot, true);
    assert !DepsFirst(t.jobs, i, specs[i].dependsOn, true);
  }

  ghost predicate NoLoss(states: seq<System>, steps: seq<Step>, specs: seq<Spec>, n: nat)
    requires n <= |steps| < |states|
  {
    forall i :: 0 <= i < n ==> !LosesSuccess(states[i], steps[i], specs)
  }

  lemma {:induction false} RunKeepsDeps(states: seq<System>, steps: seq<Step>, specs: seq<Spec>, n: nat)
    requires IsRun(states, steps, specs) && n < |states| && NoLoss(states, steps, specs, n)
    ensures AllDepsFirst(states[n], specs, true)
  {
    hide LosesSuccess, Next;
    if n == 0 {
      NothingRelies(states[0], specs, true);
    } else {
      RunKeepsDeps(states, steps, specs, n - 1);
      RunKeepsAlways(states, steps, specs, n - 1);
      assert Next(states[n - 1], steps[n - 1], states[n - 1 + 1], specs);
      StepKeepsDeps(states[n - 1], steps[n - 1], states[n], specs, true);
    }
  }

  lemma {:induction false} NothingRelies(s: System, specs: seq<Spec>, all: bool)
    requires IsStart(s, specs)
    ensures AllDepsFirst(s, specs, all)
  {
    forall j | 0 <= j < |s.jobs| ensures DepsFirst(s.jobs, j, specs[j].dependsOn, all) {
      assert s.jobs[j].status.None? && Listed(s.jobs[j]) == [];
    }
  }

  lemma {:induction false} FirstMeansNoLoss(states: seq<System>, steps: seq<Step>, specs: seq<Spec>, n: nat)
    requires IsRun(states, steps, specs) && n < |states|
    requires forall i :: 0 <= i <= n ==> AllDepsFirst(states[i], specs, true)
    ensures NoLoss(states, steps, specs, n)
  {
    hide AllDepsFirst, Next, LosesSuccess;
    if n > 0 {
      FirstMeansNoLoss(states, steps, specs, n - 1);
      RunKeepsAlways(states, steps, specs, n - 1);
      assert Next(states[n - 1], steps[n - 1], states[n - 1 + 1], specs);
      if LosesSuccess(states[n - 1], steps[n - 1], specs) {
        OnlyWritesLose(states[n - 1], steps[n - 1], specs);
        LosingBreaks(states[n - 1], states[n], specs);
      }
    }
  }

  lemma {:induction false} OnlyWritesLose(s: System, step: Step, specs: seq<Spec>)
    requires LosesSuccess(s, step, specs)
    ensures step == Write
  {
  }

  /** Across jobs, ticks, stops, failed writes and recoveries: at every moment of a run each job's
      dependencies succeeded in every slot the job has begun or logged, if and only if the run never replaces
      an unacknowledged success that a dependent relies on. */
  lemma {:induction false} DependenciesComeFirstIff(states: seq<System>, steps: seq<Step>, specs: seq<Spec>)
    requires IsRun(states, steps, specs)
    ensures (forall n :: 0 <= n < |states| ==> AllDepsFirst(states[n], specs, true)) <==>
            NoLoss(states, steps, specs, |steps|)
  {
    hide AllDepsFirst, Next, LosesSuccess;
    if NoLoss(states, steps, specs, |steps|) {
      forall n | 0 <= n < |states| ensures AllDepsFirst(states[n], specs, true) {
        RunKeepsDeps(states, steps, specs, n);
      }
    } else if forall n :: 0 <= n < |states| ==> AllDepsFirst(states[n], specs, true) {
      FirstMeansNoLoss(states, steps, specs, |steps|);
    }
  }

  /** So in such a run every event of a job in a slot has beside it a succeeded event of every dependency in
      that slot, and as this holds at every moment, the dependency came first. */
  lemma {:induction false} DependenciesComeFirst(states: seq<System>, steps: seq<Step>, specs: seq<Spec>, n: nat,
                                                 j: nat, i: nat, d: nat)
    requires IsRun(states, steps, specs) && NoLoss(states, steps, specs, |steps|)
    requires n < |states| && j < |specs| == |states[n].jobs| && i < |Listed(states[n].jobs[j])|
    requires d in specs[j].dependsOn
    ensures d < |specs| && HasSuccess(Listed(states[n].jobs[d]), Listed(states[n].jobs[j])[i].slot)
  {
    hide LosesSuccess, Next;
    RunKeepsDeps(states, steps, specs, n);
    var slot := Listed(states[n].jobs[j])[i].slot;
    assert DepsFirst(states[n].jobs, j, specs[j].dependsOn, true) && Relies(states[n].jobs[j], slot);
    assert DepsDone(states[n].jobs, specs[j].dependsOn, slot, true);
    var x :| 0 <= x < |specs[j].dependsOn| && specs[j].dependsOn[x] == d;
  }
}
