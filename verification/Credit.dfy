/** Byte credit: writers reserve before they insert, the flush gives back what left memory. */
module Credit {
  import opened Bytes
  import opened Tables

  /** The pool. A budget of zero or less means no limit. */
  class Pool {
    const budget: int
    var used: int

    constructor (budget: int)
      ensures this.budget == budget && used == 0
    {
      this.budget, used := budget, 0;
    }

    predicate Fits(n: int)
      reads this
    {
      RoomFor(budget, used, n)
    }

    /** Granted whenever the sum stays within the budget, without a budget, and to whoever finds the pool empty;
        refused otherwise. */
    method TryAcquire(n: int) returns (ok: bool)
      modifies this
      ensures ok == old(Fits(n))
      ensures budget <= 0 || old(used) == 0 ==> ok
      ensures budget > 0 && old(used) != 0 ==> (ok <==> old(used) + n <= budget)
      ensures used == if ok then old(used) + n else old(used)
    {
      if Fits(n) {
        used := used + n;
        return true;
      }
      return false;
    }

    /** `Release` never goes below zero; `Clamped` says what it leaves. */
    method Release(n: int)
      modifies this
      ensures used == Clamped(old(used) - n)
    {
      used := used - n;
      if used < 0 { used := 0; }
    }
  }

  /** Room is unlimited without a budget; an empty pool admits any one record. */
  predicate RoomFor(budget: int, used: int, n: int) {
    budget <= 0 || used == 0 || used + n <= budget
  }

  function Clamped(n: int): int { if n < 0 then 0 else n }

  // ---- many writers and one flusher, interleaved ----

  /** Where a writer is between reserving credit and settling the excess. */
  datatype Writer = Idle | Reserved(key: Bytes, value: Value) | Owing(excess: int)

  datatype Flusher = Resting | Freed(bytes: int)

  datatype State = State(used: int, largest: int, active: Table, dirty: Option<Table>,
                         writers: seq<Writer>, flusher: Flusher)

  datatype Step =
    | Acquire(w: nat, key: Bytes, value: Value)
    | Insert(w: nat)
    | Settle(w: nat)
    | Swap
    | Written
    | GiveBack
    | WriteFails

  function RecordBytes(k: Bytes, v: Value): nat { |k| + ValueBytes(v) }

  /** What `insert` adds to the byte count of `t`. */
  function Delta(t: Table, k: Bytes, v: Value): int {
    match Lookup(t, k)
    case None => |k| + ValueBytes(v)
    case Some(w) => ValueBytes(v) - ValueBytes(w)
  }

  ghost predicate Next(budget: int, s: State, step: Step, t: State) {
    match step
    case Acquire(w, k, v) =>
      && w < |s.writers| && s.writers[w].Idle? && RoomFor(budget, s.used, RecordBytes(k, v))
      && t == s.(used := s.used + RecordBytes(k, v), writers := s.writers[w := Reserved(k, v)],
                 largest := if RecordBytes(k, v) > s.largest then RecordBytes(k, v) else s.largest)
    case Insert(w) =>
      && w < |s.writers| && s.writers[w].Reserved?
      && var Reserved(k, v) := s.writers[w];
         t == s.(active := Upsert(s.active, k, v),
                 writers := s.writers[w := Owing(RecordBytes(k, v) - Delta(s.active, k, v))])
    case Settle(w) =>
      && w < |s.writers| && s.writers[w].Owing?
      && t == s.(used := Clamped(s.used - s.writers[w].excess), writers := s.writers[w := Idle])
    case Swap => s.dirty.None? && s.active != [] && t == s.(active := [], dirty := Some(s.active))
    case Written => s.dirty.Some? && s.flusher.Resting? &&
                    t == s.(dirty := None, flusher := Freed(TableBytes(s.dirty.value)))
    case GiveBack => s.flusher.Freed? && t == s.(used := Clamped(s.used - s.flusher.bytes), flusher := Resting)
    case WriteFails => s.dirty.Some? && t == s
  }

  function Held(w: Writer): int {
    match w
    case Idle => 0
    case Reserved(k, v) => RecordBytes(k, v)
    case Owing(n) => n
  }

  function HeldAll(ws: seq<Writer>): int {
    if ws == [] then 0 else HeldAll(ws[..|ws| - 1]) + Held(ws[|ws| - 1])
  }

  function InMemory(s: State): int {
    TableBytes(s.active) + (if s.dirty.Some? then TableBytes(s.dirty.value) else 0)
  }

  /** Credit in use is what memory holds, plus what is reserved or not yet given back. */
  ghost predicate Conserved(s: State) {
    && Ascending(s.active) && (s.dirty.Some? ==> Ascending(s.dirty.value))
    && (forall i :: 0 <= i < |s.writers| && s.writers[i].Owing? ==> s.writers[i].excess >= 0)
    && (s.flusher.Freed? ==> s.flusher.bytes >= 0)
    && s.used == InMemory(s) + HeldAll(s.writers) + (if s.flusher.Freed? then s.flusher.bytes else 0)
  }

  ghost predicate Bounded(budget: int, s: State) {
    budget > 0 ==> s.used <= budget || s.used <= s.largest
  }

  lemma {:induction false} HeldUpdate(ws: seq<Writer>, i: nat, w: Writer)
    requires i < |ws|
    ensures HeldAll(ws[i := w]) == HeldAll(ws) - Held(ws[i]) + Held(w)
  {
    var init := ws[..|ws| - 1];
    if i == |ws| - 1 {
      assert ws[i := w][..|ws| - 1] == init;
    } else {
      HeldUpdate(init, i, w);
      assert ws[i := w][..|ws| - 1] == init[i := w];
    }
  }

  lemma {:induction false} HeldNonNegative(ws: seq<Writer>)
    requires forall i :: 0 <= i < |ws| && ws[i].Owing? ==> ws[i].excess >= 0
    ensures HeldAll(ws) >= 0
    ensures forall i :: 0 <= i < |ws| ==> Held(ws[i]) <= HeldAll(ws)
  {
    if ws != [] { HeldNonNegative(ws[..|ws| - 1]); }
  }

  /** No release ever asks for more than is in use, so the clamp at zero never fires. */
  lemma {:induction false} ClampNeverFires(s: State)
    requires Conserved(s)
    ensures forall w :: 0 <= w < |s.writers| && s.writers[w].Owing? ==> s.used - s.writers[w].excess >= 0
    ensures s.flusher.Freed? ==> s.used - s.flusher.bytes >= 0
  {
    HeldNonNegative(s.writers);
    forall w | 0 <= w < |s.writers| && s.writers[w].Owing? ensures s.used - s.writers[w].excess >= 0 {
      assert Held(s.writers[w]) <= HeldAll(s.writers);
    }
  }

  lemma {:induction false} InsertConserves(budget: int, s: State, w: nat, t: State)
    requires Conserved(s) && Next(budget, s, Insert(w), t)
    ensures Conserved(t)
  {
    hide Upsert, Lookup, TableBytes, Ascending;
    var Reserved(k, v) := s.writers[w];
    UpsertBytes(s.active, k, v);
    UpsertAscending(s.active, k, v);
    HeldUpdate(s.writers, w, Owing(RecordBytes(k, v) - Delta(s.active, k, v)));
  }

  lemma {:induction false} WriterConserves(budget: int, s: State, step: Step, t: State)
    requires step.Acquire? || step.Settle?
    requires Conserved(s) && Bounded(budget, s) && Next(budget, s, step, t)
    ensures Conserved(t) && Bounded(budget, t)
  {
    ClampNeverFires(s);
    match step
    case Acquire(w, k, v) => HeldUpdate(s.writers, w, Reserved(k, v));
    case Settle(w) => HeldUpdate(s.writers, w, Idle);
  }

  lemma {:induction false} FlusherConserves(budget: int, s: State, step: Step, t: State)
    requires step.Swap? || step.Written? || step.GiveBack? || step.WriteFails?
    requires Conserved(s) && Bounded(budget, s) && Next(budget, s, step, t)
    ensures Conserved(t) && Bounded(budget, t)
  {
    ClampNeverFires(s);
  }

  lemma {:induction false} StepConserves(budget: int, s: State, step: Step, t: State)
    requires Conserved(s) && Bounded(budget, s) && Next(budget, s, step, t)
    ensures Conserved(t) && Bounded(budget, t)
  {
    if step.Insert? {
      InsertConserves(budget, s, step.w, t);
    } else if step.Acquire? || step.Settle? {
      WriterConserves(budget, s, step, t);
    } else {
      FlusherConserves(budget, s, step, t);
    }
  }

  ghost predicate IsRun(budget: int, states: seq<State>, steps: seq<Step>) {
    && |states| == |steps| + 1
    && states[0].used == states[0].largest == 0 && states[0].active == [] && states[0].dirty.None?
    && (forall i :: 0 <= i < |states[0].writers| ==> states[0].writers[i].Idle?) && states[0].flusher.Resting?
    && forall i :: 0 <= i < |steps| ==> Next(budget, states[i], steps[i], states[i + 1])
  }

  lemma {:induction false} IdleHoldsNothing(ws: seq<Writer>)
    requires forall i :: 0 <= i < |ws| ==> ws[i].Idle?
    ensures HeldAll(ws) == 0
  {
    if ws != [] { IdleHoldsNothing(ws[..|ws| - 1]); }
  }

  /** In every interleaving of writers and the flusher, credit in use is exactly the bytes in memory
      plus what is in transit, and with a budget it never exceeds the larger of the budget and the
      largest single record. */
  lemma {:induction false} CreditIsConservedInEveryRun(budget: int, states: seq<State>, steps: seq<Step>, n: nat)
    requires IsRun(budget, states, steps) && n < |states|
    ensures Conserved(states[n]) && Bounded(budget, states[n])
  {
    if n == 0 {
      IdleHoldsNothing(states[0].writers);
    } else {
      CreditIsConservedInEveryRun(budget, states, steps, n - 1);
      assert Next(budget, states[n - 1], steps[n - 1], states[n - 1 + 1]);
      StepConserves(budget, states[n - 1], steps[n - 1], states[n]);
    }
  }

  /** A writer may reserve whenever what memory holds and what is in transit leave room for its record; and, whatever
      the budget, once nothing is held and nothing is in transit. */
  lemma {:induction false} ReservesWhenThereIsRoom(budget: int, s: State, w: nat, k: Bytes, v: Value)
    requires Conserved(s) && w < |s.writers| && s.writers[w].Idle?
    requires var transit := HeldAll(s.writers) + if s.flusher.Freed? then s.flusher.bytes else 0;
             budget <= 0 || InMemory(s) + transit == 0 || InMemory(s) + transit + RecordBytes(k, v) <= budget
    ensures exists t :: Next(budget, s, Acquire(w, k, v), t)
  {
    var n := RecordBytes(k, v);
    var t := s.(used := s.used + n, writers := s.writers[w := Reserved(k, v)],
                largest := if n > s.largest then n else s.largest);
    hide TableBytes, HeldAll, Ascending;
    assert Next(budget, s, Acquire(w, k, v), t);
  }

  /** Between operations (no writer and no flush in progress) credit in use is the bytes in memory. */
  lemma {:induction false} QuietCreditIsMemory(s: State)
    requires Conserved(s) && s.flusher.Resting? && forall i :: 0 <= i < |s.writers| ==> s.writers[i].Idle?
    ensures s.used == InMemory(s)
  {
    IdleHoldsNothing(s.writers);
  }
}
