/** Whole runs of the standalone server: logged writes, flushes, compactions, checkpoints, crashes and
    replays. Reads always see the last write that took effect. */
module KvRuns {
  import opened Bytes
  import opened Tables
  import Lsm
  import Store
  import opened VersionKeys

  /** A logged write; a delete carries the tombstone. */
  datatype Rec = Rec(key: Bytes, value: Value)

  /** A write between its log append and its memtable insert, and where its record lies in the log. */
  datatype Flight = Flight(value: Value, index: nat)

  datatype Mode = Serving | Replaying(next: nat)

  /** The log, of which the first `synced` records are durable and the first `floor` were there at the last
      start, and which may end in a torn record; the engine; the writes in flight; the keys whose last write
      was refused and is in the log all the same. As history: for each key the last write that took effect,
      the last one acknowledged, and those not acknowledged since. */
  datatype State = State(wal: seq<Rec>, synced: nat, floor: nat, torn: bool, db: Store.State,
                         flights: map<Bytes, Flight>, murky: set<Bytes>, last: map<Bytes, Value>,
                         acked: map<Bytes, Value>, doubt: map<Bytes, set<Value>>, mode: Mode)

  datatype Step =
    | Append(key: Bytes, value: Value)
    | Refuse(key: Bytes)
    | Sync
    | Insert(key: Bytes)
    | Swap
    | Flush(stamp: nat)
    | Compact(stamps: seq<nat>)
    | Checkpoint
    | Crash(kept: nat, tears: bool)
    | ReplayNext
    | ReplayDone

  /** The last record of `k`. */
  function LastIn(wal: seq<Rec>, k: Bytes): Option<Value> {
    if wal == [] then None
    else if wal[|wal| - 1].key == k then Some(wal[|wal| - 1].value)
    else LastIn(wal[..|wal| - 1], k)
  }

  function Effect(last: map<Bytes, Value>, k: Bytes): Option<Value> {
    if k in last then Some(last[k]) else None
  }

  function Doubts(doubt: map<Bytes, set<Value>>, k: Bytes): set<Value> { if k in doubt then doubt[k] else {} }

  /** A record of `k` that survived an earlier crash without being durable, and does not survive this one. */
  ghost predicate Lost(s: State, kept: nat, k: Bytes) {
    exists i :: kept <= i < s.floor && i < |s.wal| && s.wal[i].key == k
  }

  /** What the first `m` records and the files say. */
  function Said(wal: seq<Rec>, m: nat, files: seq<Lsm.File>, k: Bytes): Option<Value>
    requires m <= |wal|
  {
    if LastIn(wal[..m], k).Some? then LastIn(wal[..m], k) else Lsm.Answer(files, k)
  }

  /** What takes effect at a crash: a write in flight exactly if its record was kept; what is still there, if
      an earlier survivor is lost or a refused write may be among it; and otherwise what took effect before. */
  ghost function EffectAt(s: State, kept: nat, k: Bytes): Option<Value>
    requires kept <= |s.wal|
  {
    if k in s.flights && s.flights[k].index < kept then Some(s.flights[k].value)
    else if Lost(s, kept, k) || k in s.murky then Said(s.wal, kept, s.db.files, k)
    else Effect(s.last, k)
  }

  ghost function Resolved(s: State, kept: nat): map<Bytes, Value>
    requires kept <= |s.wal|
  {
    map k | k in s.last.Keys + s.flights.Keys + s.doubt.Keys && EffectAt(s, kept, k).Some? :: EffectAt(s, kept, k).value
  }

  function RecordsOf(t: Table): seq<Rec> {
    if t == [] then [] else RecordsOf(t[..|t| - 1]) + [Rec(t[|t| - 1].key, t[|t| - 1].value)]
  }

  /** One step. `Append` states what the server relies on: one write per key at a time, no empty value,
      and no append behind a torn tail. */
  ghost predicate Next(s: State, step: Step, t: State, threshold: nat) {
    match step
    case Append(k, v) =>
      && s.mode.Serving? && k !in s.flights && v != Some([]) && !s.torn
      && t == s.(wal := s.wal + [Rec(k, v)], flights := s.flights[k := Flight(v, |s.wal|)],
                 doubt := s.doubt[k := Doubts(s.doubt, k) + {v}])
    case Refuse(k) =>
      s.mode.Serving? && k in s.flights && t == s.(flights := s.flights - {k}, murky := s.murky + {k})
    case Sync =>
      t == s.(synced := |s.wal|)
    case Insert(k) =>
      && s.mode.Serving? && k in s.flights && s.flights[k].index < s.synced
      && var v := s.flights[k].value;
         t == s.(db := Store.Written(s.db, k, v), flights := s.flights - {k}, murky := s.murky - {k},
                 last := s.last[k := v], acked := s.acked[k := v], doubt := s.doubt - {k})
    case Swap =>
      t == s.(db := Store.Swapped(s.db))
    case Flush(stamp) =>
      Lsm.OlderThan(s.db.files, stamp) && t == s.(db := Store.Flushed(s.db, stamp))
    case Compact(stamps) =>
      && Lsm.ClockRun(stamps) && Lsm.OlderThan(s.db.files, stamps[0])
      && t == s.(db := Store.Compacted(s.db, threshold, stamps))
    case Checkpoint =>
      && s.mode.Serving? && s.flights == map[]
      && var log := RecordsOf(Store.Copied(Lsm.MergedTable(Store.Memory(s.db))));
         t == s.(wal := log, synced := |log|, floor := |log|, torn := false, murky := {})
    case Crash(kept, tears) =>
      && s.synced <= kept <= |s.wal| && (tears ==> kept < |s.wal|)
      && t == State(s.wal[..kept], s.synced, kept, s.torn || tears, Store.State([], None, s.db.files), map[], {},
                    Resolved(s, kept), s.acked, s.doubt, Replaying(0))
    case ReplayNext =>
      && s.mode.Replaying? && s.mode.next < |s.wal|
      && var r := s.wal[s.mode.next];
         t == s.(db := Store.Written(s.db, r.key, Store.Shown(r.value)), mode := Replaying(s.mode.next + 1))
    case ReplayDone =>
      s.mode == Replaying(|s.wal|) && t == s.(mode := Serving)
  }

  // ---- the invariant ----

  /** The log without the record of a write still in flight. */
  function Settled(s: State, k: Bytes): Option<Value> {
    if k in s.flights && s.flights[k].index <= |s.wal| then LastIn(s.wal[..s.flights[k].index], k) else LastIn(s.wal, k)
  }

  /** What a crash now would recover for `k`, unless its last write was refused. */
  ghost predicate Recoverable(s: State, k: Bytes) {
    k !in s.murky ==> (if Settled(s, k).Some? then Settled(s, k) else Lsm.Answer(s.db.files, k)) == Effect(s.last, k)
  }

  /** What memory holds is in the log. */
  ghost predicate Backed(s: State, k: Bytes) {
    Newest(Store.Memory(s.db), k).Some? ==> Settled(s, k).Some?
  }

  ghost predicate Readable(s: State, k: Bytes) {
    match s.mode
    case Serving => Store.Find(s.db, k) == Effect(s.last, k)
    case Replaying(n) =>
      n <= |s.wal| && (LastIn(s.wal[..n], k).Some? ==> Store.Find(s.db, k) == LastIn(s.wal[..n], k))
  }

  ghost predicate Fine(s: State, k: Bytes) {
    Recoverable(s, k) && Backed(s, k) && Readable(s, k)
  }

  /** A write in flight, a refused one and a record that is not durable are in doubt. */
  ghost predicate InDoubt(s: State) {
    && s.murky <= s.doubt.Keys
    && (forall k :: k in s.flights ==> s.flights[k].value in Doubts(s.doubt, k))
    && (forall i :: s.synced <= i < |s.wal| ==> s.wal[i].value in Doubts(s.doubt, s.wal[i].key))
  }

  /** Flights point at the last record of their key; everything logged since the start and not yet durable is
      in flight or was refused. */
  ghost predicate LogShape(s: State) {
    && s.synced <= |s.wal| && s.floor <= |s.wal|
    && (forall i :: 0 <= i < |s.wal| ==> s.wal[i].value != Some([]))
    && (forall k :: k in s.flights ==>
          && s.floor <= s.flights[k].index < |s.wal| && s.wal[s.flights[k].index] == Rec(k, s.flights[k].value)
          && forall j :: s.flights[k].index < j < |s.wal| ==> s.wal[j].key != k)
    && (forall i :: s.synced <= i < |s.wal| && s.floor <= i ==>
          s.wal[i].key in s.murky || (s.wal[i].key in s.flights && s.flights[s.wal[i].key].index == i))
    && InDoubt(s)
    && (s.mode.Replaying? ==> s.flights == map[] && s.murky == {} && s.mode.next <= |s.wal| == s.floor)
  }

  ghost predicate Inv(s: State, threshold: nat) {
    && Store.Sorted(s.db) && Lsm.Inv(s.db.files, threshold) && LogShape(s)
    && forall k :: Fine(s, k) && NoEmptyValue(s.db, k)
  }

  /** No table in memory and no answer of the files has the empty value. */
  ghost predicate NoEmptyValue(db: Store.State, k: Bytes) {
    && Lookup(db.active, k) != Some(Some([])) && Lsm.Answer(db.files, k) != Some(Some([]))
    && (db.dirty.Some? ==> Lookup(db.dirty.value, k) != Some(Some([])))
  }

  // ---- about logs ----

  lemma {:induction false} LastInAppend(wal: seq<Rec>, r: Rec, k: Bytes)
    ensures LastIn(wal + [r], k) == if r.key == k then Some(r.value) else LastIn(wal, k)
  {
    assert (wal + [r])[..|wal + [r]| - 1] == wal;
  }

  /** Records of other keys do not matter. */
  lemma {:induction false} LastInPrefix(wal: seq<Rec>, n: nat, k: Bytes)
    requires n <= |wal| && forall j :: n <= j < |wal| ==> wal[j].key != k
    ensures LastIn(wal, k) == LastIn(wal[..n], k)
  {
    if n < |wal| {
      var init := wal[..|wal| - 1];
      LastInPrefix(init, n, k);
      assert init[..n] == wal[..n];
    } else {
      assert wal[..n] == wal;
    }
  }

  lemma {:induction false} LastInAt(wal: seq<Rec>, i: nat)
    requires i < |wal| && forall j :: i < j < |wal| ==> wal[j].key != wal[i].key
    ensures LastIn(wal, wal[i].key) == Some(wal[i].value)
  {
    LastInPrefix(wal, i + 1, wal[i].key);
    assert wal[..i + 1] == wal[..i] + [wal[i]];
    LastInAppend(wal[..i], wal[i], wal[i].key);
  }

  lemma {:induction false} LastInIsThere(wal: seq<Rec>, k: Bytes)
    requires LastIn(wal, k).Some?
    ensures exists i :: 0 <= i < |wal| && wal[i] == Rec(k, LastIn(wal, k).value)
  {
    var n := |wal| - 1;
    if wal[n].key == k {
      assert wal[n] == Rec(k, LastIn(wal, k).value);
    } else {
      LastInIsThere(wal[..n], k);
    }
  }

  lemma {:induction false} LastInNever(wal: seq<Rec>, n: nat, k: Bytes)
    requires n <= |wal| && LastIn(wal, k).None?
    ensures LastIn(wal[..n], k).None?
  {
    if n < |wal| {
      LastInNever(wal[..|wal| - 1], n, k);
      assert wal[..|wal| - 1][..n] == wal[..n];
    } else {
      assert wal[..n] == wal;
    }
  }

  lemma {:induction false} RecordsEach(t: Table)
    ensures |RecordsOf(t)| == |t| && forall i :: 0 <= i < |t| ==> RecordsOf(t)[i] == Rec(t[i].key, t[i].value)
  {
    if t != [] { RecordsEach(t[..|t| - 1]); }
  }

  /** A table written out as records answers like the table. */
  lemma {:induction false} RecordsAnswer(t: Table, k: Bytes)
    requires Ascending(t)
    ensures LastIn(RecordsOf(t), k) == Lookup(t, k)
  {
    if t != [] {
      var init, e := t[..|t| - 1], t[|t| - 1];
      assert t == init + [e] && Ascending(init);
      hide Lookup, LastIn, Ascending;
      RecordsAnswer(init, k);
      LastInAppend(RecordsOf(init), Rec(e.key, e.value), k);
      LookupConcat(init, [e], k);
      Store.LastKeyIsNew(init, e);
      OneAnswer(e, k);
    }
  }

  lemma {:induction false} OneAnswer(e: Entry, k: Bytes)
    ensures Lookup([e], k) == if e.key == k then Some(e.value) else None
  {
  }

  // ---- steps that touch the log ----

  lemma {:induction false} AppendFine(s: State, k0: Bytes, v0: Value, t: State, threshold: nat, k: Bytes)
    requires LogShape(s) && Fine(s, k) && Next(s, Append(k0, v0), t, threshold)
    ensures Fine(t, k)
  {
    hide Store.Find, Lsm.Answer, Newest, LastIn;
    if k == k0 {
      assert t.wal[..|s.wal|] == s.wal;
    } else if k in s.flights {
      assert t.wal[..s.flights[k].index] == s.wal[..s.flights[k].index];
    } else {
      LastInAppend(s.wal, Rec(k0, v0), k);
    }
  }

  lemma {:induction false} AppendShape(s: State, k0: Bytes, v0: Value, t: State, threshold: nat)
    requires LogShape(s) && Next(s, Append(k0, v0), t, threshold)
    ensures LogShape(t)
  {
    AppendDoubt(s, k0, v0, t, threshold);
    hide InDoubt;
    var n := |s.wal|;
    forall k | k in t.flights
      ensures t.flights[k].index < |t.wal| && t.wal[t.flights[k].index] == Rec(k, t.flights[k].value)
      ensures forall j :: t.flights[k].index < j < |t.wal| ==> t.wal[j].key != k
    {
      if k != k0 { assert t.flights[k] == s.flights[k] && t.wal[n].key != k; }
    }
    forall i | t.synced <= i < |t.wal| && t.floor <= i
      ensures t.wal[i].key in t.murky || (t.wal[i].key in t.flights && t.flights[t.wal[i].key].index == i)
    {
      if i < n { assert s.wal[i].key in s.murky || (s.wal[i].key in s.flights && s.wal[i].key != k0); }
    }
  }

  lemma {:induction false} AppendDoubt(s: State, k0: Bytes, v0: Value, t: State, threshold: nat)
    requires InDoubt(s) && Next(s, Append(k0, v0), t, threshold)
    ensures InDoubt(t)
  {
    forall i | t.synced <= i < |t.wal| ensures t.wal[i].value in Doubts(t.doubt, t.wal[i].key) {
      if i < |s.wal| { assert s.wal[i].value in Doubts(s.doubt, s.wal[i].key); }
    }
  }

  lemma {:induction false} InsertFine(s: State, k0: Bytes, t: State, threshold: nat, k: Bytes)
    requires Store.Sorted(s.db) && LogShape(s) && Fine(s, k) && Next(s, Insert(k0), t, threshold)
    ensures Fine(t, k)
  {
    hide Store.Find, Lsm.Answer, Newest, LastIn, Store.Sorted, Upsert, Lookup;
    var v0 := s.flights[k0].value;
    Store.WriteIsMapUpdate(s.db, k0, v0);
    MemoryOfWritten(s.db, k0, v0, k);
    if k == k0 { LastInAt(s.wal, s.flights[k0].index); }
  }

  lemma {:induction false} MemoryOfWritten(db: Store.State, k0: Bytes, v0: Value, k: Bytes)
    requires Store.Sorted(db)
    ensures Newest(Store.Memory(Store.Written(db, k0, v0)), k) ==
            if k == k0 then Some(v0) else Newest(Store.Memory(db), k)
  {
    hide Upsert, Lookup, Newest;
    UpsertIsMapUpdate(db.active, k0, v0);
    Store.MemorySplit(db, k);
    Store.MemorySplit(Store.Written(db, k0, v0), k);
  }

  lemma {:induction false} LastInAbsent(wal: seq<Rec>, i: nat)
    requires i < |wal|
    ensures LastIn(wal, wal[i].key).Some?
  {
    if i < |wal| - 1 { LastInAbsent(wal[..|wal| - 1], i); }
  }

  lemma {:induction false} ResolvedAt(s: State, kept: nat, k: Bytes)
    requires s.synced <= kept <= |s.wal| && InDoubt(s)
    ensures Effect(Resolved(s, kept), k) == EffectAt(s, kept, k)
  {
    hide Lsm.Answer, LastIn, Said;
    if Lost(s, kept, k) {
      var i :| kept <= i < s.floor && i < |s.wal| && s.wal[i].key == k;
      assert s.wal[i].value in Doubts(s.doubt, k);
    }
  }

  /** A refused write changes no read, though its record stays. */
  lemma {:induction false} RefuseFine(s: State, k0: Bytes, t: State, threshold: nat, k: Bytes)
    requires LogShape(s) && Fine(s, k) && Next(s, Refuse(k0), t, threshold)
    ensures Fine(t, k)
  {
    hide Store.Find, Lsm.Answer, Newest, InDoubt;
    if k == k0 { LastInAbsent(s.wal, s.flights[k0].index); }
  }

  lemma {:induction false} NothingInMemory(files: seq<Lsm.File>, k: Bytes)
    ensures Newest(Store.Memory(Store.State([], None, files)), k).None?
  {
    Store.MemorySplit(Store.State([], None, files), k);
  }

  lemma {:induction false} CrashFine(s: State, kept: nat, tears: bool, t: State, threshold: nat, k: Bytes)
    requires LogShape(s) && Fine(s, k) && Next(s, Crash(kept, tears), t, threshold)
    ensures Fine(t, k)
  {
    hide Store.Find, Lsm.Answer, Newest, Resolved;
    ResolvedAt(s, kept, k);
    NothingInMemory(s.db.files, k);
    assert t.wal[..0] == [] && t.wal[..|t.wal|] == t.wal;
    if k in s.flights && s.flights[k].index < kept {
      var i := s.flights[k].index;
      assert t.wal[i] == s.wal[i];
      LastInAt(t.wal, i);
    } else if !Lost(s, kept, k) && k !in s.murky {
      NothingLost(s, kept, k);
    }
  }

  /** If no survivor is lost and no flight kept, the kept records say what all of them said. */
  lemma {:induction false} NothingLost(s: State, kept: nat, k: Bytes)
    requires LogShape(s) && s.synced <= kept <= |s.wal| && !Lost(s, kept, k) && k !in s.murky
    requires k in s.flights ==> kept <= s.flights[k].index
    ensures LastIn(s.wal[..kept], k) == Settled(s, k)
  {
    hide LastIn;
    var n := if k in s.flights then s.flights[k].index else |s.wal|;
    forall j | kept <= j < n ensures s.wal[j].key != k {
      assert j >= s.floor ==> s.wal[j].key in s.murky || s.wal[j].key in s.flights;
    }
    var wal := s.wal[..n];
    assert wal[..kept] == s.wal[..kept] && s.wal[..|s.wal|] == s.wal;
    LastInPrefix(wal, kept, k);
  }

  lemma {:induction false} ReplayFine(s: State, t: State, threshold: nat, k: Bytes)
    requires Store.Sorted(s.db) && LogShape(s) && Fine(s, k) && Next(s, ReplayNext, t, threshold)
    ensures Fine(t, k)
  {
    hide Store.Find, Lsm.Answer, Newest, Store.Sorted, Upsert, Lookup;
    var n := s.mode.next;
    var r := s.wal[n];
    assert r.value != Some([]);
    Store.WriteIsMapUpdate(s.db, r.key, r.value);
    MemoryOfWritten(s.db, r.key, r.value, k);
    assert s.wal[..n + 1] == s.wal[..n] + [r];
    LastInAppend(s.wal[..n], r, k);
    if r.key == k && LastIn(s.wal, k).None? {
      LastInNever(s.wal, n + 1, k);
      assert false;
    }
  }

  lemma {:induction false} DoneFine(s: State, t: State, threshold: nat, k: Bytes)
    requires LogShape(s) && Fine(s, k) && Next(s, ReplayDone, t, threshold)
    ensures Fine(t, k)
  {
    hide Lsm.Answer, Newest, Store.Find;
    assert s.wal[..|s.wal|] == s.wal;
    Store.FindSplit(s.db, k);
  }

  // ---- steps inside the engine ----

  lemma {:induction false} SwapFine(s: State, t: State, threshold: nat, k: Bytes)
    requires Store.Sorted(s.db) && Fine(s, k) && Next(s, Swap, t, threshold)
    ensures Fine(t, k)
  {
    hide Store.Find, Lsm.Answer, Newest, LastIn;
    Store.SwapIsInvisible(s.db);
    Store.MemorySplit(s.db, k);
    Store.MemorySplit(t.db, k);
  }

  lemma {:induction false} FlushFine(s: State, stamp: nat, t: State, threshold: nat, k: Bytes)
    requires Store.Sorted(s.db) && Lsm.Inv(s.db.files, threshold) && Fine(s, k) && Next(s, Flush(stamp), t, threshold)
    ensures Fine(t, k)
  {
    hide Store.Find, Lsm.Answer, Newest, LastIn, Lookup, Lsm.Inv, Ascending;
    Store.FlushIsInvisible(s.db, stamp);
    Store.MemorySplit(s.db, k);
    Store.MemorySplit(t.db, k);
    if s.db.dirty.Some? { Lsm.FlushKeeps(s.db.files, threshold, s.db.dirty.value, stamp); }
  }

  lemma {:induction false} CompactFine(s: State, stamps: seq<nat>, t: State, threshold: nat, k: Bytes)
    requires threshold >= 1 && Store.Sorted(s.db) && Lsm.Inv(s.db.files, threshold) && Fine(s, k)
    requires Next(s, Compact(stamps), t, threshold)
    ensures Fine(t, k)
  {
    hide Store.Find, Lsm.Answer, Newest, LastIn, Lsm.Inv, Store.Sorted;
    Store.CompactionIsInvisible(s.db, threshold, stamps);
    Lsm.CompactKeeps(s.db.files, threshold, stamps);
  }

  // ---- checkpoints ----

  /** The snapshot of memory answers like memory. */
  lemma {:induction false} SnapshotAnswers(db: Store.State, k: Bytes)
    requires Store.Sorted(db)
    ensures var t := Store.Copied(Lsm.MergedTable(Store.Memory(db)));
            && Ascending(t)
            && Lookup(t, k) ==
               if Newest(Store.Memory(db), k).Some? then Some(Store.Shown(Newest(Store.Memory(db), k).value)) else None
  {
    hide Ascending, Newest, Lookup, Store.Copied, Lsm.MergedTable;
    Lsm.MergedTableAnswers(Store.Memory(db));
    Store.CopiedLookup(Lsm.MergedTable(Store.Memory(db)), k);
  }

  lemma {:induction false} CheckpointLog(s: State, t: State, threshold: nat, k: Bytes)
    requires Store.Sorted(s.db) && Next(s, Checkpoint, t, threshold)
    ensures LastIn(t.wal, k) ==
            if Newest(Store.Memory(s.db), k).Some? then Some(Store.Shown(Newest(Store.Memory(s.db), k).value)) else None
  {
    hide Ascending, Newest, Lookup, Store.Copied, Lsm.MergedTable, RecordsOf, LastIn;
    SnapshotAnswers(s.db, k);
    RecordsAnswer(Store.Copied(Lsm.MergedTable(Store.Memory(s.db))), k);
  }

  lemma {:induction false} MemoryNotEmptyValued(s: State, k: Bytes)
    requires Fine(s, k) && NoEmptyValue(s.db, k) && s.mode.Serving?
    ensures Newest(Store.Memory(s.db), k).Some? ==> Newest(Store.Memory(s.db), k) == Effect(s.last, k)
    ensures Newest(Store.Memory(s.db), k) != Some(Some([]))
  {
    hide Lsm.Answer, Newest, Store.Find, Lookup;
    Store.FindSplit(s.db, k);
    Store.MemorySplit(s.db, k);
  }

  /** The rewritten log forgets what files hold and recovers the same map. */
  lemma {:induction false} CheckpointFine(s: State, t: State, threshold: nat, k: Bytes)
    requires Store.Sorted(s.db) && Fine(s, k) && NoEmptyValue(s.db, k) && Next(s, Checkpoint, t, threshold)
    ensures Fine(t, k)
  {
    hide Lsm.Answer, Newest, Store.Find, LastIn, RecordsOf;
    CheckpointLog(s, t, threshold, k);
    MemoryNotEmptyValued(s, k);
    Store.FindSplit(s.db, k);
  }

  lemma {:induction false} CheckpointShape(s: State, t: State, threshold: nat)
    requires Store.Sorted(s.db) && LogShape(s) && Next(s, Checkpoint, t, threshold)
    requires forall k :: Fine(s, k)
    ensures LogShape(t)
  {
    hide Ascending, Newest, Lookup, Store.Copied, Lsm.MergedTable, LastIn, Fine, RecordsOf, Store.Sorted;
    var live := Store.Copied(Lsm.MergedTable(Store.Memory(s.db)));
    SnapshotAnswers(s.db, []);
    RecordsEach(live);
    forall i | 0 <= i < |t.wal| ensures t.wal[i].value != Some([]) {
      LookupAt(live, i);
      SnapshotAnswers(s.db, live[i].key);
    }
  }

  // ---- every run ----

  lemma {:induction false} StepFine(s: State, step: Step, t: State, threshold: nat, k: Bytes)
    requires threshold >= 1 && Inv(s, threshold) && Next(s, step, t, threshold)
    ensures Fine(t, k)
  {
    assert Fine(s, k);
    match step
    case Append(k0, v0) => AppendFine(s, k0, v0, t, threshold, k);
    case Refuse(k0) => RefuseFine(s, k0, t, threshold, k);
    case Sync =>
    case Insert(k0) => InsertFine(s, k0, t, threshold, k);
    case Swap => SwapFine(s, t, threshold, k);
    case Flush(stamp) => FlushFine(s, stamp, t, threshold, k);
    case Compact(stamps) => CompactFine(s, stamps, t, threshold, k);
    case Checkpoint =>
      assert NoEmptyValue(s.db, k);
      CheckpointFine(s, t, threshold, k);
    case Crash(kept, tears) => CrashFine(s, kept, tears, t, threshold, k);
    case ReplayNext => ReplayFine(s, t, threshold, k);
    case ReplayDone => DoneFine(s, t, threshold, k);
  }

  lemma {:induction false} WrittenNoEmpty(db: Store.State, k0: Bytes, v: Value, k: Bytes)
    requires Store.Sorted(db) && NoEmptyValue(db, k) && v != Some([])
    ensures NoEmptyValue(Store.Written(db, k0, v), k)
  {
    UpsertIsMapUpdate(db.active, k0, v);
    hide Lookup, Upsert, Lsm.Answer;
  }

  lemma {:induction false} FlushedNoEmpty(db: Store.State, stamp: nat, threshold: nat, k: Bytes)
    requires Store.Sorted(db) && Lsm.Inv(db.files, threshold) && Lsm.OlderThan(db.files, stamp) && NoEmptyValue(db, k)
    ensures NoEmptyValue(Store.Flushed(db, stamp), k)
  {
    if db.dirty.Some? { Lsm.FlushKeeps(db.files, threshold, db.dirty.value, stamp); }
    hide Lookup, Lsm.Answer, Lsm.Inv, Ascending;
  }

  lemma {:induction false} QuietNoEmpty(db: Store.State, k: Bytes)
    requires NoEmptyValue(db, k)
    ensures NoEmptyValue(Store.Swapped(db), k) && NoEmptyValue(Store.State([], None, db.files), k)
  {
    assert Lookup([], k).None?;
    hide Lookup, Lsm.Answer;
  }

  lemma {:induction false} StepNoEmpty(s: State, step: Step, t: State, threshold: nat, k: Bytes)
    requires threshold >= 1 && Inv(s, threshold) && Next(s, step, t, threshold)
    ensures NoEmptyValue(t.db, k)
  {
    assert NoEmptyValue(s.db, k);
    QuietNoEmpty(s.db, k);
    if step.Insert? { assert s.flights[step.key].value != Some([]); }
    hide NoEmptyValue, Fine, Resolved, LogShape, Lsm.Inv, Store.Sorted;
    match step
    case Insert(k0) => WrittenNoEmpty(s.db, k0, s.flights[k0].value, k);
    case ReplayNext => WrittenNoEmpty(s.db, s.wal[s.mode.next].key, Store.Shown(s.wal[s.mode.next].value), k);
    case Flush(stamp) => FlushedNoEmpty(s.db, stamp, threshold, k);
    case Compact(stamps) => CompactedNoEmpty(s.db, threshold, stamps, k);
    case _ =>
  }

  lemma {:induction false} CompactedNoEmpty(db: Store.State, threshold: nat, stamps: seq<nat>, k: Bytes)
    requires threshold >= 1 && Lsm.Inv(db.files, threshold) && NoEmptyValue(db, k)
    requires Lsm.ClockRun(stamps) && Lsm.OlderThan(db.files, stamps[0])
    ensures NoEmptyValue(Store.Compacted(db, threshold, stamps), k)
  {
    Lsm.CompactKeeps(db.files, threshold, stamps);
    hide Lookup, Lsm.Answer, Lsm.Inv, Lsm.CompactFrom;
  }

  lemma {:induction false} StepShape(s: State, step: Step, t: State, threshold: nat)
    requires threshold >= 1 && Inv(s, threshold) && Next(s, step, t, threshold)
    ensures LogShape(t)
  {
    hide Fine, LogShape, Store.Written, Store.Swapped, Store.Flushed, Store.Compacted, RecordsOf, Resolved;
    match step
    case Append(k0, v0) => AppendShape(s, k0, v0, t, threshold);
    case Checkpoint => CheckpointShape(s, t, threshold);
    case Insert(k0) => InsertShape(s, k0, t, threshold);
    case Refuse(k0) => RefuseShape(s, k0, t, threshold);
    case Crash(kept, tears) => CrashShape(s, kept, tears, t, threshold);
    case _ => OtherShape(s, step, t, threshold);
  }

  lemma {:induction false} InsertDoubt(s: State, k0: Bytes, t: State, threshold: nat)
    requires LogShape(s) && Next(s, Insert(k0), t, threshold)
    ensures InDoubt(t)
  {
    hide Store.Written;
    forall i | t.synced <= i < |t.wal| ensures t.wal[i].value in Doubts(t.doubt, t.wal[i].key) {
      assert s.wal[i].value in Doubts(s.doubt, s.wal[i].key) && s.wal[i].key != k0;
    }
  }

  lemma {:induction false} RefuseShape(s: State, k0: Bytes, t: State, threshold: nat)
    requires LogShape(s) && Next(s, Refuse(k0), t, threshold)
    ensures LogShape(t)
  {
    assert InDoubt(t);
    hide InDoubt;
    forall i | t.synced <= i < |t.wal| && t.floor <= i
      ensures t.wal[i].key in t.murky || (t.wal[i].key in t.flights && t.flights[t.wal[i].key].index == i)
    {
      assert s.wal[i].key in s.murky || (s.wal[i].key in s.flights && s.flights[s.wal[i].key].index == i);
    }
  }

  lemma {:induction false} InsertShape(s: State, k0: Bytes, t: State, threshold: nat)
    requires LogShape(s) && Next(s, Insert(k0), t, threshold)
    ensures LogShape(t)
  {
    InsertDoubt(s, k0, t, threshold);
    hide Store.Written, InDoubt;
    forall i | t.synced <= i < |t.wal|
      ensures t.wal[i].key in t.murky || (t.wal[i].key in t.flights && t.flights[t.wal[i].key].index == i)
    {
      assert s.wal[i].key in s.murky || (s.wal[i].key in s.flights && s.flights[s.wal[i].key].index == i);
    }
  }

  lemma {:induction false} CrashShape(s: State, kept: nat, tears: bool, t: State, threshold: nat)
    requires LogShape(s) && Next(s, Crash(kept, tears), t, threshold)
    ensures LogShape(t)
  {
    hide Resolved, Lost, EffectAt;
    assert forall i :: 0 <= i < kept ==> t.wal[i] == s.wal[i];
  }

  /** A step that leaves the log as it is, or makes more of it durable. */
  lemma {:induction false} SameLog(s: State, t: State)
    requires LogShape(s) && t.wal == s.wal && t.floor == s.floor && s.synced <= t.synced <= |s.wal|
    requires t.flights == s.flights && t.murky == s.murky && t.doubt == s.doubt
    requires t.mode.Replaying? ==> s.mode.Replaying? && t.mode.next <= |t.wal|
    ensures LogShape(t)
  {
  }

  lemma {:induction false} OtherShape(s: State, step: Step, t: State, threshold: nat)
    requires !step.Append? && !step.Checkpoint? && !step.Insert? && !step.Crash? && !step.Refuse?
    requires LogShape(s) && Next(s, step, t, threshold)
    ensures LogShape(t)
  {
    assert s.synced <= |s.wal| && (s.mode.Replaying? ==> s.mode.next <= |s.wal|);
    hide LogShape, Store.Written, Store.Swapped, Store.Flushed, Store.Compacted;
    SameLog(s, t);
  }

  lemma {:induction false} StepFiles(s: State, step: Step, t: State, threshold: nat)
    requires threshold >= 1 && Inv(s, threshold) && Next(s, step, t, threshold)
    ensures Store.Sorted(t.db) && Lsm.Inv(t.db.files, threshold)
  {
    hide Fine, Upsert, LogShape;
    match step
    case Insert(k) => Store.WriteIsMapUpdate(s.db, k, s.flights[k].value);
    case ReplayNext => Store.WriteIsMapUpdate(s.db, s.wal[s.mode.next].key, Store.Shown(s.wal[s.mode.next].value));
    case Swap => Store.SwapIsInvisible(s.db);
    case Flush(stamp) =>
      Store.FlushIsInvisible(s.db, stamp);
      if s.db.dirty.Some? { Lsm.FlushKeeps(s.db.files, threshold, s.db.dirty.value, stamp); }
    case Compact(stamps) => Store.CompactionIsInvisible(s.db, threshold, stamps);
    case Append(k, v) =>
    case Refuse(k) =>
    case Sync =>
    case Checkpoint =>
    case Crash(kept, tears) =>
    case ReplayDone =>
  }

  lemma {:induction false} StepKeepsInv(s: State, step: Step, t: State, threshold: nat)
    requires threshold >= 1 && Inv(s, threshold) && Next(s, step, t, threshold)
    ensures Inv(t, threshold)
  {
    hide Fine, Next, LogShape, Store.Sorted, Lsm.Inv, NoEmptyValue;
    StepShape(s, step, t, threshold);
    StepFiles(s, step, t, threshold);
    forall k ensures Fine(t, k) && NoEmptyValue(t.db, k) {
      StepFine(s, step, t, threshold, k);
      StepNoEmpty(s, step, t, threshold, k);
    }
  }

  function Empty(): State {
    State([], 0, 0, false, Store.State([], None, []), map[], {}, map[], map[], map[], Serving)
  }

  ghost predicate IsRun(states: seq<State>, steps: seq<Step>, threshold: nat) {
    && |states| == |steps| + 1 && states[0] == Empty()
    && forall i :: 0 <= i < |steps| ==> Next(states[i], steps[i], states[i + 1], threshold)
  }

  lemma {:induction false} EmptyIsFine(threshold: nat)
    requires threshold >= 1
    ensures Inv(Empty(), threshold)
  {
    var s := Empty();
    forall k ensures Fine(s, k) && NoEmptyValue(s.db, k) {
      NothingInMemory([], k);
      Store.FindSplit(s.db, k);
      assert Lsm.TablesOf([]) == [];
    }
    forall l | 1 <= l < Lsm.MAX_LEVEL ensures |Lsm.OfLevel([], l)| < threshold {}
  }

  lemma {:induction false} RunKeepsInv(states: seq<State>, steps: seq<Step>, threshold: nat, n: nat)
    requires threshold >= 1 && IsRun(states, steps, threshold) && n < |states|
    ensures Inv(states[n], threshold)
  {
    if n == 0 {
      EmptyIsFine(threshold);
    } else {
      RunKeepsInv(states, steps, threshold, n - 1);
      assert Next(states[n - 1], steps[n - 1], states[n - 1 + 1], threshold);
      StepKeepsInv(states[n - 1], steps[n - 1], states[n], threshold);
    }
  }

  /** In every run, whenever the server serves, every key reads as its last write that took effect. */
  lemma {:induction false} ReadsSeeTheLastWrite(states: seq<State>, steps: seq<Step>, threshold: nat, n: nat, k: Bytes)
    requires threshold >= 1 && IsRun(states, steps, threshold) && n < |states| && states[n].mode.Serving?
    ensures Store.Get(states[n].db, k) == if k in states[n].last then states[n].last[k] else None
  {
    RunKeepsInv(states, steps, threshold, n);
    assert Fine(states[n], k);
  }

  // ---- what a crash can bring back ----

  /** The last acknowledged write, or one that was not acknowledged since. */
  ghost predicate Allowed(s: State, k: Bytes, v: Option<Value>) {
    v == Effect(s.acked, k) || (v.Some? && v.value in Doubts(s.doubt, k))
  }

  /** The first `m` records, without that of a write in flight. */
  function Cut(s: State, m: nat, k: Bytes): nat {
    if k in s.flights && s.flights[k].index < m then s.flights[k].index else m
  }

  /** However many records a crash keeps, it brings back an allowed value. */
  ghost predicate BringsBack(s: State, k: Bytes)
    requires s.synced <= |s.wal|
  {
    forall m :: s.synced <= m <= |s.wal| ==> Allowed(s, k, Said(s.wal, Cut(s, m, k), s.db.files, k))
  }

  /** What memory holds for a key without a durable record is in doubt. */
  ghost predicate MemoryInDoubt(s: State, k: Bytes)
    requires s.synced <= |s.wal|
  {
    LastIn(s.wal[..Cut(s, s.synced, k)], k).None? ==>
      && (Lookup(s.db.active, k).Some? ==> Lookup(s.db.active, k).value in Doubts(s.doubt, k))
      && (s.db.dirty.Some? && Lookup(s.db.dirty.value, k).Some? ==>
          Lookup(s.db.dirty.value, k).value in Doubts(s.doubt, k))
  }

  ghost predicate Safe(s: State, k: Bytes) {
    && s.synced <= |s.wal| && BringsBack(s, k) && MemoryInDoubt(s, k)
    && (s.mode.Serving? ==> Allowed(s, k, Effect(s.last, k)))
  }

  lemma {:induction false} RefuseSafe(s: State, k0: Bytes, t: State, threshold: nat, k: Bytes)
    requires LogShape(s) && Safe(s, k) && Next(s, Refuse(k0), t, threshold)
    ensures Safe(t, k)
  {
    hide LastIn, Lsm.Answer, Lookup;
    forall m | t.synced <= m <= |t.wal| ensures Allowed(t, k, Said(t.wal, Cut(t, m, k), t.db.files, k)) {
      assert Allowed(s, k, Said(s.wal, Cut(s, m, k), s.db.files, k));
      if k == k0 && s.flights[k0].index < m { KeptIsLast(s, k, m); }
    }
    if k == k0 && s.flights[k0].index < s.synced { KeptIsLast(s, k, s.synced); }
  }

  /** An appended record says nothing while it is in flight. */
  lemma {:induction false} AppendSaid(s: State, k0: Bytes, v0: Value, t: State, threshold: nat, k: Bytes, m: nat)
    requires LogShape(s) && Next(s, Append(k0, v0), t, threshold) && m <= |t.wal|
    ensures Cut(s, if m <= |s.wal| then m else |s.wal|, k) <= |s.wal|
    ensures LastIn(t.wal[..Cut(t, m, k)], k) == LastIn(s.wal[..Cut(s, if m <= |s.wal| then m else |s.wal|, k)], k)
  {
    hide LastIn, InDoubt;
    var n, c := |s.wal|, Cut(t, m, k);
    assert c <= n ==> t.wal[..c] == s.wal[..c];
    if c > n {
      assert t.wal[..c] == s.wal + [Rec(k0, v0)] && s.wal[..n] == s.wal;
      LastInAppend(s.wal, Rec(k0, v0), k);
    }
  }

  lemma {:induction false} AppendSafe(s: State, k0: Bytes, v0: Value, t: State, threshold: nat, k: Bytes)
    requires LogShape(s) && Safe(s, k) && Next(s, Append(k0, v0), t, threshold)
    ensures Safe(t, k)
  {
    assert s.synced <= |s.wal|;
    assert Doubts(s.doubt, k) <= Doubts(t.doubt, k);
    hide LastIn, Lsm.Answer, Lookup, LogShape, Cut, Doubts;
    forall m | t.synced <= m <= |t.wal| ensures Allowed(t, k, Said(t.wal, Cut(t, m, k), t.db.files, k)) {
      AppendAllowed(s, k0, v0, t, threshold, k, m);
    }
    CutInside(t, t.synced, k);
    AppendSaid(s, k0, v0, t, threshold, k, t.synced);
  }

  lemma {:induction false} AppendAllowed(s: State, k0: Bytes, v0: Value, t: State, threshold: nat, k: Bytes, m: nat)
    requires LogShape(s) && Safe(s, k) && Next(s, Append(k0, v0), t, threshold) && t.synced <= m <= |t.wal|
    requires Doubts(s.doubt, k) <= Doubts(t.doubt, k)
    ensures Cut(t, m, k) <= |t.wal| && Allowed(t, k, Said(t.wal, Cut(t, m, k), t.db.files, k))
  {
    hide LastIn, Lsm.Answer, Lookup, LogShape, Cut, Doubts, MemoryInDoubt;
    CutInside(t, m, k);
    AppendSaid(s, k0, v0, t, threshold, k, m);
    assert Allowed(s, k, Said(s.wal, Cut(s, if m <= |s.wal| then m else |s.wal|, k), s.db.files, k));
  }

  lemma {:induction false} CutInside(s: State, m: nat, k: Bytes)
    ensures Cut(s, m, k) <= m
  {
  }

  /** Once an inserted record is durable, every crash keeps it. */
  lemma {:induction false} KeptIsLast(s: State, k: Bytes, m: nat)
    requires LogShape(s) && k in s.flights && s.flights[k].index < m <= |s.wal|
    ensures LastIn(s.wal[..m], k) == Some(s.flights[k].value)
  {
    var i := s.flights[k].index;
    assert s.wal[..m][i] == s.wal[i];
    LastInAt(s.wal[..m], i);
  }

  /** A step that changes nothing about `k` but where its value lies. */
  lemma {:induction false} SameForKey(s: State, t: State, k: Bytes)
    requires Safe(s, k) && t.wal == s.wal && t.synced == s.synced
    requires (k in t.flights <==> k in s.flights) && (k in s.flights ==> t.flights[k] == s.flights[k])
    requires Lsm.Answer(t.db.files, k) == Lsm.Answer(s.db.files, k)
    requires Effect(t.acked, k) == Effect(s.acked, k) && Doubts(t.doubt, k) == Doubts(s.doubt, k)
    requires t.mode.Serving? ==> s.mode.Serving? && Effect(t.last, k) == Effect(s.last, k)
    requires Lookup(t.db.active, k).Some? ==>
               Lookup(t.db.active, k) == Lookup(s.db.active, k) ||
               (s.db.dirty.Some? && Lookup(t.db.active, k) == Lookup(s.db.dirty.value, k))
    requires t.db.dirty.Some? && Lookup(t.db.dirty.value, k).Some? ==>
               Lookup(t.db.dirty.value, k) == Lookup(s.db.active, k) ||
               (s.db.dirty.Some? && Lookup(t.db.dirty.value, k) == Lookup(s.db.dirty.value, k))
    ensures Safe(t, k)
  {
    hide LastIn, Lsm.Answer, Lookup;
    forall m | t.synced <= m <= |t.wal| ensures Allowed(t, k, Said(t.wal, Cut(t, m, k), t.db.files, k)) {
      assert Allowed(s, k, Said(s.wal, Cut(s, m, k), s.db.files, k));
    }
  }

  lemma {:induction false} InsertedSafe(s: State, k: Bytes, t: State, threshold: nat)
    requires LogShape(s) && Next(s, Insert(k), t, threshold)
    ensures Safe(t, k)
  {
    forall m | s.synced <= m <= |s.wal| ensures LastIn(s.wal[..m], k) == Some(s.flights[k].value) {
      KeptIsLast(s, k, m);
    }
    hide LastIn, Lsm.Answer, Lookup, Upsert, InDoubt;
    assert forall m :: Cut(t, m, k) == m;
  }

  lemma {:induction false} InsertSafe(s: State, k0: Bytes, t: State, threshold: nat, k: Bytes)
    requires Store.Sorted(s.db) && LogShape(s) && Safe(s, k) && Next(s, Insert(k0), t, threshold)
    ensures Safe(t, k)
  {
    if k == k0 {
      InsertedSafe(s, k, t, threshold);
    } else {
      UpsertIsMapUpdate(s.db.active, k0, s.flights[k0].value);
      hide Safe, LogShape, Lsm.Answer, Lookup, Upsert;
      SameForKey(s, t, k);
    }
  }

  lemma {:induction false} CutGrows(s: State, k: Bytes, m: nat, n: nat)
    requires m <= n <= |s.wal| && LastIn(s.wal[..Cut(s, n, k)], k).None?
    ensures LastIn(s.wal[..Cut(s, m, k)], k).None?
  {
    hide LastIn;
    var a, b := Cut(s, m, k), Cut(s, n, k);
    assert s.wal[..b][..a] == s.wal[..a];
    LastInNever(s.wal[..b], a, k);
  }

  lemma {:induction false} SyncSafe(s: State, t: State, threshold: nat, k: Bytes)
    requires Safe(s, k) && Next(s, Sync, t, threshold)
    ensures Safe(t, k)
  {
    hide LastIn, Lsm.Answer, Lookup;
    forall m | t.synced <= m <= |t.wal| ensures Allowed(t, k, Said(t.wal, Cut(t, m, k), t.db.files, k)) {
      assert Allowed(s, k, Said(s.wal, Cut(s, m, k), s.db.files, k));
    }
    if LastIn(s.wal[..Cut(s, |s.wal|, k)], k).None? { CutGrows(s, k, s.synced, |s.wal|); }
  }

  lemma {:induction false} FlushSafe(s: State, stamp: nat, t: State, threshold: nat, k: Bytes)
    requires Store.Sorted(s.db) && Lsm.Inv(s.db.files, threshold) && Safe(s, k) && Next(s, Flush(stamp), t, threshold)
    ensures Safe(t, k)
  {
    if s.db.dirty.Some? { Lsm.FlushKeeps(s.db.files, threshold, s.db.dirty.value, stamp); }
    hide LastIn, Lsm.Answer, Lookup, Lsm.Inv, Ascending;
    forall m | t.synced <= m <= |t.wal| ensures Allowed(t, k, Said(t.wal, Cut(t, m, k), t.db.files, k)) {
      assert Allowed(s, k, Said(s.wal, Cut(s, m, k), s.db.files, k));
      if LastIn(s.wal[..Cut(s, m, k)], k).None? { CutGrows(s, k, s.synced, m); }
    }
  }

  lemma {:induction false} QuietSafe(s: State, step: Step, t: State, threshold: nat, k: Bytes)
    requires step.Swap? || step.Compact?
    requires threshold >= 1 && Store.Sorted(s.db) && Lsm.Inv(s.db.files, threshold)
    requires Safe(s, k) && Next(s, step, t, threshold)
    ensures Safe(t, k)
  {
    if step.Compact? { Lsm.CompactKeeps(s.db.files, threshold, step.stamps); }
    assert Lookup([], k).None?;
    hide Safe, Lsm.Answer, Lookup, Lsm.Inv, Lsm.CompactFrom;
    SameForKey(s, t, k);
  }

  lemma {:induction false} CheckpointSafe(s: State, t: State, threshold: nat, k: Bytes)
    requires Store.Sorted(s.db) && Fine(s, k) && NoEmptyValue(s.db, k) && Safe(s, k)
    requires Next(s, Checkpoint, t, threshold)
    ensures Safe(t, k)
  {
    CheckpointFine(s, t, threshold, k);
    CheckpointLog(s, t, threshold, k);
    Store.MemorySplit(s.db, k);
    hide LastIn, Lsm.Answer, Lookup, RecordsOf, Newest, Store.Find, NoEmptyValue, BringsBack, MemoryInDoubt;
    assert t.wal[..|t.wal|] == t.wal && Settled(t, k) == LastIn(t.wal, k);
    OnlyCut(t, k);
  }

  /** With everything durable and nothing in flight, there is one way to crash. */
  lemma {:induction false} OnlyCut(s: State, k: Bytes)
    requires s.synced == |s.wal| && s.flights == map[]
    requires Allowed(s, k, Said(s.wal, |s.wal|, s.db.files, k))
    requires LastIn(s.wal, k).None? ==>
               Lookup(s.db.active, k).None? && (s.db.dirty.Some? ==> Lookup(s.db.dirty.value, k).None?)
    ensures BringsBack(s, k) && MemoryInDoubt(s, k)
  {
    hide LastIn, Lsm.Answer, Lookup, Said;
    assert s.wal[..|s.wal|] == s.wal;
  }

  lemma {:induction false} DoneSafe(s: State, t: State, threshold: nat, k: Bytes)
    requires LogShape(s) && Fine(s, k) && Safe(s, k) && Next(s, ReplayDone, t, threshold)
    ensures Safe(t, k)
  {
    hide LastIn, Lsm.Answer, Lookup, InDoubt, Store.Find, Newest;
    forall m | t.synced <= m <= |t.wal| ensures Allowed(t, k, Said(t.wal, Cut(t, m, k), t.db.files, k)) {
      assert Allowed(s, k, Said(s.wal, Cut(s, m, k), s.db.files, k));
    }
    assert Allowed(s, k, Said(s.wal, Cut(s, |s.wal|, k), s.db.files, k));
    assert s.wal[..|s.wal|] == s.wal;
  }

  lemma {:induction false} CrashSafe(s: State, kept: nat, tears: bool, t: State, threshold: nat, k: Bytes)
    requires LogShape(s) && Safe(s, k) && Next(s, Crash(kept, tears), t, threshold)
    ensures Safe(t, k)
  {
    assert Lookup([], k).None?;
    hide LastIn, Lsm.Answer, Lookup, Resolved;
    forall m | t.synced <= m <= |t.wal| ensures Allowed(t, k, Said(t.wal, Cut(t, m, k), t.db.files, k)) {
      assert Allowed(s, k, Said(s.wal, Cut(s, m, k), s.db.files, k));
      assert t.wal[..m] == s.wal[..m];
      if k in s.flights && s.flights[k].index < m { KeptIsLast(s, k, m); }
    }
  }

  lemma {:induction false} ReplaySafe(s: State, t: State, threshold: nat, k: Bytes)
    requires Store.Sorted(s.db) && LogShape(s) && Safe(s, k) && Next(s, ReplayNext, t, threshold)
    ensures Safe(t, k)
  {
    var r := s.wal[s.mode.next];
    assert Store.Shown(r.value) == r.value;
    UpsertIsMapUpdate(s.db.active, r.key, r.value);
    if r.key == k && s.mode.next < s.synced {
      assert s.wal[..s.synced][s.mode.next] == r;
      LastInAbsent(s.wal[..s.synced], s.mode.next);
    }
    hide LastIn, Lsm.Answer, Lookup, Upsert;
    forall m | t.synced <= m <= |t.wal| ensures Allowed(t, k, Said(t.wal, Cut(t, m, k), t.db.files, k)) {
      assert Allowed(s, k, Said(s.wal, Cut(s, m, k), s.db.files, k));
    }
  }

  lemma {:induction false} StepSafe(s: State, step: Step, t: State, threshold: nat, k: Bytes)
    requires threshold >= 1 && Inv(s, threshold) && Safe(s, k) && Next(s, step, t, threshold)
    ensures Safe(t, k)
  {
    assert Fine(s, k) && NoEmptyValue(s.db, k);
    hide Fine, Safe, LogShape, Lsm.Inv, Store.Sorted, Next, NoEmptyValue;
    match step
    case Append(k0, v0) => AppendSafe(s, k0, v0, t, threshold, k);
    case Refuse(k0) => RefuseSafe(s, k0, t, threshold, k);
    case Sync => SyncSafe(s, t, threshold, k);
    case Insert(k0) => InsertSafe(s, k0, t, threshold, k);
    case Flush(stamp) => FlushSafe(s, stamp, t, threshold, k);
    case Checkpoint => CheckpointSafe(s, t, threshold, k);
    case Crash(kept, tears) => CrashSafe(s, kept, tears, t, threshold, k);
    case ReplayNext => ReplaySafe(s, t, threshold, k);
    case ReplayDone => DoneSafe(s, t, threshold, k);
    case _ => QuietSafe(s, step, t, threshold, k);
  }

  lemma {:induction false} EmptyIsSafe(k: Bytes)
    ensures Safe(Empty(), k)
  {
    assert Lsm.TablesOf([]) == [];
  }

  lemma {:induction false} RunIsSafe(states: seq<State>, steps: seq<Step>, threshold: nat, n: nat, k: Bytes)
    requires threshold >= 1 && IsRun(states, steps, threshold) && n < |states|
    ensures Safe(states[n], k)
  {
    hide Safe, Inv, Next;
    if n == 0 {
      EmptyIsSafe(k);
    } else {
      RunIsSafe(states, steps, threshold, n - 1, k);
      RunKeepsInv(states, steps, threshold, n - 1);
      assert Next(states[n - 1], steps[n - 1], states[n - 1 + 1], threshold);
      StepSafe(states[n - 1], steps[n - 1], states[n], threshold, k);
    }
  }

  /** In every run, however many crashes there were and however much of the log each of them kept: what a key
      reads as is its last acknowledged write, or one that was logged after it and never acknowledged. */
  lemma {:induction false} ReadsAreAcknowledgedOrInDoubt(states: seq<State>, steps: seq<Step>, threshold: nat, n: nat,
                                                         k: Bytes)
    requires threshold >= 1 && IsRun(states, steps, threshold) && n < |states| && states[n].mode.Serving?
    ensures Allowed(states[n], k, Store.Find(states[n].db, k))
  {
    var s := states[n];
    RunKeepsInv(states, steps, threshold, n);
    RunIsSafe(states, steps, threshold, n, k);
    hide LastIn, Lsm.Answer, Store.Find, IsRun, MemoryInDoubt, BringsBack;
    assert Fine(s, k);
  }

  /** `Get` of the server over any way to read a storage key: the key itself, or else the payload of the
      version its current pointer leads to. */
  function ServerGet(read: Bytes -> Option<Bytes>, k: Bytes, pointer: Bytes -> Option<nat>,
                     payload: Bytes -> Option<Bytes>): Option<Bytes> {
    if read(k).Some? then read(k)
    else if read(CurrentKey(k)).None? || pointer(read(CurrentKey(k)).value).None? then None
    else
      var version := read(VersionKey(k, pointer(read(CurrentKey(k)).value).value));
      if version.None? then None else payload(version.value)
  }

  function LastRead(last: map<Bytes, Value>, k: Bytes): Option<Bytes> { if k in last then last[k] else None }

  /** And so the server's `Get`, with its fallback through the current pointer, answers as it would on the
      last writes that took effect. */
  lemma {:induction false} ServerSeesTheLastWrites(states: seq<State>, steps: seq<Step>, threshold: nat, n: nat,
                                                   k: Bytes, pointer: Bytes -> Option<nat>,
                                                   payload: Bytes -> Option<Bytes>)
    requires threshold >= 1 && IsRun(states, steps, threshold) && n < |states| && states[n].mode.Serving?
    ensures var db, last := states[n].db, states[n].last;
            ServerGet(q => Store.Get(db, q), k, pointer, payload) ==
            ServerGet(q => LastRead(last, q), k, pointer, payload)
  {
    hide Store.Get, IsRun, VersionKey, CurrentKey;
    forall q ensures Store.Get(states[n].db, q) == LastRead(states[n].last, q) {
      ReadsSeeTheLastWrite(states, steps, threshold, n, q);
    }
  }

  // ---- why appends need their conditions ----

  /** Replaying a log, as `replayWAL` does. */
  function Replayed(db: Store.State, wal: seq<Rec>): Store.State {
    if wal == [] then db
    else
      var r := wal[|wal| - 1];
      Store.Written(Replayed(db, wal[..|wal| - 1]), r.key, Store.Shown(r.value))
  }

  lemma {:induction false} ReplayedAnswers(db: Store.State, wal: seq<Rec>, k: Bytes)
    requires Store.Sorted(db)
    ensures Store.Sorted(Replayed(db, wal))
    ensures Store.Find(Replayed(db, wal), k) ==
            if LastIn(wal, k).Some? then Some(Store.Shown(LastIn(wal, k).value)) else Store.Find(db, k)
  {
    hide Store.Sorted, Store.Find, Upsert;
    if wal != [] {
      var init, r := wal[..|wal| - 1], wal[|wal| - 1];
      ReplayedAnswers(db, init, k);
      Store.WriteIsMapUpdate(Replayed(db, init), r.key, Store.Shown(r.value));
    }
  }

  /** A replay restores what was logged if and only if no key's last record has the empty value. */
  lemma {:induction false} ReplayIsExactIff(db: Store.State, wal: seq<Rec>)
    requires Store.Sorted(db)
    ensures (forall k :: LastIn(wal, k).Some? ==> Store.Find(Replayed(db, wal), k) == LastIn(wal, k)) <==>
            (forall k :: LastIn(wal, k) != Some(Some([])))
  {
    hide Store.Sorted, Store.Find, LastIn, Replayed;
    forall k ensures (LastIn(wal, k).Some? ==> Store.Find(Replayed(db, wal), k) == LastIn(wal, k)) <==>
                     LastIn(wal, k) != Some(Some([]))
    {
      ReplayedAnswers(db, wal, k);
    }
  }

  /** Two writes of one key, logged in one order and inserted in the other: what is read now is what is
      read after a crash and a replay over any surviving files, if and only if the write inserted last has
      the value the replay makes of the write logged last. */
  lemma {:induction false} OverlappingWritesAgreeIff(db: Store.State, wal: seq<Rec>, files: seq<Lsm.File>, k: Bytes,
                                                     v: Value, w: Value)
    requires Store.Sorted(db) && Store.Sorted(Store.State([], None, files))
    ensures var now := Store.Written(Store.Written(db, k, w), k, v);
            var later := Replayed(Store.State([], None, files), wal + [Rec(k, v), Rec(k, w)]);
            Store.Find(now, k) == Store.Find(later, k) <==> v == Store.Shown(w)
  {
    hide Store.Sorted, Store.Find, Upsert, Replayed;
    Store.WriteIsMapUpdate(db, k, w);
    Store.WriteIsMapUpdate(Store.Written(db, k, w), k, v);
    assert wal + [Rec(k, v), Rec(k, w)] == (wal + [Rec(k, v)]) + [Rec(k, w)];
    LastInAppend(wal + [Rec(k, v)], Rec(k, w), k);
    ReplayedAnswers(Store.State([], None, files), wal + [Rec(k, v), Rec(k, w)], k);
  }
}
