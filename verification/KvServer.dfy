/** The standalone server: a log file in front of the engine. */
module KvServer {
  import opened Bytes
  import opened Tables
  import Engines
  import KvRuns
  import Lsm
  import Store
  import SkipLists
  import ServerReads
  import Temporal
  import VersionKeys
  import Wal

  const OP_PUT: Byte := 1
  const OP_DELETE: Byte := 2

  /** The log record of a write. */
  function Logged(r: KvRuns.Rec): Wal.Record {
    match r.value
    case None => Wal.Record(OP_DELETE, r.key, [])
    case Some(v) => Wal.Record(OP_PUT, r.key, v)
  }

  function LoggedAll(rs: seq<KvRuns.Rec>): seq<Wal.Record> {
    if rs == [] then [] else [Logged(rs[0])] + LoggedAll(rs[1..])
  }

  /** What a replay makes of a record; an unknown opcode is passed over. */
  function Applied(r: Wal.Replayed): Option<Value> {
    if r.op == OP_PUT then Some(r.value) else if r.op == OP_DELETE then Some(None) else None
  }

  /** The value a replay of `rs` leaves for `k`, if it touches `k`. */
  function Outcome(rs: seq<Wal.Replayed>, k: Bytes): Option<Value> {
    if rs == [] then None
    else
      var r := rs[|rs| - 1];
      if r.key == k && Applied(r).Some? then Applied(r) else Outcome(rs[..|rs| - 1], k)
  }

  lemma {:induction false} OutcomeConcat(a: seq<Wal.Replayed>, b: seq<Wal.Replayed>, k: Bytes)
    ensures Outcome(a + b, k) == if Outcome(b, k).Some? then Outcome(b, k) else Outcome(a, k)
  {
    if b == [] {
      assert a + b == a;
    } else {
      assert (a + b)[..|a + b| - 1] == a + b[..|b| - 1];
      OutcomeConcat(a, b[..|b| - 1], k);
    }
  }

  lemma {:induction false} LastInConcat(a: seq<KvRuns.Rec>, b: seq<KvRuns.Rec>, k: Bytes)
    ensures KvRuns.LastIn(a + b, k) == if KvRuns.LastIn(b, k).Some? then KvRuns.LastIn(b, k) else KvRuns.LastIn(a, k)
  {
    if b == [] {
      assert a + b == a;
    } else {
      assert (a + b)[..|a + b| - 1] == a + b[..|b| - 1];
      LastInConcat(a, b[..|b| - 1], k);
    }
  }

  lemma {:induction false} OneOutcome(r: KvRuns.Rec, k: Bytes)
    ensures Outcome([Wal.Seen(Logged(r))], k) == if r.key == k then Some(Store.Shown(r.value)) else None
    ensures KvRuns.LastIn([r], k) == if r.key == k then Some(r.value) else None
  {
    var p := [Wal.Seen(Logged(r))];
    assert p[..|p| - 1] == [] && [r][..0] == [];
  }

  /** A replay of logged writes leaves the last write of each key, except that an empty value is gone. */
  lemma {:induction false} OutcomeOfLog(rs: seq<KvRuns.Rec>, k: Bytes)
    ensures Outcome(Wal.SeenAll(LoggedAll(rs)), k) ==
            if KvRuns.LastIn(rs, k).Some? then Some(Store.Shown(KvRuns.LastIn(rs, k).value)) else None
  {
    hide Outcome, KvRuns.LastIn;
    if rs == [] {
      assert Outcome([], k) == None && KvRuns.LastIn([], k) == None by { EmptyOutcome(k); }
    } else {
      OutcomeOfLog(rs[1..], k);
      OneOutcome(rs[0], k);
      OutcomeConcat([Wal.Seen(Logged(rs[0]))], Wal.SeenAll(LoggedAll(rs[1..])), k);
      LastInConcat([rs[0]], rs[1..], k);
      assert rs == [rs[0]] + rs[1..];
      assert LoggedAll(rs)[1..] == LoggedAll(rs[1..]);
    }
  }

  lemma {:induction false} EmptyOutcome(k: Bytes)
    ensures Outcome([], k) == None && KvRuns.LastIn([], k) == None
  {
  }

  // ---- logs cut by a crash ----

  /** How many records lie wholly within the first `n` bytes. */
  lemma {:induction false} WholeRecords(rs: seq<Wal.Record>, n: nat) returns (m: nat)
    requires Wal.AllFit(rs) && n <= |Wal.EncodeAll(rs)|
    ensures m <= |rs| && |Wal.EncodeAll(rs[..m])| <= n && (m < |rs| ==> n < |Wal.EncodeAll(rs[..m + 1])|)
  {
    hide Wal.Encode, Wal.EncodeAll, Wal.Fits;
    m := 0;
    Wal.NoRecords();
    assert rs[..0] == [];
    while m < |rs| && |Wal.EncodeAll(rs[..m + 1])| <= n
      invariant m <= |rs| && |Wal.EncodeAll(rs[..m])| <= n
    {
      m := m + 1;
    }
  }

  /** A crash that leaves any number of bytes of the log leaves the effect of a prefix of its writes. */
  lemma {:induction false} AnyCutRecoversAPrefix(rs: seq<KvRuns.Rec>, n: nat) returns (m: nat)
    requires Wal.AllFit(LoggedAll(rs)) && n <= |Wal.EncodeAll(LoggedAll(rs))|
    ensures m <= |rs|
    ensures forall k :: Outcome(Wal.Parse(Wal.EncodeAll(LoggedAll(rs))[..n]), k) ==
                        if KvRuns.LastIn(rs[..m], k).None? then None
                        else Some(Store.Shown(KvRuns.LastIn(rs[..m], k).value))
    ensures n == |Wal.EncodeAll(LoggedAll(rs))| ==> m == |rs|
  {
    hide Wal.Encode, Wal.EncodeAll, Wal.Fits, Wal.Parse, Outcome, KvRuns.LastIn, Logged, Wal.SeenAll;
    m := WholeRecords(LoggedAll(rs), n);
    LoggedEach(rs);
    LoggedPrefix(rs, m);
    if m < |rs| {
      Wal.EncodeAllGrows(LoggedAll(rs), m + 1);
    }
    Wal.ReplayOfAnyCut(LoggedAll(rs), n, m);
    forall k { OutcomeOfLog(rs[..m], k); }
  }

  lemma {:induction false} LoggedPrefix(rs: seq<KvRuns.Rec>, m: nat)
    requires m <= |rs|
    ensures |LoggedAll(rs)| == |rs| && LoggedAll(rs[..m]) == LoggedAll(rs)[..m]
  {
    LoggedEach(rs);
    LoggedEach(rs[..m]);
  }

  /** The records a checkpoint writes: the merged memtables. */
  function Checkpointed(db: Store.State): seq<Wal.Record> {
    LoggedAll(KvRuns.RecordsOf(Store.Copied(Lsm.MergedTable(Store.Memory(db)))))
  }

  /** Replaying the log a checkpoint wrote gives each key what memory held for it, tombstones included, and
      touches no other key. */
  lemma {:induction false} CheckpointedLogReplays(db: Store.State, k: Bytes)
    requires Store.Sorted(db) && Wal.AllFit(Checkpointed(db))
    ensures Outcome(Wal.Parse(Wal.EncodeAll(Checkpointed(db))), k) ==
            if Newest(Store.Memory(db), k).Some? then Some(Store.Shown(Newest(Store.Memory(db), k).value)) else None
  {
    hide Wal.EncodeAll, Wal.Parse, Outcome, KvRuns.LastIn, Wal.SeenAll, Newest, Lookup;
    hide Store.Copied, Lsm.MergedTable, KvRuns.RecordsOf, LoggedAll;
    var live := Store.Copied(Lsm.MergedTable(Store.Memory(db)));
    var rs := KvRuns.RecordsOf(live);
    KvRuns.SnapshotAnswers(db, k);
    KvRuns.RecordsAnswer(live, k);
    Wal.ReplayRoundTrip(LoggedAll(rs));
    OutcomeOfLog(rs, k);
  }

  /** `now` answers like `was` with the records `rs` replayed on top. */
  ghost predicate Restored(was: Store.State, now: Store.State, rs: seq<Wal.Replayed>) {
    forall k :: Store.Find(now, k) == if Outcome(rs, k).Some? then Outcome(rs, k) else Store.Find(was, k)
  }

  lemma {:induction false} RestoredNone(was: Store.State)
    ensures Restored(was, was, [])
  {
  }

  /** The callback of `replayWAL`. */
  method ReplayOne(engine: Engines.Engine, r: Wal.Replayed, height: nat, clock: nat)
    requires engine.Valid() && engine.dirty == null && 1 <= height <= engine.maxLevel
    modifies engine`active, engine`dirty, engine`files, engine`requested, engine.credits, engine.active.Repr()
    ensures engine.Valid() && engine.dirty == null && fresh(engine.active.Repr() - old(engine.active.Repr()))
    ensures Applied(r).None? ==> engine.State() == old(engine.State())
    ensures Applied(r).Some? ==>
              forall q :: Store.Find(engine.State(), q) ==
                          if q == r.key then Applied(r) else Store.Find(old(engine.State()), q)
    ensures r.op == OP_PUT ==> Store.Find(engine.State(), r.key) == Some(r.value)
    ensures r.op == OP_DELETE ==> Store.Find(engine.State(), r.key) == Some(None)
    ensures r.op != OP_PUT && r.op != OP_DELETE ==> engine.State() == old(engine.State())
  {
    if r.op == OP_PUT {
      var _ := engine.Put(r.key, r.value, height, clock);
    } else if r.op == OP_DELETE {
      var _ := engine.Put(r.key, None, height, clock);
    }
  }

  class KvServer {
    const engine: Engines.Engine
    /** The bytes of the log file. */
    var log: Bytes

    constructor (engine: Engines.Engine, log: Bytes)
      ensures this.engine == engine && this.log == log
    {
      this.engine, this.log := engine, log;
    }

    /** `Get`: the key itself, or else the version its current pointer leads to. On a store that holds what a run of
        versioned writes left, that is the payload of the last acknowledged version. */
    method Get(key: Bytes, maxKnown: seq<bool>, pointer: Bytes -> Option<nat>, payload: Bytes -> Option<Bytes>,
               ghost t: Temporal.State, ghost hash: Bytes -> Bytes) returns (r: Option<Bytes>)
      requires engine.Coherent() && |maxKnown| == |engine.files|
      ensures var s := engine.State(); r == KvRuns.ServerGet(q => Store.Get(s, q), key, pointer, payload)
      ensures var s := engine.State();
              Temporal.Inv(t, hash) && ServerReads.Decodes(q => Store.Get(s, q), pointer, payload, t.cells) ==>
                r == if Store.Get(s, key).Some? then Store.Get(s, key) else ServerReads.LastVersion(t, key)
    {
      hide Store.Get, ServerReads.Decodes, Temporal.Inv;
      ghost var s := engine.State();
      if Temporal.Inv(t, hash) && ServerReads.Decodes(q => Store.Get(s, q), pointer, payload, t.cells) {
        ServerReads.ReadOf(t, hash, key, q => Store.Get(s, q), pointer, payload);
      }
      r := engine.Get(key, maxKnown);
      if r.Some? { return; }
      var current := engine.Get(VersionKeys.CurrentKey(key), maxKnown);
      if current.None? { return; }
      var seqNo := pointer(current.value);
      if seqNo.None? { return; }
      var version := engine.Get(VersionKeys.VersionKey(key, seqNo.value), maxKnown);
      if version.None? { return; }
      r := payload(version.value);
    }

    /** `applyStandalone`: append and sync the record, then write the engine. The write is logged even if it
        then waits for credit that does not come. */
    method Write(key: Bytes, value: Value, height: nat, clock: nat) returns (done: bool)
      requires engine.Valid() && 1 <= height <= engine.maxLevel && Wal.Fits(Logged(KvRuns.Rec(key, value)))
      modifies this`log, engine`active, engine`dirty, engine`files, engine`requested
      modifies engine.credits, engine.active.Repr()
      ensures log == old(log) + Wal.Encode(Logged(KvRuns.Rec(key, value)))
      ensures engine.Valid() && (old(engine.dirty) == null ==> done)
      ensures forall q :: Store.Find(engine.State(), q) ==
                          if done && q == key then Some(value) else Store.Find(old(engine.State()), q)
    {
      hide SkipLists.ShapeOf, Ascending, Store.Find, Store.Sorted, TableBytes, Wal.Encode;
      log := log + Wal.Encode(Logged(KvRuns.Rec(key, value)));
      done := engine.Put(key, value, height, clock);
    }

    /** `Checkpoint`: the log becomes a snapshot of both memtables, tombstones included. Replaying it
        leaves for each key what memory holds, and touches no other key. */
    method Checkpoint()
      requires engine.Coherent()
      requires Wal.AllFit(Checkpointed(engine.State()))
      modifies this`log
      ensures log == Wal.EncodeAll(Checkpointed(engine.State()))
    {
      var live := engine.SnapshotLive();
      log := Rewritten(live);
    }

    /** `replayWAL`: put every record of the file back into an engine that has just been opened, in order. */
    method ReplayLog(heights: nat -> nat, clock: nat)
      requires engine.Valid() && engine.dirty == null && forall i :: 1 <= heights(i) <= engine.maxLevel
      modifies engine`active, engine`dirty, engine`files, engine`requested, engine.credits, engine.active.Repr()
      ensures engine.Valid()
      ensures Restored(old(engine.State()), engine.State(), Wal.Parse(log))
    {
      hide SkipLists.ShapeOf, Ascending, Store.Find, Store.Sorted, TableBytes, Wal.Parse, Outcome, Restored;
      var rs := Wal.Replay(log);
      ghost var was := engine.State();
      var i := 0;
      assert rs[..0] == [];
      RestoredNone(was);
      while i < |rs|
        invariant 0 <= i <= |rs| && engine.Valid() && engine.dirty == null
        invariant fresh(engine.active.Repr() - old(engine.active.Repr()))
        invariant Restored(was, engine.State(), rs[..i])
      {
        ghost var before := engine.State();
        ReplayOne(engine, rs[i], heights(i), clock);
        RestoredStep(was, before, engine.State(), rs, i);
        i := i + 1;
      }
      assert rs[..i] == rs;
    }
  }

  lemma {:induction false} RestoredStep(was: Store.State, before: Store.State, now: Store.State, rs: seq<Wal.Replayed>,
                                        i: nat)
    requires i < |rs| && Restored(was, before, rs[..i])
    requires Applied(rs[i]).None? ==> now == before
    requires Applied(rs[i]).Some? ==>
               forall q :: Store.Find(now, q) == if q == rs[i].key then Applied(rs[i]) else Store.Find(before, q)
    ensures Restored(was, now, rs[..i + 1])
  {
    hide Store.Find;
    assert rs[..i + 1][..|rs[..i + 1]| - 1] == rs[..i];
  }

  /** The loop of `Checkpoint` over the snapshot, and the file it writes. */
  method Rewritten(live: Table) returns (file: Bytes)
    requires Wal.AllFit(LoggedAll(KvRuns.RecordsOf(live)))
    ensures file == Wal.EncodeAll(LoggedAll(KvRuns.RecordsOf(live)))
  {
    file := [];
    var i := 0;
    ghost var all := KvRuns.RecordsOf(live);
    KvRuns.RecordsEach(live);
    assert all[..0] == [];
    while i < |live|
      invariant 0 <= i <= |live| && Wal.AllFit(LoggedAll(all[..i])) && file == Wal.EncodeAll(LoggedAll(all[..i]))
    {
      var e := live[i];
      var record := match e.value
        case None => Wal.Record(OP_DELETE, e.key, [])
        case Some(v) => Wal.Record(OP_PUT, e.key, v);
      FitsAt(all, i);
      LoggedStep(all, i);
      file := file + Wal.Encode(record);
      i := i + 1;
    }
    assert all[..i] == all;
  }

  lemma {:induction false} LoggedEach(rs: seq<KvRuns.Rec>)
    ensures |LoggedAll(rs)| == |rs| && forall i :: 0 <= i < |rs| ==> LoggedAll(rs)[i] == Logged(rs[i])
  {
    if rs != [] { LoggedEach(rs[1..]); }
  }

  lemma {:induction false} FitsAt(rs: seq<KvRuns.Rec>, i: nat)
    requires i < |rs| && Wal.AllFit(LoggedAll(rs))
    ensures Wal.Fits(Logged(rs[i]))
  {
    LoggedEach(rs);
  }

  lemma {:induction false} LoggedStep(rs: seq<KvRuns.Rec>, i: nat)
    requires i < |rs| && Wal.Fits(Logged(rs[i])) && Wal.AllFit(LoggedAll(rs[..i]))
    ensures Wal.AllFit(LoggedAll(rs[..i + 1]))
    ensures Wal.EncodeAll(LoggedAll(rs[..i + 1])) == Wal.EncodeAll(LoggedAll(rs[..i])) + Wal.Encode(Logged(rs[i]))
  {
    hide Wal.Encode, Wal.Fits, Logged;
    LoggedEach(rs[..i]);
    LoggedEach(rs[..i + 1]);
    assert LoggedAll(rs[..i + 1]) == LoggedAll(rs[..i]) + [Logged(rs[i])];
    Wal.EncodeAllConcat(LoggedAll(rs[..i]), [Logged(rs[i])]);
    Wal.OneRecord(Logged(rs[i]));
  }
}
