/** What a read of the server returns, for keys written as versions and for keys written outright. */
module ServerReads {
  import opened Bytes
  import opened VersionKeys
  import T = Temporal
  import KvRuns
  import Store

  /** Reading storage keys gives back what the versioned store holds: a pointer key decodes to the number it names, a
      version key to its payload, and nothing else was written under a pointer key. */
  ghost predicate Decodes(read: Bytes -> Option<Bytes>, pointer: Bytes -> Option<nat>, payload: Bytes -> Option<Bytes>,
                          cells: T.Cells) {
    && (forall k :: k in cells ==> read(k).Some?)
    && (forall k :: k in cells && cells[k].Pointer? ==> pointer(read(k).value) == Some(cells[k].seqNo))
    && (forall k :: k in cells && cells[k].Rec? ==> payload(read(k).value) == Some(cells[k].version.payload))
    && (forall l :: CurrentKey(l) !in cells ==> read(CurrentKey(l)).None?)
  }

  /** The payload of the last acknowledged version. */
  function LastVersion(s: T.State, l: Bytes): Option<Bytes> {
    var acked := T.Acked(s, l);
    if acked == [] then None else Some(acked[|acked| - 1].payload)
  }

  lemma {:induction false} ReadOf(s: T.State, hash: Bytes -> Bytes, l: Bytes, read: Bytes -> Option<Bytes>,
                                  pointer: Bytes -> Option<nat>, payload: Bytes -> Option<Bytes>)
    requires T.Inv(s, hash) && Decodes(read, pointer, payload, s.cells)
    ensures KvRuns.ServerGet(read, l, pointer, payload) == if read(l).Some? then read(l) else LastVersion(s, l)
  {
    hide VersionKey, CurrentKey, T.Plain;
    assert T.KeyOk(s, l, hash);
    var acked := T.Acked(s, l);
    if acked != [] { assert T.Holds(s.cells, VersionKey(l, |acked|), T.Rec(acked[|acked| - 1])); }
  }

  /** In every state of every run of versioned writes, with stops and cold restarts: a key that was written outright
      reads as that value; any other reads as the payload of its last acknowledged version, whether or not a later
      one is stored already; and a key without an acknowledged version reads as absent. */
  lemma {:induction false} ReadsTheLastVersion(states: seq<T.State>, steps: seq<T.Step>, hash: Bytes -> Bytes,
                                               decode: Bytes -> Option<nat>, n: nat, l: Bytes,
                                               read: Bytes -> Option<Bytes>, pointer: Bytes -> Option<nat>,
                                               payload: Bytes -> Option<Bytes>)
    requires T.IsRun(states, steps, hash, decode) && n < |states|
    requires Decodes(read, pointer, payload, states[n].cells)
    ensures KvRuns.ServerGet(read, l, pointer, payload) ==
            if read(l).Some? then read(l) else LastVersion(states[n], l)
  {
    T.RunKeeps(states, steps, hash, decode, n);
    ReadOf(states[n], hash, l, read, pointer, payload);
  }

  /** The same through log, memtables, files, crashes and replays: if the last writes that took effect hold what a run
      of versioned writes stored, the serving server answers with the last acknowledged version. */
  lemma {:induction false} ServerReadsTheLastVersion(kv: seq<KvRuns.State>, kvSteps: seq<KvRuns.Step>, threshold: nat,
                                                     m: nat, states: seq<T.State>, steps: seq<T.Step>,
                                                     hash: Bytes -> Bytes, decode: Bytes -> Option<nat>, n: nat,
                                                     l: Bytes, pointer: Bytes -> Option<nat>,
                                                     payload: Bytes -> Option<Bytes>)
    requires threshold >= 1 && KvRuns.IsRun(kv, kvSteps, threshold) && m < |kv| && kv[m].mode.Serving?
    requires T.IsRun(states, steps, hash, decode) && n < |states|
    requires var last := kv[m].last; Decodes(q => KvRuns.LastRead(last, q), pointer, payload, states[n].cells)
    ensures var db := kv[m].db;
            KvRuns.ServerGet(q => Store.Get(db, q), l, pointer, payload) ==
            if KvRuns.LastRead(kv[m].last, l).Some? then KvRuns.LastRead(kv[m].last, l) else LastVersion(states[n], l)
  {
    var last := kv[m].last;
    hide T.IsRun, KvRuns.IsRun, KvRuns.ServerGet, Decodes, Store.Get;
    KvRuns.ServerSeesTheLastWrites(kv, kvSteps, threshold, m, l, pointer, payload);
    ReadsTheLastVersion(states, steps, hash, decode, n, l, q => KvRuns.LastRead(last, q), pointer, payload);
  }
}
