/** The job ledger in the versioned store: an event append is a version write and a pointer write there, and
    what recovery lists is what the job model calls listed. */
module JobStore {
  import opened Bytes
  import opened VersionKeys
  import opened Jobs
  import T = Temporal
  import R = TemporalReads

  /** The store keeps the ledger of `job` under `l`: its acknowledged events as acknowledged versions, and its
      unacknowledged one, if any, under the next number. */
  ghost predicate Keeps(s: T.State, l: Bytes, job: Job, encode: Event -> Bytes) {
    var acked := T.Acked(s, l);
    && |acked| == |job.events| && (forall i :: 0 <= i < |acked| ==> acked[i].payload == encode(job.events[i]))
    && (job.unacked.None? ==> |acked| < MAX_SEQ ==> VersionKey(l, |acked| + 1) !in s.cells)
    && (job.unacked.Some? ==>
          |acked| < MAX_SEQ && VersionKey(l, |acked| + 1) in s.cells &&
          s.cells[VersionKey(l, |acked| + 1)].Rec? &&
          s.cells[VersionKey(l, |acked| + 1)].version.payload == encode(job.unacked.value))
  }

  /** The version write of an event replaces an unacknowledged one, whether the number came from the cache
      or, after a restart, from the pointer. */
  lemma {:induction false} WriteIsBegin(s: T.State, t: T.State, l: Bytes, v: T.Version, e: Event, job: Job,
                                        encode: Event -> Bytes, hash: Bytes -> Bytes, decode: Bytes -> Option<nat>)
    requires T.Inv(s, hash) && Keeps(s, l, job, encode) && v.payload == encode(e)
    requires T.Next(s, T.Begin(l, v), t, hash, decode)
    ensures Keeps(t, l, job.(unacked := Some(e)), encode)
  {
    hide VersionKey, CurrentKey, T.Plain, T.NextSeq;
    T.NextIsAbove(s, l, hash, decode);
  }

  /** The pointer write acknowledges it. */
  lemma {:induction false} AcknowledgeIsCommit(s: T.State, t: T.State, l: Bytes, job: Job, encode: Event -> Bytes,
                                               hash: Bytes -> Bytes, decode: Bytes -> Option<nat>)
    requires T.Inv(s, hash) && Keeps(s, l, job, encode) && job.unacked.Some?
    requires T.Next(s, T.Commit(l), t, hash, decode)
    ensures Keeps(t, l, job.(events := job.events + [job.unacked.value], unacked := None), encode)
  {
    hide VersionKey, CurrentKey, T.Plain;
    assert T.KeyOk(s, l, hash);
    var n := |T.Acked(s, l)|;
    if n + 2 <= MAX_SEQ { VersionIsNotCurrent(l, n + 2); }
  }

  /** A step on another key, a failed call and a restart leave the ledger as it is, acknowledged or not. */
  lemma {:induction false} OtherStepsKeep(s: T.State, step: T.Step, t: T.State, l: Bytes, job: Job,
                                          encode: Event -> Bytes, hash: Bytes -> Bytes, decode: Bytes -> Option<nat>)
    requires T.Inv(s, hash) && Keeps(s, l, job, encode) && T.Next(s, step, t, hash, decode)
    requires step.Begin? || step.Commit? ==> step.logical != l
    ensures Keeps(t, l, job, encode)
  {
    hide VersionKey, CurrentKey, T.Plain, T.NextSeq;
    match step
    case Begin(other, v) => T.VersionWriteElsewhere(s.cells, other, T.NextSeq(s, other, decode), T.Rec(v), l);
    case Commit(other) =>
      T.PointerWriteElsewhere(s.cells, other, T.Pointer(s.writing[other].0, hash(s.writing[other].1.payload)), l);
    case Abandon(_) =>
    case Restart =>
  }

  ghost predicate HasNumber(vs: seq<R.Stored>, n: nat) { exists i :: 0 <= i < |vs| && vs[i].seqNo == n }

  /** Versions that ascend and carry exactly the numbers 1 to n are version 1 to version n. */
  lemma {:induction false} Numbered(vs: seq<R.Stored>, n: nat)
    requires R.Ascending(vs) && (forall i :: 0 <= i < |vs| ==> 1 <= vs[i].seqNo <= n)
    requires forall m :: 1 <= m <= n ==> HasNumber(vs, m)
    ensures |vs| == n && forall i :: 0 <= i < n ==> vs[i].seqNo == i + 1
  {
    assert vs != [] ==> 1 <= vs[0].seqNo <= n;
    if n > 0 {
      var k := |vs| - 1;
      assert HasNumber(vs, n);
      var i :| 0 <= i < |vs| && vs[i].seqNo == n;
      assert vs[k].seqNo <= n;
      var init := vs[..k];
      forall m | 1 <= m <= n - 1 ensures HasNumber(init, m) {
        assert HasNumber(vs, m);
        var a :| 0 <= a < |vs| && vs[a].seqNo == m;
        assert init[a].seqNo == m;
      }
      hide HasNumber;
      Numbered(init, n - 1);
    }
  }

  /** What `ListVersions` returns for the key is the listed ledger, event by event. */
  lemma {:induction false} ListedIsStored(s: T.State, l: Bytes, job: Job, vs: seq<R.Stored>, encode: Event -> Bytes,
                                          hash: Bytes -> Bytes)
    requires T.Inv(s, hash) && Keeps(s, l, job, encode) && R.VersionsOf(vs, s.cells, l)
    ensures |vs| == |Listed(job)|
    ensures forall i :: 0 <= i < |vs| ==> vs[i].seqNo == i + 1 && vs[i].version.payload == encode(Listed(job)[i])
  {
    hide VersionKey, CurrentKey, T.Plain;
    assert T.KeyOk(s, l, hash);
    var acked, n := T.Acked(s, l), |Listed(job)|;
    forall m: nat | 1 <= m <= n ensures HasNumber(vs, m) {
      var v := if m <= |acked| then acked[m - 1] else s.cells[VersionKey(l, m)].version;
      assert T.Holds(s.cells, VersionKey(l, m), T.Rec(v));
      assert R.Stored(m, v) in vs;
    }
    forall i | 0 <= i < |vs| ensures 1 <= vs[i].seqNo <= n {
      assert vs[i] in vs && T.Holds(s.cells, VersionKey(l, vs[i].seqNo), T.Rec(vs[i].version));
    }
    Numbered(vs, n);
    forall i | 0 <= i < n ensures vs[i].version.payload == encode(Listed(job)[i]) {
      assert vs[i] in vs && T.Holds(s.cells, VersionKey(l, i + 1), T.Rec(vs[i].version));
    }
  }

  /** Once the ledger has a pointer, a replay of the store tells whether its last event is acknowledged. */
  lemma {:induction false} ReplayTells(states: seq<T.State>, steps: seq<T.Step>, n: nat, l: Bytes, job: Job,
                                       encode: Event -> Bytes, hash: Bytes -> Bytes, decode: Bytes -> Option<nat>)
    requires T.IsRun(states, steps, hash, decode) && n < |states| && CurrentKey(l) in states[n].cells
    requires Keeps(states[n], l, job, encode) && |job.events| < MAX_SEQ
    ensures R.Mismatched(states[n].cells, l, hash) <==> job.unacked.Some?
  {
    hide VersionKey, CurrentKey, R.Mismatched;
    R.ReplayReportsUnacknowledged(states, steps, hash, decode, n, l);
  }
}
