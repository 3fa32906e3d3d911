/** The on-disk half of the engine: SSTable files in `metas` order, level compaction and the recency
    argument behind "the last file that holds a key holds its newest version". */
module Lsm {
  import opened Bytes
  import opened Tables

  /** One SSTable: its level, its creation time stamp and its sorted contents. */
  datatype File = File(level: nat, created: nat, table: Table)

  /** Levels 0 to 9 are compacted; level 10 only receives. */
  const MAX_LEVEL: nat := 10

  function TablesOf(files: seq<File>): (ts: seq<Table>)
    ensures |ts| == |files| && forall i :: 0 <= i < |ts| ==> ts[i] == files[i].table
  {
    if files == [] then [] else [files[0].table] + TablesOf(files[1..])
  }

  /** Newest-wins point lookup: the last file in `metas` order that holds `k` decides. */
  function Answer(files: seq<File>, k: Bytes): Option<Value> {
    Newest(TablesOf(files), k)
  }

  function OfLevel(files: seq<File>, level: nat): (r: seq<File>) {
    if files == [] then []
    else
      var init, f := files[..|files| - 1], files[|files| - 1];
      OfLevel(init, level) + if f.level == level then [f] else []
  }

  function NotOfLevel(files: seq<File>, level: nat): (r: seq<File>) {
    if files == [] then []
    else
      var init, f := files[..|files| - 1], files[|files| - 1];
      NotOfLevel(init, level) + if f.level != level then [f] else []
  }

  function UpsertAll(base: Table, newer: Table): Table {
    if newer == [] then base
    else Upsert(UpsertAll(base, newer[..|newer| - 1]), newer[|newer| - 1].key, newer[|newer| - 1].value)
  }

  /** The merge of tables ordered oldest first: map union in which later tables win. */
  function MergedTable(ts: seq<Table>): Table {
    if ts == [] then [] else UpsertAll(MergedTable(ts[..|ts| - 1]), ts[|ts| - 1])
  }

  /** One turn of the compaction loop. A level below the threshold is left alone. */
  function CompactLevel(files: seq<File>, threshold: nat, level: nat, stamp: nat): seq<File> {
    var sources := OfLevel(files, level);
    if |sources| < threshold then files
    else NotOfLevel(files, level) + [File(level + 1, stamp, MergedTable(TablesOf(sources)))]
  }

  /** `CompactSSTable` from `level` upwards; `stamps[l]` is the time a merge of level `l` would take. */
  function CompactFrom(files: seq<File>, threshold: nat, level: nat, stamps: seq<nat>): seq<File>
    requires level <= MAX_LEVEL == |stamps|
    decreases MAX_LEVEL - level
  {
    if level == MAX_LEVEL then files
    else CompactFrom(CompactLevel(files, threshold, level, stamps[level]), threshold, level + 1, stamps)
  }

  ghost predicate Sound(files: seq<File>) {
    forall i :: 0 <= i < |files| ==>
      Ascending(files[i].table) && files[i].table != [] && files[i].level <= MAX_LEVEL
  }

  /** `metas` order is creation order. */
  ghost predicate Stamped(files: seq<File>) {
    forall i, j :: 0 <= i < j < |files| ==> files[i].created < files[j].created
  }

  /** Deeper levels come first in `metas` order. */
  ghost predicate DeepFirst(files: seq<File>) {
    forall i, j :: 0 <= i < j < |files| ==> files[i].level >= files[j].level
  }

  /** Between calls of `CompactSSTable` no level from 1 to 9 has reached the threshold. */
  ghost predicate Settled(files: seq<File>, threshold: nat) {
    forall l :: 1 <= l < MAX_LEVEL ==> |OfLevel(files, l)| < threshold
  }

  /** What holds of the files at every moment, inside a compaction too. */
  ghost predicate Ordered(files: seq<File>) {
    Sound(files) && Stamped(files) && DeepFirst(files)
  }

  /** What holds of the files between operations. */
  ghost predicate Inv(files: seq<File>, threshold: nat) {
    Ordered(files) && Settled(files, threshold)
  }

  ghost predicate OlderThan(files: seq<File>, stamp: nat) {
    forall i :: 0 <= i < |files| ==> files[i].created < stamp
  }

  ghost predicate AllAtLeast(files: seq<File>, level: nat) {
    forall i :: 0 <= i < |files| ==> files[i].level >= level
  }

  /** The times of one `CompactSSTable` call: one per level, from a clock that moves forward. */
  ghost predicate ClockRun(stamps: seq<nat>) {
    |stamps| == MAX_LEVEL && forall i, j :: 0 <= i < j < |stamps| ==> stamps[i] < stamps[j]
  }

  /** A bound on the creation times of the files the loop has seen when it reaches `level`. */
  function Horizon(stamps: seq<nat>, level: nat): nat
    requires level <= MAX_LEVEL == |stamps|
  {
    if level < MAX_LEVEL then stamps[level] else stamps[MAX_LEVEL - 1] + 1
  }

  // ---- merging ----

  lemma {:induction false} UpsertAllAnswers(base: Table, newer: Table)
    requires Ascending(base) && Ascending(newer)
    ensures Ascending(UpsertAll(base, newer))
    ensures forall k :: Lookup(UpsertAll(base, newer), k) ==
                        if Lookup(newer, k).Some? then Lookup(newer, k) else Lookup(base, k)
  {
    if newer != [] {
      var init, e := newer[..|newer| - 1], newer[|newer| - 1];
      assert newer == init + [e];
      UpsertAllAnswers(base, init);
      UpsertIsMapUpdate(UpsertAll(base, init), e.key, e.value);
      forall k ensures Lookup(UpsertAll(base, newer), k) ==
                       if Lookup(newer, k).Some? then Lookup(newer, k) else Lookup(base, k)
      {
        LookupConcat(init, [e], k);
        if k == e.key { LookupAt(newer, |newer| - 1); }
      }
    }
  }

  /** The merged table answers every key as the newest source that holds it. */
  lemma {:induction false} MergedTableAnswers(ts: seq<Table>)
    requires forall i :: 0 <= i < |ts| ==> Ascending(ts[i])
    ensures Ascending(MergedTable(ts))
    ensures forall k :: Lookup(MergedTable(ts), k) == Newest(ts, k)
  {
    if ts != [] {
      MergedTableAnswers(ts[..|ts| - 1]);
      UpsertAllAnswers(MergedTable(ts[..|ts| - 1]), ts[|ts| - 1]);
    }
  }

  lemma {:induction false} MergedTableNonempty(ts: seq<Table>)
    requires forall i :: 0 <= i < |ts| ==> Ascending(ts[i])
    requires ts != [] && ts[|ts| - 1] != []
    ensures MergedTable(ts) != []
  {
    MergedTableAnswers(ts);
    var k := ts[|ts| - 1][0].key;
    assert Newest(ts, k).Some?;
    assert Lookup(MergedTable(ts), k).Some?;
  }

  lemma {:induction false} TablesOfConcat(a: seq<File>, b: seq<File>)
    ensures TablesOf(a + b) == TablesOf(a) + TablesOf(b)
  {
    assert forall i :: 0 <= i < |a + b| ==> TablesOf(a + b)[i] == (TablesOf(a) + TablesOf(b))[i];
  }

  lemma {:induction false} AnswerConcat(a: seq<File>, b: seq<File>, k: Bytes)
    ensures Answer(a + b, k) == if Answer(b, k).Some? then Answer(b, k) else Answer(a, k)
  {
    TablesOfConcat(a, b);
    NewestConcat(TablesOf(a), TablesOf(b), k);
  }

  lemma {:induction false} AnswerSingle(f: File, k: Bytes)
    ensures Answer([f], k) == Lookup(f.table, k)
  {
    assert TablesOf([f]) == [f.table];
    NewestOfOne([f.table], k);
  }

  // ---- levels ----

  lemma {:induction false} LevelSplit(files: seq<File>, level: nat)
    ensures |OfLevel(files, level)| + |NotOfLevel(files, level)| == |files|
    ensures forall f :: f in OfLevel(files, level) <==> f in files && f.level == level
    ensures forall f :: f in NotOfLevel(files, level) <==> f in files && f.level != level
  {
    if files != [] {
      LevelSplit(files[..|files| - 1], level);
      assert files == files[..|files| - 1] + [files[|files| - 1]];
    }
  }

  lemma {:induction false} LevelConcat(a: seq<File>, b: seq<File>, level: nat)
    ensures OfLevel(a + b, level) == OfLevel(a, level) + OfLevel(b, level)
    ensures NotOfLevel(a + b, level) == NotOfLevel(a, level) + NotOfLevel(b, level)
  {
    if b == [] {
      assert a + b == a;
    } else {
      assert (a + b)[..|a + b| - 1] == a + b[..|b| - 1];
      LevelConcat(a, b[..|b| - 1], level);
    }
  }

  lemma {:induction false} OnlyThisLevel(files: seq<File>, level: nat)
    requires forall i :: 0 <= i < |files| ==> files[i].level == level
    ensures OfLevel(files, level) == files && NotOfLevel(files, level) == []
  {
    if files != [] {
      var init, f := files[..|files| - 1], files[|files| - 1];
      OnlyThisLevel(init, level);
      assert f.level == level && files == init + [f];
    }
  }

  lemma {:induction false} NoneOfThisLevel(files: seq<File>, level: nat)
    requires forall i :: 0 <= i < |files| ==> files[i].level != level
    ensures OfLevel(files, level) == [] && NotOfLevel(files, level) == files
  {
    if files != [] {
      var init, f := files[..|files| - 1], files[|files| - 1];
      NoneOfThisLevel(init, level);
      assert f.level != level && files == init + [f];
    }
  }

  lemma {:induction false} LevelStep(init: seq<File>, f: File)
    ensures OfLevel(init + [f], f.level) == OfLevel(init, f.level) + [f]
    ensures NotOfLevel(init + [f], f.level) == NotOfLevel(init, f.level)
  {
    assert (init + [f])[..|init + [f]| - 1] == init;
  }

  /** With deeper files first and nothing shallower than `level`, the files of `level` are a suffix. */
  lemma {:induction false} LevelIsSuffix(files: seq<File>, level: nat) returns (deep: seq<File>, here: seq<File>)
    requires DeepFirst(files) && AllAtLeast(files, level)
    ensures files == deep + here
    ensures here == OfLevel(files, level) && deep == NotOfLevel(files, level)
    ensures AllAtLeast(deep, level + 1)
    ensures forall i :: 0 <= i < |here| ==> here[i].level == level
  {
    hide OfLevel, NotOfLevel;
    if files == [] || files[|files| - 1].level > level {
      deep, here := files, [];
      NoneOfThisLevel(files, level);
    } else {
      var init, f := files[..|files| - 1], files[|files| - 1];
      assert files == init + [f];
      deep, here := LevelIsSuffix(init, level);
      here := here + [f];
      LevelStep(init, f);
    }
  }

  // ---- one level ----

  /** What the compaction loop knows on reaching `level`: the cascade is still alive (everything
      shallower has just been emptied) or nothing from here on has reached the threshold. */
  ghost predicate Cascade(files: seq<File>, threshold: nat, level: nat) {
    && (forall l :: 1 <= l < MAX_LEVEL && l != level ==> |OfLevel(files, l)| < threshold)
    && (level < MAX_LEVEL ==> |OfLevel(files, level)| < threshold || AllAtLeast(files, level))
  }

  lemma {:induction false} PrefixIsOrdered(a: seq<File>, b: seq<File>)
    requires Ordered(a + b)
    ensures Ordered(a)
  {
    assert forall i :: 0 <= i < |a| ==> (a + b)[i] == a[i];
  }

  lemma {:induction false} SuffixIsSound(a: seq<File>, b: seq<File>)
    requires Sound(a + b)
    ensures Sound(b)
  {
    assert forall i :: 0 <= i < |b| ==> (a + b)[|a| + i] == b[i];
  }

  lemma {:induction false} AppendIsOrdered(files: seq<File>, f: File)
    requires Ordered(files)
    requires Ascending(f.table) && f.table != [] && f.level <= MAX_LEVEL
    requires AllAtLeast(files, f.level) && OlderThan(files, f.created)
    ensures Ordered(files + [f]) && AllAtLeast(files + [f], f.level)
  {
    var next := files + [f];
    assert forall i :: 0 <= i < |files| ==> next[i] == files[i];
    assert next[|files|] == f;
  }

  lemma {:induction false} MergedFileIsSound(sources: seq<File>)
    requires Sound(sources) && sources != []
    ensures Ascending(MergedTable(TablesOf(sources))) && MergedTable(TablesOf(sources)) != []
  {
    MergedTableAnswers(TablesOf(sources));
    MergedTableNonempty(TablesOf(sources));
  }

  lemma {:induction false} MergeKeepsAnswers(deep: seq<File>, sources: seq<File>, merged: File)
    requires Sound(sources)
    requires merged.table == MergedTable(TablesOf(sources))
    ensures forall k :: Answer(deep + [merged], k) == Answer(deep + sources, k)
  {
    MergedTableAnswers(TablesOf(sources));
    forall k ensures Answer(deep + [merged], k) == Answer(deep + sources, k) {
      AnswerConcat(deep, [merged], k);
      AnswerSingle(merged, k);
      AnswerConcat(deep, sources, k);
    }
  }

  lemma {:induction false} MergeKeepsOtherLevels(deep: seq<File>, sources: seq<File>, merged: File, level: nat)
    requires AllAtLeast(deep, level + 1)
    requires forall i :: 0 <= i < |sources| ==> sources[i].level == level
    requires merged.level == level + 1
    ensures forall l :: l != level + 1 ==>
      OfLevel(deep + [merged], l) == if l == level then [] else OfLevel(deep + sources, l)
  {
    forall l | l != level + 1
      ensures OfLevel(deep + [merged], l) == if l == level then [] else OfLevel(deep + sources, l)
    {
      LevelConcat(deep, [merged], l);
      LevelConcat(deep, sources, l);
      NoneOfThisLevel([merged], l);
      if l == level { NoneOfThisLevel(deep, l); } else { NoneOfThisLevel(sources, l); }
    }
  }

  lemma {:induction false} MergeKeepsOrder(deep: seq<File>, sources: seq<File>, merged: File, level: nat)
    requires Ordered(deep + sources) && AllAtLeast(deep, level + 1) && sources != []
    requires level < MAX_LEVEL && merged.level == level + 1
    requires merged.table == MergedTable(TablesOf(sources))
    requires OlderThan(deep + sources, merged.created)
    ensures Ordered(deep + [merged]) && AllAtLeast(deep + [merged], level + 1)
    ensures OlderThan(deep + [merged], merged.created + 1)
  {
    PrefixIsOrdered(deep, sources);
    SuffixIsSound(deep, sources);
    MergedFileIsSound(sources);
    assert forall i :: 0 <= i < |deep| ==> deep[i] == (deep + sources)[i];
    AppendIsOrdered(deep, merged);
  }

  /** A merge of `level` over empty shallower levels keeps the file order and every answer, and
      empties the level for the next turn. */
  lemma {:induction false} MergeLevelKeeps(files: seq<File>, threshold: nat, level: nat, stamp: nat)
    requires 1 <= threshold <= |OfLevel(files, level)| && level < MAX_LEVEL
    requires Ordered(files) && AllAtLeast(files, level) && OlderThan(files, stamp)
    ensures var next := CompactLevel(files, threshold, level, stamp);
            && Ordered(next) && AllAtLeast(next, level + 1) && OlderThan(next, stamp + 1)
            && (forall k :: Answer(next, k) == Answer(files, k))
            && (forall l :: l != level + 1 ==> |OfLevel(next, l)| <= |OfLevel(files, l)|)
            && |OfLevel(next, level)| == 0
  {
    var deep, sources := LevelIsSuffix(files, level);
    var merged := File(level + 1, stamp, MergedTable(TablesOf(sources)));
    assert CompactLevel(files, threshold, level, stamp) == deep + [merged];
    MergeKeepsOrder(deep, sources, merged, level);
    SuffixIsSound(deep, sources);
    MergeKeepsAnswers(deep, sources, merged);
    MergeKeepsOtherLevels(deep, sources, merged, level);
  }

  lemma {:induction false} CompactLevelKeeps(files: seq<File>, threshold: nat, level: nat, stamps: seq<nat>)
    requires 1 <= threshold && level < MAX_LEVEL && ClockRun(stamps)
    requires Ordered(files) && Cascade(files, threshold, level) && OlderThan(files, Horizon(stamps, level))
    ensures var next := CompactLevel(files, threshold, level, stamps[level]);
            && Ordered(next) && Cascade(next, threshold, level + 1)
            && OlderThan(next, Horizon(stamps, level + 1))
            && (forall k :: Answer(next, k) == Answer(files, k))
  {
    if |OfLevel(files, level)| >= threshold {
      MergeLevelKeeps(files, threshold, level, stamps[level]);
    }
  }

  /** Every merge the call performs finds all shallower levels empty. */
  ghost predicate MergesFindShallowEmpty(files: seq<File>, threshold: nat, level: nat, stamps: seq<nat>)
    requires level <= MAX_LEVEL == |stamps|
    decreases MAX_LEVEL - level
  {
    level == MAX_LEVEL ||
    (&& (|OfLevel(files, level)| >= threshold ==> AllAtLeast(files, level))
     && MergesFindShallowEmpty(CompactLevel(files, threshold, level, stamps[level]), threshold, level + 1, stamps))
  }

  lemma {:induction false} CompactFromKeeps(files: seq<File>, threshold: nat, level: nat, stamps: seq<nat>)
    requires 1 <= threshold && level <= MAX_LEVEL && ClockRun(stamps)
    requires Ordered(files) && Cascade(files, threshold, level)
    requires OlderThan(files, Horizon(stamps, level))
    ensures OlderThan(CompactFrom(files, threshold, level, stamps), Horizon(stamps, MAX_LEVEL))
    ensures Inv(CompactFrom(files, threshold, level, stamps), threshold)
    ensures MergesFindShallowEmpty(files, threshold, level, stamps)
    ensures forall k :: Answer(CompactFrom(files, threshold, level, stamps), k) == Answer(files, k)
    decreases MAX_LEVEL - level
  {
    if level < MAX_LEVEL {
      var next := CompactLevel(files, threshold, level, stamps[level]);
      CompactLevelKeeps(files, threshold, level, stamps);
      CompactFromKeeps(next, threshold, level + 1, stamps);
      forall k ensures Answer(CompactFrom(files, threshold, level, stamps), k) == Answer(files, k) {
        assert Answer(CompactFrom(next, threshold, level + 1, stamps), k) == Answer(next, k);
      }
    }
  }

  /** A whole `CompactSSTable(0)` call is invisible to readers, leaves levels 1 to 9 below the
      threshold and merges a level only when everything shallower is empty. */
  lemma {:induction false} CompactKeeps(files: seq<File>, threshold: nat, stamps: seq<nat>)
    requires 1 <= threshold && Inv(files, threshold)
    requires ClockRun(stamps) && OlderThan(files, stamps[0])
    ensures Inv(CompactFrom(files, threshold, 0, stamps), threshold)
    ensures OlderThan(CompactFrom(files, threshold, 0, stamps), Horizon(stamps, MAX_LEVEL))
    ensures MergesFindShallowEmpty(files, threshold, 0, stamps)
    ensures forall k :: Answer(CompactFrom(files, threshold, 0, stamps), k) == Answer(files, k)
  {
    assert AllAtLeast(files, 0);
    CompactFromKeeps(files, threshold, 0, stamps);
  }

  /** `CompactSSTable` when only the merges marked in `ok` succeed; the loop goes on after one that fails. */
  function CompactTry(files: seq<File>, threshold: nat, level: nat, stamps: seq<nat>, ok: seq<bool>): seq<File>
    requires level <= MAX_LEVEL == |stamps| == |ok|
    decreases MAX_LEVEL - level
  {
    if level == MAX_LEVEL then files
    else
      var next := if ok[level] then CompactLevel(files, threshold, level, stamps[level]) else files;
      CompactTry(next, threshold, level + 1, stamps, ok)
  }

  /** A level above 0 has reached the threshold at its turn and its merge fails. */
  ghost predicate FailsAbove(files: seq<File>, threshold: nat, level: nat, stamps: seq<nat>, ok: seq<bool>)
    requires level <= MAX_LEVEL == |stamps| == |ok|
    decreases MAX_LEVEL - level
  {
    level < MAX_LEVEL &&
    var next := if ok[level] then CompactLevel(files, threshold, level, stamps[level]) else files;
    || (level >= 1 && !ok[level] && |OfLevel(files, level)| >= threshold)
    || FailsAbove(next, threshold, level + 1, stamps, ok)
  }

  lemma {:induction false} NothingFull(files: seq<File>, threshold: nat, level: nat, stamps: seq<nat>, ok: seq<bool>)
    requires level <= MAX_LEVEL == |stamps| == |ok|
    requires forall l :: level <= l < MAX_LEVEL ==> |OfLevel(files, l)| < threshold
    ensures CompactTry(files, threshold, level, stamps, ok) == files && !FailsAbove(files, threshold, level, stamps, ok)
    decreases MAX_LEVEL - level
  {
    if level < MAX_LEVEL { NothingFull(files, threshold, level + 1, stamps, ok); }
  }

  /** Whichever merges fail, a call keeps the file order and every answer; and it leaves levels 1 to 9 below
      the threshold, as the next call needs them, if and only if no merge above level 0 failed. */
  lemma {:induction false} CompactTryKeeps(files: seq<File>, threshold: nat, level: nat, stamps: seq<nat>,
                                           ok: seq<bool>)
    requires 1 <= threshold && level <= MAX_LEVEL == |ok| && ClockRun(stamps)
    requires Ordered(files) && Cascade(files, threshold, level) && OlderThan(files, Horizon(stamps, level))
    ensures Ordered(CompactTry(files, threshold, level, stamps, ok))
    ensures Settled(CompactTry(files, threshold, level, stamps, ok), threshold) <==>
            !FailsAbove(files, threshold, level, stamps, ok)
    ensures forall k :: Answer(CompactTry(files, threshold, level, stamps, ok), k) == Answer(files, k)
    decreases MAX_LEVEL - level
  {
    hide Answer, Ordered;
    if level < MAX_LEVEL {
      if !ok[level] && |OfLevel(files, level)| >= threshold {
        NothingFull(files, threshold, level + 1, stamps, ok);
      } else {
        CompactLevelKeeps(files, threshold, level, stamps);
        CompactTryKeeps(CompactLevel(files, threshold, level, stamps[level]), threshold, level + 1, stamps, ok);
      }
    }
  }

  /** A flush appends a level-0 file; its entries are now the newest. */
  lemma {:induction false} FlushKeeps(files: seq<File>, threshold: nat, table: Table, stamp: nat)
    requires Inv(files, threshold) && OlderThan(files, stamp)
    requires Ascending(table) && table != []
    ensures Inv(files + [File(0, stamp, table)], threshold)
    ensures forall k :: Answer(files + [File(0, stamp, table)], k) ==
                        if Lookup(table, k).Some? then Lookup(table, k) else Answer(files, k)
  {
    var f := File(0, stamp, table);
    AppendIsOrdered(files, f);
    forall l | 1 <= l < MAX_LEVEL ensures |OfLevel(files + [f], l)| < threshold {
      LevelConcat(files, [f], l);
      NoneOfThisLevel([f], l);
    }
    forall k ensures Answer(files + [f], k) ==
                     if Lookup(table, k).Some? then Lookup(table, k) else Answer(files, k)
    {
      AnswerConcat(files, [f], k);
      AnswerSingle(f, k);
    }
  }
}
