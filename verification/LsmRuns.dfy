/** Whole runs of the SSTable set: flushes, compaction calls, restarts and retention. */
module LsmRuns {
  import opened Bytes
  import opened Tables
  import opened Lsm
  import opened FileNames

  // ---- retention ----

  function MaxKey(f: File): Bytes {
    if f.table == [] then [] else f.table[|f.table| - 1].key
  }

  /** `ReclaimUpTo`: drop every file that ends strictly below `bound`; an empty bound drops nothing. */
  function Reclaimed(files: seq<File>, bound: Bytes): seq<File> {
    if bound == [] || files == [] then files
    else
      var f := files[|files| - 1];
      Reclaimed(files[..|files| - 1], bound) + if Lt(MaxKey(f), bound) then [] else [f]
  }

  lemma {:induction false} NothingFromBoundOn(f: File, bound: Bytes, k: Bytes)
    requires Ascending(f.table) && f.table != []
    requires Lt(MaxKey(f), bound) && Le(bound, k)
    ensures Lookup(f.table, k).None?
  {
    forall e | e in f.table ensures Lt(e.key, k) {
      var i :| 0 <= i < |f.table| && f.table[i] == e;
      assert Le(e.key, MaxKey(f));
      LeLtTransitive(e.key, MaxKey(f), bound);
      LeLtTransitive(e.key, bound, k);
    }
    LookupAbsentAbove(f.table, k);
  }

  /** Retention leaves every key from the bound upwards untouched. */
  lemma {:induction false} ReclaimKeepsAnswers(files: seq<File>, bound: Bytes, k: Bytes)
    requires Sound(files) && Le(bound, k)
    ensures Answer(Reclaimed(files, bound), k) == Answer(files, k)
  {
    if bound != [] && files != [] {
      var init, f := files[..|files| - 1], files[|files| - 1];
      assert files == init + [f];
      ReclaimKeepsAnswers(init, bound, k);
      AnswerConcat(init, [f], k);
      AnswerSingle(f, k);
      if Lt(MaxKey(f), bound) {
        NothingFromBoundOn(f, bound, k);
        assert Reclaimed(files, bound) == Reclaimed(init, bound);
      } else {
        AnswerConcat(Reclaimed(init, bound), [f], k);
      }
    }
  }

  lemma {:induction false} ReclaimKeepsOrder(files: seq<File>, bound: Bytes, stamp: nat, level: nat)
    requires Ordered(files) && OlderThan(files, stamp) && AllAtLeast(files, level)
    ensures Ordered(Reclaimed(files, bound)) && OlderThan(Reclaimed(files, bound), stamp)
    ensures AllAtLeast(Reclaimed(files, bound), level)
    ensures forall l :: |OfLevel(Reclaimed(files, bound), l)| <= |OfLevel(files, l)|
  {
    if bound != [] && files != [] {
      var init, f := files[..|files| - 1], files[|files| - 1];
      assert files == init + [f];
      PrefixIsOrdered(init, [f]);
      LastFile(files, stamp, level);
      ReclaimKeepsOrder(init, bound, f.created, f.level);
      if Lt(MaxKey(f), bound) {
        assert Reclaimed(files, bound) == Reclaimed(init, bound);
      } else {
        AppendIsOrdered(Reclaimed(init, bound), f);
      }
      forall l ensures |OfLevel(Reclaimed(files, bound), l)| <= |OfLevel(files, l)| {
        LevelConcat(init, [f], l);
        LevelConcat(Reclaimed(init, bound), [f], l);
      }
    }
  }

  lemma {:induction false} LastFile(files: seq<File>, stamp: nat, level: nat)
    requires Ordered(files) && files != [] && OlderThan(files, stamp) && AllAtLeast(files, level)
    ensures var init, f := files[..|files| - 1], files[|files| - 1];
            && OlderThan(init, f.created) && AllAtLeast(init, f.level)
            && f.created < stamp && level <= f.level
  {
  }

  // ---- runs ----

  /** The files, every table ever flushed (oldest first) and the highest retention bound so far. */
  datatype Disk = Disk(files: seq<File>, flushed: seq<Table>, floor: Bytes)

  datatype Step =
    | Flush(table: Table, stamp: nat)
    | Compact(stamps: seq<nat>)
    | Restart(listing: seq<DirEntry>, reloaded: seq<File>)
    | Reclaim(bound: Bytes)

  ghost predicate Next(s: Disk, step: Step, t: Disk, threshold: nat) {
    match step
    case Flush(table, stamp) =>
      && Ascending(table) && table != [] && OlderThan(s.files, stamp) && stamp <= MAX_INT64
      && t == s.(files := s.files + [File(0, stamp, table)], flushed := s.flushed + [table])
    case Compact(stamps) =>
      && ClockRun(stamps) && OlderThan(s.files, stamps[0]) && stamps[MAX_LEVEL - 1] <= MAX_INT64
      && t == s.(files := CompactFrom(s.files, threshold, 0, stamps))
    case Restart(listing, reloaded) =>
      && multiset(listing) == multiset(Map(OnDisk, s.files))
      && multiset(reloaded) == multiset(Map(Parsed, listing)) && CreationOrder(reloaded)
      && t == s.(files := reloaded)
    case Reclaim(bound) =>
      t == s.(files := Reclaimed(s.files, bound), floor := if Lt(s.floor, bound) then bound else s.floor)
  }

  ghost predicate DiskInv(s: Disk, threshold: nat) {
    && Inv(s.files, threshold)
    && OlderThan(s.files, MAX_INT64 + 1)
    && forall k :: Le(s.floor, k) ==> Answer(s.files, k) == Newest(s.flushed, k)
  }

  lemma {:induction false} StepKeepsDiskInv(s: Disk, step: Step, t: Disk, threshold: nat)
    requires 1 <= threshold && DiskInv(s, threshold) && Next(s, step, t, threshold)
    ensures DiskInv(t, threshold)
  {
    match step
    case Flush(table, stamp) =>
      FlushKeeps(s.files, threshold, table, stamp);
      forall k | Le(t.floor, k) ensures Answer(t.files, k) == Newest(t.flushed, k) {
        NewestConcat(s.flushed, [table], k);
        NewestOfOne([table], k);
      }
    case Compact(stamps) =>
      CompactKeeps(s.files, threshold, stamps);
    case Restart(listing, reloaded) =>
      forall i | 0 <= i < |s.files|
        ensures s.files[i].level <= MAX_INT64 && s.files[i].created <= MAX_INT64
      {
        assert s.files[i].level <= MAX_LEVEL;
      }
      ReloadRestoresFiles(s.files, listing, reloaded);
    case Reclaim(bound) =>
      assert AllAtLeast(s.files, 0);
      ReclaimKeepsOrder(s.files, bound, MAX_INT64 + 1, 0);
      forall k | Le(t.floor, k) ensures Answer(t.files, k) == Newest(t.flushed, k) {
        LtTrichotomy(s.floor, bound);
        if s.floor != k && t.floor != k { LtTotal(s.floor, k); }
        AtOrAbove(s.floor, t.floor, k);
        AtOrAbove(bound, t.floor, k);
        ReclaimKeepsAnswers(s.files, bound, k);
      }
  }

  lemma {:induction false} AtOrAbove(a: Bytes, b: Bytes, k: Bytes)
    requires Le(a, b) && Le(b, k)
    ensures Le(a, k)
  {
    if a != b && b != k { LtTransitive(a, b, k); }
  }

  ghost predicate IsRun(states: seq<Disk>, steps: seq<Step>, threshold: nat) {
    && |states| == |steps| + 1
    && states[0] == Disk([], [], [])
    && forall i :: 0 <= i < |steps| ==> Next(states[i], steps[i], states[i + 1], threshold)
  }

  /** In every run of flushes, compaction calls, restarts and retention: levels 1 to 9 stay below the
      threshold, deeper files come first, and the last file holding a key (at or above every
      retention bound used) answers exactly what the newest flush of that key wrote. */
  lemma {:induction false} NewestWinsInEveryRun(states: seq<Disk>, steps: seq<Step>, threshold: nat, n: nat)
    requires 1 <= threshold && IsRun(states, steps, threshold) && n < |states|
    ensures Inv(states[n].files, threshold)
    ensures forall k :: Le(states[n].floor, k) ==> Answer(states[n].files, k) == Newest(states[n].flushed, k)
  {
    RunKeepsDiskInv(states, steps, threshold, n);
  }

  lemma {:induction false} RunKeepsDiskInv(states: seq<Disk>, steps: seq<Step>, threshold: nat, n: nat)
    requires 1 <= threshold && IsRun(states, steps, threshold) && n < |states|
    ensures DiskInv(states[n], threshold)
  {
    if n == 0 {
      assert states[0] == Disk([], [], []);
    } else {
      RunKeepsDiskInv(states, steps, threshold, n - 1);
      assert Next(states[n - 1], steps[n - 1], states[n - 1 + 1], threshold);
      StepKeepsDiskInv(states[n - 1], steps[n - 1], states[n], threshold);
    }
  }

  // ---- where newest-wins ends ----

  lemma {:induction false} AnswerWithoutLevel(files: seq<File>, level: nat, k: Bytes)
    requires Answer(OfLevel(files, level), k).None?
    ensures Answer(NotOfLevel(files, level), k) == Answer(files, k)
  {
    if files != [] {
      var init, f := files[..|files| - 1], files[|files| - 1];
      assert files == init + [f];
      AnswerConcat(init, [f], k);
      if f.level == level {
        AnswerConcat(OfLevel(init, level), [f], k);
        assert NotOfLevel(files, level) == NotOfLevel(init, level);
      } else {
        AnswerConcat(NotOfLevel(init, level), [f], k);
        assert OfLevel(files, level) == OfLevel(init, level);
      }
      AnswerWithoutLevel(init, level, k);
    }
  }

  /** In any file order, merging a full level keeps every answer if and only if no key of that level
      is shadowed by a different version in a later file. */
  lemma {:induction false} MergeIsInvisibleIff(files: seq<File>, threshold: nat, level: nat, stamp: nat)
    requires Sound(files) && 1 <= threshold <= |OfLevel(files, level)|
    ensures (forall k :: Answer(CompactLevel(files, threshold, level, stamp), k) == Answer(files, k)) <==>
            (forall k :: Answer(OfLevel(files, level), k).Some? ==>
                         Answer(OfLevel(files, level), k) == Answer(files, k))
  {
    var sources := OfLevel(files, level);
    var merged := File(level + 1, stamp, MergedTable(TablesOf(sources)));
    var next := CompactLevel(files, threshold, level, stamp);
    LevelSplit(files, level);
    forall i | 0 <= i < |TablesOf(sources)| ensures Ascending(TablesOf(sources)[i]) {
      assert sources[i] in files;
    }
    MergedTableAnswers(TablesOf(sources));
    forall k ensures Answer(next, k) == if Answer(sources, k).Some? then Answer(sources, k) else Answer(files, k) {
      AnswerConcat(NotOfLevel(files, level), [merged], k);
      AnswerSingle(merged, k);
      if Answer(sources, k).None? { AnswerWithoutLevel(files, level, k); }
    }
  }

  lemma {:induction false} NoFullLevelNoChange(files: seq<File>, threshold: nat, level: nat, stamps: seq<nat>)
    requires level <= MAX_LEVEL == |stamps|
    requires forall l :: level <= l < MAX_LEVEL ==> |OfLevel(files, l)| < threshold
    ensures CompactFrom(files, threshold, level, stamps) == files
    decreases MAX_LEVEL - level
  {
    if level < MAX_LEVEL { NoFullLevelNoChange(files, threshold, level + 1, stamps); }
  }

  /** One entry holding the one-byte key `k` and the one-byte value `v`. */
  function One(k: Byte, v: Byte): Table { [Entry([k], Some([v]))] }

  /** With a threshold of 2: one level-1 file, then two flushes. */
  function BeforeCrash(): seq<File> { [File(1, 1, One(7, 1)), File(0, 2, One(8, 1)), File(0, 3, One(7, 2))] }

  /** The process stops after the turn of level 0, restarts and flushes a newer version of key 7. */
  function AfterCrash(): seq<File> { CompactLevel(BeforeCrash(), 2, 0, 4) + [File(0, 5, One(7, 3))] }

  lemma {:induction false} OneAnswers(k: Byte, v: Byte)
    ensures Ascending(One(k, v)) && One(k, v) != []
    ensures Lookup(One(k, v), [k]) == Some(Some([v]))
    ensures forall q :: q != [k] ==> Lookup(One(k, v), q).None?
  {
    forall q | q != [k] ensures Lookup(One(k, v), q).None? { LookupAbsent(One(k, v), q); }
  }

  lemma {:induction false} ExampleShape()
    ensures Inv(BeforeCrash(), 2)
    ensures OfLevel(BeforeCrash(), 0) == BeforeCrash()[1..] && NotOfLevel(BeforeCrash(), 0) == BeforeCrash()[..1]
  {
    var a, b, c := File(1, 1, One(7, 1)), File(0, 2, One(8, 1)), File(0, 3, One(7, 2));
    assert BeforeCrash() == [a] + [b, c];
    forall l ensures l >= 1 ==> |OfLevel([a] + [b, c], l)| <= 1
             ensures l == 0 ==> OfLevel([a] + [b, c], l) == [b, c] && NotOfLevel([a] + [b, c], l) == [a]
    {
      LevelConcat([a], [b, c], l);
      LevelSplit([a], l);
      if l >= 1 { NoneOfThisLevel([b, c], l); } else { NoneOfThisLevel([a], l); OnlyThisLevel([b, c], l); }
    }
    OneAnswers(7, 1);
    OneAnswers(8, 1);
    OneAnswers(7, 2);
    assert (BeforeCrash())[1..] == [b, c] && BeforeCrash()[..1] == [a];
  }

  lemma {:induction false} CompactFromStep(files: seq<File>, threshold: nat, level: nat, stamps: seq<nat>)
    requires level < MAX_LEVEL == |stamps|
    ensures CompactFrom(files, threshold, level, stamps) ==
            CompactFrom(CompactLevel(files, threshold, level, stamps[level]), threshold, level + 1, stamps)
  {
    hide CompactLevel;
  }

  /** Two level-1 files under one level-0 file: the next call with threshold 2 merges level 1 only. */
  lemma {:induction false} NextCallMergesLevelOne(a: File, m: File, late: File, stamps: seq<nat>)
    requires a.level == m.level == 1 && late.level == 0 && |stamps| == MAX_LEVEL
    ensures CompactFrom([a, m] + [late], 2, 0, stamps) ==
            [late] + [File(2, stamps[1], MergedTable(TablesOf([a, m])))]
  {
    var files := [a, m] + [late];
    hide OfLevel, NotOfLevel, MergedTable, TablesOf, CompactFrom;
    LevelConcat([a, m], [late], 0);
    LevelConcat([a, m], [late], 1);
    NoneOfThisLevel([a, m], 0);
    OnlyThisLevel([a, m], 1);
    OnlyThisLevel([late], 0);
    NoneOfThisLevel([late], 1);
    assert CompactLevel(files, 2, 0, stamps[0]) == files;
    CompactFromStep(files, 2, 0, stamps);
    CompactFromStep(files, 2, 1, stamps);
    var merged := File(2, stamps[1], MergedTable(TablesOf([a, m])));
    assert OfLevel(files, 1) == [a, m] + [] == [a, m] && NotOfLevel(files, 1) == [] + [late] == [late];
    assert CompactLevel(files, 2, 1, stamps[1]) == [late] + [merged];
    forall l | 2 <= l < MAX_LEVEL ensures |OfLevel([late] + [merged], l)| < 2 {
      LevelConcat([late], [merged], l);
      NoneOfThisLevel([late], l);
      LevelSplit([merged], l);
    }
    NoFullLevelNoChange([late] + [merged], 2, 2, stamps);
  }

  /** The same state is reached without a stop when the merge of level 1 fails. */
  lemma {:induction false} FailedMergeLeavesTheSame(stamps: seq<nat>, ok: seq<bool>)
    requires |stamps| == |ok| == MAX_LEVEL && stamps[0] == 4 && ok[0] && !ok[1]
    ensures CompactTry(BeforeCrash(), 2, 0, stamps, ok) == CompactLevel(BeforeCrash(), 2, 0, 4)
    ensures FailsAbove(BeforeCrash(), 2, 0, stamps, ok)
  {
    ExampleShape();
    var a, m := File(1, 1, One(7, 1)), File(1, 4, MergedTable(TablesOf(BeforeCrash()[1..])));
    hide MergedTable, TablesOf;
    var files := CompactLevel(BeforeCrash(), 2, 0, 4);
    assert files == [a, m];
    OnlyThisLevel([a, m], 1);
    forall l | 2 <= l < MAX_LEVEL ensures |OfLevel(files, l)| < 2 { NoneOfThisLevel([a, m], l); }
    NothingFull(files, 2, 2, stamps, ok);
    hide CompactLevel, BeforeCrash;
    assert CompactTry(files, 2, 1, stamps, ok) == CompactTry(files, 2, 2, stamps, ok);
    assert FailsAbove(files, 2, 1, stamps, ok);
  }

  /** A stop between two levels of one compaction call is enough to break newest-wins: the next whole
      call buries the newest version under an older merged one. */
  lemma {:induction false} StopBetweenLevelsLosesRecency(stamps: seq<nat>)
    requires |stamps| == MAX_LEVEL
    ensures Inv(BeforeCrash(), 2)
    ensures Answer(AfterCrash(), [7]) == Some(Some([3]))
    ensures Answer(CompactFrom(AfterCrash(), 2, 0, stamps), [7]) == Some(Some([2]))
  {
    ExampleShape();
    var a, merged0 := File(1, 1, One(7, 1)), File(1, 4, MergedTable(TablesOf(BeforeCrash()[1..])));
    var late := File(0, 5, One(7, 3));
    assert CompactLevel(BeforeCrash(), 2, 0, 4) == [a, merged0];
    AnswerConcat([a, merged0], [late], [7]);
    AnswerSingle(late, [7]);
    OneAnswers(7, 3);
    NextCallMergesLevelOne(a, merged0, late, stamps);
    var merged1 := File(2, stamps[1], MergedTable(TablesOf([a, merged0])));
    MergedAnswersSeven(merged0, merged1);
    AnswerConcat([late], [merged1], [7]);
    AnswerSingle(merged1, [7]);
  }

  lemma {:induction false} MergedAnswersSeven(merged0: File, merged1: File)
    requires merged0.table == MergedTable(TablesOf(BeforeCrash()[1..]))
    requires merged1.table == MergedTable(TablesOf([File(1, 1, One(7, 1)), merged0]))
    ensures Lookup(merged1.table, [7]) == Some(Some([2]))
  {
    var b, c := File(0, 2, One(8, 1)), File(0, 3, One(7, 2));
    OneAnswers(8, 1);
    OneAnswers(7, 2);
    OneAnswers(7, 1);
    assert BeforeCrash()[1..] == [b] + [c];
    MergedTableAnswers(TablesOf([b] + [c]));
    AnswerConcat([b], [c], [7]);
    AnswerSingle(c, [7]);
    var a := File(1, 1, One(7, 1));
    assert [a, merged0] == [a] + [merged0];
    MergedTableAnswers(TablesOf([a] + [merged0]));
    AnswerConcat([a], [merged0], [7]);
    AnswerSingle(merged0, [7]);
  }

  /** File `i` holds `v` for `k`, is not reclaimed, and every later file that holds `k` is. */
  ghost predicate Uncovered(files: seq<File>, bound: Bytes, k: Bytes, v: Value, i: nat)
    requires i < |files|
  {
    && Lookup(files[i].table, k) == Some(v) && !Lt(MaxKey(files[i]), bound)
    && forall j :: i < j < |files| && Lookup(files[j].table, k).Some? ==> Lt(MaxKey(files[j]), bound)
  }

  lemma {:induction false} UncoveredInPrefix(files: seq<File>, bound: Bytes, k: Bytes, v: Value, i: nat)
    requires i < |files| - 1
    ensures var f := files[|files| - 1];
            Uncovered(files, bound, k, v, i) <==>
            Uncovered(files[..|files| - 1], bound, k, v, i) && (Lookup(f.table, k).Some? ==> Lt(MaxKey(f), bound))
  {
    hide Lookup, Lt, MaxKey;
    var init := files[..|files| - 1];
    assert forall j :: 0 <= j < |init| ==> init[j] == files[j];
  }

  /** What retention leaves of a key, wherever it lies: the version of the last file that is kept. */
  lemma {:induction false} ReclaimAnswersIff(files: seq<File>, bound: Bytes, k: Bytes, v: Value)
    requires bound != []
    ensures Answer(Reclaimed(files, bound), k) == Some(v) <==>
            exists i :: 0 <= i < |files| && Uncovered(files, bound, k, v, i)
  {
    hide Lookup, Lt, MaxKey, Answer, Uncovered;
    if files == [] {
      NoFiles(k);
    } else {
      var n := |files| - 1;
      var init, f := files[..n], files[n];
      ReclaimAnswersIff(init, bound, k, v);
      AnswerConcat(Reclaimed(init, bound), [f], k);
      AnswerSingle(f, k);
      forall i | 0 <= i < n
        ensures Uncovered(files, bound, k, v, i) <==>
                Uncovered(init, bound, k, v, i) && (Lookup(f.table, k).Some? ==> Lt(MaxKey(f), bound))
      {
        UncoveredInPrefix(files, bound, k, v, i);
      }
      UncoveredLast(files, bound, k, v);
      assert Reclaimed(init, bound) + [] == Reclaimed(init, bound);
    }
  }

  lemma {:induction false} NoFiles(k: Bytes)
    ensures Answer([], k).None?
  {
  }

  lemma {:induction false} UncoveredLast(files: seq<File>, bound: Bytes, k: Bytes, v: Value)
    requires files != []
    ensures var f := files[|files| - 1];
            Uncovered(files, bound, k, v, |files| - 1) <==> Lookup(f.table, k) == Some(v) && !Lt(MaxKey(f), bound)
  {
  }

  /** A deleted key comes back if and only if some kept file holds a value for it and retention drops every
      later file that knows the key, the tombstone's among them. */
  lemma {:induction false} DeletedKeyComesBackIff(files: seq<File>, bound: Bytes, k: Bytes)
    requires bound != [] && Answer(files, k) == Some(None)
    ensures (exists v :: Answer(Reclaimed(files, bound), k) == Some(Some(v))) <==>
            exists i, v :: 0 <= i < |files| && Uncovered(files, bound, k, Some(v), i)
  {
    hide Uncovered, Answer, Reclaimed;
    forall v ensures Answer(Reclaimed(files, bound), k) == Some(Some(v)) <==>
                     exists i :: 0 <= i < |files| && Uncovered(files, bound, k, Some(v), i)
    {
      ReclaimAnswersIff(files, bound, k, Some(v));
    }
  }

  /** Such files come about: a tombstone alone in a file below the bound, over an older file that reaches
      past it. */
  lemma {:induction false} RetentionCanUncoverDeletedKeys(k: Bytes, m: Bytes, v: Bytes, w: Value, bound: Bytes)
    requires bound != [] && Lt(k, bound) && Le(bound, m)
    ensures var files := [File(0, 1, [Entry(k, Some(v)), Entry(m, w)]), File(0, 2, [Entry(k, None)])];
            && Inv(files, 4)
            && Answer(files, k) == Some(None)
            && Answer(Reclaimed(files, bound), k) == Some(Some(v))
  {
    var a, b := File(0, 1, [Entry(k, Some(v)), Entry(m, w)]), File(0, 2, [Entry(k, None)]);
    LeLtTransitive(k, bound, m);
    LtIrreflexive(k);
    forall l ensures 1 <= l ==> |OfLevel([a, b], l)| < 4 { LevelSplit([a, b], l); }
    assert [a, b] == [a] + [b];
    LookupAt(a.table, 0);
    LookupAt(b.table, 0);
    AnswerConcat([a], [b], k);
    AnswerSingle(b, k);
    LtTrichotomy(m, bound);
    hide Answer, Inv, Lookup, Lt;
    assert Uncovered([a, b], bound, k, Some(v), 0);
    ReclaimAnswersIff([a, b], bound, k, Some(v));
  }
}
