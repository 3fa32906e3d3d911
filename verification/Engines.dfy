/** The storage engine: two memtables, a list of files and a credit pool, changed in place. Every
    method is stated on `Store.State`, the value behind the fields. */
module Engines {
  import opened Bytes
  import opened Tables
  import opened SkipLists
  import opened SSTableFile
  import opened Merge
  import Credit
  import Lsm
  import Store

  // ---- parts of a scan ----

  lemma {:induction false} ClipAll(t: Table, start: Bytes, end: Bytes)
    requires forall i :: 0 <= i < |t| ==> InRange(t[i].key, start, end)
    ensures Clip(t, start, end) == t
  {
    if t != [] { ClipAll(t[1..], start, end); }
  }

  ghost predicate NotAbove(t: Table, f: nat, n: nat, end: Bytes)
    requires f <= n <= |t|
  {
    forall i :: f <= i < n ==> end == [] || !Lt(end, t[i].key)
  }

  lemma {:induction false} ClipBelow(t: Table, start: Bytes, end: Bytes)
    ensures Clip(t[..FirstGTE(t, start)], start, end) == []
  {
    ClipNothing(t[..FirstGTE(t, start)], start, end);
  }

  lemma {:induction false} ClipAbove(t: Table, start: Bytes, end: Bytes, n: nat)
    requires Ascending(t) && n <= |t| && (n < |t| ==> end != [] && Lt(end, t[n].key))
    ensures Clip(t[n..], start, end) == []
  {
    var hi := t[n..];
    forall i | 0 <= i < |hi| ensures !InRange(hi[i].key, start, end) {
      if i > 0 { LtTransitive(end, t[n].key, t[n + i].key); }
    }
    ClipNothing(hi, start, end);
  }

  lemma {:induction false} ClipWithin(t: Table, start: Bytes, end: Bytes, n: nat)
    requires Ascending(t) && FirstGTE(t, start) <= n <= |t|
    requires NotAbove(t, FirstGTE(t, start), n, end)
    ensures Clip(t[FirstGTE(t, start)..n], start, end) == t[FirstGTE(t, start)..n]
  {
    var f := FirstGTE(t, start);
    var mid := t[f..n];
    forall i | 0 <= i < |mid| ensures InRange(mid[i].key, start, end) { NotBelowLater(t, start, f + i); }
    ClipAll(mid, start, end);
  }

  /** In a sorted table the range is one slice. */
  lemma {:induction false} ClipIsSlice(t: Table, start: Bytes, end: Bytes, n: nat)
    requires Ascending(t) && FirstGTE(t, start) <= n <= |t|
    requires NotAbove(t, FirstGTE(t, start), n, end)
    requires n < |t| ==> end != [] && Lt(end, t[n].key)
    ensures Clip(t, start, end) == t[FirstGTE(t, start)..n]
  {
    hide Clip, FirstGTE, Ascending;
    var f := FirstGTE(t, start);
    assert t == t[..f] + t[f..n] + t[n..];
    ClipConcat(t[..f] + t[f..n], t[n..], start, end);
    ClipConcat(t[..f], t[f..n], start, end);
    ClipBelow(t, start, end);
    ClipWithin(t, start, end, n);
    ClipAbove(t, start, end, n);
  }

  lemma {:induction false} NotBelowLater(t: Table, start: Bytes, i: nat)
    requires Ascending(t) && FirstGTE(t, start) <= i < |t|
    ensures !Lt(t[i].key, start)
  {
    var f := FirstGTE(t, start);
    if f < i && Lt(t[i].key, start) { LtTransitive(t[f].key, t[i].key, start); }
  }

  lemma {:induction false} CopiedStep(t: Table, f: nat, n: nat)
    requires f <= n < |t|
    ensures Store.Copied(t[f..n + 1]) == Store.Copied(t[f..n]) + [Entry(t[n].key, Store.Shown(t[n].value))]
  {
    assert t[f..n + 1][..|t[f..n + 1]| - 1] == t[f..n];
  }

  // ---- leaving empty sources out of a merge ----

  lemma {:induction false} SkipEmpty(a: seq<Table>, b: seq<Table>, k: Bytes)
    ensures Newest(a + [[]] + b, k) == Newest(a + b, k)
  {
    NewestConcat(a + [[]], b, k);
    NewestConcat(a, [[]], k);
    NewestConcat(a, b, k);
    NewestOfOne([[]], k);
  }

  /** The same answers give the same merge. */
  lemma {:induction false} SameAnswersSameMerge(a: seq<Table>, b: seq<Table>)
    requires AllAscending(a) && AllAscending(b) && forall k :: Newest(a, k) == Newest(b, k)
    ensures Lsm.MergedTable(a) == Lsm.MergedTable(b)
  {
    Lsm.MergedTableAnswers(a);
    Lsm.MergedTableAnswers(b);
    TablesWithEqualAnswersAreEqual(Lsm.MergedTable(a), Lsm.MergedTable(b));
  }

  // ---- merging the two memtables ----

  /** Which of the two heads goes next: on a tie the newer table's, dropping both. */
  predicate TakesNewer(d: Table, a: Table) {
    a != [] && (d == [] || !Lt(d[0].key, a[0].key))
  }

  predicate TakesOlder(d: Table, a: Table) {
    d != [] && (a == [] || !Lt(a[0].key, d[0].key))
  }

  lemma {:induction false} NewestOfTwo(d: Table, a: Table, k: Bytes)
    ensures Newest([d, a], k) == if Lookup(a, k).Some? then Lookup(a, k) else Lookup(d, k)
  {
    hide Lookup;
    assert [d, a][..1] == [d];
    NewestOfOne([d], k);
  }

  lemma {:induction false} HeadBelow(d: Table, a: Table)
    requires Ascending(d) && a != [] && (d == [] || Lt(a[0].key, d[0].key))
    ensures Lookup(d, a[0].key).None?
  {
    forall i | 0 <= i < |d| ensures Lt(a[0].key, d[i].key) {
      if i > 0 { LtTransitive(a[0].key, d[0].key, d[i].key); }
    }
    LookupAbsentBelow(d, a[0].key);
  }

  lemma {:induction false} PickIsNewest(d: Table, a: Table)
    requires Ascending(d) && Ascending(a) && (d != [] || a != [])
    ensures TakesNewer(d, a) || TakesOlder(d, a)
    ensures var e := if TakesNewer(d, a) then a[0] else d[0];
            LeastHead([d, a], e.key) && Newest([d, a], e.key) == Some(e.value)
  {
    var e := if TakesNewer(d, a) then a[0] else d[0];
    NewestOfTwo(d, a, e.key);
    if d != [] && a != [] { LtTrichotomy(d[0].key, a[0].key); }
    if !TakesNewer(d, a) { HeadBelow(a, d); }
    assert [d, a][0] == d && [d, a][1] == a;
  }

  /** `e` is the head to take at positions `j` and `i`, and `j'`, `i'` are the positions behind it. */
  ghost predicate Picks(dt: Table, j: nat, j': nat, at: Table, i: nat, i': nat, e: Entry) {
    j <= |dt| && i <= |at| &&
    var d, a := dt[j..], at[i..];
    && (TakesNewer(d, a) || TakesOlder(d, a))
    && e == (if TakesNewer(d, a) then a[0] else d[0])
    && i' == (if TakesNewer(d, a) then i + 1 else i) && j' == (if TakesOlder(d, a) then j + 1 else j)
  }

  lemma {:induction false} PickDrainsAt(sources: seq<Table>, m: Table, dt: Table, j: nat, j': nat, at: Table, i: nat,
                                        i': nat, e: Entry)
    requires j <= |dt| && i <= |at| && Drained(sources, m, [dt[j..], at[i..]]) && Picks(dt, j, j', at, i, i', e)
    ensures j' <= |dt| && i' <= |at| && Drained(sources, m + [e], [dt[j'..], at[i'..]])
    ensures |at| - i' + |dt| - j' < |at| - i + |dt| - j
  {
    hide Drained;
    PickDrains(sources, m, dt[j..], at[i..]);
  }

  lemma {:induction false} PickDrains(sources: seq<Table>, m: Table, d: Table, a: Table)
    requires Drained(sources, m, [d, a]) && (d != [] || a != [])
    ensures TakesNewer(d, a) || TakesOlder(d, a)
    ensures var e := if TakesNewer(d, a) then a[0] else d[0];
            Drained(sources, m + [e], [if TakesOlder(d, a) then d[1..] else d, if TakesNewer(d, a) then a[1..] else a])
  {
    assert [d, a][0] == d && [d, a][1] == a;
    PickIsNewest(d, a);
    var e := if TakesNewer(d, a) then a[0] else d[0];
    var rest := [if TakesOlder(d, a) then d[1..] else d, if TakesNewer(d, a) then a[1..] else a];
    assert DropHeads([d, a], e.key) == rest by {
      if d != [] && a != [] { LtTrichotomy(d[0].key, a[0].key); }
      assert |DropHeads([d, a], e.key)| == 2;
    }
    DrainStep(sources, m, [d, a], e);
  }

  lemma {:induction false} StartTwo(d: Table, a: Table)
    requires Ascending(d) && Ascending(a)
    ensures Drained([d, a], [], [d[0..], a[0..]])
  {
    assert d[0..] == d && a[0..] == a;
    StartDrain([d, a]);
  }

  lemma {:induction false} EndTwo(s: Store.State, d: Table, m: Table)
    requires Store.Sorted(s) && d == (if s.dirty.Some? then s.dirty.value else [])
    requires Drained([d, s.active], m, [[], []])
    ensures m == Lsm.MergedTable(Store.Memory(s))
  {
    DrainEnd([d, s.active], m, [[], []]);
    if s.dirty.None? {
      forall k ensures Newest([d, s.active], k) == Newest([s.active], k) {
        NewestOfTwo([], s.active, k);
        NewestOfOne([s.active], k);
      }
      SameAnswersSameMerge([d, s.active], [s.active]);
    }
  }

  ghost function EntriesOf(sl: SkipList?): Table
    reads sl
  {
    if sl == null then [] else sl.contents
  }

  ghost function NodeAfter(sl: SkipList?, i: nat): SkipNode?
    reads sl
  {
    if sl == null then null else At(sl.order, i + 1)
  }

  ghost predicate WalksAt(sl: SkipList?, p: SkipNode?, i: nat)
    reads sl, if sl == null then [] else sl.order
  {
    && i <= |EntriesOf(sl)| && p == NodeAfter(sl, i) && (sl != null ==> sl.Valid())
    && (p == null <==> i == |EntriesOf(sl)|)
  }

  method FirstNode(sl: SkipList?) returns (p: SkipNode?)
    requires sl != null ==> sl.Valid()
    ensures WalksAt(sl, p, 0)
  {
    if sl == null { return null; }
    sl.HeadOf();
    p := sl.head.next[0];
  }

  method NextNode(sl: SkipList?, p: SkipNode, ghost i: nat) returns (e: Entry, q: SkipNode?)
    requires WalksAt(sl, p, i)
    ensures i < |EntriesOf(sl)| && e == EntriesOf(sl)[i] && WalksAt(sl, q, i + 1)
    ensures e.key == p.key && (q == null <==> i + 1 == |EntriesOf(sl)|)
  {
    sl.NodeOf(i);
    sl.HeadOf();
    return Entry(p.key, p.value), p.next[0];
  }

  lemma {:induction false} KeyHere(sl: SkipList?, p: SkipNode, i: nat)
    requires WalksAt(sl, p, i)
    ensures i < |EntriesOf(sl)| && EntriesOf(sl)[i].key == p.key
  {
    sl.NodeOf(i);
  }

  /** One turn of the two-way walk. */
  method TakeNext(active: SkipList, dirty: SkipList?, a: SkipNode?, d: SkipNode?, ghost i: nat, ghost j: nat)
    returns (e: Entry, a': SkipNode?, d': SkipNode?, ghost i': nat, ghost j': nat)
    requires WalksAt(active, a, i) && WalksAt(dirty, d, j) && (a != null || d != null)
    ensures WalksAt(active, a', i') && WalksAt(dirty, d', j')
    ensures Picks(EntriesOf(dirty), j, j', active.contents, i, i', e)
  {
    hide ShapeOf, Ascending, Lt, TableBytes, WalksAt, Picks;
    a', d', i', j' := a, d, i, j;
    AtHeads(active, a, i);
    AtHeads(dirty, d, j);
    if d == null || (a != null && Lt(a.key, d.key)) {
      PicksNewer(EntriesOf(dirty), j, active.contents, i);
      e, a' := NextNode(active, a, i);
      i' := i + 1;
    } else if a == null || Lt(d.key, a.key) {
      PicksOlder(EntriesOf(dirty), j, active.contents, i);
      e, d' := NextNode(dirty, d, j);
      j' := j + 1;
    } else {
      LtTrichotomy(a.key, d.key);
      PicksBoth(EntriesOf(dirty), j, active.contents, i);
      e, d' := NextNode(dirty, d, j);
      e, a' := NextNode(active, a, i);
      i', j' := i + 1, j + 1;
    }
  }

  lemma {:induction false} AtHeads(sl: SkipList?, p: SkipNode?, i: nat)
    requires WalksAt(sl, p, i)
    ensures i <= |EntriesOf(sl)| && (p == null <==> i == |EntriesOf(sl)|)
    ensures p != null ==> EntriesOf(sl)[i].key == p.key
  {
    if p != null { KeyHere(sl, p, i); }
  }

  lemma {:induction false} PicksNewer(dt: Table, j: nat, at: Table, i: nat)
    requires j <= |dt| && i < |at| && (j == |dt| || Lt(at[i].key, dt[j].key))
    ensures Picks(dt, j, j, at, i, i + 1, at[i])
  {
    if j < |dt| { LtTrichotomy(at[i].key, dt[j].key); }
  }

  lemma {:induction false} PicksOlder(dt: Table, j: nat, at: Table, i: nat)
    requires j < |dt| && i <= |at| && (i == |at| || Lt(dt[j].key, at[i].key))
    ensures Picks(dt, j, j + 1, at, i, i, dt[j])
  {
    if i < |at| { LtTrichotomy(dt[j].key, at[i].key); }
  }

  lemma {:induction false} PicksBoth(dt: Table, j: nat, at: Table, i: nat)
    requires j < |dt| && i < |at| && dt[j].key == at[i].key
    ensures Picks(dt, j, j + 1, at, i, i + 1, at[i])
  {
    LtIrreflexive(at[i].key);
  }

  lemma {:induction false} CopiedAppend(m: Table, e: Entry)
    ensures Store.Copied(m + [e]) == Store.Copied(m) + [Entry(e.key, Store.Shown(e.value))]
  {
    assert (m + [e])[..|m + [e]| - 1] == m;
  }

  /** The walk outputs a copy of the drained merge of both tables. */
  method WalkBoth(active: SkipList, dirty: SkipList?) returns (out: Table)
    requires active.Valid() && (dirty != null ==> dirty.Valid())
    ensures exists m: Table :: out == Store.Copied(m) && Drained([EntriesOf(dirty), active.contents], m, [[], []])
  {
    assert Ascending([]) && Store.Copied([]) == [];
    hide ShapeOf, Ascending, Drained, Store.Copied, Picks;
    ghost var at, dt := active.contents, EntriesOf(dirty);
    ghost var i: nat, j: nat := 0, 0;
    ghost var m: Table := [];
    StartTwo(dt, at);
    out := [];
    var a := FirstNode(active);
    var d := FirstNode(dirty);
    while a != null || d != null
      invariant WalksAt(active, a, i) && WalksAt(dirty, d, j)
      invariant out == Store.Copied(m) && Drained([dt, at], m, [dt[j..], at[i..]])
      decreases |at| - i + |dt| - j
    {
      var e;
      ghost var i', j';
      e, a, d, i', j' := TakeNext(active, dirty, a, d, i, j);
      PickDrainsAt([dt, at], m, dt, j, j', at, i, i', e);
      CopiedAppend(m, e);
      out := out + [Entry(e.key, Store.Shown(e.value))];
      m, i, j := m + [e], i', j';
    }
    assert dt[j..] == [] && at[i..] == [];
  }

  method SeekNode(sl: SkipList, start: Bytes) returns (p: SkipNode?)
    requires sl.Valid()
    ensures WalksAt(sl, p, FirstGTE(sl.contents, start))
    ensures p == null <==> FirstGTE(sl.contents, start) == |sl.contents|
  {
    sl.HeadOf();
    p := sl.FindGTE(start);
  }

  /** The entries `t[f..n]` are those a range listing has taken so far. */
  ghost predicate Taken(t: Table, f: nat, n: nat, end: Bytes, out: Table) {
    f <= n <= |t| && NotAbove(t, f, n, end) && out == Store.Copied(t[f..n])
  }

  lemma {:induction false} TakenNone(t: Table, f: nat, end: Bytes)
    requires f <= |t|
    ensures Taken(t, f, f, end, [])
  {
    assert t[f..f] == [];
  }

  lemma {:induction false} TakenStep(t: Table, f: nat, n: nat, end: Bytes, out: Table)
    requires n < |t| && Taken(t, f, n, end, out) && (end == [] || !Lt(end, t[n].key))
    ensures Taken(t, f, n + 1, end, out + [Entry(t[n].key, Store.Shown(t[n].value))])
  {
    hide Lt;
    CopiedStep(t, f, n);
  }

  lemma {:induction false} TakenAll(t: Table, start: Bytes, n: nat, end: Bytes, out: Table)
    requires Ascending(t) && Taken(t, FirstGTE(t, start), n, end, out)
    requires n < |t| ==> end != [] && Lt(end, t[n].key)
    ensures out == Store.Copied(Clip(t, start, end))
  {
    ClipIsSlice(t, start, end, n);
  }

  /** `collectRange`: the nodes from the first key not below `start` up to `end`, copied. */
  method CollectRange(sl: SkipList, start: Bytes, end: Bytes) returns (out: Table)
    requires sl.Valid()
    ensures out == Store.Copied(Clip(sl.contents, start, end))
  {
    hide ShapeOf, Clip, Store.Copied, Ascending, FirstGTE, Lt, Taken, WalksAt, TableBytes;
    ghost var t: Table, f: nat := sl.contents, FirstGTE(sl.contents, start);
    ghost var n := f;
    out := [];
    TakenNone(t, f, end);
    var p := SeekNode(sl, start);
    while p != null
      invariant n <= |t| && (p == null <==> n == |t|) && WalksAt(sl, p, n) && Taken(t, f, n, end, out)
      decreases |t| - n
    {
      var e, q := NextNode(sl, p, n);
      if end != [] && Lt(end, e.key) { break; }
      TakenStep(t, f, n, end, out);
      out := out + [Entry(e.key, Store.Shown(e.value))];
      p, n := q, n + 1;
    }
    TakenAll(t, start, n, end, out);
  }

  // ---- removing files ----

  function Minus(files: seq<Lsm.File>, gone: seq<Lsm.File>): seq<Lsm.File> {
    if files == [] then []
    else Minus(files[..|files| - 1], gone) + if files[|files| - 1] in gone then [] else [files[|files| - 1]]
  }

  lemma {:induction false} MinusNone(files: seq<Lsm.File>)
    ensures Minus(files, []) == files
  {
    if files != [] { MinusNone(files[..|files| - 1]); }
  }

  lemma {:induction false} MinusStep(files: seq<Lsm.File>, gone: seq<Lsm.File>, f: Lsm.File)
    ensures Minus(Minus(files, gone), [f]) == Minus(files, gone + [f])
  {
    if files != [] {
      var init, last := files[..|files| - 1], files[|files| - 1];
      MinusStep(init, gone, f);
      var m := Minus(init, gone);
      if last in gone {
        assert last in gone + [f] && Minus(files, gone) == m;
      } else {
        assert (m + [last])[..|m + [last]| - 1] == m && (last in gone + [f] <==> last == f);
      }
    }
  }

  lemma {:induction false} MinusLevel(files: seq<Lsm.File>, gone: seq<Lsm.File>, level: nat)
    requires forall i :: 0 <= i < |files| ==> (files[i] in gone <==> files[i].level == level)
    ensures Minus(files, gone) == Lsm.NotOfLevel(files, level)
  {
    if files != [] { MinusLevel(files[..|files| - 1], gone, level); }
  }

  lemma {:induction false} RemovedLevel(files: seq<Lsm.File>, level: nat, f: Lsm.File)
    requires f.level != level
    ensures Minus(files + [f], Lsm.OfLevel(files, level)) == Lsm.NotOfLevel(files, level) + [f]
  {
    Lsm.LevelSplit(files, level);
    var all := files + [f];
    MinusLevel(all, Lsm.OfLevel(files, level), level);
    assert all[..|all| - 1] == files;
  }

  lemma {:induction false} CompactLevelSound(files: seq<Lsm.File>, threshold: nat, level: nat, stamp: nat)
    requires Lsm.Sound(files) && level < Lsm.MAX_LEVEL && threshold >= 1
    ensures AllAscending(Lsm.TablesOf(Lsm.OfLevel(files, level)))
    ensures Lsm.Sound(Lsm.CompactLevel(files, threshold, level, stamp))
  {
    hide Ascending, Lsm.OfLevel, Lsm.NotOfLevel, Lsm.MergedTable;
    var sources, rest := Lsm.OfLevel(files, level), Lsm.NotOfLevel(files, level);
    Lsm.LevelSplit(files, level);
    forall i | 0 <= i < |sources| ensures Ascending(sources[i].table) && sources[i].table != [] {
      assert sources[i] in sources;
    }
    forall i | 0 <= i < |rest|
      ensures Ascending(rest[i].table) && rest[i].table != [] && rest[i].level <= Lsm.MAX_LEVEL
    {
      assert rest[i] in rest;
    }
    if |sources| >= threshold {
      Lsm.MergedTableAnswers(Lsm.TablesOf(sources));
      Lsm.MergedTableNonempty(Lsm.TablesOf(sources));
    }
  }

  // ---- listing a merge ----

  /** The callback is asked after every entry, shown all it was given so far, and ends the listing by
      answering no. */
  ghost predicate UpToStop(out: Table, full: Table, more: Table -> bool) {
    && out <= full && WantedBelow(out, |out|, more)
    && (out == full || (out != [] && !more(out)))
  }

  /** The callback asked for more after each of the first entries, fewer than `m` of them. */
  ghost predicate WantedBelow(out: Table, m: nat, more: Table -> bool)
    requires m <= |out| + 1
  {
    forall n :: 0 < n < m ==> more(out[..n])
  }

  lemma {:induction false} VisibleConcat(a: Table, b: Table)
    ensures Store.Visible(a + b) == Store.Visible(a) + Store.Visible(b)
  {
    if b == [] {
      assert a + b == a;
    } else {
      assert (a + b)[..|a + b| - 1] == a + b[..|b| - 1];
      VisibleConcat(a, b[..|b| - 1]);
    }
  }

  /** What a drain has output so far is a prefix of the whole merge. */
  lemma {:induction false} DrainedIsPrefix(sources: seq<Table>, out: Table, rest: seq<Table>)
    requires AllAscending(sources) && Drained(sources, out, rest)
    ensures Lsm.MergedTable(sources) == out + Lsm.MergedTable(rest)
  {
    hide Lt, Lsm.MergedTable, Newest, Lookup;
    Lsm.MergedTableAnswers(sources);
    Lsm.MergedTableAnswers(rest);
    var m := Lsm.MergedTable(rest);
    forall i, j | 0 <= i < |out| && 0 <= j < |m| ensures Lt(out[i].key, m[j].key) {
      LookupAt(m, j);
      NewestIsSomewhere(rest, m[j].key);
    }
    AscendingConcat(out, m);
    forall k ensures Lookup(out + m, k) == Lookup(Lsm.MergedTable(sources), k) { LookupConcat(out, m, k); }
    TablesWithEqualAnswersAreEqual(out + m, Lsm.MergedTable(sources));
  }

  lemma {:induction false} NewestIsSomewhere(ts: seq<Table>, k: Bytes)
    requires Newest(ts, k).Some?
    ensures exists i, j :: 0 <= i < |ts| && 0 <= j < |ts[i]| && ts[i][j].key == k
  {
    var n := |ts| - 1;
    if Lookup(ts[n], k).Some? {
      var e := Entry(k, Lookup(ts[n], k).value);
      var j :| 0 <= j < |ts[n]| && ts[n][j] == e;
      assert ts[n][j].key == k;
    } else {
      NewestIsSomewhere(ts[..n], k);
    }
  }

  lemma {:induction false} ListedSoFar(sources: seq<Table>, merged: Table, rest: seq<Table>)
    requires AllAscending(sources) && Drained(sources, merged, rest)
    ensures Store.Visible(merged) <= Store.Visible(Lsm.MergedTable(sources))
  {
    DrainedIsPrefix(sources, merged, rest);
    VisibleConcat(merged, Lsm.MergedTable(rest));
  }

  ghost predicate Draining(it: MergeIterator, merged: Table)
    reads it
  {
    it.Valid() && !it.err && AllAscending(it.sources) && Drained(it.sources, merged, it.Rest())
  }

  method Pull(it: MergeIterator, ghost merged: Table) returns (ok: bool, e: Entry)
    requires Draining(it, merged)
    modifies it
    ensures ok ==> Draining(it, merged + [e]) && Left(it.Rest()) < Left(old(it.Rest()))
    ensures !ok ==> merged == Lsm.MergedTable(it.sources)
  {
    hide Ascending, Lt, Lsm.MergedTable, Newest, Lookup;
    ghost var rest := it.Rest();
    ok := it.Next();
    e := it.cur;
    if ok {
      DrainStep(it.sources, merged, rest, e);
      LeftShrinks(rest, e.key);
    } else {
      DrainEnd(it.sources, merged, it.Rest());
    }
  }

  lemma {:induction false} VisibleStep(m: Table, e: Entry)
    ensures Store.Visible(m + [e]) == Store.Visible(m) + if e.value.Some? then [e] else []
  {
    assert (m + [e])[..|m + [e]| - 1] == m;
  }

  lemma {:induction false} WantedStep(out: Table, e: Entry, more: Table -> bool)
    requires WantedBelow(out, |out| + 1, more)
    ensures WantedBelow(out + [e], |out + [e]|, more)
    ensures more(out + [e]) ==> WantedBelow(out + [e], |out + [e]| + 1, more)
  {
    assert forall n :: 0 < n <= |out| ==> (out + [e])[..n] == out[..n];
    assert (out + [e])[..|out + [e]|] == out + [e];
  }

  lemma {:induction false} WantedAll(out: Table, more: Table -> bool)
    requires WantedBelow(out, |out| + 1, more)
    ensures WantedBelow(out, |out|, more)
  {
  }

  lemma {:induction false} StartDraining(it: MergeIterator)
    requires it.Valid() && !it.err && AllAscending(it.sources) && it.Rest() == it.sources
    ensures Draining(it, [])
  {
    StartDrain(it.sources);
  }

  lemma {:induction false} DrainingIsListed(it: MergeIterator, merged: Table)
    requires Draining(it, merged)
    ensures Store.Visible(merged) <= Store.Visible(Lsm.MergedTable(it.sources))
  {
    ListedSoFar(it.sources, merged, it.Rest());
  }

  /** The loop of `ScanRange` over the merge iterator. */
  method ListMerge(sources: seq<Table>, more: Table -> bool) returns (out: Table)
    requires AllAscending(sources)
    ensures UpToStop(out, Store.Visible(Lsm.MergedTable(sources)), more)
  {
    assert Store.Visible([]) == [] && WantedBelow([], 1, more);
    hide Draining, Store.Visible, Lsm.MergedTable, AllAscending, WantedBelow;
    var it := new MergeIterator(sources);
    StartDraining(it);
    ghost var merged: Table := [];
    out := [];
    while true
      invariant Draining(it, merged) && it.sources == sources && out == Store.Visible(merged)
      invariant WantedBelow(out, |out| + 1, more)
      decreases Left(it.Rest())
    {
      var ok, e := Pull(it, merged);
      if !ok {
        WantedAll(out, more);
        return;
      }
      VisibleStep(merged, e);
      merged := merged + [e];
      if e.value.Some? {
        WantedStep(out, e, more);
        out := out + [e];
        if !more(out) {
          DrainingIsListed(it, merged);
          return;
        }
      }
    }
  }

  // ---- the sources of a scan ----

  ghost predicate Alike(a: seq<Table>, b: seq<Table>) {
    AllAscending(a) && AllAscending(b) && forall k :: Newest(a, k) == Newest(b, k)
  }

  lemma {:induction false} AlikeAppend(a: seq<Table>, b: seq<Table>, t: Table)
    requires Alike(a, b) && Ascending(t)
    ensures Alike(a + [t], b + [t])
  {
    hide Newest, Ascending;
    forall k ensures Newest(a + [t], k) == Newest(b + [t], k) {
      NewestConcat(a, [t], k);
      NewestConcat(b, [t], k);
    }
  }

  lemma {:induction false} AlikeSkip(a: seq<Table>, b: seq<Table>)
    requires Alike(a, b)
    ensures Alike(a, b + [[]])
  {
    assert Ascending([]);
    hide Newest, Ascending;
    forall k ensures Newest(a, k) == Newest(b + [[]], k) {
      SkipEmpty(b, [], k);
      assert b + [[]] + [] == b + [[]] && b + [] == b;
    }
  }

  /** A file whose keys all lie before the start or after the end contributes nothing. */
  lemma {:induction false} FileOutsideRange(t: Table, start: Bytes, end: Bytes)
    requires Ascending(t) && t != []
    requires (start != [] && Lt(t[|t| - 1].key, start)) || (end != [] && Lt(end, t[0].key))
    ensures Clip(t, start, end) == []
  {
    var n := |t| - 1;
    forall i | 0 <= i < |t| ensures !InRange(t[i].key, start, end) {
      if start != [] && Lt(t[n].key, start) {
        if i < n { LtTransitive(t[i].key, t[n].key, start); }
      } else if i > 0 {
        LtTransitive(end, t[0].key, t[i].key);
      }
    }
    ClipNothing(t, start, end);
  }

  lemma {:induction false} ClipAllStep(files: seq<Lsm.File>, n: nat, start: Bytes, end: Bytes)
    requires n < |files|
    ensures Store.ClipAll(Lsm.TablesOf(files[..n + 1]), start, end) ==
            Store.ClipAll(Lsm.TablesOf(files[..n]), start, end) + [Clip(files[n].table, start, end)]
  {
    assert files[..n + 1] == files[..n] + [files[n]];
    Lsm.TablesOfConcat(files[..n], [files[n]]);
    var ts := Lsm.TablesOf(files[..n + 1]);
    assert Lsm.TablesOf([files[n]]) == [files[n].table];
    assert ts[..|ts| - 1] == Lsm.TablesOf(files[..n]) && ts[|ts| - 1] == files[n].table;
  }

  /** One source per file that may meet the range, oldest first. Leaving the others out changes no
      answer. */
  method FileSources(files: seq<Lsm.File>, maxKnown: seq<bool>, start: Bytes, end: Bytes) returns (sources: seq<Table>)
    requires Lsm.Sound(files) && |maxKnown| == |files|
    ensures Alike(sources, Store.ClipAll(Lsm.TablesOf(files), start, end))
  {
    assert Alike([], []) && Store.ClipAll([], start, end) == [] && Lsm.TablesOf([]) == [];
    hide Alike, Ascending, Lt, Clip, Store.ClipAll, Lsm.TablesOf;
    sources := [];
    var n := 0;
    assert files[..0] == [];
    while n < |files|
      invariant 0 <= n <= |files| && Alike(sources, Store.ClipAll(Lsm.TablesOf(files[..n]), start, end))
    {
      var t := files[n].table;
      ClipAllStep(files, n, start, end);
      if (maxKnown[n] && start != [] && Lt(t[|t| - 1].key, start)) ||
          (end != [] && t[0].key != [] && Lt(end, t[0].key)) {
        FileOutsideRange(t, start, end);
        AlikeSkip(sources, Store.ClipAll(Lsm.TablesOf(files[..n]), start, end));
      } else {
        var clipped := ClipSource(t, start, end);
        ClipAscending(t, start, end);
        AlikeAppend(sources, Store.ClipAll(Lsm.TablesOf(files[..n]), start, end), clipped);
        sources := sources + [clipped];
      }
      n := n + 1;
    }
    assert files[..n] == files;
  }

  /** A copied memtable becomes a source unless it is empty. */
  method AddSlice(sources: seq<Table>, copied: Table, ghost like: seq<Table>, ghost t: Table) returns (r: seq<Table>)
    requires Alike(sources, like) && Ascending(t) && copied == Store.Copied(t)
    ensures Alike(r, like + [Store.SliceSource(t)])
  {
    Store.CopiedKeys(t);
    assert Ascending([]);
    assert Ascending(copied);
    hide Alike, Ascending, Store.Copied;
    if copied == [] {
      AlikeSkip(sources, like);
      return sources;
    }
    var source := if copied[0].key == [] then [] else copied;
    AlikeAppend(sources, like, source);
    return sources + [source];
  }

  lemma {:induction false} ScanSourcesAre(s: Store.State, start: Bytes, end: Bytes, like: seq<Table>)
    requires like == (match s.dirty
                      case None => Store.ClipAll(Lsm.TablesOf(s.files), start, end)
                      case Some(d) =>
                        Store.ClipAll(Lsm.TablesOf(s.files), start, end) + [Store.SliceSource(Clip(d, start, end))])
                     + [Store.SliceSource(Clip(s.active, start, end))]
    ensures like == Store.ScanSources(s, start, end)
  {
    hide Clip, Store.SliceSource, Store.ClipAll;
    var m := Store.Memory(s);
    assert Store.SliceAll([], start, end) == [];
    if s.dirty.Some? {
      var one := [s.dirty.value];
      assert m[..|m| - 1] == one && one[..|one| - 1] == [];
      assert Store.SliceAll(one, start, end) == [] + [Store.SliceSource(Clip(s.dirty.value, start, end))];
      assert Store.SliceAll(m, start, end) ==
             Store.SliceAll(one, start, end) + [Store.SliceSource(Clip(s.active, start, end))];
    } else {
      assert m[..0] == [];
    }
  }

  lemma {:induction false} AlikeMerge(a: seq<Table>, b: seq<Table>)
    requires Alike(a, b)
    ensures AllAscending(a) && Lsm.MergedTable(a) == Lsm.MergedTable(b)
  {
    SameAnswersSameMerge(a, b);
  }

  // ---- point reads from files ----

  /** Outside the least and greatest key of a sorted file there is nothing to find. */
  lemma {:induction false} OutsideFile(t: Table, k: Bytes)
    requires Ascending(t) && t != [] && (Lt(k, t[0].key) || Lt(t[|t| - 1].key, k))
    ensures Lookup(t, k).None?
  {
    if Lt(k, t[0].key) {
      forall i | 0 <= i < |t| ensures Lt(k, t[i].key) { if i > 0 { LtTransitive(k, t[0].key, t[i].key); } }
      LookupAbsentBelow(t, k);
    } else {
      var n := |t| - 1;
      forall i | 0 <= i < |t| ensures Lt(t[i].key, k) { if i < n { LtTransitive(t[i].key, t[n].key, k); } }
      LookupAbsentAbove(t, k);
    }
  }

  lemma {:induction false} AnswerStep(files: seq<Lsm.File>, n: nat, k: Bytes)
    requires n < |files|
    ensures Lsm.Answer(files[..n + 1], k) ==
            if Lookup(files[n].table, k).Some? then Lookup(files[n].table, k) else Lsm.Answer(files[..n], k)
  {
    assert files[..n + 1] == files[..n] + [files[n]];
    Lsm.AnswerConcat(files[..n], [files[n]], k);
    Lsm.AnswerSingle(files[n], k);
  }

  /** `getFromSSTables`: newest file first, skipping files whose key bounds exclude `key`. The upper
      bound counts only where it is known. */
  method GetFromFiles(files: seq<Lsm.File>, maxKnown: seq<bool>, key: Bytes) returns (r: Option<Value>)
    requires Lsm.Sound(files) && |maxKnown| == |files|
    ensures r == Lsm.Answer(files, key)
  {
    hide Ascending, Lookup;
    var n := |files|;
    assert files[..n] == files;
    while n > 0
      invariant n <= |files| && Lsm.Answer(files, key) == Lsm.Answer(files[..n], key)
    {
      n := n - 1;
      var t := files[n].table;
      AnswerStep(files, n, key);
      if Lt(key, t[0].key) || (maxKnown[n] && Lt(t[|t| - 1].key, key)) {
        OutsideFile(t, key);
        continue;
      }
      r := Lookup(t, key);
      if r.Some? { return; }
    }
    r := None;
  }

  ghost predicate SameAnswers(s: Store.State, t: Store.State) {
    forall q :: Store.Find(t, q) == Store.Find(s, q)
  }

  lemma {:induction false} SameFilesSameFind(s: Store.State, t: Store.State)
    requires t.active == s.active && t.dirty == s.dirty && forall k :: Lsm.Answer(t.files, k) == Lsm.Answer(s.files, k)
    ensures SameAnswers(s, t)
  {
    hide Newest, Lsm.Answer, Store.Find;
    forall k ensures Store.Find(t, k) == Store.Find(s, k) {
      Store.FindSplit(s, k);
      Store.FindSplit(t, k);
    }
  }

  class Engine {
    const maxLevel: nat
    const threshold: nat
    const maxSize: nat
    const credits: Credit.Pool
    /** The one-place channel that asks the worker for a flush. */
    var requested: bool
    var active: SkipList
    var dirty: SkipList?
    var files: seq<Lsm.File>

    ghost function DirtyNodes(): seq<SkipNode>
      reads this`dirty, dirty
    {
      if dirty == null then [] else dirty.order
    }

    /** The value behind the fields. */
    ghost function State(): Store.State
      reads this`active, this`dirty, this`files, active, dirty
    {
      Store.State(active.contents, if dirty == null then None else Some(dirty.contents), files)
    }

    /** Bytes held by the two memtables. */
    ghost function InMemory(): int
      reads this`active, this`dirty, active, dirty
    {
      active.byteSize + if dirty == null then 0 else dirty.byteSize
    }

    ghost predicate Coherent()
      reads this`active, this`dirty, this`files, active, dirty, active.order, DirtyNodes()
    {
      && maxLevel >= 1 && active.maxLevel == maxLevel
      && active.Valid()
      && (dirty != null ==> dirty != active && dirty.Valid())
      && (forall n :: n in active.order ==> n !in DirtyNodes())
      && Store.Sorted(State())
    }

    /** Between operations the credit in use is what memory holds. */
    ghost predicate Valid()
      reads this`active, this`dirty, this`files, credits, active, dirty, active.order, DirtyNodes()
    {
      Coherent() && credits.used == InMemory()
    }

    constructor (maxLevel: nat, threshold: nat, maxSize: nat, budget: int, files: seq<Lsm.File>)
      requires maxLevel >= 1 && Lsm.Sound(files)
      ensures Valid() && State() == Store.State([], None, files)
      ensures this.threshold == threshold && this.maxSize == maxSize && !requested
      ensures fresh(active) && fresh(active.order) && fresh(credits) && credits.budget == budget
    {
      this.maxLevel, this.threshold, this.maxSize, this.files := maxLevel, threshold, maxSize, files;
      requested := false;
      active := new SkipList(maxLevel);
      dirty := null;
      credits := new Credit.Pool(budget);
    }

    /** `Get`: live table, then the table being flushed, then files, newest first. */
    method Get(key: Bytes, maxKnown: seq<bool>) returns (r: Option<Bytes>)
      requires Coherent() && |maxKnown| == |files|
      ensures r == Store.Get(State(), key)
    {
      hide Ascending, Lookup, Newest;
      Store.FindSplit(State(), key);
      Store.MemorySplit(State(), key);
      var found := active.Search(key);
      if found.None? && dirty != null { found := dirty.Search(key); }
      if found.None? { found := GetFromFiles(files, maxKnown, key); }
      if found.None? || found.value.None? { return None; }
      return Some(found.value.value);
    }

    /** The locked first half of `Flush`. */
    method Swap()
      requires Coherent()
      modifies this`active, this`dirty
      ensures Coherent() && State() == Store.Swapped(old(State())) && InMemory() == old(InMemory())
      ensures dirty == null ==> active == old(active) && active.contents == []
      ensures active == old(active) || fresh(active)
      ensures dirty == old(dirty) || dirty == old(active)
      ensures active != old(active) ==> fresh(active.order)
      ensures old(dirty) != null ==> active == old(active)
    {
      hide Ascending, ShapeOf;
      if dirty == null && active.size > 0 {
        dirty := active;
        active := new SkipList(maxLevel);
      }
    }

    /** `Flush`: swap, write the file outside the lock, then drop the table and give its bytes back. A
        write that fails keeps the table and its credit, and asks for another flush. */
    method Flush(stamp: nat, writeOk: bool)
      requires Coherent() && credits.used >= InMemory()
      modifies this`active, this`dirty, this`files, this`requested, credits
      ensures Coherent()
      ensures State() ==
              if writeOk then Store.Flushed(Store.Swapped(old(State())), stamp) else Store.Swapped(old(State()))
      ensures requested == (old(requested) || (!writeOk && Store.Swapped(old(State())).dirty.Some?))
      ensures credits.used - InMemory() == old(credits.used - InMemory())
      ensures active == old(active) || (fresh(active) && fresh(active.order))
      ensures dirty == null || dirty == old(dirty) || dirty == old(active)
      ensures old(dirty) != null ==> active == old(active)
    {
      hide Ascending, ShapeOf, TableBytes, Store.Sorted, Lsm.Sound;
      Swap();
      if dirty == null { return; }
      if !writeOk {
        requested := true;
        return;
      }
      var entries := dirty.CollectAll();
      Store.FlushIsInvisible(State(), stamp);
      files := files + [Lsm.File(0, stamp, entries)];
      var freed := dirty.byteSize;
      dirty := null;
      credits.Release(freed);
    }

    /** One turn of the worker: nothing happens unless a flush was asked for. */
    method WorkerTurn(stamp: nat, writeOk: bool)
      requires Valid()
      modifies this`active, this`dirty, this`files, this`requested, credits
      ensures Valid() && SameAnswers(old(State()), State())
      ensures !old(requested) ==> State() == old(State()) && !requested
      ensures old(requested) ==> (requested <==> dirty != null)
      ensures old(requested) ==>
                var swapped := Store.Swapped(old(State()));
                State() == if writeOk then Store.Flushed(swapped, stamp) else swapped
    {
      hide Ascending, ShapeOf, TableBytes, Store.Find;
      if !requested { return; }
      requested := false;
      Store.SwapIsInvisible(State());
      Store.FlushIsInvisible(Store.Swapped(State()), stamp);
      Flush(stamp, writeOk);
    }

    /** The worker takes the request and its write succeeds: invisible to readers. It retries the table a
        failed flush left, and only otherwise takes the live one. */
    method FlushAway(stamp: nat)
      requires Valid() && credits.used != 0
      modifies this`active, this`dirty, this`files, this`requested, credits
      ensures Valid() && SameAnswers(old(State()), State()) && !requested
      ensures dirty == null && InMemory() == if old(dirty) == null then 0 else old(active.byteSize)
      ensures active == old(active) || (fresh(active) && fresh(active.order))
    {
      assert TableBytes([]) == 0;
      hide Ascending, ShapeOf, TableBytes, Store.Find;
      assert dirty != null || active.contents != [];
      requested := false;
      Store.SwapIsInvisible(State());
      Store.FlushIsInvisible(Store.Swapped(State()), stamp);
      Flush(stamp, true);
    }

    /** `acquireCredit` with nobody else at work: reserve at once if it fits; otherwise ask for one flush and
        wait. The flush, repeated until its write succeeds, is the only one asked for. So the wait ends if
        and only if there was no table left by a failed flush, or the live table leaves room. */
    method AcquireCredit(n: nat, stamp: nat) returns (ok: bool)
      requires Valid()
      modifies this`active, this`dirty, this`files, this`requested, credits
      ensures Coherent() && credits.used == InMemory() + if ok then n else 0
      ensures ok <==> old(dirty) == null || Credit.RoomFor(credits.budget, old(active.byteSize), n)
      ensures SameAnswers(old(State()), State())
      ensures old(credits.Fits(n)) ==> State() == old(State()) && requested == old(requested)
      ensures old(InMemory()) + n <= credits.budget ==> ok && State() == old(State())
      ensures !old(credits.Fits(n)) ==> dirty == null && !requested
      ensures active == old(active) || (fresh(active) && fresh(active.order))
    {
      hide Ascending, ShapeOf, TableBytes, Store.Find;
      ok := credits.TryAcquire(n);
      if ok { return; }
      requested := true;
      FlushAway(stamp);
      ok := credits.TryAcquire(n);
    }

    /** `Put`, and `Delete` when the value is the tombstone: reserve, insert, ask for a flush when the live
        table has grown too large, give back what an overwrite did not need. No other key changes its answer,
        and credit matches memory again. A call that never gets its credit changes no answer. */
    method Put(key: Bytes, value: Value, height: nat, stamp: nat) returns (done: bool)
      requires Valid() && 1 <= height <= maxLevel
      modifies this`active, this`dirty, this`files, this`requested, credits, active.Repr()
      ensures Valid() && fresh(active.Repr() - old(active.Repr()))
      ensures done <==> old(dirty) == null ||
                        Credit.RoomFor(credits.budget, old(active.byteSize), Credit.RecordBytes(key, value))
      ensures done ==>
                forall q :: Store.Find(State(), q) == if q == key then Some(value) else Store.Find(old(State()), q)
      ensures !done ==> SameAnswers(old(State()), State()) && !requested
      ensures old(credits.Fits(Credit.RecordBytes(key, value))) ==> State() == Store.Written(old(State()), key, value)
      ensures old(InMemory()) + Credit.RecordBytes(key, value) <= credits.budget ==>
                done && State() == Store.Written(old(State()), key, value)
      ensures done && active.size > maxSize ==> requested
      ensures old(dirty) == null ==> dirty == null
    {
      hide Valid, Store.Find, Upsert, SameAnswers;
      done := ReserveAndInsert(key, value, height, stamp);
      if done { AskIfLarge(); }
    }

    method AskIfLarge()
      requires Valid()
      modifies this`requested
      ensures Valid() && State() == old(State()) && (active.size > maxSize ==> requested)
    {
      hide Ascending, ShapeOf, TableBytes, Store.Sorted;
      if active.size > maxSize { requested := true; }
    }

    method ReserveAndInsert(key: Bytes, value: Value, height: nat, stamp: nat) returns (done: bool)
      requires Valid() && 1 <= height <= maxLevel
      modifies this`active, this`dirty, this`files, this`requested, credits, active.Repr()
      ensures Valid() && fresh(active.Repr() - old(active.Repr()))
      ensures done <==> old(dirty) == null ||
                        Credit.RoomFor(credits.budget, old(active.byteSize), Credit.RecordBytes(key, value))
      ensures done ==>
                forall q :: Store.Find(State(), q) == if q == key then Some(value) else Store.Find(old(State()), q)
      ensures !done ==> SameAnswers(old(State()), State()) && !requested
      ensures old(credits.Fits(Credit.RecordBytes(key, value))) ==> State() == Store.Written(old(State()), key, value)
      ensures old(InMemory()) + Credit.RecordBytes(key, value) <= credits.budget ==>
                done && State() == Store.Written(old(State()), key, value)
      ensures old(dirty) == null ==> dirty == null
    {
      hide ShapeOf, Ascending, Store.Find, Store.Sorted, TableBytes, Upsert;
      var full := |key| + ValueBytes(value);
      done := AcquireCredit(full, stamp);
      if !done { return; }
      InsertReserved(key, value, height, full);
    }

    method InsertReserved(key: Bytes, value: Value, height: nat, full: nat)
      requires Coherent() && 1 <= height <= maxLevel
      requires full == |key| + ValueBytes(value) && credits.used == InMemory() + full
      modifies credits, active.Repr()
      ensures Valid() && fresh(active.Repr() - old(active.Repr()))
      ensures State() == Store.Written(old(State()), key, value)
      ensures forall q :: Store.Find(State(), q) == if q == key then Some(value) else Store.Find(old(State()), q)
    {
      hide Ascending, ShapeOf, Upsert, Store.Find, Lookup;
      Store.WriteIsMapUpdate(State(), key, value);
      UpsertBytes(active.contents, key, value);
      ghost var apart := DirtyNodes();
      assert forall n :: n in apart ==> n !in active.order;
      var delta := active.Insert(key, value, height);
      if dirty != null { dirty.StillValid(); }
      credits.Release(full - delta);
    }

    /** `SnapshotLive`: one pass down both memtables, the live one winning, tombstones kept. */
    method SnapshotLive() returns (out: Table)
      requires Coherent()
      ensures out == Store.Copied(Lsm.MergedTable(Store.Memory(State())))
    {
      assert Ascending([]);
      hide Ascending, ShapeOf, Drained, Lsm.MergedTable;
      out := WalkBoth(active, dirty);
      ghost var m: Table :| out == Store.Copied(m) && Drained([EntriesOf(dirty), active.contents], m, [[], []]);
      EndTwo(State(), EntriesOf(dirty), m);
    }

    method RemoveFiles(gone: seq<Lsm.File>)
      modifies this`files
      ensures files == Minus(old(files), gone)
    {
      var i := 0;
      MinusNone(files);
      while i < |gone|
        invariant 0 <= i <= |gone| && files == Minus(old(files), gone[..i])
      {
        assert gone[..i + 1] == gone[..i] + [gone[i]];
        MinusStep(old(files), gone[..i], gone[i]);
        files := Minus(files, [gone[i]]);
        i := i + 1;
      }
      assert gone[..i] == gone;
    }

    /** One turn of the loop of `CompactSSTable`: merge the whole level into one file of the next, add
        it, then remove the sources one by one. A merge that fails leaves the level as it was. */
    method CompactLevel(level: nat, stamp: nat, mergeOk: bool)
      requires Lsm.Sound(files) && threshold >= 1 && level < Lsm.MAX_LEVEL
      modifies this`files
      ensures files == (if mergeOk then Lsm.CompactLevel(old(files), threshold, level, stamp) else old(files))
      ensures Lsm.Sound(files)
    {
      hide Ascending, Lsm.MergedTable, AllAscending;
      CompactLevelSound(files, threshold, level, stamp);
      var sources := Lsm.OfLevel(files, level);
      if |sources| < threshold || !mergeOk { return; }
      var merged, err := MergeAll(Lsm.TablesOf(sources));
      if err { return; }
      var f := Lsm.File(level + 1, stamp, merged);
      RemovedLevel(files, level, f);
      files := files + [f];
      RemoveFiles(sources);
    }

    /** `CompactSSTable(0)`, whichever merges fail: invisible to readers, and ready for the next call exactly if
        no merge of a level above 0 failed. */
    method CompactSSTable(stamps: seq<nat>, ok: seq<bool>)
      requires Coherent() && Lsm.Inv(files, threshold) && threshold >= 1
      requires Lsm.ClockRun(stamps) && Lsm.OlderThan(files, stamps[0]) && |ok| == Lsm.MAX_LEVEL
      modifies this`files
      ensures Coherent() && files == Lsm.CompactTry(old(files), threshold, 0, stamps, ok)
      ensures SameAnswers(old(State()), State()) && Lsm.Ordered(files)
      ensures Lsm.Inv(files, threshold) <==> !Lsm.FailsAbove(old(files), threshold, 0, stamps, ok)
    {
      hide Ascending, ShapeOf, Store.Find, Lsm.CompactLevel, Lsm.Answer, Lsm.FailsAbove;
      ghost var s := State();
      Lsm.CompactTryKeeps(files, threshold, 0, stamps, ok);
      var level := 0;
      while level < Lsm.MAX_LEVEL
        invariant 0 <= level <= Lsm.MAX_LEVEL && Lsm.Sound(files)
        invariant Lsm.CompactTry(files, threshold, level, stamps, ok) ==
                  Lsm.CompactTry(s.files, threshold, 0, stamps, ok)
      {
        CompactLevel(level, stamps[level], ok[level]);
        level := level + 1;
      }
      SameFilesSameFind(s, State());
    }

    /** `ScanRange`: clip files, copy both memtables, merge, skip tombstones, stop when told to. */
    method ScanRange(start: Bytes, end: Bytes, maxKnown: seq<bool>, more: Table -> bool) returns (out: Table)
      requires Coherent() && |maxKnown| == |files|
      ensures UpToStop(out, Store.Scan(State(), start, end), more)
    {
      hide Alike, Ascending, ShapeOf, Clip, Store.Copied, Store.ClipAll, Store.SliceSource, UpToStop, Lsm.MergedTable;
      ghost var s := State();
      var fromActive := CollectRange(active, start, end);
      var sources := FileSources(files, maxKnown, start, end);
      ghost var like := Store.ClipAll(Lsm.TablesOf(files), start, end);
      if dirty != null {
        var fromDirty := CollectRange(dirty, start, end);
        ClipAscending(dirty.contents, start, end);
        sources := AddSlice(sources, fromDirty, like, Clip(dirty.contents, start, end));
        like := like + [Store.SliceSource(Clip(dirty.contents, start, end))];
      }
      ClipAscending(active.contents, start, end);
      sources := AddSlice(sources, fromActive, like, Clip(active.contents, start, end));
      like := like + [Store.SliceSource(Clip(active.contents, start, end))];
      ScanSourcesAre(s, start, end, like);
      AlikeMerge(sources, like);
      out := ListMerge(sources, more);
    }
  }
}
