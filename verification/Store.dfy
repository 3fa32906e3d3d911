/** The engine's state as values: a live memtable, perhaps one being flushed, and the files on disk;
    what reads see, and what a range scan lists. */
module Store {
  import opened Bytes
  import opened Tables
  import opened SSTableFile
  import Lsm

  datatype State = State(active: Table, dirty: Option<Table>, files: seq<Lsm.File>)

  /** The memtables, oldest first. */
  function Memory(s: State): seq<Table> {
    match s.dirty
    case None => [s.active]
    case Some(d) => [d, s.active]
  }

  /** Newest wins across files, the table being flushed and the live table. */
  function Find(s: State, k: Bytes): Option<Value> {
    Newest(Lsm.TablesOf(s.files) + Memory(s), k)
  }

  /** What a client reads: a tombstone reads as absent. */
  function Get(s: State, k: Bytes): Option<Bytes> {
    match Find(s, k)
    case Some(Some(v)) => Some(v)
    case _ => None
  }

  ghost predicate Sorted(s: State) {
    && Ascending(s.active)
    && (s.dirty.Some? ==> Ascending(s.dirty.value) && s.dirty.value != [])
    && Lsm.Sound(s.files)
  }

  // ---- what each operation does to the state ----

  function Written(s: State, k: Bytes, v: Value): State {
    s.(active := Upsert(s.active, k, v))
  }

  /** The swap at the start of a flush; a table left by a failed flush is retried instead. */
  function Swapped(s: State): State {
    if s.dirty.Some? || s.active == [] then s else s.(active := [], dirty := Some(s.active))
  }

  /** The end of a flush whose file was written. */
  function Flushed(s: State, stamp: nat): State {
    match s.dirty
    case None => s
    case Some(t) => s.(dirty := None, files := s.files + [Lsm.File(0, stamp, t)])
  }

  function Compacted(s: State, threshold: nat, stamps: seq<nat>): State
    requires |stamps| == Lsm.MAX_LEVEL
  {
    s.(files := Lsm.CompactFrom(s.files, threshold, 0, stamps))
  }

  lemma {:induction false} FindSplit(s: State, k: Bytes)
    ensures Find(s, k) == if Newest(Memory(s), k).Some? then Newest(Memory(s), k) else Lsm.Answer(s.files, k)
  {
    NewestConcat(Lsm.TablesOf(s.files), Memory(s), k);
  }

  lemma {:induction false} MemorySplit(s: State, k: Bytes)
    ensures Newest(Memory(s), k) == if Lookup(s.active, k).Some? then Lookup(s.active, k)
                                    else if s.dirty.Some? then Lookup(s.dirty.value, k) else None
  {
    hide Lookup;
    var m := Memory(s);
    if s.dirty.Some? {
      assert m[..1] == [s.dirty.value];
      NewestOfOne([s.dirty.value], k);
    } else {
      NewestOfOne(m, k);
    }
  }

  /** A write changes the answer of its key and of no other. */
  lemma {:induction false} WriteIsMapUpdate(s: State, k: Bytes, v: Value)
    requires Sorted(s)
    ensures Sorted(Written(s, k, v))
    ensures forall q :: Find(Written(s, k, v), q) == if q == k then Some(v) else Find(s, q)
  {
    hide Upsert, Lookup, Newest, Ascending;
    UpsertIsMapUpdate(s.active, k, v);
    forall q ensures Find(Written(s, k, v), q) == if q == k then Some(v) else Find(s, q) {
      MemorySplit(s, q);
      MemorySplit(Written(s, k, v), q);
      FindSplit(s, q);
      FindSplit(Written(s, k, v), q);
    }
  }

  lemma {:induction false} SwapIsInvisible(s: State)
    requires Sorted(s)
    ensures Sorted(Swapped(s)) && forall q :: Find(Swapped(s), q) == Find(s, q)
  {
    forall q ensures Find(Swapped(s), q) == Find(s, q) {
      hide Newest, Find;
      FindSplit(s, q);
      FindSplit(Swapped(s), q);
      MemorySplit(s, q);
      MemorySplit(Swapped(s), q);
      assert Lookup([], q).None?;
    }
  }

  lemma {:induction false} FlushIsInvisible(s: State, stamp: nat)
    requires Sorted(s)
    ensures Sorted(Flushed(s, stamp)) && forall q :: Find(Flushed(s, stamp), q) == Find(s, q)
  {
    if s.dirty.Some? {
      forall q ensures Find(Flushed(s, stamp), q) == Find(s, q) {
        var f := Lsm.File(0, stamp, s.dirty.value);
        Lsm.TablesOfConcat(s.files, [f]);
        assert Lsm.TablesOf([f]) == [s.dirty.value];
        assert Lsm.TablesOf(s.files + [f]) + [s.active] == Lsm.TablesOf(s.files) + [s.dirty.value, s.active];
      }
    }
  }

  lemma {:induction false} CompactionIsInvisible(s: State, threshold: nat, stamps: seq<nat>)
    requires Sorted(s) && Lsm.Inv(s.files, threshold) && threshold >= 1 && Lsm.ClockRun(stamps)
    requires Lsm.OlderThan(s.files, stamps[0])
    ensures Sorted(Compacted(s, threshold, stamps)) && Lsm.Inv(Compacted(s, threshold, stamps).files, threshold)
    ensures forall q :: Find(Compacted(s, threshold, stamps), q) == Find(s, q)
  {
    Lsm.CompactKeeps(s.files, threshold, stamps);
    forall q ensures Find(Compacted(s, threshold, stamps), q) == Find(s, q) {
      FindSplit(s, q);
      FindSplit(Compacted(s, threshold, stamps), q);
    }
  }

  // ---- range scans ----

  /** Copying a memtable value byte by byte cannot tell an empty value from a missing one. */
  function Shown(v: Value): Value { if v == Some([]) then None else v }

  function Copied(t: Table): Table {
    if t == [] then [] else Copied(t[..|t| - 1]) + [Entry(t[|t| - 1].key, Shown(t[|t| - 1].value))]
  }

  /** A copied memtable as a merge source: an empty first key is taken for the end of the source. */
  function SliceSource(t: Table): Table {
    if t != [] && t[0].key == [] then [] else Copied(t)
  }

  function ClipAll(ts: seq<Table>, start: Bytes, end: Bytes): seq<Table> {
    if ts == [] then [] else ClipAll(ts[..|ts| - 1], start, end) + [Clip(ts[|ts| - 1], start, end)]
  }

  function SliceAll(ts: seq<Table>, start: Bytes, end: Bytes): seq<Table> {
    if ts == [] then []
    else SliceAll(ts[..|ts| - 1], start, end) + [SliceSource(Clip(ts[|ts| - 1], start, end))]
  }

  function ScanSources(s: State, start: Bytes, end: Bytes): seq<Table> {
    ClipAll(Lsm.TablesOf(s.files), start, end) + SliceAll(Memory(s), start, end)
  }

  /** Without tombstones. */
  function Visible(t: Table): Table {
    if t == [] then []
    else Visible(t[..|t| - 1]) + if t[|t| - 1].value.Some? then [t[|t| - 1]] else []
  }

  function Scan(s: State, start: Bytes, end: Bytes): Table {
    Visible(Lsm.MergedTable(ScanSources(s, start, end)))
  }

  /** What a scan should list: in ascending order, exactly the keys of the range that `Get` finds, each
      with the value `Get` returns. */
  ghost predicate Lists(out: Table, s: State, start: Bytes, end: Bytes) {
    && Ascending(out)
    && forall k :: Lookup(out, k) == if InRange(k, start, end) && Get(s, k).Some? then Some(Get(s, k)) else None
  }

  /** A memtable that holds the empty key is hidden from a scan without a start. */
  function Seen(t: Table, start: Bytes): Table {
    if start == [] && t != [] && t[0].key == [] then [] else t
  }

  /** What is left for a scan to read. */
  function Unhidden(s: State, start: Bytes): State {
    State(Seen(s.active, start), if s.dirty.None? then None else Some(Seen(s.dirty.value, start)), s.files)
  }

  /** The scan reads `k` as `Get` does: the copy does not turn an empty value into a missing one, and no
      hidden memtable holds another answer. */
  ghost predicate ReadsAlike(s: State, start: Bytes, k: Bytes) {
    var left := Unhidden(s, start);
    if Newest(Memory(left), k) == Some(Some([])) then Get(s, k).None? else Get(left, k) == Get(s, k)
  }

  lemma {:induction false} CopiedKeys(t: Table)
    ensures |Copied(t)| == |t| && forall i :: 0 <= i < |t| ==> Copied(t)[i].key == t[i].key
  {
    if t != [] { CopiedKeys(t[..|t| - 1]); }
  }

  lemma {:induction false} CopiedLookup(t: Table, k: Bytes)
    requires Ascending(t)
    ensures Ascending(Copied(t))
    ensures Lookup(Copied(t), k) == if Lookup(t, k).Some? then Some(Shown(Lookup(t, k).value)) else None
  {
    CopiedKeys(t);
    if t != [] {
      var init, e := t[..|t| - 1], t[|t| - 1];
      assert t == init + [e];
      CopiedLookup(init, k);
      LookupConcat(init, [e], k);
      LookupConcat(Copied(init), [Entry(e.key, Shown(e.value))], k);
    }
  }

  lemma {:induction false} VisibleMembers(t: Table, e: Entry)
    ensures e in Visible(t) <==> e in t && e.value.Some?
  {
    if t != [] {
      VisibleMembers(t[..|t| - 1], e);
      assert t == t[..|t| - 1] + [t[|t| - 1]];
    }
  }

  lemma {:induction false} VisibleAscending(t: Table)
    requires Ascending(t)
    ensures Ascending(Visible(t))
  {
    if t != [] {
      var init, e := t[..|t| - 1], t[|t| - 1];
      VisibleAscending(init);
      var last := if e.value.Some? then [e] else [];
      forall i, j | 0 <= i < |Visible(init)| && 0 <= j < |last| ensures Lt(Visible(init)[i].key, last[j].key) {
        VisibleMembers(init, Visible(init)[i]);
      }
      AscendingConcat(Visible(init), last);
    }
  }

  lemma {:induction false} LastKeyIsNew(init: Table, e: Entry)
    requires Ascending(init + [e])
    ensures Lookup(init, e.key).None?
  {
    AscendingParts(init, [e]);
    assert forall i :: 0 <= i < |init| ==> Lt(init[i].key, [e][0].key);
    LookupAbsentAbove(init, e.key);
  }

  lemma {:induction false} VisibleLookup(t: Table, k: Bytes)
    requires Ascending(t)
    ensures Lookup(Visible(t), k) == if Lookup(t, k).Some? && Lookup(t, k).value.Some? then Lookup(t, k) else None
  {
    if t != [] {
      var init, e := t[..|t| - 1], t[|t| - 1];
      assert t == init + [e];
      VisibleLookup(init, k);
      LookupConcat(init, [e], k);
      LookupConcat(Visible(init), if e.value.Some? then [e] else [], k);
      LastKeyIsNew(init, e);
    }
  }

  lemma {:induction false} ClipAllAnswers(ts: seq<Table>, start: Bytes, end: Bytes, k: Bytes)
    requires forall i :: 0 <= i < |ts| ==> Ascending(ts[i])
    ensures var c := ClipAll(ts, start, end);
            |c| == |ts| && (forall i :: 0 <= i < |c| ==> Ascending(c[i])) &&
            Newest(c, k) == if InRange(k, start, end) then Newest(ts, k) else None
  {
    hide Ascending, InRange;
    if ts != [] {
      var init, t := ts[..|ts| - 1], ts[|ts| - 1];
      ClipAllAnswers(init, start, end, k);
      ClipAnswers(t, start, end);
      var c := ClipAll(ts, start, end);
      assert c[..|c| - 1] == ClipAll(init, start, end);
    }
  }

  /** The empty key is the least. */
  lemma {:induction false} EmptyKeyFirst(t: Table)
    requires Ascending(t)
    ensures Lookup(t, []).Some? <==> t != [] && t[0].key == []
  {
    if t != [] && t[0].key != [] {
      forall i | 0 <= i < |t| ensures Lt([], t[i].key) { if i > 0 { LtTransitive([], t[0].key, t[i].key); } }
      LookupAbsentBelow(t, []);
    }
  }

  lemma {:induction false} SliceSourceAnswers(t: Table, start: Bytes, end: Bytes, k: Bytes)
    requires Ascending(t)
    ensures var c, seen := SliceSource(Clip(t, start, end)), Seen(t, start);
            Ascending(c) && Ascending(seen) &&
            Lookup(c, k) ==
            if InRange(k, start, end) && Lookup(seen, k).Some? then Some(Shown(Lookup(seen, k).value)) else None
  {
    var c := Clip(t, start, end);
    ClipAnswers(t, start, end);
    EmptyKeyFirst(t);
    EmptyKeyFirst(c);
    assert InRange([], start, end) <==> start == [];
    CopiedLookup(c, k);
  }

  function SeenAll(ts: seq<Table>, start: Bytes): seq<Table> {
    if ts == [] then [] else SeenAll(ts[..|ts| - 1], start) + [Seen(ts[|ts| - 1], start)]
  }

  lemma {:induction false} SliceAllAnswers(ts: seq<Table>, start: Bytes, end: Bytes, k: Bytes)
    requires forall i :: 0 <= i < |ts| ==> Ascending(ts[i])
    ensures var c, seen := SliceAll(ts, start, end), SeenAll(ts, start);
            |c| == |ts| == |seen| && (forall i :: 0 <= i < |c| ==> Ascending(c[i])) &&
            Newest(c, k) ==
            if InRange(k, start, end) && Newest(seen, k).Some? then Some(Shown(Newest(seen, k).value)) else None
  {
    hide Ascending, InRange, Lookup, Seen;
    if ts != [] {
      var init, t := ts[..|ts| - 1], ts[|ts| - 1];
      SliceAllAnswers(init, start, end, k);
      SliceSourceAnswers(t, start, end, k);
      var c, seen := SliceAll(ts, start, end), SeenAll(ts, start);
      assert c[..|c| - 1] == SliceAll(init, start, end) && seen[..|seen| - 1] == SeenAll(init, start);
    }
  }

  lemma {:induction false} SeenMemory(s: State, start: Bytes)
    ensures Memory(Unhidden(s, start)) == SeenAll(Memory(s), start)
  {
    hide Seen;
    var m := Memory(s);
    assert SeenAll([], start) == [];
    if s.dirty.Some? {
      var one := [s.dirty.value];
      assert m[..|m| - 1] == one && one[..|one| - 1] == [];
      assert SeenAll(one, start) == [] + [Seen(s.dirty.value, start)];
    } else {
      assert m[..0] == [];
    }
  }

  /** What the merge of a scan answers: files as they are, memtables that are not hidden through the copy. */
  lemma {:induction false} ScanMergeAnswers(s: State, start: Bytes, end: Bytes, k: Bytes)
    requires Sorted(s)
    ensures forall i :: 0 <= i < |ScanSources(s, start, end)| ==> Ascending(ScanSources(s, start, end)[i])
    ensures var m := Newest(Memory(Unhidden(s, start)), k);
            Newest(ScanSources(s, start, end), k) ==
            if !InRange(k, start, end) then None
            else if m.Some? then Some(Shown(m.value))
            else Lsm.Answer(s.files, k)
  {
    hide Ascending, Newest, InRange, Seen;
    var ts, ms := Lsm.TablesOf(s.files), Memory(s);
    ClipAllAnswers(ts, start, end, k);
    SliceAllAnswers(ms, start, end, k);
    SeenMemory(s, start);
    NewestConcat(ClipAll(ts, start, end), SliceAll(ms, start, end), k);
  }

  /** What a scan lists for a key: what `Get` finds once the hidden memtables are left out, unless memory
      holds the empty value. */
  lemma {:induction false} ScanAnswers(s: State, start: Bytes, end: Bytes, k: Bytes)
    requires Sorted(s)
    ensures Ascending(Scan(s, start, end))
    ensures var left := Unhidden(s, start);
            Lookup(Scan(s, start, end), k) ==
            if InRange(k, start, end) && Get(left, k).Some? && Newest(Memory(left), k) != Some(Some([]))
            then Some(Get(left, k)) else None
  {
    hide Ascending, Newest, InRange, Lookup, Find, ScanSources, Seen, Sorted;
    var sources := ScanSources(s, start, end);
    ScanMergeAnswers(s, start, end, k);
    Lsm.MergedTableAnswers(sources);
    VisibleAscending(Lsm.MergedTable(sources));
    VisibleLookup(Lsm.MergedTable(sources), k);
    FindSplit(Unhidden(s, start), k);
  }

  /** A scan lists exactly what `Get` finds in the range if and only if it reads every key of the range
      alike. */
  lemma {:induction false} ScanListsGetIff(s: State, start: Bytes, end: Bytes)
    requires Sorted(s)
    ensures Lists(Scan(s, start, end), s, start, end) <==>
            (forall k :: InRange(k, start, end) ==> ReadsAlike(s, start, k))
  {
    hide Ascending, Newest, InRange, Lookup, Scan, Find, Seen;
    ScanAnswers(s, start, end, []);
    forall k ensures
      (Lookup(Scan(s, start, end), k) == if InRange(k, start, end) && Get(s, k).Some? then Some(Get(s, k)) else None)
      <==> (InRange(k, start, end) ==> ReadsAlike(s, start, k))
    {
      ScanAnswers(s, start, end, k);
      FindSplit(Unhidden(s, start), k);
    }
  }

  /** With no empty key in memory, or with a start, that is: no key of the range has the empty value in
      memory. */
  lemma {:induction false} NothingHiddenIff(s: State, start: Bytes, k: Bytes)
    requires Sorted(s) && (start == [] ==> Newest(Memory(s), []).None?)
    ensures ReadsAlike(s, start, k) <==> Newest(Memory(s), k) != Some(Some([]))
  {
    if start == [] {
      MemorySplit(s, []);
      EmptyKeyFirst(s.active);
      if s.dirty.Some? { EmptyKeyFirst(s.dirty.value); }
    }
    hide Newest, Find, Lookup, Ascending;
    assert Unhidden(s, start) == s;
    FindSplit(s, k);
  }

  /** The empty key in the live memtable, in any state: a scan without a start loses every key whose only
      holder is that table. */
  lemma {:induction false} EmptyKeyHidesMemtable(s: State, end: Bytes, k: Bytes)
    requires Sorted(s) && Lookup(s.active, []).Some? && Lookup(s.active, k).Some?
    requires (s.dirty.Some? ==> Lookup(s.dirty.value, k).None?) && Lsm.Answer(s.files, k).None?
    ensures Find(s, k) == Lookup(s.active, k) && Lookup(Scan(s, [], end), k).None?
  {
    EmptyKeyFirst(s.active);
    var left := Unhidden(s, []);
    assert Lookup(left.active, k).None? && (left.dirty.Some? ==> Lookup(left.dirty.value, k).None?);
    hide Newest, Find, Lookup, Ascending, Scan, Lsm.Answer;
    MemorySplit(s, k);
    MemorySplit(left, k);
    FindSplit(s, k);
    FindSplit(left, k);
    ScanAnswers(s, [], end, k);
  }
}
