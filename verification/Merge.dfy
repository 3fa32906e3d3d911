/** The k-way merge behind compaction and range scans: a heap over the heads of the sources, where
    the source with the largest index is the newest. */
module Merge {
  import opened Bytes
  import opened Tables
  import opened Lsm

  ghost predicate AllAscending(ts: seq<Table>) {
    forall i :: 0 <= i < |ts| ==> Ascending(ts[i])
  }

  predicate AllEmpty(ts: seq<Table>) {
    forall i :: 0 <= i < |ts| ==> ts[i] == []
  }

  /** The sources once every head equal to `k` has been taken. */
  function DropHeads(ts: seq<Table>, k: Bytes): (r: seq<Table>)
    ensures |r| == |ts|
    ensures forall i :: 0 <= i < |ts| ==>
              r[i] == if ts[i] != [] && ts[i][0].key == k then ts[i][1..] else ts[i]
  {
    if ts == [] then []
    else DropHeads(ts[..|ts| - 1], k) +
         [var t := ts[|ts| - 1]; if t != [] && t[0].key == k then t[1..] else t]
  }

  /** `k` is the least key at the head of any source. */
  ghost predicate LeastHead(ts: seq<Table>, k: Bytes) {
    && (exists i :: 0 <= i < |ts| && ts[i] != [] && ts[i][0].key == k)
    && forall i :: 0 <= i < |ts| && ts[i] != [] ==> Le(k, ts[i][0].key)
  }

  // ---- the merge as a function of its remaining sources ----

  lemma {:induction false} LookupAfterHead(t: Table, k: Bytes, q: Bytes)
    requires Ascending(t) && (t != [] ==> Le(k, t[0].key))
    ensures var d := if t != [] && t[0].key == k then t[1..] else t;
            && Ascending(d)
            && (forall e :: e in d ==> Lt(k, e.key))
            && Lookup(t, q) == (if t != [] && t[0].key == k && q == k then Some(t[0].value) else Lookup(d, q))
  {
    var d := if t != [] && t[0].key == k then t[1..] else t;
    forall e | e in d ensures Lt(k, e.key) {
      if e != t[0] || t[0].key == k {
        var i :| 0 <= i < |t| && t[i] == e && (t[0].key == k ==> i > 0);
        if i > 0 && t[0].key != k { LtTransitive(k, t[0].key, t[i].key); }
      }
    }
  }

  /** Taking the least key off every source removes exactly that key from the newest-wins union. */
  lemma {:induction false} NewestAfterHead(ts: seq<Table>, k: Bytes, q: Bytes)
    requires AllAscending(ts)
    requires forall i :: 0 <= i < |ts| && ts[i] != [] ==> Le(k, ts[i][0].key)
    ensures q != k ==> Newest(ts, q) == Newest(DropHeads(ts, k), q)
    ensures Newest(DropHeads(ts, k), k).None?
  {
    if ts != [] {
      var init, t, r := ts[..|ts| - 1], ts[|ts| - 1], DropHeads(ts, k);
      NewestAfterHead(init, k, q);
      assert r[..|r| - 1] == DropHeads(init, k);
      LookupAfterHead(t, k, q);
      LookupAfterHead(t, k, k);
      LookupAbsentBelow(r[|r| - 1], k);
    }
  }

  lemma {:induction false} DropHeadsAscending(ts: seq<Table>, k: Bytes)
    requires AllAscending(ts)
    requires forall i :: 0 <= i < |ts| && ts[i] != [] ==> Le(k, ts[i][0].key)
    ensures AllAscending(DropHeads(ts, k))
    ensures forall i, j :: 0 <= i < |ts| && 0 <= j < |DropHeads(ts, k)[i]| ==> Lt(k, DropHeads(ts, k)[i][j].key)
  {
    forall i | 0 <= i < |ts| ensures Ascending(DropHeads(ts, k)[i])
                             ensures forall e :: e in DropHeads(ts, k)[i] ==> Lt(k, e.key)
    {
      LookupAfterHead(ts[i], k, k);
    }
  }

  /** How far a drain has come: what was output, with what remains, answers like the sources. */
  ghost predicate Drained(sources: seq<Table>, out: Table, rest: seq<Table>) {
    && Ascending(out) && AllAscending(rest)
    && (forall i, j, n :: 0 <= i < |rest| && 0 <= j < |rest[i]| && 0 <= n < |out| ==> Lt(out[n].key, rest[i][j].key))
    && (forall q :: Newest(sources, q) == if Lookup(out, q).Some? then Lookup(out, q) else Newest(rest, q))
  }

  lemma {:induction false} DrainStepOrder(out: Table, rest: seq<Table>, e: Entry)
    requires Ascending(out) && AllAscending(rest) && LeastHead(rest, e.key)
    requires forall i, j, n :: 0 <= i < |rest| && 0 <= j < |rest[i]| && 0 <= n < |out| ==>
                                 Lt(out[n].key, rest[i][j].key)
    ensures var next := DropHeads(rest, e.key);
            && Ascending(out + [e]) && AllAscending(next) && (forall n :: 0 <= n < |out| ==> Lt(out[n].key, e.key))
            && forall i, j, n :: 0 <= i < |next| && 0 <= j < |next[i]| && 0 <= n < |out + [e]| ==>
                 Lt((out + [e])[n].key, next[i][j].key)
  {
    hide Lt;
    var next: seq<Table> := DropHeads(rest, e.key);
    DropHeadsAscending(rest, e.key);
    var i :| 0 <= i < |rest| && rest[i] != [] && rest[i][0].key == e.key;
    assert forall n :: 0 <= n < |out| ==> Lt(out[n].key, rest[i][0].key);
    AscendingConcat(out, [e]);
    forall s: int, j: int, n: int | 0 <= s < |next| && 0 <= j < |next[s]| && 0 <= n < |out + [e]|
      ensures Lt((out + [e])[n].key, next[s][j].key)
    {
      assert Lt(e.key, next[s][j].key);
      if n < |out| { LtTransitive(out[n].key, e.key, next[s][j].key); }
    }
  }

  lemma {:induction false} DrainStep(sources: seq<Table>, out: Table, rest: seq<Table>, e: Entry)
    requires Drained(sources, out, rest)
    requires LeastHead(rest, e.key) && Newest(rest, e.key) == Some(e.value)
    ensures Drained(sources, out + [e], DropHeads(rest, e.key))
  {
    hide Lt, Newest, Lookup, DropHeads, Le;
    var next: seq<Table> := DropHeads(rest, e.key);
    DrainStepOrder(out, rest, e);
    forall q
      ensures Newest(sources, q) == if Lookup(out + [e], q).Some? then Lookup(out + [e], q) else Newest(next, q)
    {
      NewestAfterHead(rest, e.key, q);
      LookupConcat(out, [e], q);
      LookupAbsentAbove(out, e.key);
      OneEntry(e, q);
    }
  }

  lemma {:induction false} OneEntry(e: Entry, q: Bytes)
    ensures Lookup([e], q) == if q == e.key then Some(e.value) else None
  {
  }

  lemma {:induction false} NothingLeft(ts: seq<Table>, q: Bytes)
    requires AllEmpty(ts)
    ensures Newest(ts, q).None?
  {
    if ts != [] { NothingLeft(ts[..|ts| - 1], q); }
  }

  /** An exhausted drain has output the merged table: ascending, exactly the union of the source keys,
      each with the value of the newest source that holds it. */
  lemma {:induction false} DrainEnd(sources: seq<Table>, out: Table, rest: seq<Table>)
    requires AllAscending(sources) && Drained(sources, out, rest) && AllEmpty(rest)
    ensures out == MergedTable(sources)
  {
    MergedTableAnswers(sources);
    forall q ensures Lookup(out, q) == Lookup(MergedTable(sources), q) { NothingLeft(rest, q); }
    TablesWithEqualAnswersAreEqual(out, MergedTable(sources));
  }

  // ---- the iterator ----

  lemma {:induction false} AscendingExtends(t: Table, n: nat)
    requires n < |t| && Ascending(t[..n]) && (n > 0 ==> Lt(t[n - 1].key, t[n].key))
    ensures Ascending(t[..n + 1])
  {
    forall i | 0 <= i < n ensures Lt(t[i].key, t[n].key) {
      if i < n - 1 {
        assert t[..n][i] == t[i] && t[..n][n - 1] == t[n - 1];
        LtTransitive(t[i].key, t[n - 1].key, t[n].key);
      }
    }
    assert t[..n + 1] == t[..n] + [t[n]];
    AscendingConcat(t[..n], [t[n]]);
  }

  /** A source's head, if it waits in the heap, and everything after it. */
  function Pending(t: Table, pos: nat, waiting: bool): Table {
    if waiting && 0 < pos <= |t| then t[pos - 1..] else []
  }

  function RestOf(sources: seq<Table>, pos: seq<nat>, heap: set<nat>): (ts: seq<Table>)
    requires |pos| == |sources|
  {
    seq(|sources|, i requires 0 <= i < |sources| => Pending(sources[i], pos[i], i in heap))
  }

  class MergeIterator {
    const sources: seq<Table>
    /** How many entries each source has handed over; the last of them is its head while in the heap. */
    var pos: seq<nat>
    /** The sources whose head waits in the heap. */
    var heap: set<nat>
    var cur: Entry
    var err: bool

    ghost predicate Valid()
      reads this`pos, this`heap, this`err
    {
      && |pos| == |sources|
      && (forall i :: 0 <= i < |pos| ==> pos[i] <= |sources[i]| && Ascending(sources[i][..pos[i]]))
      && (forall i :: i in heap ==> i < |pos| && pos[i] > 0)
      && (!err ==> forall i :: 0 <= i < |pos| && i !in heap ==> pos[i] == |sources[i]|)
    }

    ghost function Remaining(i: nat): Table
      requires Valid() && i < |sources|
      reads this`pos, this`heap, this`err
    {
      Pending(sources[i], pos[i], i in heap)
    }

    ghost function Rest(): (ts: seq<Table>)
      requires Valid()
      reads this`pos, this`heap, this`err
      ensures |ts| == |sources| && forall i :: 0 <= i < |ts| ==> ts[i] == Remaining(i)
    {
      RestOf(sources, pos, heap)
    }

    function Head(i: nat): Entry
      requires Valid() && i in heap
      reads this`pos, this`heap, this`err
    {
      sources[i][pos[i] - 1]
    }

    /** The heap order: least key first, and of equal keys the newest source first. */
    predicate Less(i: nat, j: nat)
      requires Valid() && i in heap && j in heap
      reads this`pos, this`heap, this`err
    {
      if Head(i).key != Head(j).key then Lt(Head(i).key, Head(j).key) else i > j
    }

    constructor (iters: seq<Table>)
      ensures Valid() && sources == iters
      ensures err ==> !AllAscending(iters)
      ensures !err ==> Rest() == iters
    {
      sources, pos, heap, err := iters, seq(|iters|, _ => 0), {}, false;
      cur := Entry([], None);
      new;
      var i := 0;
      while i < |sources|
        invariant 0 <= i <= |sources| && |pos| == |sources| && !err
        invariant forall j :: 0 <= j < i ==> pos[j] == (if sources[j] == [] then 0 else 1)
        invariant forall j :: i <= j < |sources| ==> pos[j] == 0
        invariant forall j :: j in heap <==> 0 <= j < i && sources[j] != []
      {
        if sources[i] != [] {
          pos := pos[i := 1];
          heap := heap + {i};
        }
        i := i + 1;
      }
    }

    /** `advance`: fetch the next entry of source `i`, which has just left the heap, and push the
        source back unless it is exhausted. A key that does not ascend is an error. */
    method Advance(i: nat)
      requires Valid() && !err && i in heap
      modifies this`pos, this`heap, this`err
      ensures Valid()
      ensures err <==> pos[i] < |sources[i]| && i !in heap
      ensures err ==> !Ascending(sources[i])
      ensures !err ==> Remaining(i) == old(Remaining(i))[1..]
      ensures !err && Remaining(i) != [] ==> Lt(old(Head(i)).key, Remaining(i)[0].key)
      ensures forall j :: 0 <= j < |sources| && j != i ==> Remaining(j) == old(Remaining(j))
    {
      heap := heap - {i};
      var n := pos[i];
      if n < |sources[i]| {
        if !Lt(sources[i][n - 1].key, sources[i][n].key) {
          err := true;
          return;
        }
        AscendingExtends(sources[i], n);
        pos := pos[i := n + 1];
        heap := heap + {i};
      }
    }

    /** The source that `heap.Pop` would take. */
    method Least() returns (top: nat)
      requires Valid() && heap != {}
      ensures top in heap
      ensures forall j :: j in heap && j != top ==> Less(top, j)
    {
      top :| top in heap;
      var j := 0;
      while j < |sources|
        invariant 0 <= j <= |sources| && top in heap
        invariant forall m :: 0 <= m < j && m in heap && m != top ==> Less(top, m)
      {
        if j in heap && j != top && Less(j, top) {
          forall m | 0 <= m < j && m in heap && m != j ensures Less(j, m) { LessTransitive(j, top, m); }
          top := j;
        } else if j in heap && j != top {
          LtTotal(Head(top).key, Head(j).key);
        }
        j := j + 1;
      }
    }

    lemma {:induction false} LessTransitive(a: nat, b: nat, c: nat)
      requires Valid() && a in heap && b in heap && c in heap
      requires Less(a, b) && (b == c || Less(b, c))
      ensures Less(a, c)
    {
      LtTrichotomy(Head(a).key, Head(b).key);
      LtTrichotomy(Head(b).key, Head(c).key);
      if b != c && Head(a).key != Head(b).key && Head(b).key != Head(c).key {
        LtTransitive(Head(a).key, Head(b).key, Head(c).key);
        LtTrichotomy(Head(a).key, Head(c).key);
      }
    }

    /** `Next`: output the least head, from the newest of the sources that share it, and discard the
        older duplicates. */
    method Next() returns (ok: bool)
      requires Valid()
      modifies this
      ensures Valid()
      ensures ok ==> !err && LeastHead(old(Rest()), cur.key) && Rest() == DropHeads(old(Rest()), cur.key)
      ensures ok && AllAscending(sources) ==> Newest(old(Rest()), cur.key) == Some(cur.value)
      ensures !ok && !err ==> heap == {} && Rest() == old(Rest())
      ensures err && !old(err) ==> !AllAscending(sources)
      ensures old(err) ==> err
    {
      if err || heap == {} {
        return false;
      }
      ghost var rest := Rest();
      var top := Least();
      LeastIsNewest(top);
      cur := Head(top);
      StartDiscarding(top);
      DiscardOne(top, cur.key, rest, Duplicates(rest, cur.key));
      if !err { DiscardDuplicates(cur.key, rest, Duplicates(rest, cur.key) - {top}); }
      ok := !err;
    }

    lemma {:induction false} StartDiscarding(top: nat)
      requires Valid() && top in heap && LeastHead(Rest(), Head(top).key)
      ensures Discarding(Rest(), Duplicates(Rest(), Head(top).key), Head(top).key)
    {
    }

    /** While duplicates of `k` are being discarded: those in `dups` still wait, all others are done. */
    ghost predicate Discarding(rest: seq<Table>, dups: set<nat>, k: Bytes)
      requires Valid()
      reads this`pos, this`heap, this`err
    {
      && |rest| == |sources|
      && (forall i :: i in dups ==> i < |rest| && rest[i] != [] && rest[i][0].key == k && Remaining(i) == rest[i])
      && (forall i :: 0 <= i < |rest| && i !in dups ==>
            Remaining(i) == DropHeads(rest, k)[i] && (Remaining(i) != [] ==> Lt(k, Remaining(i)[0].key)))
    }

    /** The loop in `Next` that pops and advances every older head equal to `k`. */
    method DiscardDuplicates(k: Bytes, ghost rest: seq<Table>, ghost waiting: set<nat>)
      requires Valid() && !err && Discarding(rest, waiting, k)
      modifies this`pos, this`heap, this`err
      ensures Valid()
      ensures err ==> !AllAscending(sources)
      ensures !err ==> Rest() == DropHeads(rest, k)
    {
      ghost var dups := waiting;
      var more := heap != {};
      while more
        invariant Valid() && (err ==> !AllAscending(sources) && !more)
        invariant !err ==> Discarding(rest, dups, k)
        invariant !err && !more ==> NoneWaits(k)
        invariant more ==> heap != {}
        decreases more, dups
      {
        var dup := Least();
        if Head(dup).key == k {
          DiscardOne(dup, k, rest, dups);
          dups := dups - {dup};
          more := !err && heap != {};
        } else {
          LeastDiffers(dup, rest, dups, k);
          more := false;
        }
      }
      if !err { AllDiscarded(rest, dups, k); }
    }

    /** No head in the heap equals `k`. */
    ghost predicate NoneWaits(k: Bytes)
      requires Valid()
      reads this`pos, this`heap, this`err
    {
      forall i :: i in heap ==> Head(i).key != k
    }

    method DiscardOne(dup: nat, k: Bytes, ghost rest: seq<Table>, ghost dups: set<nat>)
      requires Valid() && !err && Discarding(rest, dups, k)
      requires dup in heap && Head(dup).key == k
      modifies this`pos, this`heap, this`err
      ensures Valid() && dup in dups
      ensures err ==> !AllAscending(sources)
      ensures !err ==> Discarding(rest, dups - {dup}, k)
    {
      assert Remaining(dup)[0] == Head(dup);
      LtIrreflexive(k);
      hide Lt, Ascending;
      Advance(dup);
    }

    lemma {:induction false} LeastDiffers(least: nat, rest: seq<Table>, dups: set<nat>, k: Bytes)
      requires Valid() && Discarding(rest, dups, k)
      requires least in heap && Head(least).key != k
      requires forall j :: j in heap && j != least ==> Less(least, j)
      ensures NoneWaits(k)
    {
      assert Remaining(least)[0] == Head(least);
      assert Lt(k, Head(least).key);
      forall i | i in heap ensures Head(i).key != k {
        if Head(i).key == k {
          assert Less(least, i);
          LtTrichotomy(k, Head(least).key);
        }
      }
    }

    lemma {:induction false} AllDiscarded(rest: seq<Table>, dups: set<nat>, k: Bytes)
      requires Valid() && Discarding(rest, dups, k) && NoneWaits(k)
      ensures Rest() == DropHeads(rest, k)
    {
      forall i | 0 <= i < |sources| ensures i !in dups {
        if i in heap { assert Remaining(i)[0] == Head(i); }
      }
    }

    /** The popped head is a least key and carries the value of the newest source holding that key. */
    lemma {:induction false} LeastIsNewest(top: nat)
      requires Valid() && top in heap
      requires forall j :: j in heap && j != top ==> Less(top, j)
      ensures LeastHead(Rest(), Head(top).key)
      ensures forall i :: 0 <= i < |sources| && i != top && Remaining(i) != [] ==>
                Remaining(i)[0].key == Head(top).key || Lt(Head(top).key, Remaining(i)[0].key)
      ensures AllAscending(sources) ==> Newest(Rest(), Head(top).key) == Some(Head(top).value)
    {
      var k := Head(top).key;
      assert Rest()[top][0].key == k;
      forall i | 0 <= i < |sources| && Remaining(i) != [] ensures Le(k, Remaining(i)[0].key) {
        assert i == top || Less(top, i);
      }
      if AllAscending(sources) {
        forall j | top < j < |sources| ensures Lookup(Rest()[j], k).None? {
          assert j in heap ==> Less(top, j);
          TailAbove(sources[j], if j in heap then pos[j] - 1 else |sources[j]|, k);
        }
        NewestAt(Rest(), top, k);
      }
    }
  }

  function Duplicates(rest: seq<Table>, k: Bytes): set<nat> {
    set i: nat | i < |rest| && rest[i] != [] && rest[i][0].key == k
  }

  lemma {:induction false} TailAbove(t: Table, n: nat, k: Bytes)
    requires Ascending(t) && n <= |t| && (n < |t| ==> Lt(k, t[n].key))
    ensures Lookup(t[n..], k).None?
  {
    forall e | e in t[n..] ensures Lt(k, e.key) {
      var i :| n <= i < |t| && t[i] == e;
      if i > n { LtTransitive(k, t[n].key, t[i].key); }
    }
    LookupAbsentBelow(t[n..], k);
  }

  lemma {:induction false} NewestAt(ts: seq<Table>, top: nat, k: Bytes)
    requires top < |ts| && ts[top] != [] && ts[top][0].key == k
    requires forall j :: top < j < |ts| ==> Lookup(ts[j], k).None?
    ensures Newest(ts, k) == Some(ts[top][0].value)
  {
    if top < |ts| - 1 { NewestAt(ts[..|ts| - 1], top, k); }
  }

  /** How many entries are still to come. */
  function Left(ts: seq<Table>): nat {
    if ts == [] then 0 else Left(ts[..|ts| - 1]) + |ts[|ts| - 1]|
  }

  lemma {:induction false} LeftShrinks(ts: seq<Table>, k: Bytes)
    ensures Left(DropHeads(ts, k)) <= Left(ts)
    ensures (exists i :: 0 <= i < |ts| && ts[i] != [] && ts[i][0].key == k) ==> Left(DropHeads(ts, k)) < Left(ts)
  {
    if ts != [] {
      var r := DropHeads(ts, k);
      LeftShrinks(ts[..|ts| - 1], k);
      assert r[..|r| - 1] == DropHeads(ts[..|ts| - 1], k);
    }
  }

  lemma {:induction false} AllRead(it: MergeIterator)
    requires it.Valid() && !it.err && it.heap == {}
    ensures AllAscending(it.sources)
  {
    forall i | 0 <= i < |it.sources| ensures Ascending(it.sources[i]) {
      assert it.sources[i][..it.pos[i]] == it.sources[i];
    }
  }

  /** `Drained`, for sources that can be merged at all. */
  ghost predicate Progress(sources: seq<Table>, out: Table, rest: seq<Table>) {
    AllAscending(sources) ==> Drained(sources, out, rest)
  }

  method Emit(it: MergeIterator, out: Table) returns (more: bool, next: Table)
    requires it.Valid() && !it.err && Progress(it.sources, out, it.Rest())
    modifies it
    ensures it.Valid() && (it.err ==> !AllAscending(it.sources) && !more)
    ensures !it.err ==> Progress(it.sources, next, it.Rest())
    ensures !it.err && !more ==> it.heap == {}
    ensures more ==> Left(it.Rest()) < Left(old(it.Rest()))
  {
    ghost var rest := it.Rest();
    more := it.Next();
    next := out;
    if more {
      next := out + [it.cur];
      assert Progress(it.sources, next, it.Rest()) by {
        if AllAscending(it.sources) { DrainStep(it.sources, out, rest, it.cur); }
      }
      LeftShrinks(rest, it.cur.key);
    }
  }

  /** Draining a merge, as compaction does: the run fails exactly when some source is not strictly
      ascending, and otherwise outputs the merged table. */
  method MergeAll(sources: seq<Table>) returns (out: Table, err: bool)
    ensures err <==> !AllAscending(sources)
    ensures !err ==> out == MergedTable(sources)
  {
    hide Lt, Ascending, Drained, MergedTable, AllAscending;
    var it := new MergeIterator(sources);
    out := [];
    var more := !it.err;
    if more { StartDrain(sources); }
    while more
      invariant it.Valid() && it.sources == sources && (it.err ==> !AllAscending(sources) && !more)
      invariant !it.err ==> Progress(sources, out, it.Rest())
      invariant !it.err && !more ==> it.heap == {}
      decreases more, Left(it.Rest())
    {
      more, out := Emit(it, out);
    }
    err := it.err;
    if !err {
      AllRead(it);
      DrainEnd(sources, out, it.Rest());
    }
  }

  lemma {:induction false} StartDrain(sources: seq<Table>)
    ensures Progress(sources, [], sources)
  {
  }
}
