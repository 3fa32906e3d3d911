/** Reading versions back: range scans over storage keys, the latest version, as-of reads, and the
    replay that reconciles versions with pointers. */
module TemporalReads {
  import opened Bytes
  import opened VersionKeys
  import opened Temporal

  datatype Pair = Pair(key: Bytes, cell: Cell)

  datatype Stored = Stored(seqNo: nat, version: Version)

  ghost predicate Sorted(ps: seq<Pair>) {
    forall i, j :: 0 <= i < j < |ps| ==> Lt(ps[i].key, ps[j].key)
  }

  /** `ps` lists the store in key order, as a scan over everything would. */
  ghost predicate Lists(ps: seq<Pair>, cells: Cells) {
    Sorted(ps) && forall k, c :: Pair(k, c) in ps <==> k in cells && cells[k] == c
  }

  /** A scan of a closed range: in key order, exactly the entries in range. */
  ghost predicate Scans(raw: seq<Pair>, cells: Cells, lo: Bytes, hi: Bytes) {
    Sorted(raw) && forall k, c :: Pair(k, c) in raw <==> k in cells && cells[k] == c && Le(lo, k) && Le(k, hi)
  }

  method ScanRaw(ps: seq<Pair>, lo: Bytes, hi: Bytes, ghost cells: Cells) returns (raw: seq<Pair>)
    requires Lists(ps, cells)
    ensures Scans(raw, cells, lo, hi)
  {
    hide Lt;
    raw := [];
    var i := 0;
    while i < |ps|
      invariant 0 <= i <= |ps| && Sorted(raw)
      invariant forall p :: p in raw ==> p in ps[..i]
      invariant forall p :: p in ps[..i] ==> (p in raw <==> Le(lo, p.key) && Le(p.key, hi))
    {
      var p := ps[i];
      assert ps[..i + 1] == ps[..i] + [p];
      if (lo == p.key || Lt(lo, p.key)) && (p.key == hi || Lt(p.key, hi)) {
        assert forall q :: q in raw ==> Lt(q.key, p.key);
        assert forall j :: 0 <= j < |raw| ==> raw[j] in raw;
        raw := raw + [p];
      }
      i := i + 1;
    }
    assert ps[..i] == ps;
  }

  // ---- the versions of one logical key ----

  ghost predicate Ascending(vs: seq<Stored>) {
    forall i, j :: 0 <= i < j < |vs| ==> vs[i].seqNo < vs[j].seqNo
  }

  /** Exactly the stored versions of `l`, by number. */
  ghost predicate VersionsOf(vs: seq<Stored>, cells: Cells, l: Bytes) {
    && Ascending(vs)
    && forall x :: x in vs <==> x.seqNo <= MAX_SEQ && Holds(cells, VersionKey(l, x.seqNo), Rec(x.version))
  }

  /** What one scanned entry contributes to the versions of `l`. */
  function Taken(p: Pair, l: Bytes): Option<Stored> {
    match ParseKey(p.key)
    case None => None
    case Some((logical, n)) => if logical == l && p.cell.Rec? then Some(Stored(n, p.cell.version)) else None
  }

  lemma {:induction false} TakenIs(p: Pair, l: Bytes, x: Stored)
    ensures Taken(p, l) == Some(x) <==> x.seqNo <= MAX_SEQ && p == Pair(VersionKey(l, x.seqNo), Rec(x.version))
  {
    hide VersionKey;
    if Taken(p, l) == Some(x) { ParsedIsKey(p.key); }
    if x.seqNo <= MAX_SEQ { KeyRoundTrip(l, x.seqNo); }
  }

  lemma {:induction false} TakenAscend(p: Pair, q: Pair, l: Bytes)
    requires Taken(p, l).Some? && Taken(q, l).Some? && Lt(p.key, q.key)
    ensures Taken(p, l).value.seqNo < Taken(q, l).value.seqNo
  {
    hide Taken, VersionKey;
    TakenIs(p, l, Taken(p, l).value);
    TakenIs(q, l, Taken(q, l).value);
    var m, n := Taken(p, l).value.seqNo, Taken(q, l).value.seqNo;
    LtTrichotomy(p.key, q.key);
    if n < m { VersionsAscend(l, n, m); }
  }

  /** `ListVersions`: scan between the bounds of `l`, keep what parses back to `l`. The scan already
      returns versions by number, so sorting them changes nothing. */
  method ListVersions(ps: seq<Pair>, l: Bytes, ghost cells: Cells) returns (out: seq<Stored>)
    requires Lists(ps, cells)
    ensures VersionsOf(out, cells, l)
  {
    hide Lt, Lists, Sorted, Taken, VersionKey;
    var raw := ScanRaw(ps, VersionKey(l, 0), VersionKey(l, MAX_SEQ), cells);
    out := [];
    var i := 0;
    assert raw[..0] == [];
    while i < |raw|
      invariant 0 <= i <= |raw| && Collected(out, raw[..i], l)
      decreases |raw| - i
    {
      CollectOne(out, raw, i, l);
      var t := Taken(raw[i], l);
      if t.Some? { out := out + [t.value]; }
      i := i + 1;
    }
    assert raw[..i] == raw;
    AllCollected(out, raw, cells, l);
  }

  ghost predicate Collected(out: seq<Stored>, raw: seq<Pair>, l: Bytes) {
    && Ascending(out)
    && (forall x :: x in out ==> exists p :: p in raw && Taken(p, l) == Some(x))
    && (forall p :: p in raw && Taken(p, l).Some? ==> Taken(p, l).value in out)
  }

  lemma {:induction false} CollectOne(out: seq<Stored>, raw: seq<Pair>, i: nat, l: Bytes)
    requires i < |raw| && Sorted(raw) && Collected(out, raw[..i], l)
    ensures Collected(if Taken(raw[i], l).Some? then out + [Taken(raw[i], l).value] else out, raw[..i + 1], l)
  {
    hide Lt, Taken;
    assert raw[..i + 1] == raw[..i] + [raw[i]];
    if Taken(raw[i], l).Some? {
      forall j | 0 <= j < |out| ensures out[j].seqNo < Taken(raw[i], l).value.seqNo {
        assert out[j] in out;
        var p :| p in raw[..i] && Taken(p, l) == Some(out[j]);
        TakenAscend(p, raw[i], l);
      }
    }
  }

  lemma {:induction false} AllCollected(out: seq<Stored>, raw: seq<Pair>, cells: Cells, l: Bytes)
    requires Scans(raw, cells, VersionKey(l, 0), VersionKey(l, MAX_SEQ)) && Collected(out, raw, l)
    ensures VersionsOf(out, cells, l)
  {
    hide Lt, Taken, VersionKey, Sorted;
    forall x ensures x in out <==> x.seqNo <= MAX_SEQ && Holds(cells, VersionKey(l, x.seqNo), Rec(x.version)) {
      var p := Pair(VersionKey(l, x.seqNo), Rec(x.version));
      TakenIs(p, l, x);
      if x in out {
        var q :| q in raw && Taken(q, l) == Some(x);
        TakenIs(q, l, x);
      }
      if x.seqNo <= MAX_SEQ && Holds(cells, VersionKey(l, x.seqNo), Rec(x.version)) {
        BoundsEnclose(l, x.seqNo);
        assert p in raw;
      }
    }
  }

  /** `Latest`: the version with the greatest number. */
  method Latest(vs: seq<Stored>) returns (best: Option<Stored>)
    ensures best.None? <==> vs == []
    ensures best.Some? ==> best.value in vs && forall x :: x in vs ==> x.seqNo <= best.value.seqNo
  {
    if |vs| == 0 { return None; }
    var b := vs[0];
    var i := 1;
    while i < |vs|
      invariant 1 <= i <= |vs| && b in vs && forall j :: 0 <= j < i ==> vs[j].seqNo <= b.seqNo
    {
      if vs[i].seqNo > b.seqNo { b := vs[i]; }
      i := i + 1;
    }
    return Some(b);
  }

  /** `AsOf`: among the versions written by `t`, the one with the greatest number; never a later write. */
  method AsOf(vs: seq<Stored>, t: int) returns (best: Option<Stored>)
    ensures best.None? <==> forall x :: x in vs ==> x.version.nanos > t
    ensures best.Some? ==> best.value in vs && best.value.version.nanos <= t &&
                           forall x :: x in vs && x.version.nanos <= t ==> x.seqNo <= best.value.seqNo
  {
    best := None;
    var i := 0;
    while i < |vs|
      invariant 0 <= i <= |vs|
      invariant best.None? <==> forall j :: 0 <= j < i ==> vs[j].version.nanos > t
      invariant best.Some? ==> best.value in vs && best.value.version.nanos <= t &&
                               forall j :: 0 <= j < i && vs[j].version.nanos <= t ==> vs[j].seqNo <= best.value.seqNo
    {
      if vs[i].version.nanos <= t && (best.None? || vs[i].seqNo > best.value.seqNo) { best := Some(vs[i]); }
      i := i + 1;
    }
  }

  // ---- reconciliation ----

  /** `x` is the stored version of `l` with the greatest number. */
  ghost predicate Newest(x: Stored, cells: Cells, l: Bytes) {
    && x.seqNo <= MAX_SEQ && Holds(cells, VersionKey(l, x.seqNo), Rec(x.version))
    && forall n: nat, v :: n <= MAX_SEQ && Holds(cells, VersionKey(l, n), Rec(v)) ==> n <= x.seqNo
  }

  /** What an unbounded replay reports for a logical key: no version at all, or a newest version that the
      pointer does not name with its hash. */
  ghost predicate Mismatched(cells: Cells, l: Bytes, hash: Bytes -> Bytes) {
    !exists x :: Newest(x, cells, l) && Holds(cells, CurrentKey(l), Pointer(x.seqNo, hash(x.version.payload)))
  }

  /** One turn of the loop of `ReplayFingerprint` without a time bound: the newest version, and whether the
      pointer disagrees with it. */
  method Reconcile(ps: seq<Pair>, l: Bytes, pointer: Cell, hash: Bytes -> Bytes, ghost cells: Cells)
    returns (latest: Option<Stored>, bad: bool)
    requires Lists(ps, cells) && Holds(cells, CurrentKey(l), pointer)
    ensures bad <==> Mismatched(cells, l, hash)
    ensures forall x :: Newest(x, cells, l) <==> latest == Some(x)
  {
    hide Lists, VersionKey, CurrentKey;
    var vs := ListVersions(ps, l, cells);
    latest := Latest(vs);
    if latest.None? {
      NothingNewest(vs, cells, l);
      return latest, true;
    }
    LatestIsNewest(vs, latest.value, cells, l);
    bad := pointer != Pointer(latest.value.seqNo, hash(latest.value.version.payload));
  }

  /** `x` is the version of `l` known at `asOf`; zero or less asks for the newest. */
  ghost predicate Known(x: Stored, cells: Cells, l: Bytes, asOf: int) {
    if asOf <= 0 then Newest(x, cells, l)
    else
      && x.seqNo <= MAX_SEQ && Holds(cells, VersionKey(l, x.seqNo), Rec(x.version)) && x.version.nanos <= asOf
      && forall n: nat, v :: n <= MAX_SEQ && Holds(cells, VersionKey(l, n), Rec(v)) && v.nanos <= asOf ==> n <= x.seqNo
  }

  /** The turn with a time bound. */
  method KnownAt(ps: seq<Pair>, l: Bytes, asOf: int, ghost cells: Cells) returns (best: Option<Stored>)
    requires Lists(ps, cells) && asOf > 0
    ensures forall x :: Known(x, cells, l, asOf) <==> best == Some(x)
  {
    hide Lists, VersionKey;
    var vs := ListVersions(ps, l, cells);
    best := AsOf(vs, asOf);
    KnownIs(vs, best, cells, l, asOf);
  }

  lemma {:induction false} KnownIs(vs: seq<Stored>, best: Option<Stored>, cells: Cells, l: Bytes, asOf: int)
    requires VersionsOf(vs, cells, l) && asOf > 0
    requires best.None? <==> forall x :: x in vs ==> x.version.nanos > asOf
    requires best.Some? ==> best.value in vs && best.value.version.nanos <= asOf &&
                            forall x :: x in vs && x.version.nanos <= asOf ==> x.seqNo <= best.value.seqNo
    ensures forall x :: Known(x, cells, l, asOf) <==> best == Some(x)
  {
    hide VersionKey;
    if best.Some? {
      var b := best.value;
      forall n: nat, v | n <= MAX_SEQ && Holds(cells, VersionKey(l, n), Rec(v)) && v.nanos <= asOf
        ensures n <= b.seqNo
      {
        assert Stored(n, v) in vs;
      }
    }
    forall x ensures Known(x, cells, l, asOf) <==> best == Some(x) {
      if Known(x, cells, l, asOf) { assert x in vs; }
    }
  }

  lemma {:induction false} NothingNewest(vs: seq<Stored>, cells: Cells, l: Bytes)
    requires VersionsOf(vs, cells, l) && vs == []
    ensures forall x :: !Newest(x, cells, l)
  {
    forall x ensures !Newest(x, cells, l) { assert x !in vs; }
  }

  lemma {:induction false} LatestIsNewest(vs: seq<Stored>, b: Stored, cells: Cells, l: Bytes)
    requires VersionsOf(vs, cells, l) && b in vs && forall x :: x in vs ==> x.seqNo <= b.seqNo
    ensures Newest(b, cells, l) && forall x :: Newest(x, cells, l) ==> x == b
  {
    hide VersionKey;
    forall n: nat, v | n <= MAX_SEQ && Holds(cells, VersionKey(l, n), Rec(v)) ensures n <= b.seqNo {
      assert Stored(n, v) in vs;
    }
  }

  /** The pointers a replay of `prefix` looks at. */
  ghost predicate Discovered(cells: Cells, prefix: Bytes, l: Bytes) {
    l != [] && CurrentKey(l) in cells && Le(prefix, CurrentKey(l)) && Le(CurrentKey(l), prefix + [255])
  }

  ghost predicate Climbing(ks: seq<Bytes>) {
    forall i, j :: 0 <= i < j < |ks| ==> Lt(ks[i], ks[j])
  }

  /** Insertion into a sorted list of keys. */
  function WithKey(ks: seq<Bytes>, k: Bytes): seq<Bytes> {
    if ks == [] || Lt(ks[|ks| - 1], k) then ks + [k] else WithKey(ks[..|ks| - 1], k) + [ks[|ks| - 1]]
  }

  lemma {:induction false} WithKeyMembers(ks: seq<Bytes>, k: Bytes, x: Bytes)
    ensures x in WithKey(ks, k) <==> x in ks || x == k
  {
    if ks != [] && !Lt(ks[|ks| - 1], k) {
      WithKeyMembers(ks[..|ks| - 1], k, x);
      assert ks == ks[..|ks| - 1] + [ks[|ks| - 1]];
    }
  }

  lemma {:induction false} WithKeyClimbs(ks: seq<Bytes>, k: Bytes)
    requires Climbing(ks) && k !in ks
    ensures Climbing(WithKey(ks, k))
  {
    hide Lt;
    if ks != [] {
      var init, last := ks[..|ks| - 1], ks[|ks| - 1];
      if Lt(last, k) {
        forall i | 0 <= i < |ks| ensures Lt(ks[i], k) { if i < |ks| - 1 { LtTransitive(ks[i], last, k); } }
      } else {
        assert last in ks;
        LtTotal(last, k);
        WithKeyClimbs(init, k);
        var r := WithKey(init, k);
        forall i | 0 <= i < |r| ensures Lt(r[i], last) {
          WithKeyMembers(init, k, r[i]);
          assert r[i] in r;
        }
      }
    }
  }

  /** The logical keys of the pointers under the prefix, sorted. */
  method DiscoverKeys(ps: seq<Pair>, prefix: Bytes, ghost cells: Cells) returns (keys: seq<Bytes>)
    requires Lists(ps, cells)
    ensures Climbing(keys) && forall l :: l in keys <==> Discovered(cells, prefix, l)
  {
    hide Lt, Lists, Sorted, CurrentKey, LogicalOf, IsCurrent, WithKey;
    var raw := ScanRaw(ps, prefix, prefix + [255], cells);
    keys := [];
    var i := 0;
    while i < |raw|
      invariant 0 <= i <= |raw| && Climbing(keys)
      invariant forall l :: l in keys <==> exists p :: p in raw[..i] && IsCurrent(p.key) && LogicalOf(p.key) == l
    {
      var p := raw[i];
      assert raw[..i + 1] == raw[..i] + [p];
      if IsCurrent(p.key) {
        var l := LogicalOf(p.key);
        NewPointer(raw, i);
        WithKeyClimbs(keys, l);
        forall x ensures x in WithKey(keys, l) <==> x in keys || x == l { WithKeyMembers(keys, l, x); }
        keys := WithKey(keys, l);
      }
      i := i + 1;
    }
    assert raw[..i] == raw;
    forall l ensures l in keys <==> Discovered(cells, prefix, l) { DiscoveredIs(raw, cells, prefix, l); }
  }

  /** Two pointers of one scan belong to different logical keys. */
  lemma {:induction false} NewPointer(raw: seq<Pair>, i: nat)
    requires Sorted(raw) && i < |raw| && IsCurrent(raw[i].key)
    ensures forall p :: p in raw[..i] && IsCurrent(p.key) ==> LogicalOf(p.key) != LogicalOf(raw[i].key)
  {
    hide Lt, CurrentKey, LogicalOf, IsCurrent;
    forall p | p in raw[..i] && IsCurrent(p.key) ensures LogicalOf(p.key) != LogicalOf(raw[i].key) {
      var j :| 0 <= j < i && raw[j] == p;
      CurrentOfLogical(p.key);
      CurrentOfLogical(raw[i].key);
      LtIrreflexive(p.key);
    }
  }

  /** What a replay says about one logical key. */
  datatype Replayed = Replayed(logical: Bytes, version: Stored)

  ghost predicate InKeyOrder(es: seq<Replayed>) {
    forall i, j :: 0 <= i < j < |es| ==> Lt(es[i].logical, es[j].logical)
  }

  /** After the first `n` keys: their known versions in order, and without a time bound those that do not
      reconcile, in order. */
  ghost predicate ReplayedSoFar(es: seq<Replayed>, bad: seq<Bytes>, keys: seq<Bytes>, n: nat, asOf: int, cells: Cells,
                                hash: Bytes -> Bytes)
    requires n <= |keys|
  {
    && InKeyOrder(es) && Climbing(bad) && (asOf > 0 ==> bad == [])
    && (forall e :: e in es <==> e.logical in keys[..n] && Known(e.version, cells, e.logical, asOf))
    && (asOf <= 0 ==> forall l :: l in bad <==> l in keys[..n] && Mismatched(cells, l, hash))
  }

  lemma {:induction false} ReplayedOne(es: seq<Replayed>, bad: seq<Bytes>, keys: seq<Bytes>, n: nat, asOf: int,
                                       cells: Cells,
                                       hash: Bytes -> Bytes, known: Option<Stored>, off: bool)
    requires n < |keys| && Climbing(keys) && ReplayedSoFar(es, bad, keys, n, asOf, cells, hash)
    requires forall x :: Known(x, cells, keys[n], asOf) <==> known == Some(x)
    requires if asOf > 0 then !off else off <==> Mismatched(cells, keys[n], hash)
    ensures ReplayedSoFar(if known.Some? then es + [Replayed(keys[n], known.value)] else es,
                          if off then bad + [keys[n]] else bad, keys, n + 1, asOf, cells, hash)
  {
    hide Lt, Known, Mismatched;
    var l := keys[n];
    assert keys[..n + 1] == keys[..n] + [l];
    forall i | 0 <= i < |es| ensures Lt(es[i].logical, l) { assert es[i] in es && es[i].logical in keys[..n]; }
    forall i | 0 <= i < |bad| && asOf <= 0 ensures Lt(bad[i], l) { assert bad[i] in bad && bad[i] in keys[..n]; }
    if l in keys[..n] { LtIrreflexive(l); assert false; }
  }

  /** `ReplayFingerprint`: the logical keys found under the prefix, the version of each that is known at the
      time bound, and without a bound the keys that do not reconcile with their pointer, all in key order. The
      digest is a function of the second. */
  method Replay(ps: seq<Pair>, prefix: Bytes, asOf: int, hash: Bytes -> Bytes, ghost cells: Cells)
    returns (keys: seq<Bytes>, entries: seq<Replayed>, bad: seq<Bytes>)
    requires Lists(ps, cells)
    ensures Climbing(keys) && forall l :: l in keys <==> Discovered(cells, prefix, l)
    ensures InKeyOrder(entries)
    ensures forall e :: e in entries <==> e.logical in keys && Known(e.version, cells, e.logical, asOf)
    ensures Climbing(bad) && (asOf > 0 ==> bad == [])
    ensures asOf <= 0 ==> forall l :: l in bad <==> l in keys && Mismatched(cells, l, hash)
  {
    keys := DiscoverKeys(ps, prefix, cells);
    entries, bad := [], [];
    hide Lt, Lists, Sorted, Mismatched, Known, CurrentKey, ReplayedSoFar;
    assert ReplayedSoFar([], [], keys, 0, asOf, cells, hash) by { ReplayedNone(keys, asOf, cells, hash); }
    var n := 0;
    while n < |keys|
      invariant 0 <= n <= |keys| && ReplayedSoFar(entries, bad, keys, n, asOf, cells, hash)
    {
      var l := keys[n];
      assert l in keys && Discovered(cells, prefix, l);
      var known: Option<Stored>, off := None, false;
      if asOf > 0 {
        known := KnownAt(ps, l, asOf, cells);
      } else {
        var pointer := PointerIn(ps, l, cells);
        known, off := Reconcile(ps, l, pointer, hash, cells);
        NewestIsKnown(cells, l, asOf);
      }
      ReplayedOne(entries, bad, keys, n, asOf, cells, hash, known, off);
      if known.Some? { entries := entries + [Replayed(l, known.value)]; }
      if off { bad := bad + [l]; }
      n := n + 1;
    }
    ReplayedAll(entries, bad, keys, asOf, cells, hash);
  }

  lemma {:induction false} ReplayedNone(keys: seq<Bytes>, asOf: int, cells: Cells, hash: Bytes -> Bytes)
    ensures ReplayedSoFar([], [], keys, 0, asOf, cells, hash)
  {
  }

  lemma {:induction false} NewestIsKnown(cells: Cells, l: Bytes, asOf: int)
    requires asOf <= 0
    ensures forall x :: Known(x, cells, l, asOf) <==> Newest(x, cells, l)
  {
  }

  lemma {:induction false} ReplayedAll(es: seq<Replayed>, bad: seq<Bytes>, keys: seq<Bytes>, asOf: int, cells: Cells,
                                       hash: Bytes -> Bytes)
    requires ReplayedSoFar(es, bad, keys, |keys|, asOf, cells, hash)
    ensures InKeyOrder(es) && Climbing(bad) && (asOf > 0 ==> bad == [])
    ensures forall e :: e in es <==> e.logical in keys && Known(e.version, cells, e.logical, asOf)
    ensures asOf <= 0 ==> forall l :: l in bad <==> l in keys && Mismatched(cells, l, hash)
  {
    hide Known, Mismatched;
    assert keys[..|keys|] == keys;
  }

  /** A stored pointer is found by its key. */
  method PointerIn(ps: seq<Pair>, l: Bytes, ghost cells: Cells) returns (c: Cell)
    requires Lists(ps, cells) && CurrentKey(l) in cells
    ensures Holds(cells, CurrentKey(l), c)
  {
    hide Lt, CurrentKey, Sorted;
    var i := 0;
    assert Pair(CurrentKey(l), cells[CurrentKey(l)]) in ps;
    while ps[i].key != CurrentKey(l)
      invariant 0 <= i < |ps| && Pair(CurrentKey(l), cells[CurrentKey(l)]) in ps[i..]
      decreases |ps| - i
    {
      assert ps[i..] == [ps[i]] + ps[i + 1..];
      i := i + 1;
    }
    assert Pair(ps[i].key, ps[i].cell) in ps;
    return ps[i].cell;
  }

  lemma {:induction false} DiscoveredIs(raw: seq<Pair>, cells: Cells, prefix: Bytes, l: Bytes)
    requires Scans(raw, cells, prefix, prefix + [255])
    ensures (exists p :: p in raw && IsCurrent(p.key) && LogicalOf(p.key) == l) <==> Discovered(cells, prefix, l)
  {
    hide Lt, Sorted, CurrentKey, LogicalOf, IsCurrent;
    if Discovered(cells, prefix, l) {
      CurrentRoundTrip(l);
      var p := Pair(CurrentKey(l), cells[CurrentKey(l)]);
      assert p in raw && p.key == CurrentKey(l);
    }
    if p :| p in raw && IsCurrent(p.key) && LogicalOf(p.key) == l {
      CurrentOfLogical(p.key);
      assert p == Pair(p.key, p.cell);
    }
  }

  /** In every state of a run, among the keys that have a pointer, the replay reports exactly those with an
      unacknowledged version above the pointer. */
  lemma {:induction false} ReplayReportsUnacknowledged(states: seq<State>, steps: seq<Step>, hash: Bytes -> Bytes,
                                                       decode: Bytes -> Option<nat>, n: nat, l: Bytes)
    requires IsRun(states, steps, hash, decode) && n < |states| && CurrentKey(l) in states[n].cells
    requires |Acked(states[n], l)| < MAX_SEQ
    ensures Mismatched(states[n].cells, l, hash) <==> VersionKey(l, |Acked(states[n], l)| + 1) in states[n].cells
  {
    RunKeeps(states, steps, hash, decode, n);
    var s := states[n];
    assert KeyOk(s, l, hash);
    hide VersionKey, CurrentKey;
    var acked := Acked(s, l);
    var above := VersionKey(l, |acked| + 1);
    if above in s.cells {
      var y := Stored(|acked| + 1, s.cells[above].version);
      assert Holds(s.cells, VersionKey(l, y.seqNo), Rec(y.version));
    } else {
      var x := Stored(|acked|, acked[|acked| - 1]);
      assert Newest(x, s.cells, l);
    }
  }

  /** With logical keys free of the byte 0xFF, the replay of a prefix looks at exactly the pointers with that
      prefix. */
  lemma {:induction false} DiscoversThePrefix(cells: Cells, prefix: Bytes, l: Bytes)
    requires l != [] && forall i :: 0 <= i < |l| ==> l[i] != 255
    ensures Discovered(cells, prefix, l) <==> CurrentKey(l) in cells && prefix <= CurrentKey(l)
  {
    PrefixRange(prefix, CurrentKey(l));
  }
}
