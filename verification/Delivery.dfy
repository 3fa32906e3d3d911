/** Delivery to a file: fetch behind the cursor, send, commit the cursor into the same key space, with
    crashes anywhere in between. */
module Delivery {
  import opened Bytes

  /** "__offset__/" */
  const PREFIX: Bytes := [95, 95, 111, 102, 102, 115, 101, 116, 95, 95, 47]

  predicate Reserved(k: Bytes) { PREFIX <= k }

  ghost predicate Ascending(ks: seq<Bytes>) {
    forall i, j :: 0 <= i < j < |ks| ==> Lt(ks[i], ks[j])
  }

  /** The business keys among scanned keys. */
  function Business(ks: seq<Bytes>): seq<Bytes> {
    if ks == [] then [] else Business(ks[..|ks| - 1]) + if Reserved(ks[|ks| - 1]) then [] else [ks[|ks| - 1]]
  }

  /** What a fetch takes from a scan: the business keys, and the last key it looked at. */
  datatype Fetched = Fetched(batch: seq<Bytes>, last: Option<Bytes>)

  /** The loop of `Fetch`, as far as it has got after the given keys. */
  function Looked(ks: seq<Bytes>, limit: nat): Fetched {
    if ks == [] then Fetched([], None)
    else
      var before, k := Looked(ks[..|ks| - 1], limit), ks[|ks| - 1];
      if |before.batch| >= limit then before
      else Fetched(if Reserved(k) then before.batch else before.batch + [k], Some(k))
  }

  /** `Fetch` asks for one key more than it needs. */
  function FetchOf(all: seq<Bytes>, limit: nat): Fetched {
    Looked(if |all| <= limit + 1 then all else all[..limit + 1], limit)
  }

  /** The cursor behind the last key looked at. */
  function Behind(k: Bytes): Bytes { k + [0] }

  // ---- what a fetch returns ----

  ghost predicate OneReserved(ks: seq<Bytes>) {
    forall i, j :: 0 <= i < j < |ks| ==> !(Reserved(ks[i]) && Reserved(ks[j]))
  }

  lemma {:induction false} BusinessLength(ks: seq<Bytes>)
    ensures |Business(ks)| <= |ks|
    ensures OneReserved(ks) ==> |ks| <= |Business(ks)| + 1
    ensures (forall i :: 0 <= i < |ks| ==> !Reserved(ks[i])) ==> |Business(ks)| == |ks|
  {
    if ks != [] {
      var init := ks[..|ks| - 1];
      BusinessLength(init);
      if OneReserved(ks) && Reserved(ks[|ks| - 1]) {
        assert forall i :: 0 <= i < |init| ==> !(Reserved(ks[i]) && Reserved(ks[|ks| - 1]));
      }
    }
  }

  lemma {:induction false} BusinessPrefix(ks: seq<Bytes>, n: nat)
    requires n <= |ks|
    ensures Business(ks[..n]) <= Business(ks)
  {
    if n < |ks| {
      BusinessPrefix(ks[..|ks| - 1], n);
      assert ks[..|ks| - 1][..n] == ks[..n];
    } else {
      assert ks[..n] == ks;
    }
  }

  /** While the batch is short, the loop has looked at everything; once full it stands at its last key. */
  lemma {:induction false} LookedIs(ks: seq<Bytes>, limit: nat)
    requires limit >= 1
    ensures var b, f := Business(ks), Looked(ks, limit);
            if |b| < limit then f == Fetched(b, if ks == [] then None else Some(ks[|ks| - 1]))
            else f == Fetched(b[..limit], Some(b[limit - 1]))
  {
    if ks != [] { LookedIs(ks[..|ks| - 1], limit); }
  }

  /** With one reserved key at most, a fetch returns the first business keys up to the limit, and either a
      full batch ending at the cursor, or everything there is. */
  lemma {:induction false} FetchIs(all: seq<Bytes>, limit: nat)
    requires limit >= 1 && OneReserved(all)
    ensures var b, f := Business(all), FetchOf(all, limit);
            if |b| < limit then f == Fetched(b, if all == [] then None else Some(all[|all| - 1]))
            else f == Fetched(b[..limit], Some(b[limit - 1]))
  {
    LookedIs(all, limit);
    BusinessLength(all);
    if |all| > limit + 1 {
      var few := all[..limit + 1];
      LookedIs(few, limit);
      BusinessPrefix(all, limit + 1);
      assert OneReserved(few);
      BusinessLength(few);
    }
  }

  // ---- ascending sequences ----

  lemma {:induction false} BusinessMembers(ks: seq<Bytes>, k: Bytes)
    ensures k in Business(ks) <==> k in ks && !Reserved(k)
  {
    if ks != [] {
      BusinessMembers(ks[..|ks| - 1], k);
      assert ks == ks[..|ks| - 1] + [ks[|ks| - 1]];
    }
  }

  lemma {:induction false} BusinessAscends(ks: seq<Bytes>)
    requires Ascending(ks)
    ensures Ascending(Business(ks))
  {
    hide Lt, Reserved;
    if ks != [] {
      var init, k := ks[..|ks| - 1], ks[|ks| - 1];
      BusinessAscends(init);
      forall i | 0 <= i < |Business(init)| ensures Lt(Business(init)[i], k) {
        BusinessMembers(init, Business(init)[i]);
        assert Business(init)[i] in Business(init);
      }
    }
  }

  /** Ascending sequences with the same members are equal. */
  lemma {:induction false} SameMembers(a: seq<Bytes>, b: seq<Bytes>)
    requires Ascending(a) && Ascending(b) && forall k :: k in a <==> k in b
    ensures a == b
  {
    assert a != [] ==> a[0] in b;
    assert b != [] ==> b[0] in a;
    if a != [] {
      var i :| 0 <= i < |b| && b[i] == a[0];
      var j :| 0 <= j < |a| && a[j] == b[0];
      LtTrichotomy(a[0], b[0]);
      LtTrichotomy(b[0], a[0]);
      assert a[0] == b[0];
      forall k ensures k in a[1..] <==> k in b[1..] {
        TailMembers(a, k);
        TailMembers(b, k);
      }
      SameMembers(a[1..], b[1..]);
      assert a == [a[0]] + a[1..] && b == [b[0]] + b[1..];
    }
  }

  lemma {:induction false} TailMembers(a: seq<Bytes>, k: Bytes)
    requires Ascending(a) && a != []
    ensures k in a[1..] <==> k in a && k != a[0]
  {
    assert a == [a[0]] + a[1..];
    if k in a[1..] {
      var i :| 0 <= i < |a[1..]| && a[1..][i] == k;
      assert Lt(a[0], a[i + 1]);
      LtIrreflexive(k);
    }
  }

  /** How many of the keys lie below `c`. */
  function Below(ks: seq<Bytes>, c: Bytes): (n: nat)
    ensures n <= |ks|
  {
    if ks == [] then 0 else Below(ks[..|ks| - 1], c) + if Lt(ks[|ks| - 1], c) then 1 else 0
  }

  lemma {:induction false} BelowSplits(ks: seq<Bytes>, c: Bytes)
    requires Ascending(ks)
    ensures forall i :: 0 <= i < |ks| ==> (Lt(ks[i], c) <==> i < Below(ks, c))
  {
    if ks != [] {
      var n := |ks| - 1;
      BelowSplits(ks[..n], c);
      if Lt(ks[n], c) {
        forall i | 0 <= i < n ensures Lt(ks[i], c) { LtTransitive(ks[i], ks[n], c); }
        assert forall i :: 0 <= i < n ==> ks[..n][i] == ks[i];
        AllBelow(ks[..n], c);
      }
    }
  }

  lemma {:induction false} AllBelow(ks: seq<Bytes>, c: Bytes)
    requires forall i :: 0 <= i < |ks| ==> Lt(ks[i], c)
    ensures Below(ks, c) == |ks|
  {
    if ks != [] { AllBelow(ks[..|ks| - 1], c); }
  }

  // ---- runs ----

  datatype Progress = Resting | Sent(next: Bytes)

  /** Business keys in order of arrival, whether the offset key is stored, the cursor in memory and the one
      committed, the keys in the sink file, the sink's high-water mark, and the round in progress. */
  datatype State = State(biz: seq<Bytes>, stored: bool, cursor: Bytes, committed: Bytes, file: seq<Bytes>,
                         hwm: Option<Bytes>, progress: Progress)

  datatype Step =
    | Arrive(key: Bytes)
    | Round(all: seq<Bytes>, limit: nat)
    | RoundCrash(all: seq<Bytes>, limit: nat, written: nat)
    | Commit
    | CommitFails
    | CommitUnheard
    | Crash

  function LastOf(ks: seq<Bytes>): Option<Bytes> { if ks == [] then None else Some(ks[|ks| - 1]) }

  /** What `Send` appends: the keys above the high-water mark. */
  function New(batch: seq<Bytes>, hwm: Option<Bytes>): seq<Bytes> {
    if batch == [] then []
    else
      var k := batch[|batch| - 1];
      New(batch[..|batch| - 1], hwm) + if hwm.Some? && !Lt(hwm.value, k) then [] else [k]
  }

  /** A scan from the cursor upwards. */
  ghost predicate ScansFrom(all: seq<Bytes>, s: State, r: Bytes) {
    Ascending(all) && forall k :: k in all <==> (k in s.biz || (s.stored && k == r)) && Le(s.cursor, k)
  }

  function Restarted(s: State, file: seq<Bytes>): State {
    s.(file := file, hwm := LastOf(file), cursor := s.committed, progress := Resting)
  }

  ghost predicate Next(s: State, step: Step, t: State, r: Bytes) {
    match step
    case Arrive(k) =>
      Ascending(s.biz + [k]) && !Reserved(k) && t == s.(biz := s.biz + [k])
    case Round(all, limit) =>
      && s.progress.Resting? && limit >= 1 && ScansFrom(all, s, r)
      && var f := FetchOf(all, limit);
         if f.batch == [] || f.last.None? then t == s
         else var sent := New(f.batch, s.hwm);
              t == s.(file := s.file + sent, hwm := if sent == [] then s.hwm else LastOf(sent),
                      progress := Sent(Behind(f.last.value)))
    case RoundCrash(all, limit, written) =>
      && s.progress.Resting? && limit >= 1 && ScansFrom(all, s, r)
      && var sent := New(FetchOf(all, limit).batch, s.hwm);
         written <= |sent| && t == Restarted(s, s.file + sent[..written])
    case Commit => s.progress.Sent? && t == s.(cursor := s.progress.next, committed := s.progress.next, stored := true,
                                               progress := Resting)
    case CommitFails => s.progress.Sent? && t == s.(progress := Resting)
    case CommitUnheard => s.progress.Sent? && t == s.(committed := s.progress.next, stored := true, progress := Resting)
    case Crash => t == Restarted(s, s.file)
  }

  /** The key is not below any cursor in play. */
  ghost predicate Ahead(s: State, k: Bytes) {
    Le(s.cursor, k) && Le(s.committed, k) && (s.progress.Sent? ==> Le(s.progress.next, k))
  }

  /** Everything below `c` has been sent. */
  ghost predicate Covered(s: State, c: Bytes) { Below(s.biz, c) <= |s.file| }

  ghost predicate Inv(s: State) {
    && Ascending(s.biz) && (forall k :: k in s.biz ==> !Reserved(k))
    && s.file <= s.biz && s.hwm == LastOf(s.file)
    && Covered(s, s.cursor) && Covered(s, s.committed) && (s.progress.Sent? ==> Covered(s, s.progress.next))
  }

  lemma {:induction false} NotBelow(k: Bytes, c: Bytes)
    ensures Le(c, k) <==> !Lt(k, c)
  {
    LtTrichotomy(k, c);
  }

  /** The scan's business keys are the keys from the cursor on. */
  lemma {:induction false} ScanIsSuffix(s: State, all: seq<Bytes>, r: Bytes)
    requires Inv(s) && Reserved(r) && ScansFrom(all, s, r)
    ensures OneReserved(all) && Business(all) == s.biz[Below(s.biz, s.cursor)..]
  {
    hide Reserved;
    forall i, j | 0 <= i < j < |all| ensures !(Reserved(all[i]) && Reserved(all[j])) {
      assert all[i] in all && all[j] in all;
      LtIrreflexive(r);
    }
    BelowSplits(s.biz, s.cursor);
    BusinessAscends(all);
    var p := Below(s.biz, s.cursor);
    var rest := s.biz[p..];
    forall k ensures k in Business(all) <==> k in rest {
      BusinessMembers(all, k);
      NotBelow(k, s.cursor);
      if k in rest {
        var i :| 0 <= i < |rest| && rest[i] == k;
        assert s.biz[p + i] == k;
      }
      if k in s.biz && !Lt(k, s.cursor) {
        var i :| 0 <= i < |s.biz| && s.biz[i] == k;
        assert rest[i - p] == k;
      }
    }
    SameMembers(Business(all), rest);
  }

  /** A round takes business keys `p` to `q` and moves the cursor behind at most those. */
  lemma {:induction false} RoundTakes(s: State, all: seq<Bytes>, limit: nat, r: Bytes) returns (p: nat, q: nat)
    requires Inv(s) && Reserved(r) && ScansFrom(all, s, r) && limit >= 1
    ensures p == Below(s.biz, s.cursor) <= q <= |s.biz| && FetchOf(all, limit).batch == s.biz[p..q]
    ensures FetchOf(all, limit).last.Some? ==> Below(s.biz, Behind(FetchOf(all, limit).last.value)) <= q
  {
    ScanIsSuffix(s, all, r);
    FetchIs(all, limit);
    hide Reserved, Business, FetchOf;
    p := Below(s.biz, s.cursor);
    var b := s.biz[p..];
    q := if |b| < limit then |s.biz| else p + limit;
    if |b| >= limit {
      assert s.biz[p..q] == b[..limit];
      BelowNext(s.biz, q - 1);
    }
  }

  lemma {:induction false} BelowNext(ks: seq<Bytes>, i: nat)
    requires Ascending(ks) && i < |ks|
    ensures Below(ks, Behind(ks[i])) == i + 1
  {
    var c := Behind(ks[i]);
    BelowSplits(ks, c);
    ZeroByteIsSuccessor(ks[i], ks[i]);
    assert Lt(ks[i], c);
    if i + 1 < |ks| {
      ZeroByteIsSuccessor(ks[i], ks[i + 1]);
      NotBelow(ks[i + 1], c);
    }
  }

  lemma {:induction false} OneBefore(ks: seq<Bytes>, i: nat, j: nat)
    requires Ascending(ks) && i < j < |ks|
    ensures Lt(ks[i], ks[j])
  {
  }

  lemma {:induction false} NewConcat(a: seq<Bytes>, b: seq<Bytes>, hwm: Option<Bytes>)
    ensures New(a + b, hwm) == New(a, hwm) + New(b, hwm)
  {
    if b == [] {
      assert a + b == a;
    } else {
      assert (a + b)[..|a + b| - 1] == a + b[..|b| - 1];
      NewConcat(a, b[..|b| - 1], hwm);
    }
  }

  lemma {:induction false} NewNone(ks: seq<Bytes>, top: Bytes)
    requires forall i :: 0 <= i < |ks| ==> !Lt(top, ks[i])
    ensures New(ks, Some(top)) == []
  {
    if ks != [] { NewNone(ks[..|ks| - 1], top); }
  }

  lemma {:induction false} NewAll(ks: seq<Bytes>, hwm: Option<Bytes>)
    requires forall i :: 0 <= i < |ks| && hwm.Some? ==> Lt(hwm.value, ks[i])
    ensures New(ks, hwm) == ks
  {
    if ks != [] { NewAll(ks[..|ks| - 1], hwm); }
  }

  /** Keys up to position `m` are not new, keys from there on are. */
  lemma {:induction false} NewBelow(biz: seq<Bytes>, p: nat, q: nat, m: nat)
    requires Ascending(biz) && p <= q <= m <= |biz|
    ensures New(biz[p..q], LastOf(biz[..m])) == []
  {
    if p < q {
      hide Lt, New;
      forall i | 0 <= i < |biz[p..q]| ensures !Lt(biz[m - 1], biz[p..q][i]) { InFileAlready(biz, p + i + 1, m); }
      NewNone(biz[p..q], biz[m - 1]);
    } else {
      assert biz[p..q] == [];
    }
  }

  lemma {:induction false} NewAbove(biz: seq<Bytes>, q: nat, m: nat)
    requires Ascending(biz) && m <= q <= |biz|
    ensures New(biz[m..q], LastOf(biz[..m])) == biz[m..q]
  {
    hide Lt, New;
    if m > 0 {
      forall i | 0 <= i < |biz[m..q]| ensures Lt(biz[m - 1], biz[m..q][i]) { OneBefore(biz, m - 1, m + i); }
    }
    NewAll(biz[m..q], LastOf(biz[..m]));
  }

  /** Of the keys `p` to `q`, those not yet in the file. */
  lemma {:induction false} NewIs(biz: seq<Bytes>, p: nat, q: nat, m: nat)
    requires Ascending(biz) && p <= q <= |biz| && p <= m <= |biz|
    ensures New(biz[p..q], LastOf(biz[..m])) == if q <= m then [] else biz[m..q]
  {
    hide Lt, New, Ascending, LastOf;
    if q <= m {
      NewBelow(biz, p, q, m);
    } else {
      assert biz[p..q] == biz[p..m] + biz[m..q];
      NewConcat(biz[p..m], biz[m..q], LastOf(biz[..m]));
      NewBelow(biz, p, m, m);
      NewAbove(biz, q, m);
    }
  }

  lemma {:induction false} InFileAlready(biz: seq<Bytes>, q: nat, m: nat)
    requires Ascending(biz) && 0 < q <= m <= |biz|
    ensures LastOf(biz[..m]) == Some(biz[m - 1]) && !Lt(biz[m - 1], biz[q - 1])
  {
    LtTrichotomy(biz[m - 1], biz[q - 1]);
    if q < m { OneBefore(biz, q - 1, m - 1); LtTrichotomy(biz[q - 1], biz[m - 1]); }
  }

  /** What a round appends continues the file in the order of the business keys. */
  lemma {:induction false} SentContinues(s: State, p: nat, q: nat)
    requires Inv(s) && p == Below(s.biz, s.cursor) <= q <= |s.biz|
    ensures var sent := New(s.biz[p..q], s.hwm);
            && s.file + sent <= s.biz && |s.file + sent| >= q
            && (sent != [] ==> LastOf(s.file + sent) == LastOf(sent)) && (sent == [] ==> s.file + sent == s.file)
  {
    var m := |s.file|;
    assert s.file == s.biz[..m];
    NewIs(s.biz, p, q, m);
    if q > m { assert s.biz[..m] + s.biz[m..q] == s.biz[..q]; }
  }

  lemma {:induction false} RoundKeeps(s: State, all: seq<Bytes>, limit: nat, t: State, r: Bytes)
    requires Inv(s) && Reserved(r) && Next(s, Round(all, limit), t, r)
    ensures Inv(t)
  {
    hide Lt, Reserved, FetchOf, Below, New;
    var p, q := RoundTakes(s, all, limit, r);
    SentContinues(s, p, q);
  }

  lemma {:induction false} RoundCrashKeeps(s: State, all: seq<Bytes>, limit: nat, written: nat, t: State, r: Bytes)
    requires Inv(s) && Reserved(r) && Next(s, RoundCrash(all, limit, written), t, r)
    ensures Inv(t)
  {
    hide Lt, Reserved, FetchOf, Below, New;
    var p, q := RoundTakes(s, all, limit, r);
    SentContinues(s, p, q);
    var sent := New(s.biz[p..q], s.hwm);
    assert s.file + sent[..written] == (s.file + sent)[..|s.file| + written];
  }

  lemma {:induction false} BelowAppend(ks: seq<Bytes>, k: Bytes, c: Bytes)
    ensures Below(ks + [k], c) == Below(ks, c) + if Lt(k, c) then 1 else 0
  {
    assert (ks + [k])[..|ks + [k]| - 1] == ks;
  }

  lemma {:induction false} ArriveKeeps(s: State, k: Bytes, t: State, r: Bytes)
    requires Inv(s) && Next(s, Arrive(k), t, r) && Ahead(s, k)
    ensures Inv(t)
  {
    hide Lt, Reserved, Below;
    BelowAppend(s.biz, k, s.cursor);
    BelowAppend(s.biz, k, s.committed);
    NotBelow(k, s.cursor);
    NotBelow(k, s.committed);
    if s.progress.Sent? {
      BelowAppend(s.biz, k, s.progress.next);
      NotBelow(k, s.progress.next);
    }
  }

  lemma {:induction false} StepKeeps(s: State, step: Step, t: State, r: Bytes)
    requires Inv(s) && Reserved(r) && Next(s, step, t, r) && (step.Arrive? ==> Ahead(s, step.key))
    ensures Inv(t)
  {
    hide Lt, Reserved, FetchOf, Below, New;
    match step
    case Arrive(k) => ArriveKeeps(s, k, t, r);
    case Round(all, limit) => RoundKeeps(s, all, limit, t, r);
    case RoundCrash(all, limit, written) => RoundCrashKeeps(s, all, limit, written, t, r);
    case Commit =>
    case CommitFails =>
    case CommitUnheard =>
    case Crash =>
  }

  function Start(): State { State([], false, [], [], [], None, Resting) }

  ghost predicate IsRun(states: seq<State>, steps: seq<Step>, r: Bytes) {
    && |states| == |steps| + 1 && states[0] == Start() && Reserved(r)
    && forall i :: 0 <= i < |steps| ==> Next(states[i], steps[i], states[i + 1], r)
  }

  /** No key arrived below a cursor. */
  ghost predicate Orderly(states: seq<State>, steps: seq<Step>)
    requires |states| == |steps| + 1
  {
    forall i :: 0 <= i < |steps| && steps[i].Arrive? ==> Ahead(states[i], steps[i].key)
  }

  lemma {:induction false} RunKeeps(states: seq<State>, steps: seq<Step>, r: Bytes, n: nat)
    requires IsRun(states, steps, r) && Orderly(states, steps) && n < |states|
    ensures Inv(states[n])
  {
    if n > 0 {
      RunKeeps(states, steps, r, n - 1);
      assert Next(states[n - 1], steps[n - 1], states[n - 1 + 1], r);
      StepKeeps(states[n - 1], steps[n - 1], states[n], r);
    }
  }

  /** Effectively once: the sink file is a prefix of the business keys, strictly ascending and so without
      duplicates, and every business key below the committed cursor is in it. */
  ghost predicate Delivered(s: State) {
    && s.file <= s.biz && Ascending(s.file)
    && forall k :: k in s.biz && Lt(k, s.committed) ==> k in s.file
  }

  lemma {:induction false} DeliveredOnceInOrder(states: seq<State>, steps: seq<Step>, r: Bytes, n: nat)
    requires IsRun(states, steps, r) && Orderly(states, steps) && n < |states|
    ensures Delivered(states[n])
  {
    RunKeeps(states, steps, r, n);
    InvIsDelivered(states[n]);
  }

  // ---- catching up ----

  function Min(a: nat, b: nat): nat { if a < b then a else b }

  /** Behind the last key of a scan there is no business key. */
  lemma {:induction false} NoneBehindLast(s: State, all: seq<Bytes>, r: Bytes)
    requires ScansFrom(all, s, r) && all != []
    ensures Below(s.biz, Behind(all[|all| - 1])) == |s.biz|
  {
    var last := all[|all| - 1];
    var c := Behind(last);
    assert last in all;
    ZeroByteIsSuccessor(last, last);
    forall i | 0 <= i < |s.biz| ensures Lt(s.biz[i], c) {
      var k := s.biz[i];
      assert k in s.biz;
      NotBelow(k, s.cursor);
      if k in all {
        var x :| 0 <= x < |all| && all[x] == k;
        if x < |all| - 1 { LtTransitive(k, last, c); }
      } else {
        LeLtTransitive(k, s.cursor, last);
        LtTransitive(k, last, c);
      }
    }
    AllBelow(s.biz, c);
  }

  /** A round that finds business keys will commit a cursor behind as many as its limit, or behind all. */
  lemma {:induction false} RoundReaches(s: State, all: seq<Bytes>, limit: nat, r: Bytes)
    requires Inv(s) && Reserved(r) && ScansFrom(all, s, r) && limit >= 1
    ensures var f, p := FetchOf(all, limit), Below(s.biz, s.cursor);
            && (f.batch == [] <==> p == |s.biz|)
            && (f.batch != [] ==>
                  f.last.Some? && Below(s.biz, Behind(f.last.value)) == Min(|s.biz|, p + limit))
  {
    ScanIsSuffix(s, all, r);
    FetchIs(all, limit);
    hide Reserved, FetchOf;
    var p := Below(s.biz, s.cursor);
    var b := s.biz[p..];
    if |b| >= limit {
      BelowNext(s.biz, p + limit - 1);
    } else if b != [] {
      BusinessLength(all);
      NoneBehindLast(s, all, r);
    }
  }

  /** A round, and its commit if it sent anything, with no failure in between. */
  ghost predicate QuietRound(s: State, limit: nat, u: State, r: Bytes) {
    exists all, t :: Next(s, Round(all, limit), t, r) && if t.progress.Sent? then Next(t, Commit, u, r) else u == t
  }

  lemma {:induction false} QuietRoundAdvances(s: State, limit: nat, u: State, r: Bytes)
    requires Inv(s) && Reserved(r) && QuietRound(s, limit, u, r)
    ensures Inv(u) && u.biz == s.biz && Below(u.biz, u.cursor) == Min(|s.biz|, Below(s.biz, s.cursor) + limit)
  {
    var all, t :| Next(s, Round(all, limit), t, r) && if t.progress.Sent? then Next(t, Commit, u, r) else u == t;
    RoundKeeps(s, all, limit, t, r);
    RoundReaches(s, all, limit, r);
    if t.progress.Sent? { StepKeeps(t, Commit, u, r); }
    hide Reserved, FetchOf, New, Below, Lt, ScansFrom, Inv;
  }

  lemma {:induction false} MinAdds(all: nat, p: nat, limit: nat)
    ensures Min(all, Min(all, p) + limit) == Min(all, p + limit) && (p >= all ==> Min(all, p) == all)
    ensures p <= all ==> Min(all, p) == p
  {
  }

  lemma {:induction false} AllSent(s: State)
    requires Inv(s) && Below(s.biz, s.cursor) == |s.biz|
    ensures s.file == s.biz
  {
  }

  /** Rounds that meet no failure catch up: once they have had room for everything from the cursor on, the sink file
      holds exactly the business keys. */
  lemma {:induction false} CatchesUp(states: seq<State>, limit: nat, r: Bytes)
    requires states != [] && Inv(states[0]) && Reserved(r)
    requires forall i :: 0 <= i < |states| - 1 ==> QuietRound(states[i], limit, states[i + 1], r)
    ensures var s, u := states[0], states[|states| - 1];
            && Inv(u) && u.biz == s.biz
            && Below(u.biz, u.cursor) == Min(|s.biz|, Below(s.biz, s.cursor) + (|states| - 1) * limit)
            && (Below(s.biz, s.cursor) + (|states| - 1) * limit >= |s.biz| ==> u.file == s.biz)
  {
    hide QuietRound, Below, Lt, Reserved, Inv, Min;
    var n := |states| - 1;
    if n == 0 {
      MinAdds(|states[0].biz|, Below(states[0].biz, states[0].cursor), 0);
    } else {
      var init := states[..n];
      forall i | 0 <= i < |init| - 1 ensures QuietRound(init[i], limit, init[i + 1], r) {
        assert QuietRound(states[i], limit, states[i + 1], r);
      }
      CatchesUp(init, limit, r);
      assert QuietRound(states[n - 1], limit, states[n - 1 + 1], r);
      QuietRoundAdvances(states[n - 1], limit, states[n], r);
      assert n * limit == (n - 1) * limit + limit;
      MinAdds(|states[0].biz|, Below(states[0].biz, states[0].cursor) + (n - 1) * limit, limit);
    }
    if Below(states[n].biz, states[n].cursor) == |states[n].biz| { AllSent(states[n]); }
    MinAdds(|states[0].biz|, Below(states[0].biz, states[0].cursor) + n * limit, 0);
  }

  // ---- keys that arrive too late ----

  /** Below every cursor in play, and not in the file. */
  ghost predicate Missed(s: State, k: Bytes) {
    Lt(k, s.cursor) && Lt(k, s.committed) && (s.progress.Sent? ==> Lt(k, s.progress.next)) && k !in s.file
  }

  lemma {:induction false} NewMembers(batch: seq<Bytes>, hwm: Option<Bytes>, k: Bytes)
    requires k in New(batch, hwm)
    ensures k in batch
  {
    if batch != [] {
      var init := batch[..|batch| - 1];
      assert batch == init + [batch[|batch| - 1]];
      if k in New(init, hwm) { NewMembers(init, hwm, k); }
    }
  }

  lemma {:induction false} LookedAtScan(ks: seq<Bytes>, limit: nat)
    ensures forall k :: k in Looked(ks, limit).batch ==> k in ks
    ensures Looked(ks, limit).last.Some? ==> Looked(ks, limit).last.value in ks
  {
    if ks != [] {
      LookedAtScan(ks[..|ks| - 1], limit);
      assert ks == ks[..|ks| - 1] + [ks[|ks| - 1]];
    }
  }

  /** A missed key is missed for good: no step of any run, orderly or not, delivers it. */
  lemma {:induction false} MissedForGood(s: State, step: Step, t: State, r: Bytes, k: Bytes)
    requires Missed(s, k) && Next(s, step, t, r)
    ensures Missed(t, k)
  {
    if step.Round? || step.RoundCrash? {
      var all := step.all;
      var few := if |all| <= step.limit + 1 then all else all[..step.limit + 1];
      var f := FetchOf(all, step.limit);
      LookedAtScan(few, step.limit);
      hide FetchOf, New, Reserved;
      NotBelow(k, s.cursor);
      assert k !in all;
      assert forall x :: x in few ==> x in all;
      assert k !in f.batch;
      if k in New(f.batch, s.hwm) { NewMembers(f.batch, s.hwm, k); }
      if f.last.Some? {
        ZeroByteIsSuccessor(f.last.value, f.last.value);
        LeLtTransitive(k, s.cursor, f.last.value);
        LtTransitive(k, f.last.value, Behind(f.last.value));
      }
    }
  }

  /** A cursor is the start, or stands right behind a key that was looked at. */
  ghost predicate StandsBehind(biz: seq<Bytes>, r: Bytes, c: Bytes) {
    c == [] || c == Behind(r) || exists x :: x in biz && c == Behind(x)
  }

  ghost predicate CursorsStand(s: State, r: Bytes) {
    && StandsBehind(s.biz, r, s.cursor) && StandsBehind(s.biz, r, s.committed)
    && (s.progress.Sent? ==> StandsBehind(s.biz, r, s.progress.next))
  }

  lemma {:induction false} StillStands(biz: seq<Bytes>, k: Bytes, r: Bytes, c: Bytes)
    requires StandsBehind(biz, r, c)
    ensures StandsBehind(biz + [k], r, c)
  {
    if c != [] && c != Behind(r) {
      var x :| x in biz && c == Behind(x);
      assert x in biz + [k];
    }
  }

  lemma {:induction false} StepStands(s: State, step: Step, t: State, r: Bytes)
    requires CursorsStand(s, r) && Next(s, step, t, r)
    ensures CursorsStand(t, r)
  {
    hide Lt, Reserved, New, StandsBehind;
    match step
    case Arrive(k) =>
      StillStands(s.biz, k, r, s.cursor);
      StillStands(s.biz, k, r, s.committed);
      if s.progress.Sent? { StillStands(s.biz, k, r, s.progress.next); }
    case Round(all, limit) =>
      LookedAtScan(if |all| <= limit + 1 then all else all[..limit + 1], limit);
      if FetchOf(all, limit).last.Some? { BehindLast(s, all, FetchOf(all, limit).last.value, r); }
    case RoundCrash(_, _, _) =>
    case Commit =>
    case CommitFails =>
    case CommitUnheard =>
    case Crash =>
  }

  lemma {:induction false} BehindLast(s: State, all: seq<Bytes>, x: Bytes, r: Bytes)
    requires ScansFrom(all, s, r) && x in all
    ensures StandsBehind(s.biz, r, Behind(x))
  {
  }

  lemma {:induction false} AheadOf(biz: seq<Bytes>, k: Bytes, r: Bytes, c: Bytes)
    requires Ascending(biz + [k]) && Lt(r, k) && StandsBehind(biz, r, c)
    ensures Le(c, k)
  {
    if c == Behind(r) {
      ZeroByteIsSuccessor(r, k);
    } else if c != [] {
      var x :| x in biz && c == Behind(x);
      var i :| 0 <= i < |biz| && biz[i] == x;
      assert Lt((biz + [k])[i], (biz + [k])[|biz|]);
      ZeroByteIsSuccessor(x, k);
    }
  }

  lemma {:induction false} RunStands(states: seq<State>, steps: seq<Step>, r: Bytes, n: nat)
    requires IsRun(states, steps, r) && n < |states|
    ensures CursorsStand(states[n], r)
  {
    if n > 0 {
      RunStands(states, steps, r, n - 1);
      assert Next(states[n - 1], steps[n - 1], states[n - 1 + 1], r);
      StepStands(states[n - 1], steps[n - 1], states[n], r);
    }
  }

  // ---- which arrivals are safe ----

  /** The keys that have arrived, in order, so far; and whether every commit that took hold was heard of. */
  ghost predicate Arriving(states: seq<State>, steps: seq<Step>, ks: seq<Bytes>, heard: bool)
    requires |states| == |steps| + 1
  {
    && states[|steps|].biz <= ks
    && (heard ==> AllHeard(steps))
  }

  ghost predicate AllHeard(steps: seq<Step>) { forall i :: 0 <= i < |steps| ==> !steps[i].CommitUnheard? }

  /** How many keys can arrive before a cursor can stand behind the offset key. */
  function Grace(heard: bool): nat { if heard then 2 else 1 }

  /** Until the first key arrives nothing moves. Until the second one does, a heard commit leaves both
      cursors right behind the first. */
  ghost predicate Early(s: State, heard: bool) {
    && (s.biz == [] ==> s.cursor == s.committed == [] && s.progress.Resting? && !s.stored)
    && (heard && |s.biz| == 1 ==>
          && s.cursor == s.committed == (if s.stored then Behind(s.biz[0]) else [])
          && (s.progress.Sent? ==> !s.stored && s.progress.next == Behind(s.biz[0])))
  }

  lemma {:induction false} NothingBehind(s: State, all: seq<Bytes>, limit: nat, r: Bytes)
    requires ScansFrom(all, s, r) && Reserved(r) && limit >= 1 && forall k :: k in s.biz ==> Lt(k, s.cursor)
    ensures FetchOf(all, limit).batch == []
  {
    var few := if |all| <= limit + 1 then all else all[..limit + 1];
    LookedIs(few, limit);
    BusinessLength(few);
    var b := Business(few);
    if b != [] {
      BusinessMembers(few, b[0]);
      assert b[0] in b && b[0] in all;
      NotBelow(b[0], s.cursor);
      assert false;
    }
  }

  /** The first round over one key and no offset key ends behind that key. */
  lemma {:induction false} OnlyKey(s: State, all: seq<Bytes>, limit: nat, r: Bytes)
    requires ScansFrom(all, s, r) && limit >= 1 && |s.biz| == 1 && !s.stored
    ensures FetchOf(all, limit).last.Some? ==> FetchOf(all, limit).last.value == s.biz[0]
  {
    var few := if |all| <= limit + 1 then all else all[..limit + 1];
    LookedAtScan(few, limit);
    hide Looked, Reserved;
    assert forall k :: k in few ==> k in all;
    assert forall k :: k in all ==> k == s.biz[0];
  }

  lemma {:induction false} RoundIsEarly(s: State, all: seq<Bytes>, limit: nat, t: State, r: Bytes, heard: bool)
    requires Early(s, heard) && Reserved(r) && Next(s, Round(all, limit), t, r)
    ensures Early(t, heard)
  {
    hide Reserved, New, FetchOf;
    if s.biz == [] {
      NothingBehind(s, all, limit, r);
    } else if |s.biz| == 1 && s.stored {
      ZeroByteIsSuccessor(s.biz[0], s.biz[0]);
      if heard { NothingBehind(s, all, limit, r); }
    } else if |s.biz| == 1 {
      OnlyKey(s, all, limit, r);
    }
  }

  lemma {:induction false} StepIsEarly(s: State, step: Step, t: State, r: Bytes, heard: bool)
    requires Early(s, heard) && Reserved(r) && Next(s, step, t, r) && (heard ==> !step.CommitUnheard?)
    ensures Early(t, heard)
  {
    hide Reserved, New, FetchOf, Lt, ScansFrom;
    if step.Round? { RoundIsEarly(s, step.all, step.limit, t, r, heard); }
  }

  lemma {:induction false} RunIsEarly(states: seq<State>, steps: seq<Step>, r: Bytes, heard: bool, n: nat)
    requires IsRun(states, steps, r) && n < |states|
    requires heard ==> AllHeard(steps)
    ensures Early(states[n], heard)
  {
    if n > 0 {
      RunIsEarly(states, steps, r, heard, n - 1);
      assert Next(states[n - 1], steps[n - 1], states[n - 1 + 1], r);
      StepIsEarly(states[n - 1], steps[n - 1], states[n], r, heard);
    }
  }

  lemma {:induction false} KeysOnlyArrive(states: seq<State>, steps: seq<Step>, r: Bytes, m: nat, n: nat)
    requires IsRun(states, steps, r) && m <= n < |states|
    ensures states[m].biz <= states[n].biz
  {
    if m < n {
      KeysOnlyArrive(states, steps, r, m, n - 1);
      assert Next(states[n - 1], steps[n - 1], states[n - 1 + 1], r);
    }
  }

  lemma {:induction false} EarlyIsAhead(s: State, k: Bytes, heard: bool)
    requires Early(s, heard) && |s.biz| < Grace(heard) && Ascending(s.biz + [k])
    ensures Ahead(s, k)
  {
    if |s.biz| == 1 {
      assert (s.biz + [k])[0] == s.biz[0] && (s.biz + [k])[1] == k;
      ZeroByteIsSuccessor(s.biz[0], k);
    }
  }

  lemma {:induction false} LateIsAhead(s: State, k: Bytes, r: Bytes)
    requires CursorsStand(s, r) && Ascending(s.biz + [k]) && Lt(r, k)
    ensures Ahead(s, k)
  {
    hide Lt, StandsBehind;
    AheadOf(s.biz, k, r, s.cursor);
    AheadOf(s.biz, k, r, s.committed);
    if s.progress.Sent? { AheadOf(s.biz, k, r, s.progress.next); }
  }

  /** If only keys within the grace sort below the offset key, no key arrives below a cursor. */
  lemma {:induction false} LateArrivalsAreOrderly(states: seq<State>, steps: seq<Step>, r: Bytes, ks: seq<Bytes>,
                                                  heard: bool)
    requires IsRun(states, steps, r) && Arriving(states, steps, ks, heard) && Ascending(ks)
    requires |ks| <= Grace(heard) || Lt(r, ks[Grace(heard)])
    ensures Orderly(states, steps)
  {
    forall i | 0 <= i < |steps| && steps[i].Arrive? ensures Ahead(states[i], steps[i].key) {
      hide Reserved, Ahead, Early, CursorsStand, FetchOf, New;
      var s, k, g := states[i], steps[i].key, Grace(heard);
      assert Next(states[i], steps[i], states[i + 1], r);
      KeysOnlyArrive(states, steps, r, i + 1, |steps|);
      assert s.biz + [k] <= ks;
      if |s.biz| < g {
        RunIsEarly(states, steps, r, heard, i);
        EarlyIsAhead(s, k, heard);
      } else {
        assert k == ks[|s.biz|];
        if |s.biz| > g { LtTransitive(r, ks[g], k); }
        RunStands(states, steps, r, i);
        LateIsAhead(s, k, r);
      }
    }
  }

  lemma {:induction false} FetchOne(a: Bytes, last: Option<Bytes>)
    requires !Reserved(a) && (last.Some? ==> Reserved(last.value))
    ensures FetchOf(if last.Some? then [a, last.value] else [a], 2) ==
            Fetched([a], if last.Some? then last else Some(a))
  {
    assert [a][..0] == [] && Looked([a], 2) == Fetched([a], Some(a));
    if last.Some? { assert [a, last.value][..1] == [a]; }
  }

  lemma {:induction false} SendOne(a: Bytes)
    ensures New([a], None) == [a] && New([a], Some(a)) == []
  {
    LtIrreflexive(a);
    assert [a][..0] == [];
  }

  /** The offset key stored, `a` the last key delivered: one more round moves both cursors behind the offset
      key, and a key that arrives below it then is missed. */
  lemma {:induction false} StepBehindOffset(s: State, a: Bytes, b: Bytes, r: Bytes) returns (path: seq<State>)
    requires s.progress.Resting? && s.stored && s.biz != [] && s.biz[|s.biz| - 1] == a && Ascending(s.biz + [b])
    requires Le(s.cursor, a) && forall k :: k in s.biz && k != a ==> Lt(k, s.cursor)
    requires (forall k :: k in s.biz ==> !Reserved(k)) && !Reserved(b) && Lt(b, r) && Reserved(r)
    requires b !in s.file && b !in New([a], s.hwm)
    ensures |path| == 3 && Next(s, Round([a, r], 2), path[0], r) && Next(path[0], Commit, path[1], r)
    ensures Next(path[1], Arrive(b), path[2], r) && path[2].biz == s.biz + [b] && Missed(path[2], b)
  {
    FetchOne(a, Some(r));
    ZeroByteIsSuccessor(r, r);
    LtTransitive(b, r, Behind(r));
    assert (s.biz + [b])[|s.biz| - 1] == a && (s.biz + [b])[|s.biz|] == b;
    LtTransitive(a, b, r);
    assert ScansFrom([a, r], s, r) by {
      LeLtTransitive(s.cursor, a, r);
      forall k ensures k in [a, r] <==> (k in s.biz || (s.stored && k == r)) && Le(s.cursor, k) {
        NotBelow(k, s.cursor);
      }
    }
    hide Reserved, FetchOf, Lt, ScansFrom, New;
    var sent := New([a], s.hwm);
    var s1 := s.(file := s.file + sent, hwm := if sent == [] then s.hwm else LastOf(sent), progress := Sent(Behind(r)));
    var s2 := s1.(cursor := Behind(r), committed := Behind(r), stored := true, progress := Resting);
    var s3 := s2.(biz := s.biz + [b]);
    path := [s1, s2, s3];
  }

  /** The first key arrived, and sent. */
  function FirstSent(a: Bytes): State { State([a], false, [], [], [a], Some(a), Sent(Behind(a))) }

  lemma {:induction false} FirstRound(a: Bytes, r: Bytes)
    requires !Reserved(a) && Reserved(r)
    ensures Next(Start().(biz := [a]), Round([a], 2), FirstSent(a), r)
  {
    hide Reserved, FetchOf, New, Lt, ScansFrom;
    FetchOne(a, None);
    SendOne(a);
    FirstScan(a, r);
    assert [] + [a] == [a];
  }

  lemma {:induction false} FirstArrival(a: Bytes, r: Bytes)
    requires !Reserved(a)
    ensures Next(Start(), Arrive(a), Start().(biz := [a]), r)
  {
    hide Reserved, Lt;
    assert Start().biz + [a] == [a];
  }

  lemma {:induction false} FirstScan(a: Bytes, r: Bytes)
    ensures ScansFrom([a], Start().(biz := [a]), r)
  {
  }

  lemma {:induction false} Pair(a: Bytes, b: Bytes)
    requires Lt(a, b)
    ensures Ascending([a, b]) && a != b && Le(Behind(a), b) && Lt(a, Behind(a))
  {
    LtIrreflexive(a);
    ZeroByteIsSuccessor(a, a);
    ZeroByteIsSuccessor(a, b);
  }

  /** A run and its last state, one step further. */
  lemma {:induction false} Onward(states: seq<State>, steps: seq<Step>, step: Step, t: State, r: Bytes)
    requires IsRun(states, steps, r) && Next(states[|steps|], step, t, r)
    ensures IsRun(states + [t], steps + [step], r) && (states + [t])[|steps + [step]|] == t
    ensures AllHeard(steps) && !step.CommitUnheard? ==> AllHeard(steps + [step])
  {
    hide Next, Reserved;
    var ss, ps := states + [t], steps + [step];
    forall i | 0 <= i < |ps| ensures Next(ss[i], ps[i], ss[i + 1], r) {
      if i < |steps| { assert Next(states[i], steps[i], states[i + 1], r); }
    }
  }

  /** The run up to the first key sent. */
  lemma {:induction false} RunToFirstSent(a: Bytes, r: Bytes) returns (states: seq<State>, steps: seq<Step>)
    requires !Reserved(a) && Reserved(r)
    ensures IsRun(states, steps, r) && states[|steps|] == FirstSent(a) && AllHeard(steps)
  {
    FirstRound(a, r);
    FirstArrival(a, r);
    hide Next, Reserved;
    assert IsRun([Start()], [], r);
    Onward([Start()], [], Arrive(a), Start().(biz := [a]), r);
    Onward([Start()] + [Start().(biz := [a])], [] + [Arrive(a)], Round([a], 2), FirstSent(a), r);
    states := [Start()] + [Start().(biz := [a])] + [FirstSent(a)];
    steps := [] + [Arrive(a)] + [Round([a], 2)];
  }

  /** From a run that ends as `StepBehindOffset` asks, on to the missed key. */
  lemma {:induction false} RunBehindOffset(states: seq<State>, steps: seq<Step>, a: Bytes, b: Bytes, r: Bytes)
    returns (more: seq<State>, ps: seq<Step>)
    requires IsRun(states, steps, r)
    requires var s := states[|steps|];
             && s.progress.Resting? && s.stored && s.biz != [] && s.biz[|s.biz| - 1] == a && Ascending(s.biz + [b])
             && Le(s.cursor, a) && (forall k :: k in s.biz && k != a ==> Lt(k, s.cursor))
             && (forall k :: k in s.biz ==> !Reserved(k)) && b !in s.file && b !in New([a], s.hwm)
    requires !Reserved(b) && Lt(b, r) && Reserved(r)
    ensures IsRun(more, ps, r) && more[|ps|].biz == states[|steps|].biz + [b] && Missed(more[|ps|], b)
    ensures AllHeard(steps) ==> AllHeard(ps)
  {
    var path := StepBehindOffset(states[|steps|], a, b, r);
    hide Next, Reserved, Missed, IsRun, AllHeard;
    Onward(states, steps, Round([a, r], 2), path[0], r);
    more, ps := states + [path[0]], steps + [Round([a, r], 2)];
    Onward(more, ps, Commit, path[1], r);
    more, ps := more + [path[1]], ps + [Commit];
    Onward(more, ps, Arrive(b), path[2], r);
    more, ps := more + [path[2]], ps + [Arrive(b)];
  }

  /** Two keys below the offset key: the first is sent, its commit takes hold unheard, the round is repeated
      and reaches the offset key, and the second key arrives below both cursors. */
  lemma {:induction false} SecondKeyIsMissed(a: Bytes, b: Bytes, r: Bytes)
    returns (states: seq<State>, steps: seq<Step>)
    requires Lt(a, b) && Lt(b, r) && Reserved(r) && !Reserved(a) && !Reserved(b)
    ensures IsRun(states, steps, r) && states[|steps|].biz == [a, b] && Missed(states[|steps|], b)
  {
    states, steps := RunToFirstSent(a, r);
    SendOne(a);
    Pair(a, b);
    var s := FirstSent(a).(committed := Behind(a), stored := true, progress := Resting);
    hide Reserved, FetchOf, New, Lt, Missed, ScansFrom, Ascending, IsRun;
    assert Next(FirstSent(a), CommitUnheard, s, r);
    Onward(states, steps, CommitUnheard, s, r);
    assert s.biz + [b] == [a, b];
    states, steps := RunBehindOffset(states + [s], steps + [CommitUnheard], a, b, r);
  }

  /** With every commit heard it takes three keys. */
  lemma {:induction false} ThirdKeyIsMissed(a: Bytes, b: Bytes, c: Bytes, r: Bytes)
    returns (states: seq<State>, steps: seq<Step>)
    requires Lt(a, b) && Lt(b, c) && Lt(c, r) && Reserved(r) && !Reserved(a) && !Reserved(b) && !Reserved(c)
    ensures IsRun(states, steps, r) && states[|steps|].biz == [a, b, c] && Missed(states[|steps|], c)
    ensures AllHeard(steps)
  {
    states, steps := RunToFirstSent(a, r);
    LtTransitive(a, b, c);
    Pair(a, b);
    Pair(b, c);
    Pair(a, c);
    assert Ascending([a, b, c]);
    var s := FirstSent(a).(cursor := Behind(a), committed := Behind(a), stored := true, progress := Resting);
    var t := s.(biz := [a, b]);
    assert c !in New([b], t.hwm) by { if c in New([b], t.hwm) { NewMembers([b], t.hwm, c); } }
    hide Reserved, FetchOf, New, Lt, Missed, ScansFrom, Ascending, IsRun, AllHeard;
    assert s.biz + [b] == [a, b] && t.biz + [c] == [a, b, c];
    assert Next(FirstSent(a), Commit, s, r) && Next(s, Arrive(b), t, r);
    Onward(states, steps, Commit, s, r);
    Onward(states + [s], steps + [Commit], Arrive(b), t, r);
    states, steps := RunBehindOffset(states + [s] + [t], steps + [Commit] + [Arrive(b)], b, c, r);
  }

  /** Ascending arrival alone is not enough. A list of arriving keys is delivered in every run if and only
      if no key beyond the grace sorts below the stored offset key: beyond the first, or, as long as every
      commit that took hold was heard of, beyond the second. */
  lemma {:induction false} AscendingIsEnoughIff(ks: seq<Bytes>, r: Bytes, heard: bool)
    requires Ascending(ks) && Reserved(r) && forall k :: k in ks ==> !Reserved(k)
    ensures (forall states, steps :: IsRun(states, steps, r) && Arriving(states, steps, ks, heard) ==>
                                     Delivered(states[|steps|])) <==>
            (|ks| <= Grace(heard) || Lt(r, ks[Grace(heard)]))
  {
    hide Reserved, Next;
    var g := Grace(heard);
    if |ks| <= g || Lt(r, ks[g]) {
      forall states, steps | IsRun(states, steps, r) && Arriving(states, steps, ks, heard)
        ensures Delivered(states[|steps|])
      {
        LateArrivalsAreOrderly(states, steps, r, ks, heard);
        DeliveredOnceInOrder(states, steps, r, |steps|);
      }
    } else {
      assert forall i :: 0 <= i < |ks| ==> ks[i] in ks;
      NotTheOffset(ks[g], r);
      var states, steps;
      if heard {
        states, steps := ThirdKeyIsMissed(ks[0], ks[1], ks[2], r);
      } else {
        states, steps := SecondKeyIsMissed(ks[0], ks[1], r);
      }
      assert Arriving(states, steps, ks, heard);
      MissedIsNotDelivered(states[|steps|], ks[g]);
    }
  }

  lemma {:induction false} NotTheOffset(k: Bytes, r: Bytes)
    requires !Reserved(k) && Reserved(r) && !Lt(r, k)
    ensures Lt(k, r)
  {
    LtTrichotomy(r, k);
  }

  lemma {:induction false} MissedIsNotDelivered(s: State, k: Bytes)
    requires Missed(s, k) && k in s.biz
    ensures !Delivered(s)
  {
  }

  /** After a send whose lines reached the file but whose sync failed, the mark stays behind. The next send
      then repeats lines, unless one of the two had nothing to write. */
  lemma {:induction false} FailedSyncRepeatsIff(s: State, q1: nat, q2: nat)
    requires Inv(s) && Below(s.biz, s.cursor) <= q1 <= |s.biz| && Below(s.biz, s.cursor) <= q2 <= |s.biz|
    ensures var p := Below(s.biz, s.cursor);
            var sent, again := New(s.biz[p..q1], s.hwm), New(s.biz[p..q2], s.hwm);
            Ascending(s.file + sent + again) <==> sent == [] || again == []
  {
    hide Lt, New, Below, Reserved;
    var p, m := Below(s.biz, s.cursor), |s.file|;
    assert s.file == s.biz[..m];
    NewIs(s.biz, p, q1, m);
    NewIs(s.biz, p, q2, m);
    var sent, again := New(s.biz[p..q1], s.hwm), New(s.biz[p..q2], s.hwm);
    if sent == [] || again == [] {
      var q := if sent != [] then q1 else if again != [] then q2 else m;
      assert s.file + sent + again == s.biz[..q];
    } else {
      var all := s.file + sent + again;
      assert all[m] == s.biz[m] && all[m + |sent|] == s.biz[m];
      LtIrreflexive(s.biz[m]);
      assert !Lt(all[m], all[m + |sent|]);
    }
  }

  lemma {:induction false} InvIsDelivered(s: State)
    requires Inv(s)
    ensures Delivered(s)
  {
    hide Reserved, LastOf;
    BelowSplits(s.biz, s.committed);
    forall k | k in s.biz && Lt(k, s.committed) ensures k in s.file {
      var i :| 0 <= i < |s.biz| && s.biz[i] == k;
      assert s.file[i] == k;
    }
  }

  /** A crash in the middle of a line leaves a fragment that the restart does not cut off. The first record of
      the next send continues that line and can no longer be read. Once that round is committed, delivery is
      still as promised if and only if the round had nothing to write. */
  lemma {:induction false} TornLineLosesAKeyIff(s: State, all: seq<Bytes>, limit: nat, r: Bytes)
    requires Inv(s) && Reserved(r) && ScansFrom(all, s, r) && limit >= 1 && FetchOf(all, limit).batch != []
    requires FetchOf(all, limit).last.Some?
    ensures var f := FetchOf(all, limit);
            var sent, next := New(f.batch, s.hwm), Behind(f.last.value);
            var t := s.(file := if sent == [] then s.file else s.file + sent[1..], cursor := next, committed := next);
            Delivered(t) <==> sent == []
  {
    hide Reserved, FetchOf, Below, New;
    var f := FetchOf(all, limit);
    var p, q := RoundTakes(s, all, limit, r);
    SentContinues(s, p, q);
    var sent, next := New(f.batch, s.hwm), Behind(f.last.value);
    if sent == [] {
      InvIsDelivered(s.(cursor := next, committed := next, progress := Resting));
    } else {
      FirstSentIsBelow(s, all, limit, r);
      var m := |s.file|;
      assert s.file + sent <= s.biz && s.biz[m] == sent[0];
      var file := s.file + sent[1..];
      forall i | 0 <= i < |file| ensures file[i] != sent[0] {
        assert file[i] == s.biz[if i < m then i else i + 1];
        if i < m { OneBefore(s.biz, i, m); } else { OneBefore(s.biz, m, i + 1); }
        LtIrreflexive(sent[0]);
      }
    }
  }

  /** Every key a round sends lies below the cursor it then commits. */
  lemma {:induction false} FirstSentIsBelow(s: State, all: seq<Bytes>, limit: nat, r: Bytes)
    requires ScansFrom(all, s, r) && limit >= 1 && FetchOf(all, limit).last.Some?
    requires New(FetchOf(all, limit).batch, s.hwm) != []
    ensures Lt(New(FetchOf(all, limit).batch, s.hwm)[0], Behind(FetchOf(all, limit).last.value))
  {
    var f := FetchOf(all, limit);
    var k := New(f.batch, s.hwm)[0];
    NewMembers(f.batch, s.hwm, k);
    var few := if |all| <= limit + 1 then all else all[..limit + 1];
    assert Ascending(few);
    hide Reserved, New, Looked;
    BatchUpToLast(few, limit);
    assert f == Looked(few, limit) && Le(k, f.last.value);
    ZeroByteIsSuccessor(f.last.value, f.last.value);
    LeLtTransitive(k, f.last.value, Behind(f.last.value));
  }

  lemma {:induction false} BatchUpToLast(ks: seq<Bytes>, limit: nat)
    requires Ascending(ks)
    ensures var f := Looked(ks, limit);
            forall k :: k in f.batch ==> f.last.Some? && Le(k, f.last.value)
  {
    hide Lt, Reserved;
    if ks != [] {
      var init, k := ks[..|ks| - 1], ks[|ks| - 1];
      BatchUpToLast(init, limit);
      LookedAtScan(init, limit);
      var before := Looked(init, limit);
      forall x | x in before.batch ensures Lt(x, k) {
        var i :| 0 <= i < |init| && init[i] == x;
        OneBefore(ks, i, |ks| - 1);
      }
    }
  }

  // ---- the parts as they run ----

  /** The loop of `Fetch` over what the scan returned. */
  method Fetch(entries: seq<Bytes>, cursor: Bytes, limit: nat) returns (batch: seq<Bytes>, next: Bytes)
    requires limit >= 1
    ensures batch == Looked(entries, limit).batch
    ensures next == match Looked(entries, limit).last case None => cursor case Some(k) => Behind(k)
  {
    batch := [];
    var last: Option<Bytes> := None;
    var i := 0;
    assert entries[..0] == [];
    while i < |entries|
      invariant 0 <= i <= |entries| && Looked(entries[..i], limit) == Fetched(batch, last) && |batch| < limit
    {
      var k := entries[i];
      assert entries[..i + 1][..|entries[..i + 1]| - 1] == entries[..i];
      last := Some(k);
      i := i + 1;
      if Reserved(k) { continue; }
      batch := batch + [k];
      if |batch| >= limit {
        LookedStops(entries, i, limit);
        return batch, Behind(k);
      }
    }
    assert entries[..i] == entries;
    next := if last.None? then cursor else Behind(last.value);
  }

  lemma {:induction false} LookedStops(ks: seq<Bytes>, n: nat, limit: nat)
    requires n <= |ks| && |Looked(ks[..n], limit).batch| >= limit
    ensures Looked(ks, limit) == Looked(ks[..n], limit)
  {
    if n < |ks| {
      assert ks[..|ks| - 1][..n] == ks[..n];
      LookedStops(ks[..|ks| - 1], n, limit);
    } else {
      assert ks[..n] == ks;
    }
  }

  class FileSink {
    /** The keys of the records in the file, in file order. */
    var file: seq<Bytes>
    var hwm: Option<Bytes>

    /** `recoverHWM`: the key of the last record. */
    constructor (file: seq<Bytes>)
      ensures this.file == file && hwm == LastOf(file)
    {
      this.file := file;
      var last: Option<Bytes> := None;
      var i := 0;
      while i < |file|
        invariant 0 <= i <= |file| && last == LastOf(file[..i])
      {
        last := Some(file[i]);
        i := i + 1;
      }
      assert file[..i] == file;
      hwm := last;
    }

    /** `Send`: append what is above the high-water mark, then raise the mark to the greatest key written. */
    method Send(batch: seq<Bytes>)
      requires Ascending(batch)
      modifies this
      ensures file == old(file) + New(batch, old(hwm))
      ensures hwm == if New(batch, old(hwm)) == [] then old(hwm) else LastOf(New(batch, old(hwm)))
    {
      hide Lt;
      var top: Option<Bytes> := None;
      ghost var sent: seq<Bytes> := [];
      var i := 0;
      assert batch[..0] == [];
      while i < |batch|
        modifies this`file
        invariant 0 <= i <= |batch| && sent == New(batch[..i], hwm) && file == old(file) + sent && top == LastOf(sent)
        invariant top.Some? ==> forall j :: i <= j < |batch| ==> Lt(top.value, batch[j])
      {
        var k := batch[i];
        assert batch[..i + 1][..|batch[..i + 1]| - 1] == batch[..i];
        i := i + 1;
        if hwm.Some? && !Lt(hwm.value, k) { continue; }
        file := file + [k];
        sent := sent + [k];
        if top.None? || Lt(top.value, k) { top := Some(k); }
      }
      assert batch[..i] == batch;
      if top.None? { return; }
      hwm := top;
    }
  }
}
