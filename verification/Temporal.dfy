/** Versioned writes: a version record first, then the pointer to it, with stops in between. */
module Temporal {
  import opened Bytes
  import opened VersionKeys

  datatype Version = Version(nanos: int, source: Bytes, schema: nat, payload: Bytes)

  /** What the key-value store holds under a storage key. */
  datatype Cell = Rec(version: Version) | Pointer(seqNo: nat, hash: Bytes)

  type Cells = map<Bytes, Cell>

  /** A logical key that does not itself look like a pointer key. */
  predicate Plain(logical: Bytes) {
    logical != [] && (|logical| < |SUFFIX| || logical[|logical| - |SUFFIX|..] != SUFFIX)
  }

  /** The fallback of the server's `Get`: the payload the pointer of `key` leads to. */
  function ViaPointer(cells: Cells, key: Bytes): Option<Bytes> {
    if CurrentKey(key) in cells && cells[CurrentKey(key)].Pointer? then
      var k := VersionKey(key, cells[CurrentKey(key)].seqNo);
      if k in cells && cells[k].Rec? then Some(cells[k].version.payload) else None
    else None
  }

  /** `currentPointer`. A pointer that is missing is looked up through the fallback like any other key, so
      a payload may be taken for a pointer if it decodes as one. */
  function ReadPointer(cells: Cells, logical: Bytes, decode: Bytes -> Option<nat>): Option<nat> {
    var k := CurrentKey(logical);
    if k in cells then (if cells[k].Pointer? then Some(cells[k].seqNo) else None)
    else
      match ViaPointer(cells, k)
      case None => None
      case Some(payload) => decode(payload)
  }

  /** The store, the sequence cache, the calls between their two writes, and as history the acknowledged
      versions of each logical key. */
  datatype State = State(cells: Cells, cache: map<Bytes, nat>, writing: map<Bytes, (nat, Version)>,
                         acked: map<Bytes, seq<Version>>)

  function Acked(s: State, logical: Bytes): seq<Version> { if logical in s.acked then s.acked[logical] else [] }

  function NextSeq(s: State, logical: Bytes, decode: Bytes -> Option<nat>): nat {
    if logical in s.cache then s.cache[logical] + 1
    else
      match ReadPointer(s.cells, logical, decode)
      case None => 1
      case Some(n) => n + 1
  }

  datatype Step =
    | Begin(logical: Bytes, version: Version)
    | Commit(logical: Bytes)
    | Abandon(logical: Bytes)
    | Restart

  ghost predicate Next(s: State, step: Step, t: State, hash: Bytes -> Bytes, decode: Bytes -> Option<nat>) {
    match step
    case Begin(l, v) =>
      && Plain(l) && l !in s.writing && NextSeq(s, l, decode) <= MAX_SEQ
      && var n := NextSeq(s, l, decode);
         t == s.(cells := s.cells[VersionKey(l, n) := Rec(v)], writing := s.writing[l := (n, v)])
    case Commit(l) =>
      && l in s.writing
      && var (n, v) := s.writing[l];
         t == s.(cells := s.cells[CurrentKey(l) := Pointer(n, hash(v.payload))], cache := s.cache[l := n],
                 writing := s.writing - {l}, acked := s.acked[l := Acked(s, l) + [v]])
    case Abandon(l) => l in s.writing && t == s.(writing := s.writing - {l})
    case Restart => t == s.(cache := map[], writing := map[])
  }

  // ---- the invariant, one logical key at a time ----

  ghost predicate Holds(cells: Cells, key: Bytes, cell: Cell) { key in cells && cells[key] == cell }

  /** The stored versions of `l` are the acknowledged ones, in order, and perhaps one more. */
  ghost predicate VersionsOk(cells: Cells, l: Bytes, acked: seq<Version>) {
    && |acked| <= MAX_SEQ && VersionKey(l, 0) !in cells
    && (forall i :: 0 < i <= |acked| ==> Holds(cells, VersionKey(l, i), Rec(acked[i - 1])))
    && (forall i :: |acked| + 1 < i <= MAX_SEQ ==> VersionKey(l, i) !in cells)
    && (|acked| < MAX_SEQ && VersionKey(l, |acked| + 1) in cells ==> cells[VersionKey(l, |acked| + 1)].Rec?)
  }

  /** The current key of `l` names its last acknowledged version. */
  ghost predicate PointerOk(cells: Cells, l: Bytes, acked: seq<Version>, hash: Bytes -> Bytes) {
    if acked == [] then CurrentKey(l) !in cells
    else Holds(cells, CurrentKey(l), Pointer(|acked|, hash(acked[|acked| - 1].payload)))
  }

  ghost predicate KeyOk(s: State, l: Bytes, hash: Bytes -> Bytes) {
    var acked := Acked(s, l);
    && VersionsOk(s.cells, l, acked) && PointerOk(s.cells, l, acked, hash)
    && (l in s.cache ==> s.cache[l] == |acked|)
    && (l in s.writing ==>
          s.writing[l].0 == |acked| + 1 <= MAX_SEQ && Holds(s.cells, VersionKey(l, |acked| + 1), Rec(s.writing[l].1)))
    && (!Plain(l) ==> acked == [] && l !in s.writing)
  }

  ghost predicate Inv(s: State, hash: Bytes -> Bytes) {
    forall l :: KeyOk(s, l, hash)
  }

  /** Nothing under the keys of `l` changed. */
  ghost predicate Untouched(a: Cells, b: Cells, l: Bytes) {
    && (CurrentKey(l) in a <==> CurrentKey(l) in b) && (CurrentKey(l) in a ==> a[CurrentKey(l)] == b[CurrentKey(l)])
    && forall i :: 0 <= i <= MAX_SEQ ==>
         && (VersionKey(l, i) in a <==> VersionKey(l, i) in b)
         && (VersionKey(l, i) in a ==> a[VersionKey(l, i)] == b[VersionKey(l, i)])
  }

  lemma {:induction false} UntouchedOk(s: State, t: State, l: Bytes, hash: Bytes -> Bytes)
    requires KeyOk(s, l, hash) && Untouched(s.cells, t.cells, l) && Acked(t, l) == Acked(s, l)
    requires (l in t.cache ==> l in s.cache && t.cache[l] == s.cache[l])
    requires (l in t.writing ==> l in s.writing && t.writing[l] == s.writing[l])
    ensures KeyOk(t, l, hash)
  {
    hide VersionKey, CurrentKey, Plain;
  }

  /** Writing a version of one logical key touches no other. */
  lemma {:induction false} VersionWriteElsewhere(cells: Cells, l: Bytes, n: nat, cell: Cell, other: Bytes)
    requires other != l && n <= MAX_SEQ
    ensures Untouched(cells, cells[VersionKey(l, n) := cell], other)
  {
    hide VersionKey, CurrentKey;
    VersionIsNotCurrent(l, n);
    forall i | 0 <= i <= MAX_SEQ ensures VersionKey(other, i) != VersionKey(l, n) {
      if VersionKey(other, i) == VersionKey(l, n) { KeysDiffer(other, i, l, n); }
    }
  }

  lemma {:induction false} PointerWriteElsewhere(cells: Cells, l: Bytes, cell: Cell, other: Bytes)
    requires other != l
    ensures Untouched(cells, cells[CurrentKey(l) := cell], other)
  {
    hide VersionKey, CurrentKey;
    CurrentDiffers(other, l);
    forall i | 0 <= i <= MAX_SEQ ensures VersionKey(other, i) != CurrentKey(l) { VersionIsNotCurrent(other, i); }
  }

  lemma {:induction false} CurrentDiffers(a: Bytes, b: Bytes)
    requires a != b
    ensures CurrentKey(a) != CurrentKey(b)
  {
    assert a == CurrentKey(a)[..|CurrentKey(a)| - |SUFFIX|] && b == CurrentKey(b)[..|CurrentKey(b)| - |SUFFIX|];
  }

  /** The next number is one above the acknowledged ones, from the cache or, after a restart, from the
      pointer. */
  lemma {:induction false} NextIsAbove(s: State, l: Bytes, hash: Bytes -> Bytes, decode: Bytes -> Option<nat>)
    requires Inv(s, hash) && Plain(l)
    ensures NextSeq(s, l, decode) == |Acked(s, l)| + 1
  {
    hide VersionKey, Plain, VersionsOk, Acked;
    assert KeyOk(s, l, hash);
    PointerKeyIsNotPlain(l);
    assert KeyOk(s, CurrentKey(l), hash);
  }

  lemma {:induction false} PointerKeyIsNotPlain(l: Bytes)
    ensures !Plain(CurrentKey(l))
  {
    var k := CurrentKey(l);
    assert k[|k| - |SUFFIX|..] == SUFFIX;
  }

  // ---- steps ----

  lemma {:induction false} BeginKeeps(s: State, l0: Bytes, v: Version, t: State, hash: Bytes -> Bytes,
                                      decode: Bytes -> Option<nat>, l: Bytes)
    requires Inv(s, hash) && Next(s, Begin(l0, v), t, hash, decode)
    ensures KeyOk(t, l, hash)
  {
    hide VersionKey, CurrentKey, Plain, NextSeq;
    assert KeyOk(s, l, hash);
    NextIsAbove(s, l0, hash, decode);
    var n := NextSeq(s, l0, decode);
    if l != l0 {
      VersionWriteElsewhere(s.cells, l0, n, Rec(v), l);
      UntouchedOk(s, t, l, hash);
    } else {
      VersionIsNotCurrent(l, n);
      forall i | 0 <= i <= MAX_SEQ && i != n ensures VersionKey(l, i) != VersionKey(l, n) {
        if VersionKey(l, i) == VersionKey(l, n) { KeysDiffer(l, i, l, n); }
      }
    }
  }

  lemma {:induction false} CommitKeeps(s: State, l0: Bytes, t: State, hash: Bytes -> Bytes,
                                       decode: Bytes -> Option<nat>, l: Bytes)
    requires Inv(s, hash) && Next(s, Commit(l0), t, hash, decode)
    ensures KeyOk(t, l, hash)
  {
    hide VersionKey, CurrentKey, Plain, VersionsOk, Untouched;
    assert KeyOk(s, l, hash);
    var (n, v) := s.writing[l0];
    if l != l0 {
      PointerWriteElsewhere(s.cells, l0, Pointer(n, hash(v.payload)), l);
      UntouchedOk(s, t, l, hash);
    } else {
      VersionsAfterCommit(s.cells, l, Acked(s, l), v, Pointer(n, hash(v.payload)));
    }
  }

  lemma {:induction false} VersionsAfterCommit(cells: Cells, l: Bytes, acked: seq<Version>, v: Version, p: Cell)
    requires VersionsOk(cells, l, acked) && |acked| < MAX_SEQ && Holds(cells, VersionKey(l, |acked| + 1), Rec(v))
    ensures VersionsOk(cells[CurrentKey(l) := p], l, acked + [v])
  {
    hide VersionKey, CurrentKey;
    forall i | 0 <= i <= MAX_SEQ ensures VersionKey(l, i) != CurrentKey(l) { VersionIsNotCurrent(l, i); }
  }

  lemma {:induction false} StepKeeps(s: State, step: Step, t: State, hash: Bytes -> Bytes, decode: Bytes -> Option<nat>)
    requires Inv(s, hash) && Next(s, step, t, hash, decode)
    ensures Inv(t, hash)
  {
    forall l ensures KeyOk(t, l, hash) {
      assert KeyOk(s, l, hash);
      match step
      case Begin(l0, v) => BeginKeeps(s, l0, v, t, hash, decode, l);
      case Commit(l0) => CommitKeeps(s, l0, t, hash, decode, l);
      case Abandon(l0) => UntouchedOk(s, t, l, hash);
      case Restart => UntouchedOk(s, t, l, hash);
    }
  }

  function Empty(): State { State(map[], map[], map[], map[]) }

  ghost predicate IsRun(states: seq<State>, steps: seq<Step>, hash: Bytes -> Bytes, decode: Bytes -> Option<nat>) {
    && |states| == |steps| + 1 && states[0] == Empty()
    && forall i :: 0 <= i < |steps| ==> Next(states[i], steps[i], states[i + 1], hash, decode)
  }

  lemma {:induction false} RunKeeps(states: seq<State>, steps: seq<Step>, hash: Bytes -> Bytes,
                                    decode: Bytes -> Option<nat>, n: nat)
    requires IsRun(states, steps, hash, decode) && n < |states|
    ensures Inv(states[n], hash)
  {
    if n > 0 {
      RunKeeps(states, steps, hash, decode, n - 1);
      assert Next(states[n - 1], steps[n - 1], states[n - 1 + 1], hash, decode);
      StepKeeps(states[n - 1], steps[n - 1], states[n], hash, decode);
    }
  }

  lemma {:induction false} AckedGrows(states: seq<State>, steps: seq<Step>, hash: Bytes -> Bytes,
                                      decode: Bytes -> Option<nat>, m: nat, n: nat, l: Bytes)
    requires IsRun(states, steps, hash, decode) && m <= n < |states|
    ensures Acked(states[m], l) <= Acked(states[n], l)
  {
    if m < n {
      AckedGrows(states, steps, hash, decode, m, n - 1, l);
      assert Next(states[n - 1], steps[n - 1], states[n - 1 + 1], hash, decode);
    }
  }

  /** Acknowledged versions stay: once version `i` of `l` was acknowledged at moment `m`, its record is in
      the store, unchanged, at every later moment `n`. */
  lemma {:induction false} AcknowledgedIsNeverOverwritten(states: seq<State>, steps: seq<Step>, hash: Bytes -> Bytes,
                                                          decode: Bytes -> Option<nat>, m: nat, n: nat, l: Bytes,
                                                          i: nat)
    requires IsRun(states, steps, hash, decode) && m <= n < |states| && 0 < i <= |Acked(states[m], l)|
    ensures Holds(states[n].cells, VersionKey(l, i), Rec(Acked(states[m], l)[i - 1]))
  {
    RunKeeps(states, steps, hash, decode, n);
    AckedGrows(states, steps, hash, decode, m, n, l);
    assert KeyOk(states[n], l, hash);
  }

  /** Acknowledged numbers are exactly 1 to n: an acknowledgement always carries the next number. */
  lemma {:induction false} AcknowledgedNumbersAreConsecutive(states: seq<State>, steps: seq<Step>, hash: Bytes -> Bytes,
                                                             decode: Bytes -> Option<nat>, n: nat, l: Bytes)
    requires IsRun(states, steps, hash, decode) && n < |steps| && steps[n] == Commit(l)
    ensures l in states[n].writing && states[n].writing[l].0 == |Acked(states[n], l)| + 1 == |Acked(states[n + 1], l)|
  {
    RunKeeps(states, steps, hash, decode, n);
    assert Next(states[n], steps[n], states[n + 1], hash, decode);
    assert KeyOk(states[n], l, hash);
  }

  /** The pointer always names a stored version with a matching hash, and a read through it gives the last
      acknowledged payload. */
  lemma {:induction false} PointerNamesAStoredVersion(states: seq<State>, steps: seq<Step>, hash: Bytes -> Bytes,
                                                      decode: Bytes -> Option<nat>, n: nat, l: Bytes)
    requires IsRun(states, steps, hash, decode) && n < |states| && CurrentKey(l) in states[n].cells
    ensures var s, acked := states[n], Acked(states[n], l);
            && acked != [] && s.cells[CurrentKey(l)] == Pointer(|acked|, hash(acked[|acked| - 1].payload))
            && Holds(s.cells, VersionKey(l, |acked|), Rec(acked[|acked| - 1]))
            && ViaPointer(s.cells, l) == Some(acked[|acked| - 1].payload)
  {
    RunKeeps(states, steps, hash, decode, n);
    assert KeyOk(states[n], l, hash);
  }

  /** A call of `PutVersioned` whose writes both succeed, for any logical key. */
  function Put(s: State, l: Bytes, v: Version, hash: Bytes -> Bytes, decode: Bytes -> Option<nat>): State {
    var n := NextSeq(s, l, decode);
    State(s.cells[VersionKey(l, n) := Rec(v)][CurrentKey(l) := Pointer(n, hash(v.payload))], s.cache[l := n],
          s.writing, s.acked[l := Acked(s, l) + [v]])
  }

  /** Why logical keys must not end in the pointer suffix. After one write of such a key, the missing pointer
      of `l` is read from that write's payload: the first version of `l` gets number 1 if and only if the
      payload does not decode as a pointer to a version above zero, and otherwise the number behind it. */
  lemma {:induction false} PointerSuffixSkipsIff(l: Bytes, v: Version, w: Version, hash: Bytes -> Bytes,
                                                 decode: Bytes -> Option<nat>)
    requires Plain(l) && (decode(v.payload).Some? ==> decode(v.payload).value < MAX_SEQ)
    ensures var s := Put(Empty(), CurrentKey(l), v, hash, decode);
            var t := Put(s, l, w, hash, decode);
            var n := if decode(v.payload).Some? then decode(v.payload).value + 1 else 1;
            && !Plain(CurrentKey(l)) && Acked(t, l) == [w] && Holds(t.cells, CurrentKey(l), Pointer(n, hash(w.payload)))
            && Holds(t.cells, VersionKey(l, n), Rec(w)) && (VersionKey(l, 1) in t.cells <==> n == 1)
  {
    hide VersionKey, Plain;
    var alias := CurrentKey(l);
    PointerKeyIsNotPlain(l);
    VersionIsNotCurrent(alias, 1);
    assert |CurrentKey(CurrentKey(alias))| > |CurrentKey(alias)| > |CurrentKey(l)| > |l|;
    var s := Put(Empty(), alias, v, hash, decode);
    assert NextSeq(Empty(), alias, decode) == 1;
    assert s.cells == map[VersionKey(alias, 1) := Rec(v), CurrentKey(alias) := Pointer(1, hash(v.payload))];
    assert ViaPointer(s.cells, alias) == Some(v.payload) && l !in s.cache && alias !in s.cells;
    var n := NextSeq(s, l, decode);
    VersionIsNotCurrent(l, n);
    VersionIsNotCurrent(l, 1);
    if VersionKey(l, 1) == VersionKey(alias, 1) { KeysDiffer(l, 1, alias, 1); }
    if VersionKey(l, 1) == VersionKey(l, n) { KeysDiffer(l, 1, l, n); }
  }

  class TemporalStore {
    var cells: Cells
    var cache: map<Bytes, nat>

    constructor (cells: Cells)
      ensures this.cells == cells && cache == map[]
    {
      this.cells, cache := cells, map[];
    }

    method NextNumber(l: Bytes, decode: Bytes -> Option<nat>) returns (n: nat)
      ensures n == NextSeq(State(cells, cache, map[], map[]), l, decode)
    {
      if l in cache { return cache[l] + 1; }
      var pointer := ReadPointer(cells, l, decode);
      if pointer.None? { return 1; }
      return pointer.value + 1;
    }

    /** `PutVersioned`, of whose two writes the first `writes` succeed: the version record, then the pointer,
        then the cache. Whatever fails, no other key is written. */
    method PutVersioned(l: Bytes, v: Version, hash: Bytes -> Bytes, decode: Bytes -> Option<nat>, writes: nat)
      returns (seqNo: Option<nat>)
      modifies this
      ensures var n := NextSeq(State(old(cells), old(cache), map[], map[]), l, decode);
              && seqNo == (if writes >= 2 then Some(n) else None)
              && cells == (if writes == 0 then old(cells)
                           else if writes == 1 then old(cells)[VersionKey(l, n) := Rec(v)]
                           else old(cells)[VersionKey(l, n) := Rec(v)][CurrentKey(l) := Pointer(n, hash(v.payload))])
              && cache == (if writes >= 2 then old(cache)[l := n] else old(cache))
    {
      var n := NextNumber(l, decode);
      if writes == 0 { return None; }
      cells := cells[VersionKey(l, n) := Rec(v)];
      if writes == 1 { return None; }
      cells := cells[CurrentKey(l) := Pointer(n, hash(v.payload))];
      cache := cache[l := n];
      return Some(n);
    }
  }

  /** A call whose writes both succeed is the two steps of a run. */
  lemma {:induction false} CallIsBeginAndCommit(s: State, l: Bytes, v: Version, hash: Bytes -> Bytes,
                                                decode: Bytes -> Option<nat>) returns (t: State)
    requires Plain(l) && l !in s.writing && NextSeq(s, l, decode) <= MAX_SEQ
    ensures Next(s, Begin(l, v), t, hash, decode) && Next(t, Commit(l), Put(s, l, v, hash, decode), hash, decode)
  {
    hide NextSeq, VersionKey, CurrentKey, Plain;
    var n := NextSeq(s, l, decode);
    t := s.(cells := s.cells[VersionKey(l, n) := Rec(v)], writing := s.writing[l := (n, v)]);
    assert t.writing - {l} == s.writing;
  }
}
