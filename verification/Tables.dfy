/** Sorted runs of key/value entries: what a memtable lists, what an SSTable file stores and what a
    merge consumes. A value of `None` is the tombstone that Go code writes as a nil value. */
module Tables {
  import opened Bytes

  type Value = Option<Bytes>

  datatype Entry = Entry(key: Bytes, value: Value)

  type Table = seq<Entry>

  ghost predicate Ascending(t: Table) {
    forall i, j :: 0 <= i < j < |t| ==> Lt(t[i].key, t[j].key)
  }

  /** Linear search: `None` is "not here", `Some(None)` is "deleted here". */
  function Lookup(t: Table, k: Bytes): (r: Option<Value>)
    ensures r.Some? ==> Entry(k, r.value) in t
  {
    if t == [] then None else if t[0].key == k then Some(t[0].value) else Lookup(t[1..], k)
  }

  /** The answer of the last table that holds `k`: tables are ordered oldest first. */
  function Newest(ts: seq<Table>, k: Bytes): (r: Option<Value>) {
    if ts == [] then None
    else
      var r := Lookup(ts[|ts| - 1], k);
      if r.Some? then r else Newest(ts[..|ts| - 1], k)
  }

  /** Position of the first key not below `k`. */
  function FirstGTE(t: Table, k: Bytes): (i: nat)
    ensures i <= |t|
    ensures forall j :: 0 <= j < i ==> Lt(t[j].key, k)
    ensures i < |t| ==> !Lt(t[i].key, k)
  {
    if t == [] || !Lt(t[0].key, k) then 0 else 1 + FirstGTE(t[1..], k)
  }

  /** Map update on a sorted table: overwrite in place or insert at the sorted position. */
  function Upsert(t: Table, k: Bytes, v: Value): Table {
    var i := FirstGTE(t, k);
    if i < |t| && t[i].key == k then t[i := Entry(k, v)] else t[..i] + [Entry(k, v)] + t[i..]
  }

  function ValueBytes(v: Value): nat {
    match v case None => 0 case Some(b) => |b|
  }

  /** Sum of key and value lengths. */
  function TableBytes(t: Table): nat {
    if t == [] then 0
    else TableBytes(t[..|t| - 1]) + |t[|t| - 1].key| + ValueBytes(t[|t| - 1].value)
  }

  lemma {:induction false} LookupAt(t: Table, i: nat)
    requires Ascending(t) && i < |t|
    ensures Lookup(t, t[i].key) == Some(t[i].value)
  {
    if i > 0 {
      LtTrichotomy(t[0].key, t[i].key);
      LookupAt(t[1..], i - 1);
    }
  }

  lemma {:induction false} LookupAbsent(t: Table, k: Bytes)
    ensures Lookup(t, k).None? <==> forall e :: e in t ==> e.key != k
  {
    if t != [] {
      LookupAbsent(t[1..], k);
      assert t == [t[0]] + t[1..];
    }
  }

  /** A sorted table is determined by what it answers. */
  lemma {:induction false} TablesWithEqualAnswersAreEqual(a: Table, b: Table)
    requires Ascending(a) && Ascending(b)
    requires forall k :: Lookup(a, k) == Lookup(b, k)
    ensures a == b
  {
    assert a == [] <==> b == [] by {
      if a != [] { assert Lookup(a, a[0].key).Some?; }
      if b != [] { assert Lookup(b, b[0].key).Some?; }
    }
    if a != [] {
      HeadIsLeast(a, b);
      HeadIsLeast(b, a);
      LtTrichotomy(a[0].key, b[0].key);
      assert Lookup(a, a[0].key) == Lookup(b, a[0].key);
      assert a[0] == b[0];
      forall k ensures Lookup(a[1..], k) == Lookup(b[1..], k) {
        assert Lookup(a, k) == Lookup(b, k);
        if k == a[0].key {
          LookupAbsentBelow(a[1..], k);
          LookupAbsentBelow(b[1..], k);
        }
      }
      TablesWithEqualAnswersAreEqual(a[1..], b[1..]);
      assert a == [a[0]] + a[1..] && b == [b[0]] + b[1..];
    }
  }

  lemma {:induction false} HeadIsLeast(a: Table, b: Table)
    requires Ascending(a) && a != [] && b != []
    requires Lookup(a, b[0].key).Some?
    ensures !Lt(b[0].key, a[0].key)
  {
    var i :| 0 <= i < |a| && a[i].key == b[0].key;
    LtTrichotomy(a[0].key, b[0].key);
  }

  lemma {:induction false} LookupAbsentBelow(t: Table, k: Bytes)
    requires forall e :: e in t ==> Lt(k, e.key)
    ensures Lookup(t, k).None?
  {
    LookupAbsent(t, k);
    LtTrichotomy(k, k);
  }

  lemma {:induction false} LookupAbsentAbove(t: Table, k: Bytes)
    requires forall e :: e in t ==> Lt(e.key, k)
    ensures Lookup(t, k).None?
  {
    LookupAbsent(t, k);
    LtTrichotomy(k, k);
  }

  lemma {:induction false} LookupConcat(a: Table, b: Table, k: Bytes)
    ensures Lookup(a + b, k) == if Lookup(a, k).Some? then Lookup(a, k) else Lookup(b, k)
  {
    if a == [] {
      assert a + b == b;
    } else {
      assert (a + b)[1..] == a[1..] + b;
      LookupConcat(a[1..], b, k);
    }
  }

  lemma {:induction false} NewestConcat(a: seq<Table>, b: seq<Table>, k: Bytes)
    ensures Newest(a + b, k) == if Newest(b, k).Some? then Newest(b, k) else Newest(a, k)
  {
    if b == [] {
      assert a + b == a;
    } else {
      assert (a + b)[..|a + b| - 1] == a + b[..|b| - 1];
      NewestConcat(a, b[..|b| - 1], k);
    }
  }

  lemma {:induction false} NewestOfOne(ts: seq<Table>, k: Bytes)
    requires |ts| == 1
    ensures Newest(ts, k) == Lookup(ts[0], k)
  {
    assert ts[..|ts| - 1] == [];
    assert Newest(ts[..|ts| - 1], k) == None;
  }

  /** `Upsert` cuts the table into the keys below `k`, perhaps the entry of `k`, and the keys above. */
  lemma {:induction false} UpsertParts(t: Table, k: Bytes, v: Value) returns (lo: Table, was: Table, hi: Table)
    requires Ascending(t)
    ensures t == lo + was + hi
    ensures Upsert(t, k, v) == lo + [Entry(k, v)] + hi
    ensures forall e :: e in lo ==> Lt(e.key, k)
    ensures forall e :: e in hi ==> Lt(k, e.key)
    ensures |was| <= 1 && forall e :: e in was ==> e.key == k
    ensures var i := FirstGTE(t, k); was == if i < |t| && t[i].key == k then [t[i]] else []
  {
    var i := FirstGTE(t, k);
    BelowFirstGTE(t, k);
    if i < |t| && t[i].key == k {
      lo, was, hi := t[..i], [t[i]], t[i + 1..];
      CutOut(t, i, Entry(k, v));
      AboveFound(t, i);
    } else {
      lo, was, hi := t[..i], [], t[i..];
      AboveFirstGTE(t, k);
      assert t == t[..i] + [] + t[i..];
    }
  }

  lemma {:induction false} CutOut<T>(s: seq<T>, i: nat, x: T)
    requires i < |s|
    ensures s == s[..i] + [s[i]] + s[i + 1..] && s[i := x] == s[..i] + [x] + s[i + 1..]
  {
  }

  lemma {:induction false} BelowFirstGTE(t: Table, k: Bytes)
    ensures forall e :: e in t[..FirstGTE(t, k)] ==> Lt(e.key, k)
  {
  }

  lemma {:induction false} AboveFound(t: Table, i: nat)
    requires Ascending(t) && i < |t|
    ensures forall e :: e in t[i + 1..] ==> Lt(t[i].key, e.key)
  {
  }

  lemma {:induction false} AboveFirstGTE(t: Table, k: Bytes)
    requires Ascending(t)
    requires var i := FirstGTE(t, k); i < |t| ==> t[i].key != k
    ensures forall e :: e in t[FirstGTE(t, k)..] ==> Lt(k, e.key)
  {
    var i := FirstGTE(t, k);
    forall e | e in t[i..] ensures Lt(k, e.key) {
      LtTotal(t[i].key, k);
      var j :| i <= j < |t| && t[j] == e;
      if j > i { LtTransitive(k, t[i].key, t[j].key); }
    }
  }

  lemma {:induction false} LookupParts(lo: Table, mid: Table, hi: Table, k: Bytes, q: Bytes)
    requires forall e :: e in lo ==> Lt(e.key, k)
    requires forall e :: e in hi ==> Lt(k, e.key)
    requires |mid| <= 1 && forall e :: e in mid ==> e.key == k
    ensures q == k ==> Lookup(lo + mid + hi, q) == if mid == [] then None else Some(mid[0].value)
    ensures q != k ==> Lookup(lo + mid + hi, q) == Lookup(lo + hi, q)
  {
    LookupConcat(lo + mid, hi, q);
    LookupConcat(lo, mid, q);
    LookupConcat(lo, hi, q);
    LookupAbsentAbove(lo, k);
    LookupAbsentBelow(hi, k);
    LookupAbsent(mid, q);
  }

  lemma {:induction false} AscendingConcat(a: Table, b: Table)
    requires Ascending(a) && Ascending(b)
    requires forall i, j :: 0 <= i < |a| && 0 <= j < |b| ==> Lt(a[i].key, b[j].key)
    ensures Ascending(a + b)
  {
  }

  lemma {:induction false} AscendingParts(a: Table, b: Table)
    requires Ascending(a + b)
    ensures Ascending(a) && Ascending(b)
    ensures forall i, j :: 0 <= i < |a| && 0 <= j < |b| ==> Lt(a[i].key, b[j].key)
  {
    assert a == (a + b)[..|a|] && b == (a + b)[|a|..];
    forall i, j | 0 <= i < |a| && 0 <= j < |b| ensures Lt(a[i].key, b[j].key) {
      assert a[i] == (a + b)[i] && b[j] == (a + b)[|a| + j];
    }
  }

  lemma {:induction false} UpsertAscending(t: Table, k: Bytes, v: Value)
    requires Ascending(t)
    ensures Ascending(Upsert(t, k, v))
  {
    var lo, was, hi := UpsertParts(t, k, v);
    AscendingParts(lo + was, hi);
    AscendingParts(lo, was);
    AscendingConcat(lo, [Entry(k, v)]);
    forall i, j | 0 <= i < |lo| + 1 && 0 <= j < |hi|
      ensures Lt((lo + [Entry(k, v)])[i].key, hi[j].key)
    {
      if i < |lo| { LtTransitive(lo[i].key, k, hi[j].key); }
    }
    AscendingConcat(lo + [Entry(k, v)], hi);
  }

  /** `Upsert` keeps the table sorted and is map update: the new key answers the new value and
      every other key answers as before. */
  lemma {:induction false} UpsertIsMapUpdate(t: Table, k: Bytes, v: Value)
    requires Ascending(t)
    ensures Ascending(Upsert(t, k, v))
    ensures forall q :: Lookup(Upsert(t, k, v), q) == if q == k then Some(v) else Lookup(t, q)
  {
    UpsertAscending(t, k, v);
    var lo, was, hi := UpsertParts(t, k, v);
    forall q ensures Lookup(Upsert(t, k, v), q) == if q == k then Some(v) else Lookup(t, q) {
      LookupParts(lo, [Entry(k, v)], hi, k, q);
      LookupParts(lo, was, hi, k, q);
    }
  }

  lemma {:induction false} TableBytesConcat(a: Table, b: Table)
    ensures TableBytes(a + b) == TableBytes(a) + TableBytes(b)
  {
    if b == [] {
      assert a + b == a;
    } else {
      assert (a + b)[..|a + b| - 1] == a + b[..|b| - 1];
      TableBytesConcat(a, b[..|b| - 1]);
    }
  }

  /** The byte total moves by the difference of value lengths on an overwrite and by the whole
      record on an insert. */
  lemma {:induction false} UpsertBytes(t: Table, k: Bytes, v: Value)
    requires Ascending(t)
    ensures TableBytes(Upsert(t, k, v)) ==
            TableBytes(t) + (match Lookup(t, k)
                             case None => |k| + ValueBytes(v)
                             case Some(w) => ValueBytes(v) - ValueBytes(w))
  {
    var lo, was, hi := UpsertParts(t, k, v);
    TableBytesConcat(lo + was, hi);
    TableBytesConcat(lo, was);
    TableBytesConcat(lo + [Entry(k, v)], hi);
    TableBytesConcat(lo, [Entry(k, v)]);
    LookupParts(lo, was, hi, k, k);
    SingletonBytes(Entry(k, v));
    if was != [] {
      assert was == [was[0]];
      SingletonBytes(was[0]);
    }
  }

  lemma {:induction false} SingletonBytes(e: Entry)
    ensures TableBytes([e]) == |e.key| + ValueBytes(e.value)
  {
    assert [e][..0] == [];
  }
}
