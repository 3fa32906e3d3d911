/** Bloom filters partitioned by key namespace, and the file lookup that consults them first. */
module Bloom {
  import opened Bytes
  import opened Tables
  import opened SSTable

  const UINT64: nat := 0x1_0000_0000_0000_0000

  /** Any deterministic pair of 64-bit hashes. */
  type Hash = Bytes -> (nat, nat)

  /** Bit count and probe count of a filter; how they follow from the element count is a parameter. */
  datatype Size = Size(m: nat, k: nat)

  predicate SizeOk(s: Size) { s.m >= 1 && s.k >= 1 }

  /** The `i`-th probed position: double hashing with 64-bit wrap-around. */
  function Probe(hash: Hash, s: Size, key: Bytes, i: nat): (p: nat)
    requires SizeOk(s)
    ensures p < s.m
  {
    (hash(key).0 + i * hash(key).1) % UINT64 % s.m
  }

  /** Position `p` is probed for `key`. */
  predicate Probed(hash: Hash, s: Size, key: Bytes, p: nat)
    requires SizeOk(s)
  {
    exists i :: 0 <= i < s.k && Probe(hash, s, key, i) == p
  }

  class BloomFilter {
    const size: Size
    const hash: Hash
    var bits: seq<bool>

    ghost predicate Valid()
      reads this
    {
      SizeOk(size) && |bits| == size.m
    }

    constructor (size: Size, hash: Hash)
      requires SizeOk(size)
      ensures Valid() && this.size == size && this.hash == hash
      ensures forall p :: 0 <= p < |bits| ==> !bits[p]
    {
      this.size, this.hash := size, hash;
      bits := seq(size.m, _ => false);
    }

    /** `Add` sets exactly the probed positions. */
    method Add(key: Bytes)
      requires Valid()
      modifies this
      ensures Valid()
      ensures forall p :: 0 <= p < |bits| ==> bits[p] == (old(bits)[p] || Probed(hash, size, key, p))
    {
      var i := 0;
      while i < size.k
        invariant 0 <= i <= size.k && Valid()
        invariant forall p :: 0 <= p < |bits| ==>
          (bits[p] <==> old(bits)[p] || exists j :: 0 <= j < i && Probe(hash, size, key, j) == p)
      {
        ghost var before := bits;
        bits := bits[Probe(hash, size, key, i) := true];
        i := i + 1;
        forall p | 0 <= p < |bits|
          ensures bits[p] <==> old(bits)[p] || exists j :: 0 <= j < i && Probe(hash, size, key, j) == p
        {
          if p == Probe(hash, size, key, i - 1) {
          } else if bits[p] {
            assert before[p];
          }
        }
      }
    }

    /** `MayContain` answers yes exactly when every probed position is set. */
    method MayContain(key: Bytes) returns (r: bool)
      requires Valid()
      ensures r <==> Admits(key)
    {
      var i := 0;
      while i < size.k
        invariant 0 <= i <= size.k
        invariant forall j :: 0 <= j < i ==> bits[Probe(hash, size, key, j)]
      {
        if !bits[Probe(hash, size, key, i)] { return false; }
        i := i + 1;
      }
      return true;
    }

    ghost predicate Admits(key: Bytes)
      requires Valid()
      reads this
    {
      forall i :: 0 <= i < size.k ==> bits[Probe(hash, size, key, i)]
    }
  }

  const SEPARATOR: Byte := 58

  /** Cut at the first separator; without one the namespace is empty and the suffix the whole key. */
  function SplitAt(key: Bytes): (n: nat)
    ensures n <= |key| && (n < |key| ==> key[n] == SEPARATOR)
    ensures forall i :: 0 <= i < n ==> key[i] != SEPARATOR
  {
    if key == [] || key[0] == SEPARATOR then 0 else 1 + SplitAt(key[1..])
  }

  function Namespace(key: Bytes): Bytes {
    if SplitAt(key) == |key| then [] else key[..SplitAt(key)]
  }

  function Suffix(key: Bytes): Bytes {
    if SplitAt(key) == |key| then key else key[SplitAt(key) + 1..]
  }

  lemma {:induction false} SplitAtFirst(ns: Bytes, rest: Bytes)
    requires SEPARATOR !in ns
    ensures SplitAt(ns + rest) == |ns| + SplitAt(rest)
  {
    if ns == [] {
      assert ns + rest == rest;
    } else {
      assert (ns + rest)[1..] == ns[1..] + rest && ns[0] in ns;
      SplitAtFirst(ns[1..], rest);
    }
  }

  /** What stands in front of the first separator is the namespace and what follows it the suffix; a key without a
      separator is all suffix. */
  lemma {:induction false} NamespaceIsInFront(ns: Bytes, suffix: Bytes)
    requires SEPARATOR !in ns
    ensures Namespace(ns + [SEPARATOR] + suffix) == ns && Suffix(ns + [SEPARATOR] + suffix) == suffix
    ensures Namespace(ns) == [] && Suffix(ns) == ns
  {
    assert ns + [SEPARATOR] + suffix == ns + ([SEPARATOR] + suffix);
    SplitAtFirst(ns, [SEPARATOR] + suffix);
    SplitAtFirst(ns, []);
    assert ns + [] == ns;
  }

  class PartitionedBloom {
    const hash: Hash
    var partitions: map<Bytes, BloomFilter>

    ghost predicate Valid()
      reads this, partitions.Values
    {
      && (forall ns :: ns in partitions ==> partitions[ns].Valid() && partitions[ns].hash == hash)
      && (forall a, b :: a in partitions && b in partitions && a != b ==> partitions[a] != partitions[b])
    }

    ghost predicate Admits(key: Bytes)
      requires Valid()
      reads this, partitions.Values
    {
      Namespace(key) in partitions && partitions[Namespace(key)].Admits(Suffix(key))
    }

    /** `BuildPartitionedBloom`: count the keys of each namespace, size one filter per namespace, add
        every key to its own. No key that went in is ever denied, and only the namespaces of the keys
        have a filter at all. */
    constructor (keys: seq<Bytes>, sizing: nat -> Size, hash: Hash)
      requires forall n :: SizeOk(sizing(n))
      ensures Valid()
      ensures forall i :: 0 <= i < |keys| ==> Admits(keys[i])
      ensures forall ns :: ns in partitions ==> exists i :: 0 <= i < |keys| && Namespace(keys[i]) == ns
    {
      this.hash := hash;
      partitions := map[];
      new;
      var counts := CountNamespaces(keys);
      OpenPartitions(counts, sizing);
      assert forall i :: 0 <= i < |keys| ==> Namespace(keys[i]) in counts;
      AddAll(keys);
    }

    method OpenPartitions(counts: map<Bytes, nat>, sizing: nat -> Size)
      requires partitions == map[] && forall n :: SizeOk(sizing(n))
      modifies this`partitions
      ensures Valid() && fresh(partitions.Values) && partitions.Keys == counts.Keys
    {
      var todo := counts.Keys;
      while todo != {}
        invariant Valid() && fresh(partitions.Values)
        invariant todo <= counts.Keys && partitions.Keys == counts.Keys - todo
        decreases todo
      {
        var ns :| ns in todo;
        OpenPartition(ns, sizing(counts[ns]));
        todo := todo - {ns};
      }
    }

    method OpenPartition(ns: Bytes, size: Size)
      requires Valid() && ns !in partitions && SizeOk(size)
      modifies this`partitions
      ensures Valid() && partitions.Keys == old(partitions).Keys + {ns}
      ensures fresh(partitions.Values - old(partitions).Values)
    {
      var f := new BloomFilter(size, hash);
      partitions := partitions[ns := f];
    }

    method AddAll(keys: seq<Bytes>)
      requires Valid() && forall i :: 0 <= i < |keys| ==> Namespace(keys[i]) in partitions
      modifies partitions.Values
      ensures Valid() && forall i :: 0 <= i < |keys| ==> Admits(keys[i])
    {
      var i := 0;
      while i < |keys|
        invariant 0 <= i <= |keys| && Valid()
        invariant forall j :: 0 <= j < i ==> Admits(keys[j])
      {
        AddKey(keys[i]);
        i := i + 1;
      }
    }

    method AddKey(key: Bytes)
      requires Valid() && Namespace(key) in partitions
      modifies partitions[Namespace(key)]
      ensures Valid() && Admits(key)
      ensures forall q :: old(Admits(q)) ==> Admits(q)
    {
      var f := partitions[Namespace(key)];
      f.Add(Suffix(key));
      forall q | old(Admits(q)) ensures Admits(q) {
        if Namespace(q) == Namespace(key) {
          assert partitions[Namespace(q)] == f;
        }
      }
    }

    method MayContain(key: Bytes) returns (r: bool)
      requires Valid()
      ensures r <==> Admits(key)
    {
      if Namespace(key) !in partitions { return false; }
      r := partitions[Namespace(key)].MayContain(Suffix(key));
    }
  }

  method CountNamespaces(keys: seq<Bytes>) returns (counts: map<Bytes, nat>)
    ensures forall ns :: ns in counts <==> exists i :: 0 <= i < |keys| && Namespace(keys[i]) == ns
  {
    counts := map[];
    var i := 0;
    while i < |keys|
      invariant 0 <= i <= |keys|
      invariant forall ns :: ns in counts <==> exists j :: 0 <= j < i && Namespace(keys[j]) == ns
    {
      var ns := Namespace(keys[i]);
      counts := counts[ns := if ns in counts then counts[ns] + 1 else 1];
      i := i + 1;
    }
  }

  /** `ReadFromSSTable`: the filter may veto, otherwise the block index decides. The veto never hides
      a key that was written. */
  method ReadFromSSTable(bloom: PartitionedBloom, data: Bytes, index: seq<IndexEntry>, key: Bytes, ghost t: Table)
    returns (r: Option<Value>)
    requires Ascending(t) && Fits(t) && data == Data(t) && index == IndexOf(t)
    requires bloom.Valid() && forall i :: 0 <= i < |t| ==> bloom.Admits(t[i].key)
    ensures r == Lookup(t, key)
  {
    var may := bloom.MayContain(key);
    if !may {
      LookupAbsent(t, key);
      return None;
    }
    r := SearchBlock(data, index, |data|, key, t);
  }
}
