/** One SSTable file, byte for byte: the data region, the block index over it, and the point lookup
    that binary-searches the index and scans a single block. */
module SSTable {
  import opened Bytes
  import opened Tables

  const BLOCK_SIZE: nat := 64
  const TOMBSTONE_LEN: nat := 0xFFFF_FFFF

  datatype IndexEntry = IndexEntry(lastKey: Bytes, offset: nat)

  /** A record is `[keyLen u32][key][valueLen u32][value]`; a tombstone has a reserved length and no value. */
  function EncodeEntry(e: Entry): Bytes {
    BigEndian(|e.key|, 4) + e.key +
    match e.value {
      case None => BigEndian(TOMBSTONE_LEN, 4)
      case Some(v) => BigEndian(|v|, 4) + v
    }
  }

  function Data(t: Table): Bytes {
    if t == [] then [] else EncodeEntry(t[0]) + Data(t[1..])
  }

  /** Lengths fit their fields, and no value has the length reserved for tombstones. */
  predicate EntryFits(e: Entry) {
    |e.key| < 0x1_0000_0000 && (e.value.Some? ==> |e.value.value| < TOMBSTONE_LEN)
  }

  predicate Fits(t: Table) {
    forall i :: 0 <= i < |t| ==> EntryFits(t[i])
  }

  function Min(a: nat, b: nat): nat { if a < b then a else b }

  function BlockCount(n: nat): nat { (n + BLOCK_SIZE - 1) / BLOCK_SIZE }

  /** The entries of block `b`. */
  function Block(t: Table, b: nat): Table
    requires b < BlockCount(|t|)
  {
    t[b * BLOCK_SIZE..Min((b + 1) * BLOCK_SIZE, |t|)]
  }

  function IndexOfBlock(t: Table, b: nat): IndexEntry
    requires b < BlockCount(|t|)
  {
    IndexEntry(t[Min((b + 1) * BLOCK_SIZE, |t|) - 1].key, |Data(t[..b * BLOCK_SIZE])|)
  }

  function IndexOf(t: Table): (idx: seq<IndexEntry>)
    ensures |idx| == BlockCount(|t|)
  {
    seq(BlockCount(|t|), b requires 0 <= b < BlockCount(|t|) => IndexOfBlock(t, b))
  }

  lemma {:induction false} DataConcat(a: Table, b: Table)
    ensures Data(a + b) == Data(a) + Data(b)
  {
    if a == [] {
      assert a + b == b;
    } else {
      assert (a + b)[0] == a[0] && (a + b)[1..] == a[1..] + b;
      DataConcat(a[1..], b);
    }
  }

  lemma {:induction false} DataSnoc(t: Table, n: nat)
    requires n < |t|
    ensures Data(t[..n + 1]) == Data(t[..n]) + EncodeEntry(t[n])
  {
    assert t[..n + 1] == t[..n] + [t[n]];
    DataConcat(t[..n], [t[n]]);
    assert Data([t[n]]) == EncodeEntry(t[n]) + Data([t[n]][1..]) == EncodeEntry(t[n]);
  }

  // ---- writing ----

  /** The index while `n` entries have been written: whole blocks, and an open last block. */
  function IndexSoFar(t: Table, n: nat): seq<IndexEntry>
    requires n <= |t|
  {
    IndexOf(t[..n])
  }

  lemma {:induction false} IndexGrows(t: Table, n: nat)
    requires n < |t|
    ensures var b := n / BLOCK_SIZE;
            var was, now := IndexSoFar(t, n), IndexSoFar(t, n + 1);
            && |was| == (if n % BLOCK_SIZE == 0 then b else b + 1) && |now| == b + 1
            && now == (if n % BLOCK_SIZE == 0
                       then was + [IndexEntry(t[n].key, |Data(t[..n])|)]
                       else was[b := was[b].(lastKey := t[n].key)])
  {
    var b := n / BLOCK_SIZE;
    var was, now := IndexSoFar(t, n), IndexSoFar(t, n + 1);
    forall i | 0 <= i < b ensures was[i] == now[i] {
      assert t[..n][..i * BLOCK_SIZE] == t[..n + 1][..i * BLOCK_SIZE];
    }
    assert t[..n + 1][..b * BLOCK_SIZE] == t[..b * BLOCK_SIZE];
    if n % BLOCK_SIZE != 0 {
      assert t[..n][..b * BLOCK_SIZE] == t[..b * BLOCK_SIZE];
    }
  }

  /** The loop of `WriteToSSTable` and `MergeSSTable`: encode the entries and note, at the start of
      each block, its offset, and at every entry, the block's last key so far. */
  method WriteData(t: Table) returns (buf: Bytes, index: seq<IndexEntry>)
    ensures buf == Data(t) && index == IndexOf(t)
  {
    buf, index := [], [];
    var n := 0;
    assert t[..0] == [];
    while n < |t|
      invariant 0 <= n <= |t|
      invariant buf == Data(t[..n]) && index == IndexSoFar(t, n)
    {
      IndexGrows(t, n);
      DataSnoc(t, n);
      var b := n / BLOCK_SIZE;
      if n % BLOCK_SIZE == 0 {
        index := index + [IndexEntry(t[n].key, |buf|)];
      }
      index := index[b := index[b].(lastKey := t[n].key)];
      buf := buf + EncodeEntry(t[n]);
      n := n + 1;
    }
    assert t[..n] == t;
  }

  // ---- reading one record ----

  lemma {:induction false} SliceOfConcat(a: Bytes, b: Bytes, c: Bytes)
    ensures (a + b + c)[..|a|] == a
    ensures (a + b + c)[|a|..|a| + |b|] == b
    ensures (a + b + c)[|a| + |b|..] == c
  {
  }

  /** What the scan reads at the start of `buf`: key, value and the number of bytes consumed. */
  function ReadRecord(buf: Bytes): Option<(Entry, nat)> {
    if |buf| < 4 then None
    else
      var kLen := FromBigEndian(buf[..4]);
      if 4 + kLen + 4 > |buf| then None
      else
        var k := buf[4..4 + kLen];
        var vLen := FromBigEndian(buf[4 + kLen..8 + kLen]);
        if vLen == TOMBSTONE_LEN then Some((Entry(k, None), 8 + kLen))
        else if 8 + kLen + vLen > |buf| then None
        else Some((Entry(k, Some(buf[8 + kLen..8 + kLen + vLen])), 8 + kLen + vLen))
  }

  /** A written record is read back, whatever follows it. */
  lemma {:induction false} ReadWrittenRecord(e: Entry, rest: Bytes)
    requires EntryFits(e)
    ensures ReadRecord(EncodeEntry(e) + rest) == Some((e, |EncodeEntry(e)|))
  {
    var buf := EncodeEntry(e) + rest;
    PowersOf256();
    hide BigEndian, FromBigEndian, Pow256;
    BigEndianRoundTrip(|e.key|, 4);
    BigEndianRoundTrip(TOMBSTONE_LEN, 4);
    var kl := BigEndian(|e.key|, 4);
    assert buf[..4] == kl && buf[4..4 + |e.key|] == e.key;
    match e.value
    case None =>
      assert buf[4 + |e.key|..8 + |e.key|] == BigEndian(TOMBSTONE_LEN, 4);
    case Some(v) =>
      BigEndianRoundTrip(|v|, 4);
      assert buf[4 + |e.key|..8 + |e.key|] == BigEndian(|v|, 4);
      assert buf[8 + |e.key|..8 + |e.key| + |v|] == v;
  }

  // ---- point lookup ----

  /** `blockExtent`: a block ends where the next begins, the last where the data region ends. */
  function BlockEnd(index: seq<IndexEntry>, dataEnd: nat, b: nat): nat
    requires b < |index|
  {
    if b + 1 < |index| then index[b + 1].offset else dataEnd
  }

  lemma {:induction false} DataSlice(t: Table, lo: nat, hi: nat)
    requires lo <= hi <= |t|
    ensures |Data(t[..lo])| <= |Data(t[..hi])| <= |Data(t)|
    ensures Data(t)[|Data(t[..lo])|..|Data(t[..hi])|] == Data(t[lo..hi])
  {
    assert t == t[..lo] + t[lo..hi] + t[hi..] && t[..hi] == t[..lo] + t[lo..hi];
    DataConcat(t[..lo] + t[lo..hi], t[hi..]);
    DataConcat(t[..lo], t[lo..hi]);
    SliceOfConcat(Data(t[..lo]), Data(t[lo..hi]), Data(t[hi..]));
  }

  lemma {:induction false} BlockEndAt(t: Table, b: nat)
    requires b < BlockCount(|t|)
    ensures BlockEnd(IndexOf(t), |Data(t)|, b) == |Data(t[..Min((b + 1) * BLOCK_SIZE, |t|)])|
  {
    if b + 1 == BlockCount(|t|) {
      assert t[..|t|] == t;
    }
  }

  lemma {:induction false} BlockBytes(t: Table, b: nat)
    requires b < BlockCount(|t|)
    ensures var start, end := IndexOf(t)[b].offset, BlockEnd(IndexOf(t), |Data(t)|, b);
            0 <= start <= end <= |Data(t)| && Data(t)[start..end] == Data(Block(t, b))
  {
    DataSlice(t, b * BLOCK_SIZE, Min((b + 1) * BLOCK_SIZE, |t|));
    BlockEndAt(t, b);
  }

  /** The in-block scan: walk the records until the key is met or passed. */
  method ScanBlock(buf: Bytes, key: Bytes, ghost block: Table) returns (r: Option<Value>)
    requires buf == Data(block) && Ascending(block) && Fits(block)
    ensures r == Lookup(block, key)
  {
    var off := 0;
    ghost var n := 0;
    while off + 4 <= |buf|
      invariant 0 <= off <= |buf| && 0 <= n <= |block|
      invariant buf[off..] == Data(block[n..])
      invariant Lookup(block, key) == Lookup(block[n..], key)
    {
      assert n < |block| by { assert block[|block|..] == [] && |buf[off..]| >= 4; }
      assert block[n..][1..] == block[n + 1..];
      ReadWrittenRecord(block[n], Data(block[n + 1..]));
      var rec := ReadRecord(buf[off..]);
      if rec == None { break; }
      var (e, len) := rec.value;
      if e.key == key { return Some(e.value); }
      if Lt(key, e.key) {
        TailIsAbove(block, n, key);
        return None;
      }
      assert buf[off..][len..] == buf[off + len..];
      off := off + len;
      n := n + 1;
    }
    assert n == |block|;
    return None;
  }

  lemma {:induction false} TailIsAbove(t: Table, n: nat, k: Bytes)
    requires Ascending(t) && n < |t| && Lt(k, t[n].key)
    ensures Lookup(t[n..], k).None?
  {
    forall e | e in t[n..] ensures Lt(k, e.key) {
      var i :| n <= i < |t| && t[i] == e;
      if i > n { LtTransitive(k, t[n].key, t[i].key); }
    }
    LookupAbsentBelow(t[n..], k);
  }

  /** Only the first block whose last key is not below `key` (or the last block) can hold it. */
  lemma {:induction false} LookupInBlock(t: Table, key: Bytes, b: nat)
    requires Ascending(t) && b < BlockCount(|t|)
    requires b > 0 ==> Lt(IndexOf(t)[b - 1].lastKey, key)
    requires b + 1 < BlockCount(|t|) ==> Le(key, IndexOf(t)[b].lastKey)
    ensures Lookup(t, key) == Lookup(Block(t, b), key)
  {
    LookupInSlice(t, key, b * BLOCK_SIZE, Min((b + 1) * BLOCK_SIZE, |t|));
  }

  lemma {:induction false} LookupInSlice(t: Table, key: Bytes, lo: nat, hi: nat)
    requires Ascending(t) && lo < hi <= |t|
    requires lo > 0 ==> Lt(t[lo - 1].key, key)
    requires hi < |t| ==> Le(key, t[hi - 1].key)
    ensures Lookup(t, key) == Lookup(t[lo..hi], key)
  {
    hide Lookup, Lt, Ascending;
    assert t == t[..lo] + t[lo..hi] + t[hi..];
    LookupConcat(t[..lo] + t[lo..hi], t[hi..], key);
    LookupConcat(t[..lo], t[lo..hi], key);
    HeadIsBelow(t, lo, key);
    if hi < |t| {
      Adjacent(t, hi);
      LeLtTransitive(key, t[hi - 1].key, t[hi].key);
      TailIsAbove(t, hi, key);
    } else {
      assert t[hi..] == [];
      NothingHere(key);
    }
  }

  lemma {:induction false} Adjacent(t: Table, i: nat)
    requires Ascending(t) && 0 < i < |t|
    ensures Lt(t[i - 1].key, t[i].key)
  {
  }

  lemma {:induction false} NothingHere(k: Bytes)
    ensures Lookup([], k).None?
  {
  }

  lemma {:induction false} HeadIsBelow(t: Table, n: nat, k: Bytes)
    requires Ascending(t) && n <= |t| && (n > 0 ==> Lt(t[n - 1].key, k))
    ensures Lookup(t[..n], k).None?
  {
    forall e | e in t[..n] ensures Lt(e.key, k) {
      var i :| 0 <= i < n && t[i] == e;
      if i < n - 1 { LtTransitive(e.key, t[n - 1].key, k); }
    }
    LookupAbsentAbove(t[..n], k);
  }

  /** `searchBlock`: the answer read through the index and one block is the answer of a linear scan of
      every entry written, tombstones included. */
  method SearchBlock(data: Bytes, index: seq<IndexEntry>, dataEnd: nat, key: Bytes, ghost t: Table)
    returns (r: Option<Value>)
    requires Ascending(t) && Fits(t)
    requires data == Data(t) && index == IndexOf(t) && dataEnd == |Data(t)|
    ensures r == Lookup(t, key)
  {
    hide Lt, Lookup, Ascending, Data, Fits;
    var lo := FindBlock(index, key);
    if lo >= |index| {
      return None;
    }
    var start, end := index[lo].offset, BlockEnd(index, dataEnd, lo);
    BlockBytes(t, lo);
    BlockIsSound(t, lo);
    LookupInBlock(t, key, lo);
    if end <= start {
      DataNonempty(Block(t, lo));
      return None;
    }
    r := ScanBlock(data[start..end], key, Block(t, lo));
  }

  lemma {:induction false} BlockIsSound(t: Table, b: nat)
    requires Ascending(t) && Fits(t) && b < |IndexOf(t)|
    ensures Ascending(Block(t, b)) && Fits(Block(t, b))
  {
  }

  lemma {:induction false} DataNonempty(t: Table)
    requires t != []
    ensures Data(t) != []
  {
  }

  /** The binary search shared by point lookups and range scans: the first block whose last key is
      not below `key`, or the last block. */
  method FindBlock(index: seq<IndexEntry>, key: Bytes) returns (lo: nat)
    ensures index == [] ==> lo == 0
    ensures index != [] ==> lo < |index|
    ensures index != [] && lo > 0 ==> Lt(index[lo - 1].lastKey, key)
    ensures index != [] && lo < |index| - 1 ==> Le(key, index[lo].lastKey)
  {
    lo := 0;
    var hi := |index| - 1;
    while lo < hi
      invariant 0 <= lo && (index != [] ==> lo <= hi < |index|) && (index == [] ==> lo == 0)
      invariant lo > 0 ==> index != [] && Lt(index[lo - 1].lastKey, key)
      invariant index != [] && hi < |index| - 1 ==> Le(key, index[hi].lastKey)
    {
      var mid := (lo + hi) / 2;
      if Le(key, index[mid].lastKey) {
        hi := mid;
      } else {
        LtTotal(key, index[mid].lastKey);
        lo := mid + 1;
      }
    }
  }
}
