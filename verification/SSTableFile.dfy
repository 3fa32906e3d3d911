/** A whole SSTable file and what a restart reads back from its tail; and the iterator that a range
    scan runs over one file. */
module SSTableFile {
  import opened Bytes
  import opened Tables
  import opened SSTable

  const INDEX_MAGIC: nat := 0x4944_5846
  const BLOOM_MAGIC: nat := 0x424c_4d46
  const FOOTER_SIZE: nat := 16
  const TRAILER_SIZE: nat := 12
  const MAX_BLOOM_BYTES: nat := 0x4000_0000
  const INT64_LIMIT: nat := 0x8000_0000_0000_0000

  // ---- the tail ----

  function EncodeIndexEntry(e: IndexEntry): Bytes {
    BigEndian(|e.lastKey|, 4) + e.lastKey + BigEndian(e.offset, 8)
  }

  function EncodeIndex(index: seq<IndexEntry>): Bytes {
    if index == [] then [] else EncodeIndexEntry(index[0]) + EncodeIndex(index[1..])
  }

  function Trailer(blob: Bytes): Bytes {
    BigEndian(|blob|, 8) + BigEndian(BLOOM_MAGIC, 4)
  }

  function Footer(blocks: nat, indexStart: nat): Bytes {
    BigEndian(blocks, 4) + BigEndian(indexStart, 8) + BigEndian(INDEX_MAGIC, 4)
  }

  /** Data region, block index, Bloom blob with its trailer, footer. */
  function FileBytes(t: Table, blob: Bytes): Bytes {
    Data(t) + EncodeIndex(IndexOf(t)) + (blob + Trailer(blob)) + Footer(|IndexOf(t)|, |Data(t)|)
  }

  predicate IndexFits(index: seq<IndexEntry>) {
    forall i :: 0 <= i < |index| ==> |index[i].lastKey| < 0x1_0000_0000 && index[i].offset < INT64_LIMIT
  }

  /** Read `count` index entries; `None` when the bytes run out. */
  function ReadIndex(buf: Bytes, count: nat): Option<seq<IndexEntry>> {
    if count == 0 then Some([])
    else if |buf| < 4 then None
    else
      var n := FromBigEndian(buf[..4]);
      if 4 + n + 8 > |buf| then None
      else
        var e := IndexEntry(buf[4..4 + n], FromBigEndian(buf[4 + n..12 + n]));
        match ReadIndex(buf[12 + n..], count - 1)
        case None => None
        case Some(rest) => Some([e] + rest)
  }

  /** `loadBlockIndexFromFile`: the index and the end of the data region, from the footer. */
  function LoadIndex(file: Bytes): Option<(seq<IndexEntry>, nat)> {
    if |file| < FOOTER_SIZE then None
    else
      var f := file[|file| - FOOTER_SIZE..];
      var blocks, start, magic := FromBigEndian(f[..4]), FromBigEndian(f[4..12]), FromBigEndian(f[12..]);
      if magic != INDEX_MAGIC || blocks == 0 || start == 0 || start >= INT64_LIMIT || start > |file| then None
      else match ReadIndex(file[start..], blocks)
           case None => None
           case Some(index) => Some((index, start))
  }

  /** `loadBloomFromFile` up to decoding: the blob in front of its trailer. */
  function LoadBloom(file: Bytes): Option<Bytes> {
    if |file| < FOOTER_SIZE + TRAILER_SIZE then None
    else
      var end := |file| - FOOTER_SIZE - TRAILER_SIZE;
      var len, magic := FromBigEndian(file[end..end + 8]), FromBigEndian(file[end + 8..end + 12]);
      if magic != BLOOM_MAGIC || len == 0 || len > MAX_BLOOM_BYTES || len > end then None
      else Some(file[end - len..end])
  }

  lemma {:induction false} ReadWrittenIndexEntry(e: IndexEntry, rest: Bytes)
    requires |e.lastKey| < 0x1_0000_0000 && e.offset < INT64_LIMIT
    ensures var buf := EncodeIndexEntry(e) + rest;
            var n := |e.lastKey|;
            && |buf| >= 12 + n && FromBigEndian(buf[..4]) == n && buf[4..4 + n] == e.lastKey
            && FromBigEndian(buf[4 + n..12 + n]) == e.offset && buf[12 + n..] == rest
  {
    PowersOf256();
    BigEndianRoundTrip(|e.lastKey|, 4);
    BigEndianRoundTrip(e.offset, 8);
    var buf := EncodeIndexEntry(e) + rest;
    var n := |e.lastKey|;
    assert buf[..4] == BigEndian(n, 4);
    assert buf[4 + n..12 + n] == BigEndian(e.offset, 8);
  }

  lemma {:induction false} ReadWrittenIndex(index: seq<IndexEntry>, rest: Bytes)
    requires IndexFits(index)
    ensures ReadIndex(EncodeIndex(index) + rest, |index|) == Some(index)
  {
    if index != [] {
      var tail := EncodeIndex(index[1..]) + rest;
      assert EncodeIndex(index) + rest == EncodeIndexEntry(index[0]) + tail;
      ReadWrittenIndexEntry(index[0], tail);
      ReadWrittenIndex(index[1..], rest);
      assert index == [IndexEntry(index[0].lastKey, index[0].offset)] + index[1..];
    }
  }

  lemma {:induction false} ReadWrittenFooter(body: Bytes, blocks: nat, start: nat)
    requires blocks < 0x1_0000_0000 && start < INT64_LIMIT
    ensures var file := body + Footer(blocks, start);
            var f := file[|file| - FOOTER_SIZE..];
            && |f| == FOOTER_SIZE && FromBigEndian(f[..4]) == blocks
            && FromBigEndian(f[4..12]) == start && FromBigEndian(f[12..]) == INDEX_MAGIC
  {
    PowersOf256();
    BigEndianRoundTrip(blocks, 4);
    BigEndianRoundTrip(start, 8);
    BigEndianRoundTrip(INDEX_MAGIC, 4);
    var file := body + Footer(blocks, start);
    var f := file[|file| - FOOTER_SIZE..];
    assert f == Footer(blocks, start);
    assert f[..4] == BigEndian(blocks, 4) && f[4..12] == BigEndian(start, 8) && f[12..] == BigEndian(INDEX_MAGIC, 4);
  }

  lemma {:induction false} IndexOfFits(t: Table)
    requires Fits(t) && |Data(t)| < INT64_LIMIT
    ensures IndexFits(IndexOf(t))
  {
    forall b | 0 <= b < |IndexOf(t)|
      ensures |IndexOf(t)[b].lastKey| < 0x1_0000_0000 && IndexOf(t)[b].offset < INT64_LIMIT
    {
      assert EntryFits(t[Min((b + 1) * BLOCK_SIZE, |t|) - 1]);
      DataSlice(t, b * BLOCK_SIZE, |t|);
    }
  }

  lemma {:induction false} LoadIndexBehindData(data: Bytes, index: seq<IndexEntry>, mid: Bytes)
    requires IndexFits(index) && 0 < |index| < 0x1_0000_0000 && 0 < |data| < INT64_LIMIT
    ensures LoadIndex(data + EncodeIndex(index) + mid + Footer(|index|, |data|)) == Some((index, |data|))
  {
    var foot := Footer(|index|, |data|);
    var file := data + EncodeIndex(index) + mid + foot;
    ReadWrittenFooter(data + EncodeIndex(index) + mid, |index|, |data|);
    assert file[|data|..] == EncodeIndex(index) + (mid + foot);
    ReadWrittenIndex(index, mid + foot);
  }

  /** A restart recovers exactly the block index and data extent that the writer used. */
  lemma {:induction false} LoadWrittenIndex(t: Table, blob: Bytes)
    requires t != [] && Fits(t) && |Data(t)| < INT64_LIMIT && BlockCount(|t|) < 0x1_0000_0000
    ensures LoadIndex(FileBytes(t, blob)) == Some((IndexOf(t), |Data(t)|))
  {
    DataNonempty(t);
    IndexOfFits(t);
    LoadIndexBehindData(Data(t), IndexOf(t), blob + Trailer(blob));
  }

  lemma {:induction false} ReadWrittenTrailer(blob: Bytes)
    requires |blob| <= MAX_BLOOM_BYTES
    ensures |Trailer(blob)| == TRAILER_SIZE
    ensures FromBigEndian(Trailer(blob)[..8]) == |blob| && FromBigEndian(Trailer(blob)[8..]) == BLOOM_MAGIC
  {
    PowersOf256();
    BigEndianRoundTrip(|blob|, 8);
    BigEndianRoundTrip(BLOOM_MAGIC, 4);
    assert Trailer(blob)[..8] == BigEndian(|blob|, 8) && Trailer(blob)[8..] == BigEndian(BLOOM_MAGIC, 4);
  }

  lemma {:induction false} LoadBloomBehind(before: Bytes, blob: Bytes, foot: Bytes)
    requires 0 < |blob| <= MAX_BLOOM_BYTES && |foot| == FOOTER_SIZE
    ensures LoadBloom(before + (blob + Trailer(blob)) + foot) == Some(blob)
  {
    ReadWrittenTrailer(blob);
    var tr := Trailer(blob);
    var file := before + (blob + tr) + foot;
    var end := |file| - FOOTER_SIZE - TRAILER_SIZE;
    assert file[end..end + 8] == tr[..8] && file[end + 8..end + 12] == tr[8..];
    assert file[end - |blob|..end] == blob;
  }

  /** A restart finds the Bloom blob that the writer put in front of the footer. */
  lemma {:induction false} LoadWrittenBloom(t: Table, blob: Bytes)
    requires 0 < |blob| <= MAX_BLOOM_BYTES
    ensures LoadBloom(FileBytes(t, blob)) == Some(blob)
  {
    LoadBloomBehind(Data(t) + EncodeIndex(IndexOf(t)), blob, Footer(|IndexOf(t)|, |Data(t)|));
  }

  // ---- the file iterator ----

  /** `sstableIterator.Next`, repeated to the end of the data region. */
  function ReadAll(buf: Bytes): Table
    decreases |buf|
  {
    match ReadRecord(buf)
    case None => []
    case Some((e, len)) => if len == 0 then [e] else [e] + ReadAll(buf[len..])
  }

  /** Reading the data region back gives the entries written. */
  lemma {:induction false} ReadAllData(t: Table)
    requires Fits(t)
    ensures ReadAll(Data(t)) == t
  {
    if t != [] {
      ReadWrittenRecord(t[0], Data(t[1..]));
      assert Data(t)[|EncodeEntry(t[0])|..] == Data(t[1..]);
      ReadAllData(t[1..]);
    }
  }

  /** The closed range `[start, end]`; an empty bound is no bound. */
  predicate InRange(k: Bytes, start: Bytes, end: Bytes) {
    (start == [] || !Lt(k, start)) && (end == [] || !Lt(end, k))
  }

  function Clip(t: Table, start: Bytes, end: Bytes): Table {
    if t == [] then []
    else (if InRange(t[0].key, start, end) then [t[0]] else []) + Clip(t[1..], start, end)
  }

  lemma {:induction false} ClipConcat(a: Table, b: Table, start: Bytes, end: Bytes)
    ensures Clip(a + b, start, end) == Clip(a, start, end) + Clip(b, start, end)
  {
    if a == [] {
      assert a + b == b;
    } else {
      assert (a + b)[1..] == a[1..] + b;
      ClipConcat(a[1..], b, start, end);
    }
  }

  lemma {:induction false} ClipNothing(t: Table, start: Bytes, end: Bytes)
    requires forall i :: 0 <= i < |t| ==> !InRange(t[i].key, start, end)
    ensures Clip(t, start, end) == []
  {
    if t != [] { ClipNothing(t[1..], start, end); }
  }

  lemma {:induction false} ClipMembers(t: Table, start: Bytes, end: Bytes, e: Entry)
    ensures e in Clip(t, start, end) <==> e in t && InRange(e.key, start, end)
  {
    if t != [] {
      ClipMembers(t[1..], start, end, e);
      assert t == [t[0]] + t[1..];
    }
  }

  lemma {:induction false} ClipAscending(t: Table, start: Bytes, end: Bytes)
    requires Ascending(t)
    ensures Ascending(Clip(t, start, end))
  {
    if t != [] {
      var rest := Clip(t[1..], start, end);
      ClipAscending(t[1..], start, end);
      forall i, j | 0 <= i < |[t[0]]| && 0 <= j < |rest| ensures Lt([t[0]][i].key, rest[j].key) {
        ClipMembers(t[1..], start, end, rest[j]);
      }
      AscendingConcat([t[0]], rest);
    }
  }

  lemma {:induction false} ClipLookup(t: Table, start: Bytes, end: Bytes, k: Bytes)
    ensures Lookup(Clip(t, start, end), k) == if InRange(k, start, end) then Lookup(t, k) else None
  {
    if t != [] {
      var rest := Clip(t[1..], start, end);
      ClipLookup(t[1..], start, end, k);
      if InRange(t[0].key, start, end) {
        assert Clip(t, start, end)[1..] == rest;
      } else {
        assert Clip(t, start, end) == rest;
      }
    }
  }

  /** Clipping keeps the table sorted and answers exactly the keys in range. */
  lemma {:induction false} ClipAnswers(t: Table, start: Bytes, end: Bytes)
    requires Ascending(t)
    ensures Ascending(Clip(t, start, end))
    ensures forall k :: Lookup(Clip(t, start, end), k) == if InRange(k, start, end) then Lookup(t, k) else None
  {
    ClipAscending(t, start, end);
    forall k ensures Lookup(Clip(t, start, end), k) == if InRange(k, start, end) then Lookup(t, k) else None {
      ClipLookup(t, start, end, k);
    }
  }

  /** `rangeIterator`: skip entries below the start, stop at the first one above the end. */
  method ClipSource(t: Table, start: Bytes, end: Bytes) returns (out: Table)
    requires Ascending(t)
    ensures out == Clip(t, start, end)
  {
    out := [];
    var i := 0;
    assert t[..0] == [];
    while i < |t|
      invariant 0 <= i <= |t| && out == Clip(t[..i], start, end)
    {
      var k := t[i].key;
      assert t[..i + 1] == t[..i] + [t[i]] && t == t[..i] + t[i..];
      ClipConcat(t[..i], [t[i]], start, end);
      if start != [] && Lt(k, start) {
        assert Clip([t[i]], start, end) == [];
      } else if end != [] && Lt(end, k) {
        forall j | 0 <= j < |t[i..]| ensures !InRange(t[i..][j].key, start, end) {
          if j > 0 { LtTransitive(end, k, t[i + j].key); }
        }
        ClipNothing(t[i..], start, end);
        ClipConcat(t[..i], t[i..], start, end);
        return;
      } else {
        assert Clip([t[i]], start, end) == [t[i]];
        out := out + [t[i]];
      }
      i := i + 1;
    }
    assert t[..i] == t;
  }

  /** `newSSTableIteratorFrom` under a `rangeIterator`: seek to the block that may hold `start`, read
      on from there, clip. Seeking loses nothing. */
  method RangeOfFile(data: Bytes, index: seq<IndexEntry>, start: Bytes, end: Bytes, ghost t: Table)
    returns (out: Table)
    requires Ascending(t) && Fits(t) && data == Data(t) && index == IndexOf(t)
    ensures out == Clip(t, start, end)
  {
    var off := 0;
    ghost var skipped := 0;
    assert t[0..] == t;
    if start != [] && index != [] {
      var lo := FindBlock(index, start);
      if Lt(index[lo].lastKey, start) {
        LastBlockBelow(t, lo, start, end);
        return [];
      }
      off, skipped := index[lo].offset, lo * BLOCK_SIZE;
      SkippedBlocks(t, lo, start, end);
    }
    DataFrom(t, skipped);
    out := ClipSource(ReadAll(data[off..]), start, end);
  }

  lemma {:induction false} DataFrom(t: Table, n: nat)
    requires n <= |t| && Fits(t)
    ensures |Data(t[..n])| <= |Data(t)|
    ensures ReadAll(Data(t)[|Data(t[..n])|..]) == t[n..]
  {
    DataSlice(t, n, |t|);
    assert t[..|t|] == t && t[n..|t|] == t[n..];
    var at := |Data(t[..n])|;
    assert Data(t)[at..] == Data(t)[at..|Data(t)|];
    ReadAllData(t[n..]);
  }

  lemma {:induction false} LastBlockBelow(t: Table, b: nat, start: Bytes, end: Bytes)
    requires Ascending(t) && b < BlockCount(|t|) && start != []
    requires Lt(IndexOf(t)[b].lastKey, start)
    requires b + 1 < BlockCount(|t|) ==> Le(start, IndexOf(t)[b].lastKey)
    ensures Clip(t, start, end) == []
  {
    LtTrichotomy(IndexOf(t)[b].lastKey, start);
    assert IndexOf(t)[b].lastKey == t[|t| - 1].key;
    forall i | 0 <= i < |t| ensures !InRange(t[i].key, start, end) {
      if i < |t| - 1 { LtTransitive(t[i].key, t[|t| - 1].key, start); }
    }
    ClipNothing(t, start, end);
  }

  lemma {:induction false} SkippedBlocks(t: Table, b: nat, start: Bytes, end: Bytes)
    requires Ascending(t) && b < BlockCount(|t|) && start != []
    requires b > 0 ==> Lt(IndexOf(t)[b - 1].lastKey, start)
    ensures Clip(t[b * BLOCK_SIZE..], start, end) == Clip(t, start, end)
  {
    var n := b * BLOCK_SIZE;
    forall i | 0 <= i < |t[..n]| ensures !InRange(t[..n][i].key, start, end) {
      if i < n - 1 { LtTransitive(t[i].key, t[n - 1].key, start); }
    }
    ClipNothing(t[..n], start, end);
    assert t == t[..n] + t[n..];
    ClipConcat(t[..n], t[n..], start, end);
  }
}
