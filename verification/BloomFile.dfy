/** Bloom filters as bytes, and the whole way of an SSTable: from a sorted table to the bytes of a file, and
    from those bytes alone back to the answer of a lookup. */
module BloomFile {
  import opened Bytes
  import opened Tables
  import opened SSTable
  import opened SSTableFile
  import opened Bloom

  const UINT32: nat := 0x1_0000_0000
  const WORD: nat := 64

  /** A filter as a value. */
  datatype Filter = Filter(size: Size, bits: seq<bool>)

  datatype Part = Part(ns: Bytes, filter: Filter)

  // ---- words ----

  function Pow2(n: nat): (p: nat)
    ensures p > 0
  {
    if n == 0 then 1 else 2 * Pow2(n - 1)
  }

  /** Bits as a number, the lowest first. */
  function Word(bits: seq<bool>): nat {
    if bits == [] then 0 else (if bits[0] then 1 else 0) + 2 * Word(bits[1..])
  }

  function BitsOf(n: nat, w: nat): (bits: seq<bool>)
    ensures |bits| == w
  {
    if w == 0 then [] else [n % 2 == 1] + BitsOf(n / 2, w - 1)
  }

  lemma {:induction false} WordRoundTrip(bits: seq<bool>)
    ensures Word(bits) < Pow2(|bits|) && BitsOf(Word(bits), |bits|) == bits
  {
    if bits != [] {
      WordRoundTrip(bits[1..]);
      assert Word(bits) / 2 == Word(bits[1..]);
      assert bits == [bits[0]] + bits[1..];
    }
  }

  lemma {:induction false} Pow2Sum(m: nat, n: nat)
    ensures Pow2(m + n) == Pow2(m) * Pow2(n)
  {
    if m > 0 { Pow2Sum(m - 1, n); }
  }

  lemma {:induction false} Pow2Of64()
    ensures Pow2(WORD) == Pow256(8)
  {
    PowersOf256();
    assert Pow2(4) == 16;
    hide Pow2;
    Pow2Sum(4, 4);
    Pow2Sum(8, 8);
    Pow2Sum(16, 16);
    Pow2Sum(32, 32);
  }

  lemma {:induction false} Pow2Grows(m: nat, n: nat)
    requires m <= n
    ensures Pow2(m) <= Pow2(n)
  {
    if m < n { Pow2Grows(m, n - 1); }
  }

  lemma {:induction false} WordFits(n: nat)
    requires n <= WORD
    ensures Pow2(n) <= Pow256(8)
  {
    Pow2Of64();
    Pow2Grows(n, WORD);
  }

  // ---- one filter ----

  function Words(m: nat): nat { (m + WORD - 1) / WORD }

  function EncodeWords(bits: seq<bool>): (s: Bytes)
    ensures |s| == 8 * Words(|bits|)
    decreases |bits|
  {
    if bits == [] then []
    else if |bits| <= WORD then BigEndian(Word(bits), 8)
    else BigEndian(Word(bits[..WORD]), 8) + EncodeWords(bits[WORD..])
  }

  /** The first `m` bits of the words; no probe looks behind them. */
  function DecodeWords(data: Bytes, m: nat): (bits: seq<bool>)
    requires |data| == 8 * Words(m)
    ensures |bits| == m
    decreases m
  {
    if m == 0 then []
    else if m <= WORD then BitsOf(FromBigEndian(data[..8]), m)
    else BitsOf(FromBigEndian(data[..8]), WORD) + DecodeWords(data[8..], m - WORD)
  }

  /** One word, read back as the bits it holds. */
  lemma {:induction false} ChunkRoundTrip(bits: seq<bool>)
    requires |bits| <= WORD
    ensures BitsOf(FromBigEndian(BigEndian(Word(bits), 8)), |bits|) == bits
  {
    WordRoundTrip(bits);
    WordFits(|bits|);
    hide BitsOf, Word, BigEndian, FromBigEndian, Pow2;
    BigEndianRoundTrip(Word(bits), 8);
  }

  lemma {:induction false} WordsRoundTrip(bits: seq<bool>)
    ensures DecodeWords(EncodeWords(bits), |bits|) == bits
    decreases |bits|
  {
    hide BitsOf, Word, BigEndian, FromBigEndian;
    var data := EncodeWords(bits);
    if |bits| > WORD {
      ChunkRoundTrip(bits[..WORD]);
      assert data[..8] == BigEndian(Word(bits[..WORD]), 8) && data[8..] == EncodeWords(bits[WORD..]);
      WordsRoundTrip(bits[WORD..]);
      assert bits == bits[..WORD] + bits[WORD..];
    } else if bits != [] {
      ChunkRoundTrip(bits);
      assert data[..8] == data;
    }
  }

  function EncodeFilter(f: Filter): (s: Bytes)
    ensures |s| == 16 + 8 * Words(|f.bits|)
  {
    BigEndian(f.size.m, 8) + BigEndian(f.size.k, 8) + EncodeWords(f.bits)
  }

  function DecodeFilter(data: Bytes): (r: Option<Filter>)
    ensures r.Some? ==> SizeOk(r.value.size) && |r.value.bits| == r.value.size.m
  {
    if |data| < 16 then None
    else
      var m, k := FromBigEndian(data[..8]), FromBigEndian(data[8..16]);
      if k == 0 || m == 0 || |data| - 16 != 8 * Words(m) then None
      else Some(Filter(Size(m, k), DecodeWords(data[16..], m)))
  }

  /** The sizes fit the length fields they are written to. */
  predicate FilterOk(f: Filter) {
    SizeOk(f.size) && |f.bits| == f.size.m < UINT64 && f.size.k < UINT64 && 16 + 8 * Words(f.size.m) < UINT32
  }

  lemma {:induction false} FilterRoundTrip(f: Filter)
    requires FilterOk(f)
    ensures DecodeFilter(EncodeFilter(f)) == Some(f)
  {
    hide BigEndian, FromBigEndian, EncodeWords, DecodeWords;
    PowersOf256();
    BigEndianRoundTrip(f.size.m, 8);
    BigEndianRoundTrip(f.size.k, 8);
    WordsRoundTrip(f.bits);
    var data := EncodeFilter(f);
    assert data[..8] == BigEndian(f.size.m, 8) && data[8..16] == BigEndian(f.size.k, 8);
    assert data[16..] == EncodeWords(f.bits);
  }

  // ---- all partitions ----

  function EncodePart(p: Part): Bytes {
    BigEndian(|p.ns|, 4) + p.ns + BigEndian(|EncodeFilter(p.filter)|, 4) + EncodeFilter(p.filter)
  }

  function EncodeParts(ps: seq<Part>): Bytes {
    if ps == [] then [] else EncodePart(ps[0]) + EncodeParts(ps[1..])
  }

  /** `Encode`, for the order in which the partitions happened to be visited. */
  function EncodeBloom(ps: seq<Part>): Bytes {
    [SEPARATOR] + BigEndian(|ps|, 4) + EncodeParts(ps)
  }

  function DecodeParts(data: Bytes, n: nat): Option<seq<Part>> {
    if n == 0 then Some([])
    else if |data| < 4 then None
    else
      var a := FromBigEndian(data[..4]);
      if |data| < 8 + a then None
      else
        var b := FromBigEndian(data[4 + a..8 + a]);
        if |data| < 8 + a + b then None
        else
          match DecodeFilter(data[8 + a..8 + a + b])
          case None => None
          case Some(f) =>
            match DecodeParts(data[8 + a + b..], n - 1)
            case None => None
            case Some(rest) => Some([Part(data[4..4 + a], f)] + rest)
  }

  /** `DecodePartitionedBloom`. Every file is written with the one separator. */
  function DecodeBloom(data: Bytes): Option<seq<Part>> {
    if |data| < 5 then None else DecodeParts(data[5..], FromBigEndian(data[1..5]))
  }

  predicate PartsOk(ps: seq<Part>) {
    |ps| < UINT32 && forall i :: 0 <= i < |ps| ==> FilterOk(ps[i].filter) && |ps[i].ns| < UINT32
  }

  lemma {:induction false} PartRoundTrip(p: Part, rest: Bytes)
    requires FilterOk(p.filter) && |p.ns| < UINT32
    ensures var data, a, b := EncodePart(p) + rest, |p.ns|, |EncodeFilter(p.filter)|;
            && |data| >= 8 + a + b && FromBigEndian(data[..4]) == a && FromBigEndian(data[4 + a..8 + a]) == b
            && data[4..4 + a] == p.ns && data[8 + a..8 + a + b] == EncodeFilter(p.filter) && data[8 + a + b..] == rest
  {
    hide BigEndian, FromBigEndian, EncodeFilter;
    PowersOf256();
    var a, enc := |p.ns|, EncodeFilter(p.filter);
    BigEndianRoundTrip(a, 4);
    BigEndianRoundTrip(|enc|, 4);
    var data := EncodePart(p) + rest;
    assert data[..4] == BigEndian(a, 4) && data[4 + a..8 + a] == BigEndian(|enc|, 4);
  }

  lemma {:induction false} DecodePartsStep(p: Part, rest: Bytes, n: nat)
    requires FilterOk(p.filter) && |p.ns| < UINT32 && DecodeParts(rest, n).Some?
    ensures DecodeParts(EncodePart(p) + rest, n + 1) == Some([p] + DecodeParts(rest, n).value)
  {
    hide EncodePart, FromBigEndian, EncodeFilter, DecodeFilter;
    PartRoundTrip(p, rest);
    FilterRoundTrip(p.filter);
    assert Part(p.ns, p.filter) == p;
  }

  lemma {:induction false} NoPartsRoundTrip()
    ensures DecodeParts(EncodeParts([]), 0) == Some([])
  {
  }

  lemma {:induction false} TailParts(ps: seq<Part>)
    requires PartsOk(ps) && ps != []
    ensures PartsOk(ps[1..]) && EncodeParts(ps) == EncodePart(ps[0]) + EncodeParts(ps[1..])
    ensures FilterOk(ps[0].filter) && |ps[0].ns| < UINT32
  {
    hide EncodePart, FilterOk;
  }

  lemma {:induction false} PartsRoundTrip(ps: seq<Part>)
    requires PartsOk(ps)
    ensures DecodeParts(EncodeParts(ps), |ps|) == Some(ps)
  {
    hide EncodePart, FilterOk, DecodeParts, EncodeParts;
    if ps == [] {
      NoPartsRoundTrip();
    } else {
      TailParts(ps);
      PartsRoundTrip(ps[1..]);
      DecodePartsStep(ps[0], EncodeParts(ps[1..]), |ps| - 1);
      assert ps == [ps[0]] + ps[1..];
    }
  }

  /** Decoding gives back every partition with its size and every bit, in whatever order it was written. */
  lemma {:induction false} BloomRoundTrip(ps: seq<Part>)
    requires PartsOk(ps)
    ensures DecodeBloom(EncodeBloom(ps)) == Some(ps)
  {
    hide BigEndian, FromBigEndian, EncodeParts, DecodeParts;
    PowersOf256();
    BigEndianRoundTrip(|ps|, 4);
    PartsRoundTrip(ps);
    var data := EncodeBloom(ps);
    assert data[1..5] == BigEndian(|ps|, 4) && data[5..] == EncodeParts(ps);
  }

  // ---- asking a decoded filter ----

  predicate FilterAdmits(f: Filter, hash: Hash, suffix: Bytes)
    requires SizeOk(f.size) && |f.bits| == f.size.m
  {
    forall i :: 0 <= i < f.size.k ==> f.bits[Probe(hash, f.size, suffix, i)]
  }

  predicate Sized(ps: seq<Part>) {
    forall i :: 0 <= i < |ps| ==> SizeOk(ps[i].filter.size) && |ps[i].filter.bits| == ps[i].filter.size.m
  }

  /** Some partition of the key's namespace admits it; a namespace has one partition. */
  predicate PartsAdmit(ps: seq<Part>, hash: Hash, key: Bytes)
    requires Sized(ps)
  {
    exists i :: 0 <= i < |ps| && ps[i].ns == Namespace(key) && FilterAdmits(ps[i].filter, hash, Suffix(key))
  }

  method FilterMayContain(f: Filter, hash: Hash, suffix: Bytes) returns (r: bool)
    requires SizeOk(f.size) && |f.bits| == f.size.m
    ensures r <==> FilterAdmits(f, hash, suffix)
  {
    var i := 0;
    while i < f.size.k
      invariant 0 <= i <= f.size.k && forall j :: 0 <= j < i ==> f.bits[Probe(hash, f.size, suffix, j)]
    {
      if !f.bits[Probe(hash, f.size, suffix, i)] { return false; }
      i := i + 1;
    }
    return true;
  }

  method MayContain(ps: seq<Part>, hash: Hash, key: Bytes) returns (r: bool)
    requires Sized(ps)
    ensures r <==> PartsAdmit(ps, hash, key)
  {
    hide FilterAdmits;
    var i := 0;
    while i < |ps|
      invariant 0 <= i <= |ps|
      invariant forall j :: 0 <= j < i ==> !(ps[j].ns == Namespace(key) &&
                                             FilterAdmits(ps[j].filter, hash, Suffix(key)))
    {
      if ps[i].ns == Namespace(key) {
        r := FilterMayContain(ps[i].filter, hash, Suffix(key));
        if r { return; }
      }
      i := i + 1;
    }
    return false;
  }

  // ---- the whole file ----

  /** The value behind one partition. */
  ghost function PartOf(bloom: PartitionedBloom, ns: Bytes): Part
    requires ns in bloom.partitions
    reads bloom, bloom.partitions.Values
  {
    Part(ns, Filter(bloom.partitions[ns].size, bloom.partitions[ns].bits))
  }

  /** `ps` lists the partitions outside `todo`. */
  ghost predicate Mirrors(ps: seq<Part>, bloom: PartitionedBloom, todo: set<Bytes>)
    reads bloom, bloom.partitions.Values
  {
    && (forall p :: p in ps ==> p.ns in bloom.partitions && p == PartOf(bloom, p.ns))
    && (forall ns :: ns in bloom.partitions && ns !in todo ==> PartOf(bloom, ns) in ps)
  }

  /** A partition fits the fields it is written to. */
  ghost predicate Encodable(bloom: PartitionedBloom)
    reads bloom, bloom.partitions.Values
  {
    |bloom.partitions| < UINT32 &&
    forall ns :: ns in bloom.partitions ==>
      |ns| < UINT32 && FilterOk(PartOf(bloom, ns).filter)
  }

  /** The loop of `Encode` over the partitions, in any order. */
  method Encode(bloom: PartitionedBloom) returns (blob: Bytes, ghost ps: seq<Part>)
    requires bloom.Valid() && Encodable(bloom)
    ensures blob == EncodeBloom(ps) && PartsOk(ps) && Mirrors(ps, bloom, {})
  {
    MirrorsNone(bloom);
    hide EncodePart, FilterOk, BigEndian, Mirrors, EncodeParts;
    assert EncodeParts([]) == [] by { EncodeNoParts(); }
    blob := [SEPARATOR] + BigEndian(|bloom.partitions|, 4);
    ghost var start := blob;
    ps := [];
    var todo := bloom.partitions.Keys;
    while todo != {}
      invariant todo <= bloom.partitions.Keys && |ps| + |todo| == |bloom.partitions|
      invariant blob == start + EncodeParts(ps) && Mirrors(ps, bloom, todo)
      decreases |todo|
    {
      var ns :| ns in todo;
      var f := bloom.partitions[ns];
      var p := Part(ns, Filter(f.size, f.bits));
      EncodePartsSnoc(ps, p);
      MirrorsStep(ps, bloom, todo, ns);
      blob := blob + EncodePart(p);
      ps := ps + [p];
      todo := todo - {ns};
    }
    MirrorsFits(ps, bloom);
    assert blob == EncodeBloom(ps);
  }

  lemma {:induction false} EncodeNoParts()
    ensures EncodeParts([]) == []
  {
  }

  lemma {:induction false} MirrorsNone(bloom: PartitionedBloom)
    ensures Mirrors([], bloom, bloom.partitions.Keys)
  {
  }

  lemma {:induction false} MirrorsStep(ps: seq<Part>, bloom: PartitionedBloom, todo: set<Bytes>, ns: Bytes)
    requires Mirrors(ps, bloom, todo) && ns in bloom.partitions
    ensures Mirrors(ps + [PartOf(bloom, ns)], bloom, todo - {ns})
  {
  }

  lemma {:induction false} MirrorsFits(ps: seq<Part>, bloom: PartitionedBloom)
    requires Encodable(bloom) && Mirrors(ps, bloom, {}) && |ps| == |bloom.partitions|
    ensures PartsOk(ps)
  {
    hide FilterOk;
    forall i | 0 <= i < |ps| ensures FilterOk(ps[i].filter) && |ps[i].ns| < UINT32 { assert ps[i] in ps; }
  }

  lemma {:induction false} EncodePartsSnoc(ps: seq<Part>, p: Part)
    ensures EncodeParts(ps + [p]) == EncodeParts(ps) + EncodePart(p)
  {
    hide EncodePart;
    if ps == [] {
      assert [p][1..] == [] && [] + [p] == [p];
    } else {
      assert (ps + [p])[1..] == ps[1..] + [p];
      EncodePartsSnoc(ps[1..], p);
    }
  }

  /** What the bytes say is what the filter says. */
  lemma {:induction false} MirrorAdmits(ps: seq<Part>, bloom: PartitionedBloom, key: Bytes)
    requires bloom.Valid() && Mirrors(ps, bloom, {}) && Sized(ps)
    ensures PartsAdmit(ps, bloom.hash, key) <==> bloom.Admits(key)
  {
    var ns := Namespace(key);
    assert forall j :: 0 <= j < |ps| ==> ps[j] in ps;
    if ns in bloom.partitions {
      var p, f := PartOf(bloom, ns), bloom.partitions[ns];
      var i :| 0 <= i < |ps| && ps[i] == p;
      assert f.hash == bloom.hash;
      assert FilterAdmits(ps[i].filter, bloom.hash, Suffix(key)) <==> f.Admits(Suffix(key));
    }
  }

  ghost predicate Writable(t: Table) {
    t != [] && Ascending(t) && Fits(t) && |Data(t)| < INT64_LIMIT && BlockCount(|t|) < UINT32
  }

  /** The file holds the table, its index, and a filter that admits every key of the table. */
  ghost predicate Holds(file: Bytes, t: Table, ps: seq<Part>, hash: Hash) {
    && Writable(t) && PartsOk(ps) && Sized(ps) && |EncodeBloom(ps)| < UINT64 && file == FileBytes(t, EncodeBloom(ps))
    && forall i :: 0 <= i < |t| ==> PartsAdmit(ps, hash, t[i].key)
  }

  method IndexBytes(index: seq<IndexEntry>) returns (s: Bytes)
    ensures s == EncodeIndex(index)
  {
    hide EncodeIndexEntry;
    s := [];
    var i := |index|;
    assert index[i..] == [];
    while i > 0
      invariant 0 <= i <= |index| && s == EncodeIndex(index[i..])
    {
      i := i - 1;
      assert index[i..][1..] == index[i + 1..];
      s := EncodeIndexEntry(index[i]) + s;
    }
    assert index[0..] == index;
  }

  /** `WriteToSSTable`: data region, block index, Bloom section, footer. */
  method WriteFile(t: Table, bloom: PartitionedBloom) returns (file: Bytes, ghost ps: seq<Part>)
    requires Writable(t) && bloom.Valid() && Encodable(bloom) && forall i :: 0 <= i < |t| ==> bloom.Admits(t[i].key)
    ensures |EncodeBloom(ps)| < UINT64 ==> Holds(file, t, ps, bloom.hash)
  {
    hide Data, IndexOf, EncodeIndex, Footer, Trailer, EncodeBloom, Ascending, Fits, FilterOk;
    var data, index := WriteData(t);
    var tail := IndexBytes(index);
    var blob;
    blob, ps := Encode(bloom);
    file := data + tail + (blob + Trailer(blob)) + Footer(|index|, |data|);
    OkIsSized(ps);
    forall i | 0 <= i < |t| ensures PartsAdmit(ps, bloom.hash, t[i].key) { MirrorAdmits(ps, bloom, t[i].key); }
  }

  lemma {:induction false} OkIsSized(ps: seq<Part>)
    requires PartsOk(ps)
    ensures Sized(ps)
  {
  }

  lemma {:induction false} LargeBlobBehind(before: Bytes, blob: Bytes, foot: Bytes)
    requires MAX_BLOOM_BYTES < |blob| < UINT64 && |foot| == FOOTER_SIZE
    ensures LoadBloom(before + (blob + Trailer(blob)) + foot).None?
  {
    PowersOf256();
    BigEndianRoundTrip(|blob|, 8);
    hide BigEndian, FromBigEndian;
    var file := before + (blob + Trailer(blob)) + foot;
    var end := |file| - FOOTER_SIZE - TRAILER_SIZE;
    assert file[end..end + 8] == BigEndian(|blob|, 8);
  }

  /** A blob too large for the reader is left alone, any other one is found. */
  lemma {:induction false} LoadAnyBloom(t: Table, blob: Bytes)
    requires 0 < |blob| < UINT64
    ensures LoadBloom(FileBytes(t, blob)) == if |blob| <= MAX_BLOOM_BYTES then Some(blob) else None
  {
    if |blob| <= MAX_BLOOM_BYTES {
      LoadWrittenBloom(t, blob);
    } else {
      var foot := Footer(|IndexOf(t)|, |Data(t)|);
      assert |foot| == FOOTER_SIZE;
      hide Data, IndexOf, EncodeIndex, Footer, Trailer, LoadBloom;
      LargeBlobBehind(Data(t) + EncodeIndex(IndexOf(t)), blob, foot);
    }
  }

  /** `ReadFromSSTable` on nothing but the bytes of the file: the filter in its tail may veto, the index in its
      tail finds the block, the block is scanned. The answer is that of a linear lookup in the table that was
      written. */
  method ReadFile(file: Bytes, key: Bytes, hash: Hash, ghost t: Table, ghost ps: seq<Part>) returns (r: Option<Value>)
    requires Holds(file, t, ps, hash)
    ensures r == Lookup(t, key)
  {
    hide Data, IndexOf, EncodeIndex, Footer, Trailer, Ascending, Fits, Lookup, LoadBloom, LoadIndex, DecodeBloom;
    LoadAnyBloom(t, EncodeBloom(ps));
    BloomRoundTrip(ps);
    hide EncodeBloom;
    var blob := LoadBloom(file);
    if blob.Some? {
      var parts := DecodeBloom(blob.value);
      if parts.Some? {
        var may := MayContain(parts.value, hash, key);
        if !may {
          VetoIsRight(t, ps, hash, key);
          return None;
        }
      }
    }
    LoadWrittenIndex(t, EncodeBloom(ps));
    var loaded := LoadIndex(file);
    var (index, dataEnd) := loaded.value;
    DataInFront(t, EncodeBloom(ps));
    r := SearchBlock(file[..dataEnd], index, dataEnd, key, t);
  }

  lemma {:induction false} VetoIsRight(t: Table, ps: seq<Part>, hash: Hash, key: Bytes)
    requires Ascending(t) && Sized(ps) && !PartsAdmit(ps, hash, key)
    requires forall i :: 0 <= i < |t| ==> PartsAdmit(ps, hash, t[i].key)
    ensures Lookup(t, key).None?
  {
    hide PartsAdmit;
    LookupAbsent(t, key);
  }

  lemma {:induction false} DataInFront(t: Table, blob: Bytes)
    ensures |FileBytes(t, blob)| >= |Data(t)| && FileBytes(t, blob)[..|Data(t)|] == Data(t)
  {
    hide Data, IndexOf, EncodeIndex, Footer, Trailer;
  }
}
