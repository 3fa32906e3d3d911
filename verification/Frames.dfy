/** The LIST_WRITES response on the wire: entries, counts by source, and in the newer form a cursor. */
module Frames {
  import opened Bytes

  datatype View = View(logical: Bytes, seqNo: nat, nanos: int, source: Bytes, schema: nat, hash: Bytes, payload: Bytes,
                       hashOk: bool)

  datatype Count = Count(source: Bytes, count: nat)

  const TWO_16: int := 0x1_0000
  const TWO_32: int := 0x1_0000_0000
  const TWO_63: int := 0x8000_0000_0000_0000
  const TWO_64: int := 0x1_0000_0000_0000_0000

  /** The conversions between signed and unsigned 64-bit numbers. */
  function Unsigned(x: int): int { if x < 0 then x + TWO_64 else x }

  function Signed(x: int): int { if x >= TWO_63 then x - TWO_64 else x }

  predicate Fits(v: View) {
    && |v.logical| < TWO_32 && v.seqNo < TWO_64 && -TWO_63 <= v.nanos < TWO_63 && |v.source| < TWO_32
    && v.schema < TWO_32 && |v.hash| < TWO_16 && |v.payload| < TWO_32
  }

  predicate CountFits(c: Count) { |c.source| < TWO_32 && c.count < TWO_32 }

  function EncodeEntry(v: View): Bytes
    requires Fits(v)
  {
    LittleEndian(|v.logical|, 4) + v.logical + LittleEndian(v.seqNo, 8) + LittleEndian(Unsigned(v.nanos), 8) +
    LittleEndian(|v.source|, 4) + v.source + LittleEndian(v.schema, 4) + LittleEndian(|v.hash|, 2) + v.hash +
    LittleEndian(|v.payload|, 4) + v.payload + [if v.hashOk then 1 else 0]
  }

  function Num(data: Bytes, off: nat, w: nat): nat
    requires off + w <= |data|
  {
    FromLittleEndian(data[off..off + w])
  }

  /** `DecodeWriteEnvelopeEntry`: the entry at the front of the data and its length. */
  function DecodeEntry(data: Bytes): (r: Option<(View, nat)>)
    ensures r.Some? ==> 0 < r.value.1 <= |data|
  {
    if |data| < 4 then None
    else
      var keyLen := Num(data, 0, 4);
      if 4 + keyLen + 20 > |data| then None
      else
        var a := 4 + keyLen;
        var sourceLen := Num(data, a + 16, 4);
        if a + 20 + sourceLen + 6 > |data| then None
        else
          var b := a + 20 + sourceLen;
          var hashLen := Num(data, b + 4, 2);
          if b + 6 + hashLen + 4 > |data| then None
          else
            var c := b + 6 + hashLen;
            var payloadLen := Num(data, c, 4);
            if c + 4 + payloadLen + 1 > |data| then None
            else
              var d := c + 4 + payloadLen;
              Some((View(data[4..a], Num(data, a, 8), Signed(Num(data, a + 8, 8)), data[a + 20..b], Num(data, b, 4),
                         data[b + 6..c], data[c + 4..d], data[d] != 0), d + 1))
  }

  /** `writeEnvelopeEntryLen`: only the length. */
  function EntryLength(data: Bytes): Option<nat> {
    if |data| < 4 then None
    else
      var keyLen := Num(data, 0, 4);
      if 4 + keyLen + 20 > |data| then None
      else
        var sourceLen := Num(data, 4 + keyLen + 16, 4);
        var a := 4 + keyLen + 20;
        if a + sourceLen + 6 > |data| then None
        else
          var hashLen := Num(data, a + sourceLen + 4, 2);
          var b := a + sourceLen + 6;
          if b + hashLen + 4 > |data| then None
          else
            var payloadLen := Num(data, b + hashLen, 4);
            var c := b + hashLen + 4;
            if c + payloadLen + 1 > |data| then None else Some(c + payloadLen + 1)
  }

  /** The length-only parser agrees with the full one on every byte string. */
  lemma {:induction false} LengthAgrees(data: Bytes)
    ensures EntryLength(data) == match DecodeEntry(data) case None => None case Some((_, n)) => Some(n)
  {
    hide FromLittleEndian;
  }

  // ---- one entry ----

  /** Where the fields of an entry lie, whatever follows. */
  lemma {:induction false} Fields(k: Bytes, key: Bytes, s: Bytes, t: Bytes, l: Bytes, source: Bytes, v: Bytes, h: Bytes,
                                  hash: Bytes,
                                  p: Bytes, payload: Bytes, ok: Bytes, rest: Bytes)
    requires |k| == |l| == |v| == |p| == 4 && |s| == |t| == 8 && |h| == 2 && |ok| == 1
    ensures var data := k + key + s + t + l + source + v + h + hash + p + payload + ok + rest;
            var a := 4 + |key|; var b := a + 20 + |source|; var c := b + 6 + |hash|; var d := c + 4 + |payload|;
            && |data| == d + 1 + |rest| && data[0..4] == k && data[4..a] == key
            && data[a..a + 8] == s && data[a + 8..a + 16] == t
            && data[a + 16..a + 20] == l && data[a + 20..b] == source && data[b..b + 4] == v && data[b + 4..b + 6] == h
            && data[b + 6..c] == hash && data[c..c + 4] == p && data[c + 4..d] == payload
            && data[d] == ok[0] && data[d + 1..] == rest
  {
  }

  lemma {:induction false} NumRoundTrips(v: View)
    requires Fits(v)
    ensures FromLittleEndian(LittleEndian(|v.logical|, 4)) == |v.logical|
    ensures FromLittleEndian(LittleEndian(v.seqNo, 8)) == v.seqNo
    ensures FromLittleEndian(LittleEndian(Unsigned(v.nanos), 8)) == Unsigned(v.nanos)
    ensures FromLittleEndian(LittleEndian(|v.source|, 4)) == |v.source|
    ensures FromLittleEndian(LittleEndian(v.schema, 4)) == v.schema
    ensures FromLittleEndian(LittleEndian(|v.hash|, 2)) == |v.hash|
    ensures FromLittleEndian(LittleEndian(|v.payload|, 4)) == |v.payload|
  {
    PowersOf256();
    hide LittleEndian, FromLittleEndian, Pow256;
    LittleEndianRoundTrip(|v.logical|, 4);
    LittleEndianRoundTrip(v.seqNo, 8);
    LittleEndianRoundTrip(Unsigned(v.nanos), 8);
    LittleEndianRoundTrip(|v.source|, 4);
    LittleEndianRoundTrip(v.schema, 4);
    LittleEndianRoundTrip(|v.hash|, 2);
    LittleEndianRoundTrip(|v.payload|, 4);
  }

  function Size(v: View): nat { 4 + |v.logical| + 20 + |v.source| + 6 + |v.hash| + 4 + |v.payload| + 1 }

  /** The fields of `v` stand at the front of the data. */
  predicate Laid(data: Bytes, v: View) {
    |data| >= Size(v) &&
    var a := 4 + |v.logical|; var b := a + 20 + |v.source|; var c := b + 6 + |v.hash|; var d := c + 4 + |v.payload|;
    && Num(data, 0, 4) == |v.logical| && data[4..a] == v.logical
    && Num(data, a, 8) == v.seqNo && Num(data, a + 8, 8) == Unsigned(v.nanos)
    && Num(data, a + 16, 4) == |v.source| && data[a + 20..b] == v.source && Num(data, b, 4) == v.schema
    && Num(data, b + 4, 2) == |v.hash| && data[b + 6..c] == v.hash
    && Num(data, c, 4) == |v.payload| && data[c + 4..d] == v.payload
    && data[d] == if v.hashOk then 1 else 0
  }

  lemma {:induction false} LaidDecodes(data: Bytes, v: View)
    requires Fits(v) && Laid(data, v)
    ensures DecodeEntry(data) == Some((v, Size(v)))
  {
    hide Num;
  }

  lemma {:induction false} EncodedIsLaid(v: View, rest: Bytes)
    requires Fits(v)
    ensures |EncodeEntry(v)| == Size(v) && Laid(EncodeEntry(v) + rest, v) && (EncodeEntry(v) + rest)[Size(v)..] == rest
  {
    hide LittleEndian, FromLittleEndian;
    NumRoundTrips(v);
    var ok: Bytes := [if v.hashOk then 1 else 0];
    Fields(LittleEndian(|v.logical|, 4), v.logical, LittleEndian(v.seqNo, 8), LittleEndian(Unsigned(v.nanos), 8),
           LittleEndian(|v.source|, 4), v.source, LittleEndian(v.schema, 4), LittleEndian(|v.hash|, 2), v.hash,
           LittleEndian(|v.payload|, 4), v.payload, ok, rest);
  }

  /** An encoded entry in front of any bytes decodes to itself and to its own length. */
  lemma {:induction false} EntryRoundTrip(v: View, rest: Bytes)
    requires Fits(v)
    ensures DecodeEntry(EncodeEntry(v) + rest) == Some((v, |EncodeEntry(v)|))
    ensures (EncodeEntry(v) + rest)[|EncodeEntry(v)|..] == rest
  {
    hide EncodeEntry, DecodeEntry, Laid;
    EncodedIsLaid(v, rest);
    LaidDecodes(EncodeEntry(v) + rest, v);
  }

  // ---- counts ----

  function EncodeCount(c: Count): Bytes
    requires CountFits(c)
  {
    LittleEndian(|c.source|, 4) + c.source + LittleEndian(c.count, 4)
  }

  function DecodeCount(data: Bytes): (r: Option<(Count, nat)>)
    ensures r.Some? ==> 8 <= r.value.1 <= |data| && r.value.1 == 4 + Num(data, 0, 4) + 4
  {
    if |data| < 4 then None
    else
      var n := Num(data, 0, 4);
      if 4 + n + 4 > |data| then None else Some((Count(data[4..4 + n], Num(data, 4 + n, 4)), 4 + n + 4))
  }

  lemma {:induction false} ThreeFields(l: Bytes, source: Bytes, n: Bytes, rest: Bytes)
    requires |l| == |n| == 4
    ensures var data := l + source + n + rest; var a := 4 + |source|;
            && |data| == a + 4 + |rest| && data[0..4] == l && data[4..a] == source
            && data[a..a + 4] == n && data[a + 4..] == rest
  {
  }

  lemma {:induction false} CountRoundTrip(c: Count, rest: Bytes)
    requires CountFits(c)
    ensures DecodeCount(EncodeCount(c) + rest) == Some((c, |EncodeCount(c)|))
    ensures (EncodeCount(c) + rest)[|EncodeCount(c)|..] == rest
  {
    PowersOf256();
    hide LittleEndian, FromLittleEndian, Pow256;
    LittleEndianRoundTrip(|c.source|, 4);
    LittleEndianRoundTrip(c.count, 4);
    ThreeFields(LittleEndian(|c.source|, 4), c.source, LittleEndian(c.count, 4), rest);
  }

  // ---- sequences of entries and counts ----

  function EncodeEntries(vs: seq<View>): Bytes
    requires forall i :: 0 <= i < |vs| ==> Fits(vs[i])
  {
    if vs == [] then [] else EncodeEntry(vs[0]) + EncodeEntries(vs[1..])
  }

  function EncodeCounts(cs: seq<Count>): Bytes
    requires forall i :: 0 <= i < |cs| ==> CountFits(cs[i])
  {
    if cs == [] then [] else EncodeCount(cs[0]) + EncodeCounts(cs[1..])
  }

  function DecodeEntries(data: Bytes, n: nat): (r: Option<(seq<View>, nat)>)
    ensures r.Some? ==> r.value.1 <= |data| && |r.value.0| == n
    decreases n
  {
    if n == 0 then Some(([], 0))
    else
      match DecodeEntry(data)
      case None => None
      case Some((v, used)) =>
        match DecodeEntries(data[used..], n - 1)
        case None => None
        case Some((vs, more)) => Some(([v] + vs, used + more))
  }

  function DecodeCounts(data: Bytes, n: nat): (r: Option<(seq<Count>, nat)>)
    ensures r.Some? ==> r.value.1 <= |data| && |r.value.0| == n
    decreases n
  {
    if n == 0 then Some(([], 0))
    else
      match DecodeCount(data)
      case None => None
      case Some((c, used)) =>
        match DecodeCounts(data[used..], n - 1)
        case None => None
        case Some((cs, more)) => Some(([c] + cs, used + more))
  }

  /** `vs` already read, `used` bytes into the data, then what the rest gives. */
  function EntriesAfter(vs: seq<View>, used: nat, rest: Option<(seq<View>, nat)>): Option<(seq<View>, nat)> {
    match rest case None => None case Some((more, n)) => Some((vs + more, used + n))
  }

  lemma {:induction false} NoEntries(rest: Option<(seq<View>, nat)>)
    ensures EntriesAfter([], 0, rest) == rest
  {
    if rest.Some? { assert [] + rest.value.0 == rest.value.0; }
  }

  lemma {:induction false} ZeroEntries(data: Bytes)
    ensures DecodeEntries(data, 0) == Some(([], 0))
  {
  }

  lemma {:induction false} EntriesStep(data: Bytes, n: nat, vs: seq<View>, used: nat)
    requires n > 0
    ensures DecodeEntry(data).None? ==> DecodeEntries(data, n).None?
    ensures DecodeEntry(data).Some? ==>
              var (x, k) := DecodeEntry(data).value;
              EntriesAfter(vs, used, DecodeEntries(data, n)) ==
              EntriesAfter(vs + [x], used + k, DecodeEntries(data[k..], n - 1))
  {
    hide DecodeEntry;
    if DecodeEntry(data).Some? {
      var (x, k) := DecodeEntry(data).value;
      var rest := DecodeEntries(data[k..], n - 1);
      if rest.Some? { assert vs + ([x] + rest.value.0) == (vs + [x]) + rest.value.0; }
    }
  }

  /** `cs` already read, `used` bytes into the data, then what the rest gives. */
  function CountsAfter(cs: seq<Count>, used: nat, rest: Option<(seq<Count>, nat)>): Option<(seq<Count>, nat)> {
    match rest case None => None case Some((more, n)) => Some((cs + more, used + n))
  }

  lemma {:induction false} NoCounts(rest: Option<(seq<Count>, nat)>)
    ensures CountsAfter([], 0, rest) == rest
  {
    if rest.Some? { assert [] + rest.value.0 == rest.value.0; }
  }

  lemma {:induction false} ZeroCounts(data: Bytes)
    ensures DecodeCounts(data, 0) == Some(([], 0))
  {
  }

  lemma {:induction false} CountsStep(data: Bytes, n: nat, cs: seq<Count>, used: nat)
    requires n > 0
    ensures DecodeCount(data).None? ==> DecodeCounts(data, n).None?
    ensures DecodeCount(data).Some? ==>
              var (x, k) := DecodeCount(data).value;
              CountsAfter(cs, used, DecodeCounts(data, n)) ==
              CountsAfter(cs + [x], used + k, DecodeCounts(data[k..], n - 1))
  {
    hide DecodeCount;
    if DecodeCount(data).Some? {
      var (x, k) := DecodeCount(data).value;
      var rest := DecodeCounts(data[k..], n - 1);
      if rest.Some? { assert cs + ([x] + rest.value.0) == (cs + [x]) + rest.value.0; }
    }
  }

  lemma {:induction false} EntriesRoundTrip(vs: seq<View>, rest: Bytes)
    requires forall i :: 0 <= i < |vs| ==> Fits(vs[i])
    ensures DecodeEntries(EncodeEntries(vs) + rest, |vs|) == Some((vs, |EncodeEntries(vs)|))
  {
    hide EncodeEntry, DecodeEntry, DecodeEntries, Fits, Num;
    var data := EncodeEntries(vs) + rest;
    if vs == [] {
      ZeroEntries(data);
    } else {
      EntriesRoundTrip(vs[1..], rest);
      EntryRoundTrip(vs[0], EncodeEntries(vs[1..]) + rest);
      assert data == EncodeEntry(vs[0]) + (EncodeEntries(vs[1..]) + rest);
      EntriesStep(data, |vs|, [], 0);
      NoEntries(DecodeEntries(data, |vs|));
      assert vs == ([] + [vs[0]]) + vs[1..];
    }
  }

  lemma {:induction false} CountsRoundTrip(cs: seq<Count>, rest: Bytes)
    requires forall i :: 0 <= i < |cs| ==> CountFits(cs[i])
    ensures DecodeCounts(EncodeCounts(cs) + rest, |cs|) == Some((cs, |EncodeCounts(cs)|))
  {
    hide EncodeCount, DecodeCount, DecodeCounts, CountFits, Num;
    var data := EncodeCounts(cs) + rest;
    if cs == [] {
      ZeroCounts(data);
    } else {
      CountsRoundTrip(cs[1..], rest);
      CountRoundTrip(cs[0], EncodeCounts(cs[1..]) + rest);
      assert data == EncodeCount(cs[0]) + (EncodeCounts(cs[1..]) + rest);
      CountsStep(data, |cs|, [], 0);
      NoCounts(DecodeCounts(data, |cs|));
      assert cs == ([] + [cs[0]]) + cs[1..];
    }
  }

  // ---- the response ----

  predicate ResponseFits(vs: seq<View>, cs: seq<Count>) {
    && |vs| < TWO_32 && |cs| < TWO_32
    && (forall i :: 0 <= i < |vs| ==> Fits(vs[i])) && (forall i :: 0 <= i < |cs| ==> CountFits(cs[i]))
  }

  /** `EncodeListWritesResponse`. */
  function Encode(vs: seq<View>, cs: seq<Count>): Bytes
    requires ResponseFits(vs, cs)
  {
    LittleEndian(|vs|, 4) + EncodeEntries(vs) + LittleEndian(|cs|, 4) + EncodeCounts(cs)
  }

  /** `EncodeListWritesResponseV2`: the same, then the cursor with its length. */
  function EncodeWithCursor(vs: seq<View>, cs: seq<Count>, cursor: Bytes): Bytes
    requires ResponseFits(vs, cs) && |cursor| < TWO_32
  {
    Encode(vs, cs) + LittleEndian(|cursor|, 4) + cursor
  }

  /** `DecodeListWritesResponse`, with the number of bytes it consumes. */
  function Decode(body: Bytes): (r: Option<(seq<View>, seq<Count>, nat)>)
    ensures r.Some? ==> r.value.2 <= |body|
  {
    if |body| < 4 then None
    else
      match DecodeEntries(body[4..], Num(body, 0, 4))
      case None => None
      case Some((vs, used)) =>
        var off := 4 + used;
        if off + 4 > |body| then None
        else
          match DecodeCounts(body[off + 4..], Num(body, off, 4))
          case None => None
          case Some((cs, more)) => Some((vs, cs, off + 4 + more))
  }

  /** `DecodeListWritesResponseV2`: a body that ends with the counts has no cursor; otherwise the cursor must
      end exactly with the body. */
  function DecodeWithCursor(body: Bytes): Option<(seq<View>, seq<Count>, Option<Bytes>)> {
    match Decode(body)
    case None => None
    case Some((vs, cs, off)) =>
      if off == |body| then Some((vs, cs, None))
      else if |body| < off + 4 || off + 4 + Num(body, off, 4) != |body| then None
      else Some((vs, cs, Some(body[off + 4..])))
  }

  lemma {:induction false} BodyParts(n: Bytes, entries: Bytes, m: Bytes, counts: Bytes, rest: Bytes)
    requires |n| == |m| == 4
    ensures var body := n + entries + m + counts + rest; var a := 4 + |entries|;
            && |body| == a + 4 + |counts| + |rest| && body[0..4] == n && body[4..] == entries + (m + counts + rest)
            && body[a..a + 4] == m && body[a + 4..] == counts + rest && body[a + 4 + |counts|..] == rest
  {
  }

  /** A response in front of any bytes decodes to itself, consuming exactly its own bytes. */
  lemma {:induction false} ResponseRoundTrip(vs: seq<View>, cs: seq<Count>, rest: Bytes)
    requires ResponseFits(vs, cs)
    ensures Decode(Encode(vs, cs) + rest) == Some((vs, cs, |Encode(vs, cs)|))
    ensures (Encode(vs, cs) + rest)[|Encode(vs, cs)|..] == rest
  {
    PowersOf256();
    hide LittleEndian, FromLittleEndian, Pow256, EncodeEntries, EncodeCounts, DecodeEntries, DecodeCounts;
    LittleEndianRoundTrip(|vs|, 4);
    LittleEndianRoundTrip(|cs|, 4);
    var n, m := LittleEndian(|vs|, 4), LittleEndian(|cs|, 4);
    var entries, counts := EncodeEntries(vs), EncodeCounts(cs);
    BodyParts(n, entries, m, counts, rest);
    assert Encode(vs, cs) + rest == n + entries + m + counts + rest;
    EntriesRoundTrip(vs, m + counts + rest);
    CountsRoundTrip(cs, rest);
  }

  /** The newer decoder returns what the newer encoder was given. */
  lemma {:induction false} CursorRoundTrip(vs: seq<View>, cs: seq<Count>, cursor: Bytes)
    requires ResponseFits(vs, cs) && |cursor| < TWO_32
    ensures DecodeWithCursor(EncodeWithCursor(vs, cs, cursor)) == Some((vs, cs, Some(cursor)))
  {
    PowersOf256();
    hide Encode, Decode, LittleEndian, FromLittleEndian, Pow256;
    var len := LittleEndian(|cursor|, 4);
    LittleEndianRoundTrip(|cursor|, 4);
    ResponseRoundTrip(vs, cs, len + cursor);
    var body := EncodeWithCursor(vs, cs, cursor);
    var off := |Encode(vs, cs)|;
    assert body == Encode(vs, cs) + (len + cursor);
    assert body[off..off + 4] == len && body[off + 4..] == cursor;
  }

  /** The older decoder reads the newer body: the same entries and counts. */
  lemma {:induction false} OldReadsNew(vs: seq<View>, cs: seq<Count>, cursor: Bytes)
    requires ResponseFits(vs, cs) && |cursor| < TWO_32
    ensures Decode(EncodeWithCursor(vs, cs, cursor)) == Some((vs, cs, |Encode(vs, cs)|))
  {
    hide Encode, Decode, LittleEndian;
    ResponseRoundTrip(vs, cs, LittleEndian(|cursor|, 4) + cursor);
    assert EncodeWithCursor(vs, cs, cursor) == Encode(vs, cs) + (LittleEndian(|cursor|, 4) + cursor);
  }

  /** The newer decoder reads the older body: the same entries and counts, and no cursor. */
  lemma {:induction false} NewReadsOld(vs: seq<View>, cs: seq<Count>)
    requires ResponseFits(vs, cs)
    ensures DecodeWithCursor(Encode(vs, cs)) == Some((vs, cs, None))
  {
    hide Encode, Decode;
    ResponseRoundTrip(vs, cs, []);
    assert Encode(vs, cs) + [] == Encode(vs, cs);
  }

  // ---- encoder and decoders as they run ----

  /** `EncodeListWritesResponse`: entries, then counts, appended one by one. */
  method EncodeResponse(vs: seq<View>, cs: seq<Count>) returns (body: Bytes)
    requires ResponseFits(vs, cs)
    ensures body == Encode(vs, cs)
  {
    hide EncodeEntry, EncodeCount, LittleEndian, Fits, CountFits;
    ghost var head, mid := LittleEndian(|vs|, 4), LittleEndian(|cs|, 4);
    body := LittleEndian(|vs|, 4);
    var i := 0;
    while i < |vs|
      invariant 0 <= i <= |vs| && head + EncodeEntries(vs) == body + EncodeEntries(vs[i..])
    {
      assert vs[i..][1..] == vs[i + 1..];
      assert body + (EncodeEntry(vs[i]) + EncodeEntries(vs[i + 1..])) ==
             (body + EncodeEntry(vs[i])) + EncodeEntries(vs[i + 1..]);
      body := body + EncodeEntry(vs[i]);
      i := i + 1;
    }
    assert body == head + EncodeEntries(vs);
    ghost var front := body + mid;
    body := body + LittleEndian(|cs|, 4);
    i := 0;
    while i < |cs|
      invariant 0 <= i <= |cs| && front + EncodeCounts(cs) == body + EncodeCounts(cs[i..])
    {
      assert cs[i..][1..] == cs[i + 1..];
      assert body + (EncodeCount(cs[i]) + EncodeCounts(cs[i + 1..])) ==
             (body + EncodeCount(cs[i])) + EncodeCounts(cs[i + 1..]);
      body := body + EncodeCount(cs[i]);
      i := i + 1;
    }
    assert body == front + EncodeCounts(cs);
  }

  /** The loop over entries, from an offset into the body. */
  method ReadEntries(body: Bytes, from: nat, n: nat) returns (ok: bool, vs: seq<View>, off: nat)
    requires from <= |body|
    ensures ok <==> DecodeEntries(body[from..], n).Some?
    ensures ok ==> from <= off <= |body| && DecodeEntries(body[from..], n) == Some((vs, off - from))
  {
    hide DecodeEntry, DecodeEntries;
    vs, off := [], from;
    var i := 0;
    NoEntries(DecodeEntries(body[from..], n));
    while i < n
      invariant 0 <= i <= n && from <= off <= |body| && |vs| == i
      invariant DecodeEntries(body[from..], n) == EntriesAfter(vs, off - from, DecodeEntries(body[off..], n - i))
    {
      var e := DecodeEntry(body[off..]);
      EntriesStep(body[off..], n - i, vs, off - from);
      if e.None? { return false, vs, off; }
      assert body[off..][e.value.1..] == body[off + e.value.1..];
      vs, off := vs + [e.value.0], off + e.value.1;
      i := i + 1;
    }
    assert vs + [] == vs && DecodeEntries(body[off..], 0) == Some(([], 0)) by { ZeroEntries(body[off..]); }
    ok := true;
  }

  method ReadCounts(body: Bytes, from: nat, n: nat) returns (ok: bool, cs: seq<Count>, off: nat)
    requires from <= |body|
    ensures ok <==> DecodeCounts(body[from..], n).Some?
    ensures ok ==> from <= off <= |body| && DecodeCounts(body[from..], n) == Some((cs, off - from))
  {
    hide DecodeCount, DecodeCounts;
    cs, off := [], from;
    var i := 0;
    NoCounts(DecodeCounts(body[from..], n));
    while i < n
      invariant 0 <= i <= n && from <= off <= |body| && |cs| == i
      invariant DecodeCounts(body[from..], n) == CountsAfter(cs, off - from, DecodeCounts(body[off..], n - i))
    {
      var e := DecodeCount(body[off..]);
      CountsStep(body[off..], n - i, cs, off - from);
      if e.None? { return false, cs, off; }
      assert body[off..][e.value.1..] == body[off + e.value.1..];
      cs, off := cs + [e.value.0], off + e.value.1;
      i := i + 1;
    }
    assert cs + [] == cs && DecodeCounts(body[off..], 0) == Some(([], 0)) by { ZeroCounts(body[off..]); }
    ok := true;
  }

  /** `DecodeListWritesResponse`. */
  method DecodeResponse(body: Bytes) returns (ok: bool, vs: seq<View>, cs: seq<Count>)
    ensures ok <==> Decode(body).Some?
    ensures ok ==> vs == Decode(body).value.0 && cs == Decode(body).value.1
  {
    hide DecodeEntries, DecodeCounts;
    vs, cs := [], [];
    if |body| < 4 { return false, vs, cs; }
    var off;
    ok, vs, off := ReadEntries(body, 4, Num(body, 0, 4));
    if !ok || off + 4 > |body| { return false, vs, cs; }
    var n := Num(body, off, 4);
    var end;
    ok, cs, end := ReadCounts(body, off + 4, n);
  }

  /** Finding the end of the counts again by lengths alone. */
  method SkipEntries(body: Bytes, from: nat, n: nat) returns (ok: bool, off: nat)
    requires from <= |body|
    ensures ok <==> DecodeEntries(body[from..], n).Some?
    ensures ok ==> from <= off <= |body| && DecodeEntries(body[from..], n).value.1 == off - from
  {
    hide DecodeEntry, EntryLength;
    off := from;
    var i := 0;
    while i < n
      invariant 0 <= i <= n && from <= off <= |body|
      invariant DecodeEntries(body[from..], n).Some? <==> DecodeEntries(body[off..], n - i).Some?
      invariant DecodeEntries(body[from..], n).Some? ==>
          DecodeEntries(body[from..], n).value.1 == off - from + DecodeEntries(body[off..], n - i).value.1
    {
      LengthAgrees(body[off..]);
      var used := EntryLength(body[off..]);
      if used.None? { return false, off; }
      assert body[off..][used.value..] == body[off + used.value..];
      off := off + used.value;
      i := i + 1;
    }
    ok := true;
  }

  method SkipCounts(body: Bytes, from: nat, n: nat) returns (off: nat)
    requires from <= |body| && DecodeCounts(body[from..], n).Some?
    ensures from <= off <= |body| && DecodeCounts(body[from..], n).value.1 == off - from
  {
    hide DecodeCount;
    off := from;
    var i := 0;
    while i < n
      invariant 0 <= i <= n && from <= off <= |body| && DecodeCounts(body[off..], n - i).Some?
      invariant DecodeCounts(body[from..], n).value.1 == off - from + DecodeCounts(body[off..], n - i).value.1
    {
      ghost var c := DecodeCount(body[off..]).value;
      assert body[off..][0..4] == body[off..off + 4];
      var len := Num(body, off, 4);
      assert body[off..][c.1..] == body[off + c.1..];
      off := off + 4 + len + 4;
      i := i + 1;
    }
  }

  /** `DecodeListWritesResponseV2`. */
  method DecodeResponseWithCursor(body: Bytes) returns (r: Option<(seq<View>, seq<Count>, Option<Bytes>)>)
    ensures r == DecodeWithCursor(body)
  {
    hide DecodeEntries, DecodeCounts;
    var ok, vs, cs := DecodeResponse(body);
    if !ok { return None; }
    var found, off := SkipEntries(body, 4, |vs|);
    if !found { return None; }
    off := off + 4;
    off := SkipCounts(body, off, |cs|);
    if off == |body| { return Some((vs, cs, None)); }
    if |body| < off + 4 { return None; }
    var n := Num(body, off, 4);
    if off + 4 + n != |body| { return None; }
    assert body[off + 4..off + 4 + n] == body[off + 4..];
    return Some((vs, cs, Some(body[off + 4..off + 4 + n])));
  }
}
