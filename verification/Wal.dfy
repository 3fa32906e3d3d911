/** The write-ahead log: the bytes of a record, and what a replay makes of any bytes. */
module Wal {
  import opened Bytes

  /** A record as it is appended. A delete carries the empty value. */
  datatype Record = Record(op: Byte, key: Bytes, value: Bytes)

  /** A record as a replay hands it on: a value of length zero comes back as none at all. */
  datatype Replayed = Replayed(op: Byte, key: Bytes, value: Option<Bytes>)

  const HEADER: nat := 9

  /** The lengths fit their 32-bit fields. */
  predicate Fits(r: Record) {
    |r.key| < 0x1_0000_0000 && |r.value| < 0x1_0000_0000
  }

  predicate AllFit(rs: seq<Record>) {
    forall i :: 0 <= i < |rs| ==> Fits(rs[i])
  }

  function Encode(r: Record): (b: Bytes)
    requires Fits(r)
    ensures |b| == HEADER + |r.key| + |r.value|
  {
    PowersOf256();
    [r.op] + BigEndian(|r.key|, 4) + BigEndian(|r.value|, 4) + r.key + r.value
  }

  function EncodeAll(rs: seq<Record>): Bytes
    requires AllFit(rs)
  {
    if rs == [] then [] else Encode(rs[0]) + EncodeAll(rs[1..])
  }

  function Seen(r: Record): Replayed {
    Replayed(r.op, r.key, if r.value == [] then None else Some(r.value))
  }

  function SeenAll(rs: seq<Record>): seq<Replayed> {
    if rs == [] then [] else [Seen(rs[0])] + SeenAll(rs[1..])
  }

  /** The length of the first whole record of `b`, if there is one. */
  function FirstRecord(b: Bytes): (r: Option<nat>)
    ensures r.Some? ==> HEADER <= r.value <= |b|
  {
    if |b| < HEADER then None
    else
      var n := HEADER + FromBigEndian(b[1..5]) + FromBigEndian(b[5..9]);
      if |b| < n then None else Some(n)
  }

  function RecordAt(b: Bytes): Record
    requires FirstRecord(b).Some?
  {
    var n := HEADER + FromBigEndian(b[1..5]);
    Record(b[0], b[HEADER..n], b[n..FirstRecord(b).value])
  }

  /** Replay as a function of the bytes: whole records until something does not fit. */
  function Parse(b: Bytes): seq<Replayed> {
    match FirstRecord(b)
    case None => []
    case Some(n) => [Seen(RecordAt(b))] + Parse(b[n..])
  }

  // ---- round trip ----

  lemma {:induction false} HeaderReads(op: Byte, k: Bytes, v: Bytes, key: Bytes, value: Bytes, rest: Bytes)
    requires |k| == 4 && |v| == 4
    ensures var b := [op] + k + v + key + value + rest;
            && |b| == HEADER + |key| + |value| + |rest|
            && b[0] == op && b[1..5] == k && b[5..9] == v
            && b[HEADER..HEADER + |key|] == key && b[HEADER + |key|..HEADER + |key| + |value|] == value
            && b[HEADER + |key| + |value|..] == rest
  {
  }

  /** A record in front of any bytes is read back exactly. */
  lemma {:induction false} ReadsFirst(r: Record, rest: Bytes)
    requires Fits(r)
    ensures FirstRecord(Encode(r) + rest) == Some(|Encode(r)|) && RecordAt(Encode(r) + rest) == r
    ensures (Encode(r) + rest)[|Encode(r)|..] == rest
  {
    PowersOf256();
    var k, v := BigEndian(|r.key|, 4), BigEndian(|r.value|, 4);
    BigEndianRoundTrip(|r.key|, 4);
    BigEndianRoundTrip(|r.value|, 4);
    HeaderReads(r.op, k, v, r.key, r.value, rest);
    assert Encode(r) + rest == [r.op] + k + v + r.key + r.value + rest;
  }

  lemma {:induction false} ParseFirst(r: Record, rest: Bytes)
    requires Fits(r)
    ensures Parse(Encode(r) + rest) == [Seen(r)] + Parse(rest)
  {
    hide Encode, RecordAt, FirstRecord;
    ReadsFirst(r, rest);
  }

  /** Replaying a log behind any bytes that follow it. */
  lemma {:induction false} ParseLog(rs: seq<Record>, rest: Bytes)
    requires AllFit(rs)
    ensures Parse(EncodeAll(rs) + rest) == SeenAll(rs) + Parse(rest)
  {
    hide Encode, Parse, Seen;
    if rs == [] {
      assert EncodeAll(rs) + rest == rest;
    } else {
      ParseLog(rs[1..], rest);
      ParseFirst(rs[0], EncodeAll(rs[1..]) + rest);
      assert EncodeAll(rs) + rest == Encode(rs[0]) + (EncodeAll(rs[1..]) + rest);
    }
  }

  /** A cut record, however much of it is left, is not read. */
  lemma {:induction false} CutRecord(r: Record, n: nat)
    requires Fits(r) && n < |Encode(r)|
    ensures FirstRecord(Encode(r)[..n]).None?
  {
    if n >= HEADER {
      var b := Encode(r)[..n];
      ReadsFirst(r, []);
      assert Encode(r) + [] == Encode(r);
      assert b[1..5] == Encode(r)[1..5] && b[5..9] == Encode(r)[5..9];
    }
  }

  lemma {:induction false} EncodeAllConcat(a: seq<Record>, b: seq<Record>)
    requires AllFit(a) && AllFit(b)
    ensures AllFit(a + b) && EncodeAll(a + b) == EncodeAll(a) + EncodeAll(b)
  {
    hide Encode, Fits;
    if a == [] {
      assert a + b == b;
    } else {
      assert (a + b)[1..] == a[1..] + b;
      EncodeAllConcat(a[1..], b);
    }
  }

  lemma {:induction false} NoRecords()
    ensures EncodeAll([]) == []
  {
  }

  lemma {:induction false} EncodeAllGrows(rs: seq<Record>, m: nat)
    requires AllFit(rs) && m <= |rs|
    ensures |EncodeAll(rs[..m])| <= |EncodeAll(rs)|
  {
    hide Encode;
    WholePart(rs, m);
  }

  lemma {:induction false} WholePart(rs: seq<Record>, m: nat)
    requires AllFit(rs) && m <= |rs|
    ensures EncodeAll(rs) == EncodeAll(rs[..m]) + EncodeAll(rs[m..])
  {
    assert rs == rs[..m] + rs[m..];
    EncodeAllConcat(rs[..m], rs[m..]);
  }

  /** A log cut at any byte replays as the records that lie wholly before the cut. */
  lemma {:induction false} ReplayOfAnyCut(rs: seq<Record>, n: nat, m: nat)
    requires AllFit(rs) && n <= |EncodeAll(rs)| && m <= |rs|
    requires |EncodeAll(rs[..m])| <= n && (m < |rs| ==> n < |EncodeAll(rs[..m + 1])|)
    ensures Parse(EncodeAll(rs)[..n]) == SeenAll(rs[..m])
  {
    WholePart(rs, m);
    var whole, left := EncodeAll(rs[..m]), n - |EncodeAll(rs[..m])|;
    if m < |rs| {
      WholePart(rs[..m + 1], m);
      assert rs[..m + 1][..m] == rs[..m] && rs[..m + 1][m..] == [rs[m]];
      OneRecord(rs[m]);
      assert EncodeAll(rs[m..])[..left] == Encode(rs[m])[..left] by { HeadOf(rs[m..]); }
      CutRecord(rs[m], left);
    } else {
      assert rs[m..] == [];
    }
    assert EncodeAll(rs)[..n] == whole + EncodeAll(rs[m..])[..left];
    ParseLog(rs[..m], EncodeAll(rs[m..])[..left]);
  }

  lemma {:induction false} OneRecord(r: Record)
    requires Fits(r)
    ensures EncodeAll([r]) == Encode(r)
  {
    assert [r][1..] == [];
  }

  lemma {:induction false} HeadOf(rs: seq<Record>)
    requires AllFit(rs) && rs != []
    ensures Encode(rs[0]) <= EncodeAll(rs)
  {
  }

  /** Replay of a whole log. Only empty values come back changed. */
  lemma {:induction false} ReplayRoundTrip(rs: seq<Record>)
    requires AllFit(rs)
    ensures Parse(EncodeAll(rs)) == SeenAll(rs)
    ensures forall i :: 0 <= i < |rs| ==> |SeenAll(rs)| == |rs| && SeenAll(rs)[i] == Seen(rs[i])
  {
    ParseLog(rs, []);
    assert EncodeAll(rs) + [] == EncodeAll(rs);
    SeenEach(rs);
  }

  lemma {:induction false} SeenEach(rs: seq<Record>)
    ensures |SeenAll(rs)| == |rs| && forall i :: 0 <= i < |rs| ==> SeenAll(rs)[i] == Seen(rs[i])
  {
    if rs != [] { SeenEach(rs[1..]); }
  }

  // ---- appending behind a torn tail ----

  lemma {:induction false} FourBytes(a: Byte, b: Byte, c: Byte, d: Byte)
    ensures FromBigEndian([a, b, c, d]) == ((a * 256 + b) * 256 + c) * 256 + d
  {
    var s := [a, b, c, d];
    assert s[..3] == [a, b, c] && s[..3][..2] == [a, b] && s[..3][..2][..1] == [a] && s[..3][..2][..1][..0] == [];
    assert FromBigEndian([a]) == a;
    assert FromBigEndian([a, b]) == 256 * a + b by { assert [a, b][..1] == [a]; }
    assert FromBigEndian([a, b, c]) == 256 * (256 * a + b) + c by { assert [a, b, c][..2] == [a, b]; }
  }

  /** The log is opened for appending without cutting a torn tail off. One torn byte is enough for
      the next replay to lose every record appended after it: the first opcode is then read as the top
      byte of a key length. */
  lemma {:induction false} TornByteHidesLaterRecords(torn: Byte, rs: seq<Record>)
    requires AllFit(rs) && rs != [] && rs[0].op >= 1 && |EncodeAll(rs)| < 0x100_0000
    ensures Parse([torn] + EncodeAll(rs)) == []
  {
    var log, r := EncodeAll(rs), rs[0];
    HeadOf(rs);
    assert log[0] == r.op by { assert Encode(r)[0] == r.op; }
    var b := [torn] + log;
    assert b[1..5] == [log[0], log[1], log[2], log[3]];
    FourBytes(log[0], log[1], log[2], log[3]);
  }

  /** Replay reads exactly `rs` from `b` if and only if `b` starts with the encoding of `rs` and holds
      no further whole record. Taken with `b` a torn tail followed by what was appended later, this is
      the exact condition for those records to survive the next replay. */
  lemma {:induction false} ReplayReadsExactlyIff(b: Bytes, rs: seq<Record>)
    requires AllFit(rs)
    ensures Parse(b) == SeenAll(rs) <==> EncodeAll(rs) <= b && FirstRecord(b[|EncodeAll(rs)|..]).None?
  {
    if EncodeAll(rs) <= b {
      var rest := b[|EncodeAll(rs)|..];
      assert b == EncodeAll(rs) + rest;
      ParseLog(rs, rest);
      assert Parse(rest) == [] <==> FirstRecord(rest).None?;
      if Parse(b) == SeenAll(rs) { assert |Parse(rest)| == 0; }
    } else if Parse(b) == SeenAll(rs) {
      ParseEncodes(b, rs);
    }
  }

  lemma {:induction false} FromBigEndianInverse(s: Bytes)
    ensures FromBigEndian(s) < Pow256(|s|) && BigEndian(FromBigEndian(s), |s|) == s
  {
    if s != [] {
      FromBigEndianInverse(s[..|s| - 1]);
      assert s == s[..|s| - 1] + [s[|s| - 1]];
    }
  }

  lemma {:induction false} RecordEncodes(b: Bytes)
    requires FirstRecord(b).Some?
    ensures Fits(RecordAt(b)) && Encode(RecordAt(b)) == b[..FirstRecord(b).value]
  {
    PowersOf256();
    FromBigEndianInverse(b[1..5]);
    FromBigEndianInverse(b[5..9]);
  }

  lemma {:induction false} SeenInjective(r: Record, s: Record)
    requires Seen(r) == Seen(s)
    ensures r == s
  {
  }

  /** Whatever is replayed was there byte for byte. */
  lemma {:induction false} ParseEncodes(b: Bytes, rs: seq<Record>)
    requires AllFit(rs) && SeenAll(rs) <= Parse(b)
    ensures EncodeAll(rs) <= b
  {
    if rs != [] {
      var n := FirstRecord(b).value;
      assert Parse(b)[0] == SeenAll(rs)[0] && Parse(b)[1..] == Parse(b[n..]) && SeenAll(rs)[1..] == SeenAll(rs[1..]);
      SeenInjective(RecordAt(b), rs[0]);
      RecordEncodes(b);
      ParseEncodes(b[n..], rs[1..]);
      assert b == b[..n] + b[n..];
    }
  }

  // ---- the reader ----

  lemma {:induction false} ParseAt(b: Bytes, pos: nat, klen: nat, vlen: nat)
    requires pos + HEADER <= |b|
    requires klen == FromBigEndian(b[pos + 1..pos + 5]) && vlen == FromBigEndian(b[pos + 5..pos + 9])
    ensures var k := pos + HEADER;
            Parse(b[pos..]) ==
            if |b| - k < klen + vlen then []
            else [Replayed(b[pos], b[k..k + klen], if vlen == 0 then None else Some(b[k + klen..k + klen + vlen]))]
                 + Parse(b[k + klen + vlen..])
  {
    hide FromBigEndian, FirstRecord, RecordAt;
    RecordHere(b, pos, klen, vlen);
  }

  lemma {:induction false} SliceBehind(b: Bytes, pos: nat, i: nat, j: nat)
    requires i <= j && pos + j <= |b|
    ensures b[pos..][i..j] == b[pos + i..pos + j] && b[pos..][j..] == b[pos + j..]
  {
  }

  lemma {:induction false} RecordHere(b: Bytes, pos: nat, klen: nat, vlen: nat)
    requires pos + HEADER <= |b|
    requires klen == FromBigEndian(b[pos + 1..pos + 5]) && vlen == FromBigEndian(b[pos + 5..pos + 9])
    ensures var k, left := pos + HEADER, b[pos..];
            && (|b| - k < klen + vlen ==> FirstRecord(left).None?)
            && (|b| - k >= klen + vlen ==>
                  && FirstRecord(left) == Some(HEADER + klen + vlen)
                  && RecordAt(left) == Record(b[pos], b[k..k + klen], b[k + klen..k + klen + vlen])
                  && left[HEADER + klen + vlen..] == b[k + klen + vlen..])
  {
    hide FromBigEndian;
    SliceBehind(b, pos, 1, 5);
    SliceBehind(b, pos, 5, 9);
    if |b| - pos - HEADER >= klen + vlen {
      SliceBehind(b, pos, HEADER, HEADER + klen);
      SliceBehind(b, pos, HEADER + klen, HEADER + klen + vlen);
    }
  }

  /** `Replay`: a cursor over the file, stopping at the first record that is not all there. */
  method Replay(b: Bytes) returns (out: seq<Replayed>)
    ensures out == Parse(b)
  {
    hide FromBigEndian, Parse;
    out := [];
    var pos := 0;
    assert b[0..] == b;
    while pos + HEADER <= |b|
      invariant pos <= |b| && Parse(b) == out + Parse(b[pos..])
      decreases |b| - pos
    {
      var op := b[pos];
      var klen := FromBigEndian(b[pos + 1..pos + 5]);
      var vlen := FromBigEndian(b[pos + 5..pos + 9]);
      ParseAt(b, pos, klen, vlen);
      pos := pos + HEADER;
      if |b| - pos < klen { return; }
      var key := b[pos..pos + klen];
      pos := pos + klen;
      var value: Option<Bytes> := None;
      if vlen > 0 {
        if |b| - pos < vlen { return; }
        value := Some(b[pos..pos + vlen]);
        pos := pos + vlen;
      }
      ghost var done := out;
      out := out + [Replayed(op, key, value)];
      assert done + ([Replayed(op, key, value)] + Parse(b[pos..])) == out + Parse(b[pos..]);
    }
    ShortTail(b[pos..]);
  }

  lemma {:induction false} ShortTail(b: Bytes)
    requires |b| < HEADER
    ensures Parse(b) == []
  {
  }
}
