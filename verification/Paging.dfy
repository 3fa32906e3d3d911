/** Listing writes page by page: pages are cut in the order of storage keys, while the cursor compares
    logical keys. */
module Paging {
  import opened Bytes
  import opened VersionKeys
  import opened Temporal
  import opened TemporalReads

  datatype Hit = Hit(logical: Bytes, seqNo: nat, version: Version)

  /** A time window and a source; a bound of zero or less, or an empty source, does not restrict. */
  datatype Query = Query(from: int, to: int, source: Bytes)

  datatype Cursor = Cursor(logical: Bytes, seqNo: nat)

  predicate Wanted(v: Version, q: Query) {
    (q.from <= 0 || v.nanos >= q.from) && (q.to <= 0 || v.nanos <= q.to) && (q.source == [] || v.source == q.source)
  }

  /** What one scanned entry contributes. */
  function HitOf(p: Pair, q: Query): Option<Hit> {
    if IsCurrent(p.key) || ParseKey(p.key).None? || !p.cell.Rec? || !Wanted(p.cell.version, q) then None
    else Some(Hit(ParseKey(p.key).value.0, ParseKey(p.key).value.1, p.cell.version))
  }

  /** The matching writes, in storage order. */
  function Hits(raw: seq<Pair>, q: Query): seq<Hit> {
    if raw == [] then []
    else (match HitOf(raw[0], q) case None => [] case Some(h) => [h]) + Hits(raw[1..], q)
  }

  /** The order of the listing: logical key, then number. */
  predicate Before(a: Hit, b: Hit) {
    Lt(a.logical, b.logical) || (a.logical == b.logical && a.seqNo < b.seqNo)
  }

  ghost predicate InOrder(hs: seq<Hit>) {
    forall i, j :: 0 <= i < j < |hs| ==> Before(hs[i], hs[j])
  }

  function Inserted(hs: seq<Hit>, h: Hit): seq<Hit> {
    if hs == [] then [h]
    else if Before(h, hs[|hs| - 1]) then Inserted(hs[..|hs| - 1], h) + [hs[|hs| - 1]]
    else hs + [h]
  }

  function Sort(hs: seq<Hit>): seq<Hit> {
    if hs == [] then [] else Inserted(Sort(hs[..|hs| - 1]), hs[|hs| - 1])
  }

  /** `ListWrites`. */
  function Listing(raw: seq<Pair>, q: Query): seq<Hit> { Sort(Hits(raw, q)) }

  /** Strictly behind the cursor. */
  predicate Past(h: Hit, c: Option<Cursor>) {
    c.None? || Lt(c.value.logical, h.logical) || (h.logical == c.value.logical && h.seqNo > c.value.seqNo)
  }

  function Rest(hs: seq<Hit>, c: Option<Cursor>): seq<Hit> {
    if hs == [] then [] else (if Past(hs[0], c) then [hs[0]] else []) + Rest(hs[1..], c)
  }

  function CursorOf(h: Hit): Option<Cursor> { Some(Cursor(h.logical, h.seqNo)) }

  /** `ListWritesPage`: the first hits in storage order behind the cursor, sorted; and whether more follow. */
  function Page(hs: seq<Hit>, c: Option<Cursor>, limit: nat): seq<Hit> {
    Sort(if |Rest(hs, c)| <= limit then Rest(hs, c) else Rest(hs, c)[..limit])
  }

  predicate HasMore(hs: seq<Hit>, c: Option<Cursor>, limit: nat) { |Rest(hs, c)| > limit }

  /** Following the cursor until there is no more. */
  function Followed(hs: seq<Hit>, c: Option<Cursor>, limit: nat): seq<Hit>
    requires limit >= 1
    decreases |Rest(hs, c)|
  {
    var page := Page(hs, c, limit);
    if !HasMore(hs, c, limit) then page
    else
      CursorAdvances(hs, c, limit);
      page + Followed(hs, CursorOf(page[|page| - 1]), limit)
  }

  // ---- sorting ----

  lemma {:induction false} InsertedMembers(hs: seq<Hit>, h: Hit)
    ensures multiset(Inserted(hs, h)) == multiset(hs) + multiset{h}
  {
    if hs != [] {
      var init, last := hs[..|hs| - 1], hs[|hs| - 1];
      assert hs == init + [last];
      if Before(h, last) { InsertedMembers(init, h); }
    }
  }

  lemma {:induction false} SortMembers(hs: seq<Hit>)
    ensures multiset(Sort(hs)) == multiset(hs)
  {
    if hs != [] {
      var init, last := hs[..|hs| - 1], hs[|hs| - 1];
      assert hs == init + [last];
      SortMembers(init);
      InsertedMembers(Sort(init), last);
    }
  }

  lemma {:induction false} SortLength(hs: seq<Hit>)
    ensures |Sort(hs)| == |hs|
  {
    SortMembers(hs);
    assert |multiset(Sort(hs))| == |multiset(hs)|;
  }

  lemma {:induction false} BeforeTransitive(a: Hit, b: Hit, c: Hit)
    requires Before(a, b) && Before(b, c)
    ensures Before(a, c)
  {
    if Lt(a.logical, b.logical) && Lt(b.logical, c.logical) { LtTransitive(a.logical, b.logical, c.logical); }
  }

  predicate SamePlace(a: Hit, b: Hit) { a.logical == b.logical && a.seqNo == b.seqNo }

  lemma {:induction false} BeforeTotal(a: Hit, b: Hit)
    ensures SamePlace(a, b) || Before(a, b) || Before(b, a)
    ensures Before(a, b) ==> !Before(b, a) && !SamePlace(a, b)
  {
    LtTrichotomy(a.logical, b.logical);
  }

  ghost predicate Distinct(hs: seq<Hit>) {
    forall i, j :: 0 <= i < j < |hs| ==> !SamePlace(hs[i], hs[j])
  }

  lemma {:induction false} InsertedInOrder(hs: seq<Hit>, h: Hit)
    requires InOrder(hs) && forall x :: x in hs ==> !SamePlace(x, h)
    ensures InOrder(Inserted(hs, h))
  {
    hide Before, SamePlace;
    if hs != [] {
      var init, last := hs[..|hs| - 1], hs[|hs| - 1];
      assert hs == init + [last];
      BeforeTotal(h, last);
      BeforeTotal(last, h);
      if Before(h, last) {
        InsertedInOrder(init, h);
        InsertedMembers(init, h);
        var r := Inserted(init, h);
        forall i | 0 <= i < |r| ensures Before(r[i], last) {
          assert r[i] in multiset(r);
          if r[i] != h { assert r[i] in init; }
        }
      } else {
        assert Before(last, h) by { assert last in hs; SameEither(last, h); }
        forall i | 0 <= i < |init| ensures Before(init[i], h) { BeforeTransitive(init[i], last, h); }
      }
    }
  }

  lemma {:induction false} SameEither(a: Hit, b: Hit)
    ensures SamePlace(a, b) == SamePlace(b, a)
  {
  }

  /** The listing is in order, without loss or duplicates. */
  lemma {:induction false} SortInOrder(hs: seq<Hit>)
    requires Distinct(hs)
    ensures InOrder(Sort(hs))
  {
    hide SamePlace;
    if hs != [] {
      var init, last := hs[..|hs| - 1], hs[|hs| - 1];
      SortInOrder(init);
      SortMembers(init);
      forall x | x in Sort(init) ensures !SamePlace(x, last) {
        assert x in multiset(Sort(init));
        var i :| 0 <= i < |init| && init[i] == x;
        assert hs[i] == x;
      }
      InsertedInOrder(Sort(init), last);
    }
  }

  /** Sorting what is in order changes nothing. */
  lemma {:induction false} SortOfSorted(hs: seq<Hit>)
    requires InOrder(hs)
    ensures Sort(hs) == hs
  {
    if hs != [] {
      var init, last := hs[..|hs| - 1], hs[|hs| - 1];
      SortOfSorted(init);
      if init != [] { BeforeTotal(init[|init| - 1], last); }
    }
  }

  // ---- cursors ----

  lemma {:induction false} PastIs(a: Hit, h: Hit)
    ensures Past(h, CursorOf(a)) <==> Before(a, h)
  {
  }

  lemma {:induction false} RestMembers(hs: seq<Hit>, c: Option<Cursor>, h: Hit)
    ensures h in Rest(hs, c) <==> h in hs && Past(h, c)
  {
    if hs != [] {
      RestMembers(hs[1..], c, h);
      assert hs == [hs[0]] + hs[1..];
    }
  }

  /** What lies behind a cursor that was itself behind `c`. */
  lemma {:induction false} RestRest(hs: seq<Hit>, c: Option<Cursor>, a: Hit)
    requires Past(a, c)
    ensures Rest(hs, CursorOf(a)) == Rest(Rest(hs, c), CursorOf(a))
  {
    hide Past;
    if hs != [] {
      RestRest(hs[1..], c, a);
      var tail := Rest(hs[1..], c);
      if Past(hs[0], CursorOf(a)) { FurtherPast(hs[0], a, c); }
      if Past(hs[0], c) {
        assert ([hs[0]] + tail)[1..] == tail;
      } else {
        assert Rest(hs, c) == tail;
      }
    }
  }

  lemma {:induction false} FurtherPast(h: Hit, a: Hit, c: Option<Cursor>)
    requires Past(h, CursorOf(a)) && Past(a, c)
    ensures Past(h, c)
  {
    if c.Some? {
      var x := Hit(c.value.logical, c.value.seqNo, a.version);
      PastIs(x, a);
      PastIs(a, h);
      BeforeTransitive(x, a, h);
      PastIs(x, h);
    }
  }

  lemma {:induction false} RestShorter(hs: seq<Hit>, c: Option<Cursor>)
    ensures |Rest(hs, c)| <= |hs|
    ensures (exists h :: h in hs && !Past(h, c)) ==> |Rest(hs, c)| < |hs|
  {
    if hs != [] {
      RestShorter(hs[1..], c);
      assert hs == [hs[0]] + hs[1..];
    }
  }

  /** The page's last entry is one of its entries, so the next page has less left. */
  lemma {:induction false} CursorAdvances(hs: seq<Hit>, c: Option<Cursor>, limit: nat)
    requires limit >= 1 && HasMore(hs, c, limit)
    ensures var page := Page(hs, c, limit);
            |page| == limit && page[limit - 1] in Rest(hs, c) && Past(page[limit - 1], c) &&
            |Rest(hs, CursorOf(page[limit - 1]))| < |Rest(hs, c)|
  {
    hide Past, Rest;
    var r := Rest(hs, c);
    var page := Page(hs, c, limit);
    SortMembers(r[..limit]);
    SortLength(r[..limit]);
    var a := page[limit - 1];
    assert a in multiset(page);
    assert a in r[..limit] && a in r;
    RestMembers(hs, c, a);
    RestRest(hs, c, a);
    PastIs(a, a);
    BeforeTotal(a, a);
    RestShorter(r, CursorOf(a));
  }

  // ---- when pages add up ----

  lemma {:induction false} RestOfOrdered(hs: seq<Hit>, k: nat)
    requires InOrder(hs) && 1 <= k <= |hs|
    ensures Rest(hs, CursorOf(hs[k - 1])) == hs[k..]
  {
    hide Before, Past;
    var c := CursorOf(hs[k - 1]);
    assert hs == hs[..k] + hs[k..];
    RestConcat(hs[..k], hs[k..], c);
    forall i | 0 <= i < k ensures !Past(hs[..k][i], c) {
      PastIs(hs[k - 1], hs[i]);
      BeforeTotal(hs[i], hs[k - 1]);
      BeforeTotal(hs[k - 1], hs[i]);
    }
    RestNone(hs[..k], c);
    forall i | 0 <= i < |hs[k..]| ensures Past(hs[k..][i], c) { PastIs(hs[k - 1], hs[k + i]); }
    RestAll(hs[k..], c);
  }

  lemma {:induction false} RestSplit(hs: seq<Hit>, c: Option<Cursor>)
    requires hs != []
    ensures Rest(hs, c) == if Past(hs[0], c) then [hs[0]] + Rest(hs[1..], c) else Rest(hs[1..], c)
  {
    hide Past;
    assert [] + Rest(hs[1..], c) == Rest(hs[1..], c);
  }

  lemma {:induction false} ConcatTail(a: seq<Hit>, b: seq<Hit>)
    requires a != []
    ensures (a + b)[0] == a[0] && (a + b)[1..] == a[1..] + b
  {
  }

  lemma {:induction false} ConcatFirst(h: Hit, x: seq<Hit>, y: seq<Hit>)
    ensures [h] + (x + y) == ([h] + x) + y
  {
  }

  lemma {:induction false} RestConcat(a: seq<Hit>, b: seq<Hit>, c: Option<Cursor>)
    ensures Rest(a + b, c) == Rest(a, c) + Rest(b, c)
    decreases |a|
  {
    if a == [] {
      assert a + b == b;
    } else {
      RestSplit(a, c);
      RestSplit(a + b, c);
      hide Past, Rest;
      ConcatTail(a, b);
      RestConcat(a[1..], b, c);
      ConcatFirst(a[0], Rest(a[1..], c), Rest(b, c));
    }
  }

  lemma {:induction false} RestNone(hs: seq<Hit>, c: Option<Cursor>)
    requires forall i :: 0 <= i < |hs| ==> !Past(hs[i], c)
    ensures Rest(hs, c) == []
  {
    if hs != [] { RestNone(hs[1..], c); }
  }

  lemma {:induction false} RestAll(hs: seq<Hit>, c: Option<Cursor>)
    requires forall i :: 0 <= i < |hs| ==> Past(hs[i], c)
    ensures Rest(hs, c) == hs
  {
    if hs != [] { RestAll(hs[1..], c); }
  }

  /** Pages over ordered hits add up to what lies behind the cursor. */
  lemma {:induction false} OrderedPagesAddUp(hs: seq<Hit>, c: Option<Cursor>, limit: nat)
    requires limit >= 1 && InOrder(Rest(hs, c))
    ensures Followed(hs, c, limit) == Rest(hs, c)
    decreases |Rest(hs, c)|
  {
    hide Past, Rest, Before, Sort;
    var r := Rest(hs, c);
    if HasMore(hs, c, limit) {
      SortOfSorted(r[..limit]);
      var page := Page(hs, c, limit);
      CursorAdvances(hs, c, limit);
      RestRest(hs, c, page[limit - 1]);
      RestOfOrdered(r, limit);
      OrderedPagesAddUp(hs, CursorOf(page[limit - 1]), limit);
    } else {
      SortOfSorted(r);
    }
  }

  lemma {:induction false} FollowedLength(hs: seq<Hit>, c: Option<Cursor>, limit: nat)
    requires limit >= 1
    ensures |Followed(hs, c, limit)| <= |Rest(hs, c)|
    decreases |Rest(hs, c)|
  {
    hide Past, Rest;
    var r := Rest(hs, c);
    if HasMore(hs, c, limit) {
      var page := Page(hs, c, limit);
      CursorAdvances(hs, c, limit);
      var a := page[limit - 1];
      FollowedLength(hs, CursorOf(a), limit);
      RestRest(hs, c, a);
      TakenAreGone(r, limit, a);
    } else {
      SortLength(r);
    }
  }

  /** Everything on a page is at or before its last entry, so none of it comes again. */
  lemma {:induction false} TakenAreGone(r: seq<Hit>, limit: nat, a: Hit)
    requires 1 <= limit < |r| && a == Sort(r[..limit])[..|Sort(r[..limit])|][|Sort(r[..limit])| - 1]
    ensures |Rest(r, CursorOf(a))| <= |r| - limit
  {
    assert r == r[..limit] + r[limit..];
    RestConcat(r[..limit], r[limit..], CursorOf(a));
    RestShorter(r[limit..], CursorOf(a));
    LastIsMax(r[..limit]);
    forall i | 0 <= i < limit ensures !Past(r[..limit][i], CursorOf(a)) {
      assert r[..limit][i] in r[..limit];
      PastIs(a, r[..limit][i]);
    }
    RestNone(r[..limit], CursorOf(a));
  }

  lemma {:induction false} LastIsMax(hs: seq<Hit>)
    requires hs != []
    ensures var s := Sort(hs); s != [] && forall h :: h in hs ==> !Before(s[|s| - 1], h)
  {
    hide Before, SamePlace;
    var init, last := hs[..|hs| - 1], hs[|hs| - 1];
    SortLength(init);
    assert hs == init + [last];
    BeforeTotal(last, last);
    if init != [] {
      LastIsMax(init);
      var s := Sort(init);
      var top := s[|s| - 1];
      BeforeTotal(last, top);
      var r := Inserted(s, last);
      assert r[|r| - 1] == if Before(last, top) then top else last;
      forall h | h in hs ensures !Before(r[|r| - 1], h) {
        assert h in init || h == last;
        if !Before(last, top) && h in init { NotBehind(top, last, h); }
      }
    }
  }

  lemma {:induction false} NotBehind(top: Hit, last: Hit, h: Hit)
    requires !Before(last, top) && !Before(top, h)
    ensures !Before(last, h)
  {
    BeforeTotal(top, last);
    if SamePlace(top, last) {
      SamePlaceBefore(top, last, h);
    } else if Before(last, h) {
      BeforeTransitive(top, last, h);
    }
  }

  lemma {:induction false} SamePlaceBefore(a: Hit, b: Hit, h: Hit)
    requires SamePlace(a, b)
    ensures Before(a, h) == Before(b, h)
  {
  }

  lemma {:induction false} SortOne(h: Hit)
    ensures Sort([h]) == [h]
  {
    assert [h][..0] == [];
  }

  lemma {:induction false} HeadFirst(r: seq<Hit>)
    requires r != [] && InOrder(r[1..]) && forall i :: 0 <= i < |r[1..]| ==> Past(r[1..][i], CursorOf(r[0]))
    ensures InOrder(r)
  {
    hide Before, Past;
    forall i, j | 0 <= i < j < |r| ensures Before(r[i], r[j]) {
      if i > 0 {
        assert Before(r[1..][i - 1], r[1..][j - 1]);
      } else {
        assert r[j] == r[1..][j - 1];
        PastIs(r[0], r[j]);
      }
    }
  }

  /** Pages of one that lose nothing come from ordered hits. */
  lemma {:induction false} SinglesNeedOrder(hs: seq<Hit>, c: Option<Cursor>)
    requires |Followed(hs, c, 1)| == |Rest(hs, c)|
    ensures InOrder(Rest(hs, c))
    decreases |Rest(hs, c)|
  {
    hide Past, Rest, Before;
    var r := Rest(hs, c);
    if |r| > 1 {
      CursorAdvances(hs, c, 1);
      assert r[..1] == [r[0]];
      SortOne(r[0]);
      var next := CursorOf(r[0]);
      RestRest(hs, c, r[0]);
      FollowedLength(hs, next, 1);
      assert r == [r[0]] + r[1..];
      RestConcat([r[0]], r[1..], next);
      RestShorter(r[1..], next);
      BeforeTotal(r[0], r[0]);
      PastIs(r[0], r[0]);
      RestNone([r[0]], next);
      assert |Rest(r[1..], next)| == |r[1..]|;
      RestIsAll(r[1..], next);
      assert Rest(hs, next) == r[1..];
      SinglesNeedOrder(hs, next);
      HeadFirst(r);
    }
  }

  lemma {:induction false} RestIsAll(hs: seq<Hit>, c: Option<Cursor>)
    requires |Rest(hs, c)| == |hs|
    ensures Rest(hs, c) == hs && forall i :: 0 <= i < |hs| ==> Past(hs[i], c)
  {
    if hs != [] {
      RestShorter(hs[1..], c);
      RestIsAll(hs[1..], c);
    }
  }

  /** Following the cursor gives exactly the listing, for every page size. */
  ghost predicate AddsUp(hs: seq<Hit>) {
    forall limit: nat :: limit >= 1 ==> Followed(hs, None, limit) == Sort(hs)
  }

  /** Pages add up if and only if storage order is listing order on the hits. */
  lemma {:induction false} PagesAddUpIff(hs: seq<Hit>)
    ensures AddsUp(hs) <==> InOrder(hs)
  {
    hide Past, Rest, Before;
    RestOfNoCursor(hs);
    if InOrder(hs) {
      SortOfSorted(hs);
      forall limit: nat | limit >= 1 ensures Followed(hs, None, limit) == Sort(hs) {
        OrderedPagesAddUp(hs, None, limit);
      }
    }
    if AddsUp(hs) {
      SortLength(hs);
      assert Followed(hs, None, 1) == Sort(hs);
      SinglesNeedOrder(hs, None);
    }
  }

  lemma {:induction false} RestOfNoCursor(hs: seq<Hit>)
    ensures Rest(hs, None) == hs
  {
    if hs != [] { RestOfNoCursor(hs[1..]); }
  }

  // ---- when storage order is listing order ----

  /** A key that differs from another before either ends keeps that difference whatever is appended. */
  lemma {:induction false} LtBeforeEnd(a: Bytes, b: Bytes, x: Bytes, y: Bytes)
    requires !(a <= b) && !(b <= a)
    ensures Lt(a + x, b + y) <==> Lt(a, b)
  {
    if a != [] && b != [] && a[0] == b[0] {
      PrefixOfTail(a, b);
      PrefixOfTail(b, a);
      LtBeforeEnd(a[1..], b[1..], x, y);
      assert (a + x)[1..] == a[1..] + x && (b + y)[1..] == b[1..] + y;
    }
  }

  lemma {:induction false} PrefixOfTail(a: Bytes, b: Bytes)
    requires a != [] && b != [] && a[0] == b[0]
    ensures a <= b <==> a[1..] <= b[1..]
  {
    assert a == [a[0]] + a[1..] && b == [b[0]] + b[1..];
  }

  ghost predicate PrefixFree(hs: seq<Hit>) {
    forall i, j :: 0 <= i < |hs| && 0 <= j < |hs| && hs[i].logical != hs[j].logical ==>
                     !(hs[i].logical <= hs[j].logical)
  }

  ghost predicate StorageOrder(hs: seq<Hit>) {
    && (forall i :: 0 <= i < |hs| ==> hs[i].seqNo <= MAX_SEQ)
    && forall i, j :: 0 <= i < j < |hs| ==> Lt(VersionKey(hs[i].logical, hs[i].seqNo),
                                               VersionKey(hs[j].logical, hs[j].seqNo))
  }

  lemma {:induction false} StorageIsListing(a: Hit, b: Hit)
    requires a.seqNo <= MAX_SEQ && b.seqNo <= MAX_SEQ
    requires a.logical != b.logical ==> !(a.logical <= b.logical) && !(b.logical <= a.logical)
    requires Lt(VersionKey(a.logical, a.seqNo), VersionKey(b.logical, b.seqNo))
    ensures Before(a, b)
  {
    if a.logical == b.logical {
      if b.seqNo < a.seqNo { VersionsAscend(a.logical, b.seqNo, a.seqNo); }
      LtTrichotomy(VersionKey(a.logical, a.seqNo), VersionKey(b.logical, b.seqNo));
    } else {
      var x, y := SEP + Digits(a.seqNo, WIDTH), SEP + Digits(b.seqNo, WIDTH);
      assert VersionKey(a.logical, a.seqNo) == a.logical + x && VersionKey(b.logical, b.seqNo) == b.logical + y;
      LtBeforeEnd(a.logical, b.logical, x, y);
    }
  }

  /** What follows the logical key in a storage key. */
  function Tail(n: nat): Bytes { SEP + Digits(n, WIDTH) }

  /** `a` extends the logical key of `b` by something that, with its own tail, sorts below the tail of `b`. */
  predicate Undercuts(a: Hit, b: Hit) {
    b.logical < a.logical && Lt(a.logical[|b.logical|..] + Tail(a.seqNo), Tail(b.seqNo))
  }

  lemma {:induction false} PrefixIsBefore(a: Bytes, b: Bytes)
    requires a < b
    ensures Lt(a, b)
  {
    LtCommonPrefix(a, [], b[|a|..]);
    assert a + [] == a && a + b[|a|..] == b;
  }

  lemma {:induction false} UndercutIsStoredFirst(a: Hit, b: Hit)
    requires b.logical < a.logical
    ensures Undercuts(a, b) <==> Lt(VersionKey(a.logical, a.seqNo), VersionKey(b.logical, b.seqNo))
  {
    var x := a.logical[|b.logical|..];
    assert VersionKey(a.logical, a.seqNo) == b.logical + (x + Tail(a.seqNo));
    assert VersionKey(b.logical, b.seqNo) == b.logical + Tail(b.seqNo);
    LtCommonPrefix(b.logical, x + Tail(a.seqNo), Tail(b.seqNo));
  }

  /** Of two stored hits the earlier is listed first, unless it undercuts the later. */
  lemma {:induction false} StoredFirstIsListedFirstIff(a: Hit, b: Hit)
    requires a.seqNo <= MAX_SEQ && b.seqNo <= MAX_SEQ
    requires Lt(VersionKey(a.logical, a.seqNo), VersionKey(b.logical, b.seqNo))
    ensures Before(a, b) <==> !Undercuts(a, b)
  {
    hide VersionKey, Tail;
    if b.logical < a.logical {
      UndercutIsStoredFirst(a, b);
      PrefixIsBefore(b.logical, a.logical);
      LtTrichotomy(b.logical, a.logical);
    } else if a.logical < b.logical {
      PrefixIsBefore(a.logical, b.logical);
    } else {
      StorageIsListing(a, b);
    }
  }

  /** Pages of a scan's hits add up, for every page size, if and only if no hit undercuts another. */
  lemma {:induction false} PagesAddUpIffNoneUndercuts(hs: seq<Hit>)
    requires StorageOrder(hs)
    ensures AddsUp(hs) <==> forall i, j :: 0 <= i < |hs| && 0 <= j < |hs| ==> !Undercuts(hs[i], hs[j])
  {
    hide Before, VersionKey, AddsUp, Lt, Undercuts;
    forall i, j | 0 <= i < j < |hs| ensures Before(hs[i], hs[j]) <==> !Undercuts(hs[i], hs[j]) {
      StoredFirstIsListedFirstIff(hs[i], hs[j]);
    }
    forall i, j | 0 <= i < |hs| && 0 <= j <= i ensures !Undercuts(hs[i], hs[j]) { NotStoredFirst(hs, i, j); }
    PagesAddUpIff(hs);
  }

  lemma {:induction false} NotStoredFirst(hs: seq<Hit>, i: nat, j: nat)
    requires StorageOrder(hs) && j <= i < |hs|
    ensures !Undercuts(hs[i], hs[j])
  {
    var a, b := hs[i], hs[j];
    if b.logical < a.logical {
      UndercutIsStoredFirst(a, b);
      hide VersionKey, Undercuts, Lt;
      assert j < i;
      LtTrichotomy(VersionKey(b.logical, b.seqNo), VersionKey(a.logical, a.seqNo));
    }
  }

  /** When no logical key in the result is a proper prefix of another, pages add up. */
  lemma {:induction false} PrefixFreePagesAddUp(hs: seq<Hit>)
    requires StorageOrder(hs) && PrefixFree(hs)
    ensures AddsUp(hs)
  {
    hide Before, VersionKey, AddsUp;
    forall i, j | 0 <= i < j < |hs| ensures Before(hs[i], hs[j]) { StorageIsListing(hs[i], hs[j]); }
    PagesAddUpIff(hs);
  }

  /** Hits of a scan come in storage order, each at its own place. */
  lemma {:induction false} HitsAreStored(raw: seq<Pair>, q: Query)
    requires Sorted(raw)
    ensures StorageOrder(Hits(raw, q))
    ensures forall h :: h in Hits(raw, q) ==>
              h.seqNo <= MAX_SEQ && exists p :: p in raw && p.key == VersionKey(h.logical, h.seqNo)
  {
    hide Lt, VersionKey, ParseKey;
    if raw != [] {
      HitsAreStored(raw[1..], q);
      assert raw == [raw[0]] + raw[1..];
      if HitOf(raw[0], q).Some? {
        ParsedIsKey(raw[0].key);
        assert Hits(raw, q) == [HitOf(raw[0], q).value] + Hits(raw[1..], q);
        var rest := Hits(raw[1..], q);
        forall j | 0 <= j < |rest| ensures Lt(raw[0].key, VersionKey(rest[j].logical, rest[j].seqNo)) {
          assert rest[j] in rest;
          var p :| p in raw[1..] && p.key == VersionKey(rest[j].logical, rest[j].seqNo);
        }
      }
    }
  }

  lemma {:induction false} StoredHitsDiffer(hs: seq<Hit>)
    requires StorageOrder(hs)
    ensures Distinct(hs)
  {
    hide Lt, VersionKey;
    forall i, j | 0 <= i < j < |hs| ensures !SamePlace(hs[i], hs[j]) {
      LtIrreflexive(VersionKey(hs[i].logical, hs[i].seqNo));
    }
  }

  /** The store holds the write under its version key, the key lies in the range, and the write is inside the
      window and of the source asked for. */
  ghost predicate Matching(h: Hit, cells: Cells, lo: Bytes, hi: Bytes, q: Query) {
    && h.seqNo <= MAX_SEQ && Holds(cells, VersionKey(h.logical, h.seqNo), Rec(h.version))
    && Le(lo, VersionKey(h.logical, h.seqNo)) && Le(VersionKey(h.logical, h.seqNo), hi)
    && (q.from > 0 ==> q.from <= h.version.nanos) && (q.to > 0 ==> h.version.nanos <= q.to)
    && (q.source != [] ==> h.version.source == q.source)
  }

  lemma {:induction false} HitOfIs(p: Pair, q: Query, l: Bytes, n: nat, v: Version)
    ensures HitOf(p, q) == Some(Hit(l, n, v)) <==>
            && n <= MAX_SEQ && p == Pair(VersionKey(l, n), Rec(v))
            && (q.from > 0 ==> q.from <= v.nanos) && (q.to > 0 ==> v.nanos <= q.to)
            && (q.source != [] ==> v.source == q.source)
  {
    hide VersionKey, ParseKey, IsCurrent;
    if HitOf(p, q).Some? { ParsedIsKey(p.key); }
    if n <= MAX_SEQ {
      KeyRoundTrip(l, n);
      VersionIsNotCurrent(l, n);
    }
  }

  lemma {:induction false} HitsMembers(raw: seq<Pair>, q: Query, h: Hit)
    ensures h in Hits(raw, q) <==> exists p :: p in raw && HitOf(p, q) == Some(h)
  {
    hide HitOf;
    if raw != [] {
      HitsMembers(raw[1..], q, h);
      assert raw == [raw[0]] + raw[1..];
    }
  }

  /** The hits of a scan, said of the store alone. */
  lemma {:induction false} HitsAreMatching(raw: seq<Pair>, cells: Cells, lo: Bytes, hi: Bytes, q: Query, h: Hit)
    requires Scans(raw, cells, lo, hi)
    ensures h in Hits(raw, q) <==> Matching(h, cells, lo, hi, q)
  {
    hide VersionKey, HitOf, Hits, Sorted, Lt;
    var p := Pair(VersionKey(h.logical, h.seqNo), Rec(h.version));
    HitsMembers(raw, q, h);
    HitOfIs(p, q, h.logical, h.seqNo, h.version);
    if x :| x in raw && HitOf(x, q) == Some(h) {
      HitOfIs(x, q, h.logical, h.seqNo, h.version);
      assert x == p;
    }
    assert p in raw <==> p.key in cells && cells[p.key] == p.cell && Le(lo, p.key) && Le(p.key, hi);
  }

  lemma {:induction false} SortedMembers(hs: seq<Hit>, h: Hit)
    ensures h in Sort(hs) <==> h in hs
  {
    SortMembers(hs);
    hide Sort;
    assert h in Sort(hs) <==> h in multiset(Sort(hs));
    assert h in hs <==> h in multiset(hs);
  }

  /** A listing is in order and holds exactly the matching writes of the store; followed page by page it comes
      out the same, for any page size, when no logical key among the hits is a proper prefix of another. */
  lemma {:induction false} PagesGiveTheListing(raw: seq<Pair>, cells: Cells, lo: Bytes, hi: Bytes, q: Query, limit: nat)
    requires Scans(raw, cells, lo, hi)
    ensures InOrder(Listing(raw, q)) && forall h :: h in Listing(raw, q) <==> Matching(h, cells, lo, hi, q)
    ensures limit >= 1 && PrefixFree(Hits(raw, q)) ==> Followed(Hits(raw, q), None, limit) == Listing(raw, q)
  {
    hide Hits, Sort, StorageOrder, PrefixFree, InOrder, Followed, Matching;
    var hs := Hits(raw, q);
    HitsAreStored(raw, q);
    StoredHitsDiffer(hs);
    SortInOrder(hs);
    forall h ensures h in Listing(raw, q) <==> Matching(h, cells, lo, hi, q) {
      SortedMembers(hs, h);
      HitsAreMatching(raw, cells, lo, hi, q, h);
    }
    if limit >= 1 && PrefixFree(hs) { PrefixFreePagesAddUp(hs); }
  }

  /** A key that another extends by a byte below the separator breaks the agreement: the second page misses
      it. The extended key is stored first, and the cursor then skips the shorter key. */
  lemma {:induction false} ShorterKeyIsLost(l: Bytes, low: Byte, m: nat, n: nat, v: Version, w: Version)
    requires low < SEP[0] && m <= MAX_SEQ && n <= MAX_SEQ
    ensures var longer, shorter := Hit(l + [low], m, v), Hit(l, n, w);
            && StorageOrder([longer, shorter])
            && Followed([longer, shorter], None, 1) == [longer]
            && Sort([longer, shorter]) == [shorter, longer]
  {
    var longer, shorter := Hit(l + [low], m, v), Hit(l, n, w);
    var hs := [longer, shorter];
    var x, y := [low] + SEP + Digits(m, WIDTH), SEP + Digits(n, WIDTH);
    LtCommonPrefix(l, x, y);
    assert VersionKey(longer.logical, m) == l + x && VersionKey(l, n) == l + y;
    LtCommonPrefix(l, [], [low]);
    assert l + [] == l;
    assert Before(shorter, longer);
    SortOne(longer);
    assert hs[..1] == [longer];
    assert Inserted([longer], shorter) == Inserted([], shorter) + [longer] by { assert [longer][..0] == []; }
    RestOfNoCursor(hs);
    LtTrichotomy(l, l + [low]);
    assert !Past(shorter, CursorOf(longer)) && !Past(longer, CursorOf(longer)) by { LtIrreflexive(longer.logical); }
    RestNone(hs, CursorOf(longer));
    assert Page(hs, None, 1) == [longer];
    assert Followed(hs, CursorOf(longer), 1) == [];
  }

  // ---- the page as it is computed ----

  /** How many of the hits carry the source. */
  function CountOf(hs: seq<Hit>, source: Bytes): nat {
    if hs == [] then 0
    else CountOf(hs[..|hs| - 1], source) + if hs[|hs| - 1].version.source == source then 1 else 0
  }

  /** One count per source that occurs, and no other. */
  ghost predicate Tallies(counts: map<Bytes, nat>, hs: seq<Hit>) {
    forall s :: (s in counts <==> CountOf(hs, s) > 0) && (s in counts ==> counts[s] == CountOf(hs, s))
  }

  lemma {:induction false} CountConcat(a: seq<Hit>, b: seq<Hit>, source: Bytes)
    ensures CountOf(a + b, source) == CountOf(a, source) + CountOf(b, source)
  {
    if b == [] {
      assert a + b == a;
    } else {
      assert (a + b)[..|a + b| - 1] == a + b[..|b| - 1];
      CountConcat(a, b[..|b| - 1], source);
    }
  }

  lemma {:induction false} CountOne(h: Hit, source: Bytes)
    ensures CountOf([h], source) == if h.version.source == source then 1 else 0
  {
    assert [h][..0] == [];
  }

  lemma {:induction false} CountInserted(hs: seq<Hit>, h: Hit, source: Bytes)
    ensures CountOf(Inserted(hs, h), source) == CountOf(hs, source) + CountOf([h], source)
  {
    hide Before, CountOf;
    if hs == [] {
      assert hs + [h] == [h];
      CountConcat(hs, [h], source);
    } else {
      var init, last := hs[..|hs| - 1], hs[|hs| - 1];
      assert hs == init + [last];
      CountConcat(init, [last], source);
      if Before(h, last) {
        CountInserted(init, h, source);
        CountConcat(Inserted(init, h), [last], source);
      } else {
        CountConcat(hs, [h], source);
      }
    }
  }

  lemma {:induction false} CountSort(hs: seq<Hit>, source: Bytes)
    ensures CountOf(Sort(hs), source) == CountOf(hs, source)
  {
    hide CountOf;
    if hs != [] {
      var init, last := hs[..|hs| - 1], hs[|hs| - 1];
      assert hs == init + [last];
      CountSort(init, source);
      CountInserted(Sort(init), last, source);
      CountConcat(init, [last], source);
    }
  }

  lemma {:induction false} TallySort(counts: map<Bytes, nat>, hs: seq<Hit>)
    requires Tallies(counts, hs)
    ensures Tallies(counts, Sort(hs))
  {
    hide CountOf, Sort;
    forall s ensures CountOf(Sort(hs), s) == CountOf(hs, s) { CountSort(hs, s); }
  }

  function Bumped(counts: map<Bytes, nat>, source: Bytes): map<Bytes, nat> {
    counts[source := if source in counts then counts[source] + 1 else 1]
  }

  lemma {:induction false} TallyOne(counts: map<Bytes, nat>, hs: seq<Hit>, h: Hit)
    requires Tallies(counts, hs)
    ensures Tallies(Bumped(counts, h.version.source), hs + [h])
  {
    hide CountOf;
    forall s ensures CountOf(hs + [h], s) == CountOf(hs, s) + if h.version.source == s then 1 else 0 {
      CountConcat(hs, [h], s);
      CountOne(h, s);
    }
  }

  /** The first `i` scanned entries contributed exactly `entries`. */
  ghost predicate Gathered(raw: seq<Pair>, q: Query, after: Option<Cursor>, i: nat, entries: seq<Hit>)
    requires i <= |raw|
  {
    Rest(Hits(raw, q), after) == entries + Rest(Hits(raw[i..], q), after)
  }

  lemma {:induction false} GatherStart(raw: seq<Pair>, q: Query, after: Option<Cursor>)
    ensures Gathered(raw, q, after, 0, [])
  {
    hide Hits, Rest;
    assert raw[0..] == raw;
  }

  lemma {:induction false} GatherStep(raw: seq<Pair>, q: Query, after: Option<Cursor>, i: nat, entries: seq<Hit>)
    requires i < |raw| && Gathered(raw, q, after, i, entries)
    ensures var h := HitOf(raw[i], q);
            Gathered(raw, q, after, i + 1, if h.Some? && Past(h.value, after) then entries + [h.value] else entries)
  {
    hide HitOf, Past, Hits, Rest;
    HitStep(raw, i, q, after);
    var rest := Rest(Hits(raw[i + 1..], q), after);
    assert [] + rest == rest;
    if HitOf(raw[i], q).Some? {
      var h := HitOf(raw[i], q).value;
      assert entries + ([h] + rest) == (entries + [h]) + rest;
    }
  }

  lemma {:induction false} GatherFull(raw: seq<Pair>, q: Query, after: Option<Cursor>, i: nat, entries: seq<Hit>)
    requires i < |raw| && Gathered(raw, q, after, i, entries)
    requires HitOf(raw[i], q).Some? && Past(HitOf(raw[i], q).value, after)
    ensures |Rest(Hits(raw, q), after)| > |entries| && Rest(Hits(raw, q), after)[..|entries|] == entries
  {
    hide HitOf, Past, Hits, Rest;
    HitStep(raw, i, q, after);
  }

  lemma {:induction false} GatherEnd(raw: seq<Pair>, q: Query, after: Option<Cursor>, entries: seq<Hit>)
    requires Gathered(raw, q, after, |raw|, entries)
    ensures Rest(Hits(raw, q), after) == entries
  {
    assert raw[|raw|..] == [];
    NoHits(q, after);
    hide Hits, Rest;
    assert entries + [] == entries;
  }

  lemma {:induction false} PageFull(raw: seq<Pair>, q: Query, after: Option<Cursor>, limit: nat, entries: seq<Hit>)
    requires |entries| == limit && |Rest(Hits(raw, q), after)| > limit && Rest(Hits(raw, q), after)[..limit] == entries
    ensures Page(Hits(raw, q), after, limit) == Sort(entries) && HasMore(Hits(raw, q), after, limit)
  {
    hide Sort, Rest, Hits;
  }

  lemma {:induction false} PageEnd(raw: seq<Pair>, q: Query, after: Option<Cursor>, limit: nat, entries: seq<Hit>)
    requires Rest(Hits(raw, q), after) == entries && |entries| <= limit
    ensures Page(Hits(raw, q), after, limit) == Sort(entries) && !HasMore(Hits(raw, q), after, limit)
  {
    hide Sort, Rest, Hits;
  }

  /** The loop of `ListWritesPage`: one pass over the scan, skipping what the cursor has passed, stopping at the first
      hit beyond the page, and counting the page by source. A limit of zero is no limit. */
  method PageOf(raw: seq<Pair>, q: Query, after: Option<Cursor>, limit: nat)
    returns (page: seq<Hit>, counts: map<Bytes, nat>, hasMore: bool)
    ensures limit > 0 ==> page == Page(Hits(raw, q), after, limit) && (hasMore <==> HasMore(Hits(raw, q), after, limit))
    ensures limit == 0 ==> page == Sort(Rest(Hits(raw, q), after)) && !hasMore
    ensures Tallies(counts, page)
  {
    assert Tallies(map[], []);
    hide Sort, HitOf, Past, Hits, Rest, Tallies, Bumped, Gathered, Page, HasMore;
    var entries: seq<Hit> := [];
    counts := map[];
    hasMore := false;
    var i := 0;
    GatherStart(raw, q, after);
    while i < |raw|
      invariant 0 <= i <= |raw| && (limit > 0 ==> |entries| <= limit)
      invariant Gathered(raw, q, after, i, entries) && Tallies(counts, entries)
    {
      GatherStep(raw, q, after, i, entries);
      var h := HitOf(raw[i], q);
      if h.Some? && Past(h.value, after) {
        if limit > 0 && |entries| >= limit {
          GatherFull(raw, q, after, i, entries);
          PageFull(raw, q, after, limit, entries);
          TallySort(counts, entries);
          return Sort(entries), counts, true;
        }
        TallyOne(counts, entries, h.value);
        entries := entries + [h.value];
        counts := Bumped(counts, h.value.version.source);
      }
      i := i + 1;
    }
    GatherEnd(raw, q, after, entries);
    if limit > 0 { PageEnd(raw, q, after, limit, entries); }
    TallySort(counts, entries);
    page := Sort(entries);
  }

  /** A matching write that is listed behind the cursor. */
  ghost predicate Behind(h: Hit, cells: Cells, prefix: Bytes, q: Query, after: Option<Cursor>) {
    && Matching(h, cells, prefix, prefix + [255], q)
    && (after.Some? ==>
          Lt(after.value.logical, h.logical) || (h.logical == after.value.logical && after.value.seqNo < h.seqNo))
  }

  lemma {:induction false} RestIsBehind(raw: seq<Pair>, cells: Cells, prefix: Bytes, q: Query, after: Option<Cursor>)
    requires Scans(raw, cells, prefix, prefix + [255])
    ensures forall h :: h in Rest(Hits(raw, q), after) <==> Behind(h, cells, prefix, q, after)
    ensures Distinct(Rest(Hits(raw, q), after))
  {
    hide Hits, Matching, StorageOrder, Rest, Scans;
    assert Sorted(raw) by { ScanIsSorted(raw, cells, prefix, prefix + [255]); }
    HitsAreStored(raw, q);
    StoredHitsDiffer(Hits(raw, q));
    RestDistinct(Hits(raw, q), after);
    forall h ensures h in Rest(Hits(raw, q), after) <==> Behind(h, cells, prefix, q, after) {
      RestMembers(Hits(raw, q), after, h);
      HitsAreMatching(raw, cells, prefix, prefix + [255], q, h);
    }
  }

  lemma {:induction false} ScanIsSorted(raw: seq<Pair>, cells: Cells, lo: Bytes, hi: Bytes)
    requires Scans(raw, cells, lo, hi)
    ensures Sorted(raw)
  {
  }

  lemma {:induction false} RestDistinct(hs: seq<Hit>, c: Option<Cursor>)
    requires Distinct(hs)
    ensures Distinct(Rest(hs, c))
  {
    hide Past, SamePlace;
    if hs != [] {
      var rest := Rest(hs[1..], c);
      RestDistinct(hs[1..], c);
      RestSplit(hs, c);
      forall j | 0 <= j < |rest| ensures !SamePlace(hs[0], rest[j]) { RestDiffers(hs, c, j); }
      hide Rest;
    }
  }

  lemma {:induction false} RestDiffers(hs: seq<Hit>, c: Option<Cursor>, j: nat)
    requires Distinct(hs) && hs != [] && j < |Rest(hs[1..], c)|
    ensures !SamePlace(hs[0], Rest(hs[1..], c)[j])
  {
    hide Past, SamePlace, Rest;
    var rest := Rest(hs[1..], c);
    assert rest[j] in rest;
    RestMembers(hs[1..], c, rest[j]);
    var i :| 0 <= i < |hs[1..]| && hs[1..][i] == rest[j];
    assert hs[i + 1] == rest[j];
  }

  /** What a sorted stretch of the hits behind the cursor holds. */
  lemma {:induction false} PageHolds(raw: seq<Pair>, cells: Cells, prefix: Bytes, q: Query, after: Option<Cursor>,
                                     page: seq<Hit>, hasMore: bool, limit: nat)
    requires Scans(raw, cells, prefix, prefix + [255])
    requires var r := Rest(Hits(raw, q), after);
             && page == Sort(if limit == 0 || |r| <= limit then r else r[..limit])
             && (hasMore <==> limit > 0 && |r| > limit)
    ensures InOrder(page) && forall h :: h in page ==> Behind(h, cells, prefix, q, after)
    ensures !hasMore ==> forall h :: Behind(h, cells, prefix, q, after) ==> h in page
    ensures hasMore ==> exists h :: Behind(h, cells, prefix, q, after) && h !in page
    ensures limit > 0 ==> |page| <= limit && (hasMore ==> |page| == limit)
  {
    RestIsBehind(raw, cells, prefix, q, after);
    hide Hits, Rest, Behind, Sort, InOrder, Scans;
    var r := Rest(Hits(raw, q), after);
    var cut := if limit == 0 || |r| <= limit then r else r[..limit];
    assert Distinct(cut);
    SortInOrder(cut);
    SortLength(cut);
    forall h ensures h in page <==> h in cut { SortedMembers(cut, h); }
    if hasMore {
      var h := r[limit];
      assert h in r;
      assert h !in cut by { assert forall i :: 0 <= i < limit ==> !SamePlace(r[i], r[limit]); }
    }
  }

  lemma {:induction false} CountedOccurs(hs: seq<Hit>, source: Bytes)
    requires CountOf(hs, source) > 0
    ensures exists h :: h in hs && h.version.source == source
  {
    var n := |hs| - 1;
    assert hs == hs[..n] + [hs[n]];
    if hs[n].version.source == source { assert hs[n] in hs; } else { CountedOccurs(hs[..n], source); }
  }

  lemma {:induction false} TalliedSources(counts: map<Bytes, nat>, page: seq<Hit>, q: Query)
    requires Tallies(counts, page)
    requires q.source != [] ==> forall h :: h in page ==> h.version.source == q.source
    ensures q.source != [] ==> forall s :: s in counts ==> s == q.source
  {
    hide CountOf;
    if q.source != [] {
      forall s | s in counts ensures s == q.source { CountedOccurs(page, s); }
    }
  }

  /** `ListWritesPage`, said of the store alone: the page is in listing order, without repetition, and holds only
      matching writes behind the cursor; without more to come it holds all of them; it is cut exactly when there
      are more than the limit; and the counts are those of the page, so no other source than the one asked for. */
  method ListWritesPage(ps: seq<Pair>, prefix: Bytes, q: Query, after: Option<Cursor>, limit: nat, ghost cells: Cells)
    returns (page: seq<Hit>, counts: map<Bytes, nat>, hasMore: bool, ghost raw: seq<Pair>)
    requires Lists(ps, cells)
    ensures InOrder(page) && forall h :: h in page ==> Behind(h, cells, prefix, q, after)
    ensures !hasMore ==> forall h :: Behind(h, cells, prefix, q, after) ==> h in page
    ensures hasMore ==> limit > 0 && exists h :: Behind(h, cells, prefix, q, after) && h !in page
    ensures limit > 0 ==> |page| <= limit && (hasMore ==> |page| == limit)
    ensures Tallies(counts, page) && (q.source != [] ==> forall s :: s in counts ==> s == q.source)
    ensures Scans(raw, cells, prefix, prefix + [255])
    ensures limit > 0 ==> page == Page(Hits(raw, q), after, limit)
  {
    var scanned := ScanRaw(ps, prefix, prefix + [255], cells);
    raw := scanned;
    page, counts, hasMore := PageOf(scanned, q, after, limit);
    PageHolds(scanned, cells, prefix, q, after, page, hasMore, limit);
    TalliedSources(counts, page, q);
  }

  lemma {:induction false} NoHits(q: Query, c: Option<Cursor>)
    ensures Rest(Hits([], q), c) == []
  {
  }

  lemma {:induction false} HitsConcat(a: seq<Pair>, b: seq<Pair>, q: Query)
    ensures Hits(a + b, q) == Hits(a, q) + Hits(b, q)
  {
    if a == [] {
      assert a + b == b;
    } else {
      assert (a + b)[1..] == a[1..] + b;
      HitsConcat(a[1..], b, q);
    }
  }

  lemma {:induction false} HitStep(raw: seq<Pair>, i: nat, q: Query, c: Option<Cursor>)
    requires i < |raw|
    ensures Rest(Hits(raw[i..], q), c) ==
            (match HitOf(raw[i], q) case None => [] case Some(h) => if Past(h, c) then [h] else [])
            + Rest(Hits(raw[i + 1..], q), c)
  {
    hide HitOf, Past, Hits, Rest;
    assert raw[i..] == [raw[i]] + raw[i + 1..];
    HitsConcat([raw[i]], raw[i + 1..], q);
    RestConcat(Hits([raw[i]], q), Hits(raw[i + 1..], q), c);
    OneHit(raw[i], q, c);
  }

  lemma {:induction false} OneHit(p: Pair, q: Query, c: Option<Cursor>)
    ensures Rest(Hits([p], q), c) == match HitOf(p, q) case None => [] case Some(h) => if Past(h, c) then [h] else []
  {
    hide HitOf, Past;
    assert [p][1..] == [];
    assert Hits([p], q) == match HitOf(p, q) case None => [] case Some(h) => [h];
    if HitOf(p, q).Some? { assert [HitOf(p, q).value][1..] == []; }
  }
}
