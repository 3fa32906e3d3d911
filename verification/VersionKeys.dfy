/** The storage keys behind a logical key: one per version, and one pointer to the current version. */
module VersionKeys {
  import opened Bytes

  /** ":v" */
  const SEP: Bytes := [58, 118]
  /** ":current" */
  const SUFFIX: Bytes := [58, 99, 117, 114, 114, 101, 110, 116]
  const WIDTH: nat := 20
  const MAX_SEQ: nat := 0xFFFF_FFFF_FFFF_FFFF

  function Pow10(w: nat): (p: nat)
    ensures p > 0
  {
    if w == 0 then 1 else 10 * Pow10(w - 1)
  }

  /** `n` in `w` decimal digits, zero-padded. */
  function Digits(n: nat, w: nat): (s: Bytes)
    ensures |s| == w
  {
    if w == 0 then [] else Digits(n / 10, w - 1) + [48 + n % 10]
  }

  predicate AllDigits(s: Bytes) {
    forall i :: 0 <= i < |s| ==> 48 <= s[i] <= 57
  }

  function FromDigits(s: Bytes): nat
    requires AllDigits(s)
  {
    if s == [] then 0 else 10 * FromDigits(s[..|s| - 1]) + (s[|s| - 1] - 48)
  }

  function VersionKey(logical: Bytes, seqNo: nat): Bytes {
    logical + SEP + Digits(seqNo, WIDTH)
  }

  function CurrentKey(logical: Bytes): Bytes { logical + SUFFIX }

  /** A proper `:current` key: something before the suffix. */
  predicate IsCurrent(key: Bytes) {
    |key| > |SUFFIX| && key[|key| - |SUFFIX|..] == SUFFIX
  }

  function LogicalOf(key: Bytes): Bytes
    requires IsCurrent(key)
  {
    key[..|key| - |SUFFIX|]
  }

  predicate SepAt(key: Bytes, i: nat) { i + 1 < |key| && key[i] == SEP[0] && key[i + 1] == SEP[1] }

  /** The last position below `n` where the separator starts. */
  function LastSep(key: Bytes, n: nat): (r: Option<nat>)
    ensures r.Some? ==> r.value < n && SepAt(key, r.value)
    ensures forall i :: 0 <= i < n && SepAt(key, i) ==> r.Some? && i <= r.value
  {
    if n == 0 then None else if SepAt(key, n - 1) then Some(n - 1) else LastSep(key, n - 1)
  }

  /** `ParseVersionStorageKey`. */
  function ParseKey(key: Bytes): Option<(Bytes, nat)> {
    match LastSep(key, |key|)
    case None => None
    case Some(i) =>
      var digits := key[i + |SEP|..];
      if |digits| != WIDTH || !AllDigits(digits) || FromDigits(digits) > MAX_SEQ then None
      else Some((key[..i], FromDigits(digits)))
  }

  // ---- digits ----

  lemma {:induction false} DigitsRoundTrip(n: nat, w: nat)
    requires n < Pow10(w)
    ensures AllDigits(Digits(n, w)) && FromDigits(Digits(n, w)) == n
  {
    if w > 0 {
      DigitsRoundTrip(n / 10, w - 1);
      var s := Digits(n, w);
      assert s[..|s| - 1] == Digits(n / 10, w - 1);
    }
  }

  lemma {:induction false} DigitsInverse(s: Bytes)
    requires AllDigits(s)
    ensures FromDigits(s) < Pow10(|s|) && Digits(FromDigits(s), |s|) == s
  {
    if s != [] {
      DigitsInverse(s[..|s| - 1]);
      assert s == s[..|s| - 1] + [s[|s| - 1]];
    }
  }

  lemma {:induction false} Pow10Add(a: nat, b: nat)
    ensures Pow10(a + b) == Pow10(a) * Pow10(b)
  {
    if a > 0 { Pow10Add(a - 1, b); }
  }

  lemma {:induction false} SeqFits()
    ensures MAX_SEQ < Pow10(WIDTH)
  {
    assert Pow10(5) == 100000 by {
      assert Pow10(1) == 10;
      assert Pow10(2) == 100;
      assert Pow10(3) == 1000;
      assert Pow10(4) == 10000;
    }
    Pow10Add(5, 5);
    Pow10Add(10, 10);
  }

  /** Fixed-width digits sort like the numbers. */
  lemma {:induction false} DigitsAscend(n: nat, m: nat, w: nat)
    requires n < m < Pow10(w)
    ensures Lt(Digits(n, w), Digits(m, w))
  {
    if n / 10 < m / 10 {
      DigitsAscend(n / 10, m / 10, w - 1);
      LtExtend(Digits(n / 10, w - 1), Digits(m / 10, w - 1), [48 + n % 10], [48 + m % 10]);
    } else {
      LtCommonPrefix(Digits(n / 10, w - 1), [48 + n % 10], [48 + m % 10]);
    }
  }

  // ---- keys ----

  /** The last separator of a version key is its own: digits hold none. */
  lemma {:induction false} OwnSep(logical: Bytes, digits: Bytes)
    requires AllDigits(digits)
    ensures var key := logical + SEP + digits; LastSep(key, |key|) == Some(|logical|)
  {
    var key := logical + SEP + digits;
    assert SepAt(key, |logical|);
    forall i | |logical| < i < |key| ensures !SepAt(key, i) {
      if i >= |logical| + 2 { assert key[i] == digits[i - |logical| - 2]; }
    }
  }

  /** A version key parses back to its logical key and number, whatever the logical key holds. */
  lemma {:induction false} KeyRoundTrip(logical: Bytes, seqNo: nat)
    requires seqNo <= MAX_SEQ
    ensures ParseKey(VersionKey(logical, seqNo)) == Some((logical, seqNo))
  {
    SeqFits();
    DigitsRoundTrip(seqNo, WIDTH);
    var digits := Digits(seqNo, WIDTH);
    OwnSep(logical, digits);
    var key := VersionKey(logical, seqNo);
    assert key[..|logical|] == logical && key[|logical| + 2..] == digits;
  }

  /** Only version keys parse. */
  lemma {:induction false} ParsedIsKey(key: Bytes)
    requires ParseKey(key).Some?
    ensures var (logical, seqNo) := ParseKey(key).value; seqNo <= MAX_SEQ && key == VersionKey(logical, seqNo)
  {
    hide Digits, FromDigits, LastSep;
    var i := LastSep(key, |key|).value;
    DigitsInverse(key[i + 2..]);
    SepCut(key, i);
  }

  lemma {:induction false} SepCut(key: Bytes, i: nat)
    requires SepAt(key, i)
    ensures key == key[..i] + SEP + key[i + 2..]
  {
  }

  lemma {:induction false} KeysDiffer(a: Bytes, m: nat, b: Bytes, n: nat)
    requires m <= MAX_SEQ && n <= MAX_SEQ && VersionKey(a, m) == VersionKey(b, n)
    ensures a == b && m == n
  {
    KeyRoundTrip(a, m);
    KeyRoundTrip(b, n);
  }

  lemma {:induction false} DigitsOnly(n: nat, w: nat)
    ensures AllDigits(Digits(n, w))
  {
    if w > 0 { DigitsOnly(n / 10, w - 1); }
  }

  lemma {:induction false} CurrentEndsInT(key: Bytes)
    requires IsCurrent(key) || exists l :: key == CurrentKey(l)
    ensures key != [] && key[|key| - 1] == 116
  {
    if IsCurrent(key) {
      assert key[|key| - 8..][7] == key[|key| - 1];
    } else {
      var l :| key == CurrentKey(l);
    }
  }

  /** A version key never looks like a pointer. */
  lemma {:induction false} VersionIsNotCurrent(logical: Bytes, seqNo: nat)
    ensures !IsCurrent(VersionKey(logical, seqNo)) && forall l :: VersionKey(logical, seqNo) != CurrentKey(l)
  {
    hide IsCurrent, CurrentKey;
    DigitsOnly(seqNo, WIDTH);
    var key := VersionKey(logical, seqNo);
    assert key[|key| - 1] == Digits(seqNo, WIDTH)[WIDTH - 1];
    if IsCurrent(key) || exists l :: key == CurrentKey(l) { CurrentEndsInT(key); }
  }

  lemma {:induction false} CurrentRoundTrip(logical: Bytes)
    requires logical != []
    ensures IsCurrent(CurrentKey(logical)) && LogicalOf(CurrentKey(logical)) == logical
  {
    var key := CurrentKey(logical);
    assert key[|key| - 8..] == SUFFIX && key[..|key| - 8] == logical;
  }

  lemma {:induction false} CurrentOfLogical(key: Bytes)
    requires IsCurrent(key)
    ensures CurrentKey(LogicalOf(key)) == key && LogicalOf(key) != []
  {
    assert key == key[..|key| - 8] + key[|key| - 8..];
  }

  /** Versions of one logical key are stored in the order of their numbers. */
  lemma {:induction false} VersionsAscend(logical: Bytes, m: nat, n: nat)
    requires m < n <= MAX_SEQ
    ensures Lt(VersionKey(logical, m), VersionKey(logical, n))
  {
    SeqFits();
    DigitsAscend(m, n, WIDTH);
    LtCommonPrefix(logical + SEP, Digits(m, WIDTH), Digits(n, WIDTH));
  }

  /** The scan bounds of a logical key enclose all its versions. */
  lemma {:induction false} BoundsEnclose(logical: Bytes, n: nat)
    requires n <= MAX_SEQ
    ensures Le(VersionKey(logical, 0), VersionKey(logical, n))
    ensures Le(VersionKey(logical, n), VersionKey(logical, MAX_SEQ))
  {
    if n > 0 { VersionsAscend(logical, 0, n); }
    if n < MAX_SEQ { VersionsAscend(logical, n, MAX_SEQ); }
  }

  /** Among keys without a 0xFF byte, the closed range up to the prefix followed by 0xFF holds exactly
      those with that prefix. */
  lemma {:induction false} PrefixRange(prefix: Bytes, key: Bytes)
    requires forall i :: 0 <= i < |key| ==> key[i] != 255
    ensures Le(prefix, key) && Le(key, prefix + [255]) <==> prefix <= key
  {
    if prefix == [] {
      assert prefix + [255] == [255];
    } else {
      assert (prefix + [255])[1..] == prefix[1..] + [255];
      if key != [] && key[0] == prefix[0] {
        PrefixRange(prefix[1..], key[1..]);
        assert key == [key[0]] + key[1..] && prefix == [prefix[0]] + prefix[1..];
        assert prefix + [255] == [prefix[0]] + (prefix[1..] + [255]);
      }
    }
  }
}
