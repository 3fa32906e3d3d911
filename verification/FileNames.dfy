/** SSTable file names carry the level and the creation time; a restart rebuilds `metas` from them. */
module FileNames {
  import opened Bytes
  import opened Tables
  import opened Lsm

  const MAX_INT64: int := 0x7fff_ffff_ffff_ffff

  // ---- decimal numbers ----

  function Digit(d: nat): char
    requires d < 10
  {
    '0' + d as char
  }

  function Itoa(n: nat): (s: string)
    ensures s != [] && forall c :: c in s ==> '0' <= c <= '9'
  {
    if n < 10 then [Digit(n)] else Itoa(n / 10) + [Digit(n % 10)]
  }

  function DigitsValue(s: string): Option<nat> {
    if s == [] then Some(0)
    else
      var c := s[|s| - 1];
      if !('0' <= c <= '9') then None
      else match DigitsValue(s[..|s| - 1])
           case None => None
           case Some(n) => Some(10 * n + (c as int - '0' as int))
  }

  /** `strconv.ParseInt(s, 10, 64)`: an optional sign, then at least one digit, in 64-bit range. */
  function ParseInt(s: string): Option<int> {
    var digits := if s != [] && s[0] in {'+', '-'} then s[1..] else s;
    if digits == [] then None
    else match DigitsValue(digits)
         case None => None
         case Some(n) =>
           var v := if s[0] == '-' then 0 - n else n as int;
           if -MAX_INT64 - 1 <= v <= MAX_INT64 then Some(v) else None
  }

  lemma {:induction false} ItoaRoundTrip(n: nat)
    ensures DigitsValue(Itoa(n)) == Some(n)
  {
    var s := Itoa(n);
    if n >= 10 {
      ItoaRoundTrip(n / 10);
      assert s[..|s| - 1] == Itoa(n / 10);
    } else {
      assert s[..|s| - 1] == [];
    }
  }

  lemma {:induction false} ParseItoa(n: nat)
    requires n <= MAX_INT64
    ensures ParseInt(Itoa(n)) == Some(n)
  {
    ItoaRoundTrip(n);
    assert Itoa(n)[0] in Itoa(n);
  }

  // ---- string search ----

  /** `strings.Index(s, "_L")`, or the length of `s` when it does not occur. */
  function IndexLevelMark(s: string): (i: nat)
    ensures i <= |s|
  {
    if |s| < 2 then |s| else if s[0] == '_' && s[1] == 'L' then 0 else 1 + IndexLevelMark(s[1..])
  }

  /** `strings.IndexByte(s, '_')`, or the length of `s`. */
  function IndexUnderscore(s: string): (i: nat)
    ensures i <= |s|
  {
    if s == [] || s[0] == '_' then 0 else 1 + IndexUnderscore(s[1..])
  }

  /** `strings.LastIndexByte(s, '_')`, or -1. */
  function LastIndexUnderscore(s: string): (i: int)
    ensures -1 <= i < |s|
  {
    if s == [] then -1 else if s[|s| - 1] == '_' then |s| - 1 else LastIndexUnderscore(s[..|s| - 1])
  }

  function TrimSst(s: string): string {
    if |s| >= 4 && s[|s| - 4..] == ".sst" then s[..|s| - 4] else s
  }

  predicate NoUnderscore(s: string) { '_' !in s }

  lemma {:induction false} IndexLevelMarkSkips(p: string, s: string)
    requires NoUnderscore(p) && |s| >= 2
    ensures IndexLevelMark(p + s) == |p| + IndexLevelMark(s)
  {
    if p == [] {
      assert p + s == s;
    } else {
      assert (p + s)[0] in p && (p + s)[1..] == p[1..] + s;
      IndexLevelMarkSkips(p[1..], s);
    }
  }

  lemma {:induction false} IndexUnderscoreSkips(p: string, s: string)
    requires NoUnderscore(p)
    ensures IndexUnderscore(p + ['_'] + s) == |p|
  {
    if p == [] {
      assert p + ['_'] + s == ['_'] + s;
    } else {
      var t := p + ['_'] + s;
      assert t[0] in p && t[1..] == p[1..] + ['_'] + s;
      IndexUnderscoreSkips(p[1..], s);
    }
  }

  lemma {:induction false} LastIndexUnderscoreSkips(p: string, s: string)
    requires NoUnderscore(s)
    ensures LastIndexUnderscore(p + ['_'] + s) == |p|
  {
    var t := p + ['_'] + s;
    if s != [] {
      assert t[|t| - 1] in s && t[..|t| - 1] == p + ['_'] + s[..|s| - 1];
      LastIndexUnderscoreSkips(p, s[..|s| - 1]);
    }
  }

  // ---- names ----

  /** A flushed file is `sstable_L0_<ts>.sst`, a merged one `sstable_merged_L<level>_<ts>.sst`. */
  function Stem(level: nat): string {
    if level == 0 then "sstable" else "sstable_merged"
  }

  function Name(level: nat, created: nat): string {
    Stem(level) + "_L" + Itoa(level) + "_" + Itoa(created) + ".sst"
  }

  function ParseLevel(name: string): nat {
    var i := IndexLevelMark(name);
    if i + 2 > |name| then 0 else LevelBeforeUnderscore(name[i + 2..])
  }

  function LevelBeforeUnderscore(rest: string): nat {
    var j := IndexUnderscore(rest);
    if j == |rest| || j == 0 then 0
    else match ParseInt(rest[..j])
         case None => 0
         case Some(level) => if level < 0 then 0 else level
  }

  function ParseCreated(name: string): nat {
    var base := TrimSst(name);
    var i := LastIndexUnderscore(base);
    if i < 0 then 0
    else match ParseInt(base[i + 1..])
         case None => 0
         case Some(ts) => if ts < 0 then 0 else ts
  }

  lemma {:induction false} LevelMarkAfterStem(level: nat, s: string)
    requires |s| >= 2 && s[0] == '_' && s[1] == 'L'
    ensures IndexLevelMark(Stem(level) + s) == |Stem(level)|
  {
    if level == 0 {
      IndexLevelMarkSkips("sstable", s);
    } else {
      var merged := "_merged" + s;
      assert Stem(level) + s == "sstable" + merged;
      IndexLevelMarkSkips("sstable", merged);
      assert merged[1..] == "merged" + s;
      IndexLevelMarkSkips("merged", s);
    }
  }

  lemma {:induction false} LevelOfDigits(level: nat, tail: string)
    requires level <= MAX_INT64
    ensures LevelBeforeUnderscore(Itoa(level) + ['_'] + tail) == level
  {
    var rest := Itoa(level) + ['_'] + tail;
    IndexUnderscoreSkips(Itoa(level), tail);
    assert rest[..|Itoa(level)|] == Itoa(level);
    ParseItoa(level);
  }

  lemma {:induction false} ParseLevelOfName(level: nat, created: nat)
    requires level <= MAX_INT64
    ensures ParseLevel(Name(level, created)) == level
  {
    var tail := Itoa(created) + ".sst";
    var rest := Itoa(level) + ['_'] + tail;
    assert Name(level, created) == Stem(level) + ("_L" + rest);
    LevelMarkAfterStem(level, "_L" + rest);
    assert Name(level, created)[|Stem(level)| + 2..] == rest;
    LevelOfDigits(level, tail);
  }

  lemma {:induction false} ParseCreatedOfName(level: nat, created: nat)
    requires created <= MAX_INT64
    ensures ParseCreated(Name(level, created)) == created
  {
    var p, digits := Stem(level) + "_L" + Itoa(level), Itoa(created);
    var name := Name(level, created);
    assert name == p + ['_'] + digits + ".sst";
    assert name[|name| - 4..] == ".sst";
    assert TrimSst(name) == p + ['_'] + digits;
    LastIndexUnderscoreSkips(p, digits);
    assert (p + ['_'] + digits)[|p| + 1..] == digits;
    ParseItoa(created);
  }

  // ---- reload ----

  /** A directory entry: the file's name and contents, all that survives a restart. */
  datatype DirEntry = DirEntry(name: string, table: Table)

  function OnDisk(f: File): DirEntry { DirEntry(Name(f.level, f.created), f.table) }

  function Parsed(d: DirEntry): File { File(ParseLevel(d.name), ParseCreated(d.name), d.table) }

  function Map<A, B>(f: A -> B, s: seq<A>): (r: seq<B>)
    ensures |r| == |s| && forall i :: 0 <= i < |s| ==> r[i] == f(s[i])
  {
    if s == [] then [] else [f(s[0])] + Map(f, s[1..])
  }

  ghost predicate CreationOrder(files: seq<File>) {
    forall i, j :: 0 <= i < j < |files| ==> files[i].created <= files[j].created
  }

  lemma {:induction false} SameFirst(a: seq<File>, b: seq<File>)
    requires multiset(a) == multiset(b) && a != [] && b != [] && Stamped(a) && CreationOrder(b)
    ensures a[0] == b[0]
  {
    assert a[0] in multiset(b) && b[0] in multiset(a);
    var i :| 0 <= i < |b| && b[i] == a[0];
    var j :| 0 <= j < |a| && a[j] == b[0];
    assert b[0].created <= b[i].created;
  }

  lemma {:induction false} CreationOrderIsUnique(a: seq<File>, b: seq<File>)
    requires multiset(a) == multiset(b)
    requires Stamped(a) && CreationOrder(b)
    ensures a == b
  {
    SameLength(a, b);
    if a != [] {
      SameFirst(a, b);
      TailsMatch(a, b);
      OrderedTails(a, b);
      CreationOrderIsUnique(a[1..], b[1..]);
      assert a == [a[0]] + a[1..] && b == [b[0]] + b[1..];
    }
  }

  lemma {:induction false} SameLength<T>(a: seq<T>, b: seq<T>)
    requires multiset(a) == multiset(b)
    ensures |a| == |b|
  {
    assert |multiset(a)| == |a| && |multiset(b)| == |b|;
  }

  lemma {:induction false} TailsMatch<T>(a: seq<T>, b: seq<T>)
    requires a != [] && b != [] && a[0] == b[0] && multiset(a) == multiset(b)
    ensures multiset(a[1..]) == multiset(b[1..])
  {
    assert a == [a[0]] + a[1..] && b == [b[0]] + b[1..];
    assert multiset(a) == multiset{a[0]} + multiset(a[1..]) && multiset(b) == multiset{b[0]} + multiset(b[1..]);
    assert multiset(a[1..]) == multiset(a) - multiset{a[0]};
  }

  lemma {:induction false} OrderedTails(a: seq<File>, b: seq<File>)
    requires a != [] && b != [] && Stamped(a) && CreationOrder(b)
    ensures Stamped(a[1..]) && CreationOrder(b[1..])
  {
  }

  lemma {:induction false} TakeOut<T>(s: seq<T>, i: nat)
    requires i < |s|
    ensures multiset(s[..i] + s[i + 1..]) == multiset(s) - multiset{s[i]}
    ensures s[i] in multiset(s)
  {
    assert s == s[..i] + [s[i]] + s[i + 1..];
  }

  lemma {:induction false} MapTakeOut<A, B>(f: A -> B, s: seq<A>, i: nat)
    requires i < |s|
    ensures multiset(Map(f, s)) == multiset{f(s[i])} + multiset(Map(f, s[..i] + s[i + 1..]))
  {
    var p := Map(f, s);
    TakeOut(p, i);
    assert p[..i] + p[i + 1..] == Map(f, s[..i] + s[i + 1..]);
    assert p[i] == f(s[i]);
  }

  /** Mapping does not depend on the order in which a collection is listed. */
  lemma {:induction false} MapIgnoresOrder<A, B>(f: A -> B, a: seq<A>, b: seq<A>)
    requires multiset(a) == multiset(b)
    ensures multiset(Map(f, a)) == multiset(Map(f, b))
    decreases |a|
  {
    assert |multiset(a)| == |a| && |multiset(b)| == |b|;
    if a != [] {
      assert a[0] in multiset(b);
      var i :| 0 <= i < |b| && b[i] == a[0];
      var a', b' := a[..0] + a[1..], b[..i] + b[i + 1..];
      assert multiset(a') == multiset(b') by {
        TakeOut(a, 0);
        TakeOut(b, i);
      }
      MapIgnoresOrder(f, a', b');
      assert multiset(Map(f, a)) == multiset{f(a[0])} + multiset(Map(f, a')) by { MapTakeOut(f, a, 0); }
      assert multiset(Map(f, b)) == multiset{f(b[i])} + multiset(Map(f, b')) by { MapTakeOut(f, b, i); }
    }
  }

  lemma {:induction false} MapBack<A, B>(f: A -> B, g: B -> A, s: seq<A>)
    requires forall i :: 0 <= i < |s| ==> g(f(s[i])) == s[i]
    ensures Map(g, Map(f, s)) == s
  {
  }

  lemma {:induction false} ParsedOnDisk(f: File)
    requires f.level <= MAX_INT64 && f.created <= MAX_INT64
    ensures Parsed(OnDisk(f)) == f
  {
    ParseLevelOfName(f.level, f.created);
    ParseCreatedOfName(f.level, f.created);
  }

  /** A restart that lists the directory in any order and sorts by the parsed creation time gets the
      same files back: same order, same levels, same contents. */
  lemma {:induction false} ReloadRestoresFiles(files: seq<File>, listing: seq<DirEntry>, reloaded: seq<File>)
    requires Stamped(files)
    requires forall i :: 0 <= i < |files| ==> files[i].level <= MAX_INT64 && files[i].created <= MAX_INT64
    requires multiset(listing) == multiset(Map(OnDisk, files))
    requires multiset(reloaded) == multiset(Map(Parsed, listing)) && CreationOrder(reloaded)
    ensures reloaded == files
  {
    forall i | 0 <= i < |files| ensures Parsed(OnDisk(files[i])) == files[i] {
      ParsedOnDisk(files[i]);
    }
    SortedListing(OnDisk, Parsed, files, listing, reloaded);
  }

  lemma {:induction false} SortedListing(write: File -> DirEntry, parse: DirEntry -> File,
                      files: seq<File>, listing: seq<DirEntry>, reloaded: seq<File>)
    requires Stamped(files)
    requires forall i :: 0 <= i < |files| ==> parse(write(files[i])) == files[i]
    requires multiset(listing) == multiset(Map(write, files))
    requires multiset(reloaded) == multiset(Map(parse, listing)) && CreationOrder(reloaded)
    ensures reloaded == files
  {
    MapBack(write, parse, files);
    MapIgnoresOrder(parse, listing, Map(write, files));
    CreationOrderIsUnique(files, reloaded);
  }
}
