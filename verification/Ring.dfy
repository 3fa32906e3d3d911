/** The hash ring: points on a circle owned by nodes, walked clockwise. Hashing is any function. */
module Ring {
  import opened Bytes

  type Node = Bytes

  ghost predicate Ascending(hs: seq<nat>) {
    forall i, j :: 0 <= i < j < |hs| ==> hs[i] < hs[j]
  }

  function AtLeast(hs: seq<nat>, h: nat): seq<nat> {
    if hs == [] then []
    else var init, x := AtLeast(hs[..|hs| - 1], h), hs[|hs| - 1]; if x >= h then init + [x] else init
  }

  function Under(hs: seq<nat>, h: nat): seq<nat> {
    if hs == [] then []
    else var init, x := Under(hs[..|hs| - 1], h), hs[|hs| - 1]; if x < h then init + [x] else init
  }

  /** The points in the order a clockwise walk from `h` meets them. */
  function Clockwise(hs: seq<nat>, h: nat): seq<nat> { AtLeast(hs, h) + Under(hs, h) }

  /** The owners of the points, in order; points nobody owns are passed over. */
  function Owners(hs: seq<nat>, owner: map<nat, Node>): seq<Node> {
    if hs == [] then []
    else var init, x := Owners(hs[..|hs| - 1], owner), hs[|hs| - 1]; if x in owner then init + [owner[x]] else init
  }

  /** Each node at its first place only. */
  function Once(ns: seq<Node>): seq<Node> {
    if ns == [] then []
    else
      var before, n := Once(ns[..|ns| - 1]), ns[|ns| - 1];
      if n in before then before else before + [n]
  }

  /** `walkNodesFrom`. */
  function Walk(hs: seq<nat>, owner: map<nat, Node>, h: nat): seq<Node> { Once(Owners(Clockwise(hs, h), owner)) }

  function Without(ns: seq<Node>, n: Node): seq<Node> {
    if ns == [] then []
    else var init, m := Without(ns[..|ns| - 1], n), ns[|ns| - 1]; if m == n then init else init + [m]
  }

  /** `OwnerOf`: the first node of the walk that is alive. */
  function FirstAlive(walk: seq<Node>, alive: set<Node>): Option<Node> {
    if walk == [] then None else if walk[0] in alive then Some(walk[0]) else FirstAlive(walk[1..], alive)
  }

  /** The points that remain when those of `n` go. */
  function Remaining(hs: seq<nat>, owner: map<nat, Node>, n: Node): seq<nat> {
    if hs == [] then []
    else
      var init, x := Remaining(hs[..|hs| - 1], owner, n), hs[|hs| - 1];
      if x in owner && owner[x] == n then init else init + [x]
  }

  function Removed(owner: map<nat, Node>, n: Node): map<nat, Node> { map h | h in owner && owner[h] != n :: owner[h] }

  // ---- removing a node ----

  lemma {:induction false} OwnersConcat(a: seq<nat>, b: seq<nat>, owner: map<nat, Node>)
    ensures Owners(a + b, owner) == Owners(a, owner) + Owners(b, owner)
  {
    if b == [] {
      assert a + b == a;
    } else {
      assert (a + b)[..|a + b| - 1] == a + b[..|b| - 1];
      OwnersConcat(a, b[..|b| - 1], owner);
    }
  }

  /** Dropping the points of `n` drops `n` from the owners. */
  lemma {:induction false} OwnersRemaining(hs: seq<nat>, owner: map<nat, Node>, n: Node)
    ensures Owners(Remaining(hs, owner, n), Removed(owner, n)) == Without(Owners(hs, owner), n)
  {
    if hs != [] {
      var init, x := hs[..|hs| - 1], hs[|hs| - 1];
      OwnersRemaining(init, owner, n);
      if x in owner {
        WithoutLast(Owners(init, owner), owner[x], n);
        if owner[x] != n { OwnersLast(Remaining(init, owner, n), x, Removed(owner, n)); }
      } else {
        OwnersLast(Remaining(init, owner, n), x, Removed(owner, n));
        assert Owners(hs, owner) == Owners(init, owner);
      }
    }
  }

  lemma {:induction false} OwnersLast(hs: seq<nat>, x: nat, owner: map<nat, Node>)
    ensures Owners(hs + [x], owner) == if x in owner then Owners(hs, owner) + [owner[x]] else Owners(hs, owner)
  {
    assert (hs + [x])[..|hs + [x]| - 1] == hs;
  }

  lemma {:induction false} WithoutLast(ns: seq<Node>, m: Node, n: Node)
    ensures Without(ns + [m], n) == if m == n then Without(ns, n) else Without(ns, n) + [m]
  {
    assert (ns + [m])[..|ns + [m]| - 1] == ns;
  }

  /** Which points remain does not depend on where the walk starts. */
  lemma {:induction false} RemainingCommutes(hs: seq<nat>, owner: map<nat, Node>, n: Node, h: nat)
    ensures AtLeast(Remaining(hs, owner, n), h) == Remaining(AtLeast(hs, h), owner, n)
    ensures Under(Remaining(hs, owner, n), h) == Remaining(Under(hs, h), owner, n)
  {
    if hs != [] {
      var init, x := hs[..|hs| - 1], hs[|hs| - 1];
      RemainingCommutes(init, owner, n, h);
      FilterLast(Remaining(init, owner, n), x, h);
      RemainingLast(AtLeast(init, h), x, owner, n);
      RemainingLast(Under(init, h), x, owner, n);
    }
  }

  lemma {:induction false} FilterLast(hs: seq<nat>, x: nat, h: nat)
    ensures AtLeast(hs + [x], h) == if x >= h then AtLeast(hs, h) + [x] else AtLeast(hs, h)
    ensures Under(hs + [x], h) == if x < h then Under(hs, h) + [x] else Under(hs, h)
  {
    assert (hs + [x])[..|hs + [x]| - 1] == hs;
  }

  lemma {:induction false} RemainingLast(hs: seq<nat>, x: nat, owner: map<nat, Node>, n: Node)
    ensures Remaining(hs + [x], owner, n) ==
            if x in owner && owner[x] == n then Remaining(hs, owner, n) else Remaining(hs, owner, n) + [x]
  {
    assert (hs + [x])[..|hs + [x]| - 1] == hs;
  }

  lemma {:induction false} WithoutConcat(a: seq<Node>, b: seq<Node>, n: Node)
    ensures Without(a + b, n) == Without(a, n) + Without(b, n)
  {
    if b == [] {
      assert a + b == a;
    } else {
      assert (a + b)[..|a + b| - 1] == a + b[..|b| - 1];
      WithoutConcat(a, b[..|b| - 1], n);
    }
  }

  lemma {:induction false} WithoutMembers(ns: seq<Node>, n: Node, m: Node)
    ensures m in Without(ns, n) <==> m in ns && m != n
  {
    if ns != [] {
      WithoutMembers(ns[..|ns| - 1], n, m);
      assert ns == ns[..|ns| - 1] + [ns[|ns| - 1]];
    }
  }

  lemma {:induction false} OnceWithout(ns: seq<Node>, n: Node)
    ensures Once(Without(ns, n)) == Without(Once(ns), n)
  {
    if ns != [] {
      var init, m := ns[..|ns| - 1], ns[|ns| - 1];
      OnceWithout(init, n);
      WithoutMembers(Once(init), n, m);
      var w := Without(init, n);
      assert (w + [m])[..|w + [m]| - 1] == w;
      var o := Once(init);
      assert (o + [m])[..|o + [m]| - 1] == o;
      if m == n { assert Without(ns, n) == w; }
    }
  }

  /** After removing `n`, the walk from anywhere is the earlier walk with `n` deleted. */
  lemma {:induction false} WalkAfterRemoval(hs: seq<nat>, owner: map<nat, Node>, n: Node, h: nat)
    ensures Walk(Remaining(hs, owner, n), Removed(owner, n), h) == Without(Walk(hs, owner, h), n)
  {
    var rest, o := Remaining(hs, owner, n), Removed(owner, n);
    RemainingCommutes(hs, owner, n, h);
    OwnersConcat(AtLeast(rest, h), Under(rest, h), o);
    OwnersConcat(AtLeast(hs, h), Under(hs, h), owner);
    OwnersRemaining(AtLeast(hs, h), owner, n);
    OwnersRemaining(Under(hs, h), owner, n);
    WithoutConcat(Owners(AtLeast(hs, h), owner), Owners(Under(hs, h), owner), n);
    OnceWithout(Owners(Clockwise(hs, h), owner), n);
  }

  lemma {:induction false} WithoutOne(m: Node, n: Node)
    ensures Without([m], n) == if m == n then [] else [m]
  {
    var one: seq<Node> := [m];
    assert one[..|one| - 1] == [];
  }

  lemma {:induction false} FirstAliveSkips(walk: seq<Node>, n: Node, alive: set<Node>)
    requires n !in alive
    ensures FirstAlive(Without(walk, n), alive) == FirstAlive(walk, alive)
  {
    if walk != [] {
      FirstAliveSkips(walk[1..], n, alive);
      assert walk == [walk[0]] + walk[1..];
      WithoutConcat([walk[0]], walk[1..], n);
      WithoutOne(walk[0], n);
      if walk[0] == n {
        assert Without(walk, n) == Without(walk[1..], n);
      } else {
        assert Without(walk, n)[1..] == Without(walk[1..], n);
      }
    }
  }

  /** Skipping a dead node while reading picks the same owner as removing it from the ring. */
  lemma {:induction false} SkippingIsFailover(hs: seq<nat>, owner: map<nat, Node>, n: Node, h: nat, alive: set<Node>)
    requires n !in alive
    ensures FirstAlive(Walk(hs, owner, h), alive) ==
            FirstAlive(Walk(Remaining(hs, owner, n), Removed(owner, n), h), alive)
  {
    WalkAfterRemoval(hs, owner, n, h);
    FirstAliveSkips(Walk(hs, owner, h), n, alive);
  }

  /** `NodeFor`: the owner of the first point met. */
  function NodeFor(hs: seq<nat>, owner: map<nat, Node>, h: nat): Option<Node> {
    var walk := Walk(hs, owner, h);
    if walk == [] then None else Some(walk[0])
  }

  lemma {:induction false} WithoutHead(ns: seq<Node>, n: Node)
    requires ns != [] && ns[0] != n
    ensures Without(ns, n) != [] && Without(ns, n)[0] == ns[0]
  {
    if |ns| > 1 { WithoutHead(ns[..|ns| - 1], n); }
  }

  /** Removing `n` moves only the keys of `n`. */
  lemma {:induction false} RemovalMovesOnlyItsKeys(hs: seq<nat>, owner: map<nat, Node>, n: Node, h: nat)
    requires NodeFor(hs, owner, h) != Some(n)
    ensures NodeFor(Remaining(hs, owner, n), Removed(owner, n), h) == NodeFor(hs, owner, h)
  {
    WalkAfterRemoval(hs, owner, n, h);
    if Walk(hs, owner, h) != [] { WithoutHead(Walk(hs, owner, h), n); }
  }

  // ---- adding a node ----

  lemma {:induction false} OnceHead(ns: seq<Node>)
    requires ns != []
    ensures Once(ns) != [] && Once(ns)[0] == ns[0]
  {
    if |ns| > 1 { OnceHead(ns[..|ns| - 1]); }
  }

  ghost predicate Points(hs: seq<nat>, owner: map<nat, Node>) {
    Ascending(hs) && forall h :: h in hs <==> h in owner
  }

  lemma {:induction false} OwnersHead(hs: seq<nat>, owner: map<nat, Node>)
    requires hs != [] && hs[0] in owner
    ensures Owners(hs, owner) != [] && Owners(hs, owner)[0] == owner[hs[0]]
  {
    if |hs| > 1 { OwnersHead(hs[..|hs| - 1], owner); }
  }

  lemma {:induction false} ClockwiseMembers(hs: seq<nat>, h: nat, x: nat)
    ensures x in AtLeast(hs, h) <==> x in hs && x >= h
    ensures x in Under(hs, h) <==> x in hs && x < h
    ensures x in Clockwise(hs, h) <==> x in hs
  {
    if hs != [] {
      ClockwiseMembers(hs[..|hs| - 1], h, x);
      assert hs == hs[..|hs| - 1] + [hs[|hs| - 1]];
    }
  }

  /** Does a walk from `h` meet `x` no later than `y`? */
  predicate NoLater(h: nat, x: nat, y: nat) {
    if x >= h then y < h || x <= y else y < h && x <= y
  }

  lemma {:induction false} FilterAscends(hs: seq<nat>, h: nat)
    requires Ascending(hs)
    ensures Ascending(AtLeast(hs, h)) && Ascending(Under(hs, h))
  {
    if hs != [] {
      var init, last := hs[..|hs| - 1], hs[|hs| - 1];
      FilterAscends(init, h);
      forall i | 0 <= i < |AtLeast(init, h)| ensures AtLeast(init, h)[i] < last {
        ClockwiseMembers(init, h, AtLeast(init, h)[i]);
        assert AtLeast(init, h)[i] in AtLeast(init, h);
      }
      forall i | 0 <= i < |Under(init, h)| ensures Under(init, h)[i] < last {
        ClockwiseMembers(init, h, Under(init, h)[i]);
        assert Under(init, h)[i] in Under(init, h);
      }
    }
  }

  /** The first point met is the one no other precedes. */
  lemma {:induction false} FirstMet(hs: seq<nat>, h: nat)
    requires Ascending(hs) && hs != []
    ensures Clockwise(hs, h) != [] && Clockwise(hs, h)[0] in hs
    ensures forall y :: y in hs ==> NoLater(h, Clockwise(hs, h)[0], y)
  {
    FilterAscends(hs, h);
    ClockwiseMembers(hs, h, hs[0]);
    assert Clockwise(hs, h) != [];
    var x := Clockwise(hs, h)[0];
    assert x in Clockwise(hs, h);
    ClockwiseMembers(hs, h, x);
    forall y | y in hs ensures NoLater(h, x, y) {
      ClockwiseMembers(hs, h, y);
      if y >= h {
        var i :| 0 <= i < |AtLeast(hs, h)| && AtLeast(hs, h)[i] == y;
        assert AtLeast(hs, h)[0] <= y;
      } else if AtLeast(hs, h) == [] {
        var i :| 0 <= i < |Under(hs, h)| && Under(hs, h)[i] == y;
        assert x == Under(hs, h)[0] <= y;
      } else {
        assert AtLeast(hs, h)[0] in AtLeast(hs, h);
        ClockwiseMembers(hs, h, AtLeast(hs, h)[0]);
      }
    }
  }

  lemma {:induction false} NodeForIs(hs: seq<nat>, owner: map<nat, Node>, h: nat)
    requires Points(hs, owner) && hs != []
    ensures Clockwise(hs, h) != [] && Clockwise(hs, h)[0] in owner &&
        NodeFor(hs, owner, h) == Some(owner[Clockwise(hs, h)[0]])
  {
    FirstMet(hs, h);
    OwnersHead(Clockwise(hs, h), owner);
    OnceHead(Owners(Clockwise(hs, h), owner));
  }

  // ---- what a walk is, said of points and owners alone ----

  ghost predicate InWalkOrder(c: seq<nat>, h: nat) {
    forall i, j :: 0 <= i < j < |c| ==> NoLater(h, c[i], c[j])
  }

  lemma {:induction false} ClockwiseOrder(hs: seq<nat>, h: nat)
    requires Ascending(hs)
    ensures InWalkOrder(Clockwise(hs, h), h)
  {
    FilterAscends(hs, h);
    var a, b := AtLeast(hs, h), Under(hs, h);
    forall x: nat ensures (x in a ==> x >= h) && (x in b ==> x < h) { ClockwiseMembers(hs, h, x); }
    hide AtLeast, Under;
    assert forall i :: 0 <= i < |a| ==> a[i] in a;
    assert forall i :: 0 <= i < |b| ==> b[i] in b;
  }

  /** A walk from `h` meets some point of `m` no later than every point of `n`. */
  ghost predicate MeetsFirst(c: seq<nat>, owner: map<nat, Node>, h: nat, m: Node, n: Node) {
    exists p :: p in c && p in owner && owner[p] == m &&
                forall q :: q in c && q in owner && owner[q] == n ==> NoLater(h, p, q)
  }

  /** Each owner of the points once, in the order first met. */
  ghost predicate IsWalk(w: seq<Node>, c: seq<nat>, owner: map<nat, Node>, h: nat) {
    && (forall n :: n in w <==> exists p :: p in c && p in owner && owner[p] == n)
    && (forall i, j :: 0 <= i < j < |w| ==> w[i] != w[j] && MeetsFirst(c, owner, h, w[i], w[j]))
  }

  lemma {:induction false} WalkGrows(w: seq<Node>, c: seq<nat>, owner: map<nat, Node>, h: nat, x: nat)
    requires IsWalk(w, c, owner, h) && x in owner && forall p :: p in c ==> NoLater(h, p, x)
    ensures IsWalk(if owner[x] in w then w else w + [owner[x]], c + [x], owner, h)
  {
    var m, more := owner[x], c + [x];
    var w' := if m in w then w else w + [m];
    forall n ensures n in w' <==> exists p :: p in more && p in owner && owner[p] == n {
      if n in w {
        var p :| p in c && p in owner && owner[p] == n;
        assert p in more;
      }
      if n == m { assert x in more; }
    }
    forall i, j | 0 <= i < j < |w'| ensures w'[i] != w'[j] && MeetsFirst(more, owner, h, w'[i], w'[j]) {
      assert w[i] in w;
      if j < |w| {
        assert MeetsFirst(c, owner, h, w[i], w[j]);
        var p :| p in c && p in owner && owner[p] == w[i] &&
                 forall q :: q in c && q in owner && owner[q] == w[j] ==> NoLater(h, p, q);
        assert p in more;
      } else {
        var p :| p in c && p in owner && owner[p] == w[i];
        assert p in more;
      }
    }
  }

  lemma {:induction false} OwnersAreWalk(c: seq<nat>, owner: map<nat, Node>, h: nat)
    requires InWalkOrder(c, h) && forall x :: x in c ==> x in owner
    ensures IsWalk(Once(Owners(c, owner)), c, owner, h)
  {
    hide IsWalk, NoLater;
    if c == [] {
      EmptyWalk(owner, h);
    } else {
      var init, x := c[..|c| - 1], c[|c| - 1];
      assert c == init + [x] && x in c;
      OwnersAreWalk(init, owner, h);
      forall p | p in init ensures NoLater(h, p, x) { var i :| 0 <= i < |init| && init[i] == p; }
      WalkGrows(Once(Owners(init, owner)), init, owner, h, x);
      var ns := Owners(init, owner);
      assert (ns + [owner[x]])[..|ns + [owner[x]]| - 1] == ns;
    }
  }

  lemma {:induction false} EmptyWalk(owner: map<nat, Node>, h: nat)
    ensures IsWalk([], [], owner, h)
  {
  }

  /** The walk holds every node that owns a point, once, in the order in which its points are first met. */
  lemma {:induction false} WalkMeetsInOrder(hs: seq<nat>, owner: map<nat, Node>, h: nat)
    requires Points(hs, owner)
    ensures IsWalk(Walk(hs, owner, h), hs, owner, h)
  {
    ClockwiseOrder(hs, h);
    var c := Clockwise(hs, h);
    forall x ensures x in c <==> x in hs { ClockwiseMembers(hs, h, x); }
    hide Clockwise, NoLater, InWalkOrder;
    OwnersAreWalk(c, owner, h);
    hide Once, Owners;
    var w := Walk(hs, owner, h);
    forall i, j | 0 <= i < j < |w| ensures MeetsFirst(hs, owner, h, w[i], w[j]) {
      assert MeetsFirst(c, owner, h, w[i], w[j]);
    }
  }

  /** The first alive node of a walk, by position. */
  lemma {:induction false} FirstAliveIs(walk: seq<Node>, alive: set<Node>, x: Node)
    ensures FirstAlive(walk, alive) == Some(x) <==>
            exists i :: 0 <= i < |walk| && walk[i] == x && x in alive && forall j :: 0 <= j < i ==> walk[j] !in alive
    ensures FirstAlive(walk, alive).None? <==> forall i :: 0 <= i < |walk| ==> walk[i] !in alive
  {
    if walk != [] {
      var rest := walk[1..];
      FirstAliveIs(rest, alive, x);
      if walk[0] in alive {
        if walk[0] == x { assert walk[0] == x; }
      } else {
        if i :| 0 <= i < |rest| && rest[i] == x && x in alive && forall j :: 0 <= j < i ==> rest[j] !in alive {
          assert walk[i + 1] == x && forall j :: 0 <= j < i + 1 ==> walk[j] !in alive;
        }
        if i :| 0 <= i < |walk| && walk[i] == x && x in alive && forall j :: 0 <= j < i ==> walk[j] !in alive {
          assert rest[i - 1] == x && forall j :: 0 <= j < i - 1 ==> rest[j] == walk[j + 1];
        }
        assert forall i :: 0 <= i < |rest| ==> rest[i] == walk[i + 1];
      }
    }
  }

  /** The alive owner is the owner of a point that the walk meets no later than any point of an alive node. */
  lemma {:induction false} OwnerIsFirstMet(hs: seq<nat>, owner: map<nat, Node>, h: nat, alive: set<Node>)
    requires Points(hs, owner)
    ensures var n := FirstAlive(Walk(hs, owner, h), alive);
            && (n.None? <==> forall p :: p in owner ==> owner[p] !in alive)
            && (n.Some? ==> n.value in alive)
            && (n.Some? ==>
                  exists p :: p in owner && owner[p] == n.value &&
                              forall q :: q in owner && owner[q] in alive ==> NoLater(h, p, q))
  {
    WalkMeetsInOrder(hs, owner, h);
    hide NoLater, Walk, FirstAlive;
    var w := Walk(hs, owner, h);
    var n := FirstAlive(w, alive);
    FirstAliveIs(w, alive, if n.Some? then n.value else []);
    forall p | p in owner ensures owner[p] in w { assert p in hs; }
    if n.Some? {
      var i :| 0 <= i < |w| && w[i] == n.value && n.value in alive && forall j :: 0 <= j < i ==> w[j] !in alive;
      NoLaterThanAlive(w, hs, owner, h, alive, i);
    } else {
      assert forall x :: x in w ==> x !in alive;
      forall i | 0 <= i < |w| ensures exists p :: p in owner && owner[p] == w[i] { assert w[i] in w; }
    }
  }

  /** The earliest point of `m`. */
  lemma {:induction false} EarliestPoint(c: seq<nat>, owner: map<nat, Node>, h: nat, m: Node) returns (p: nat)
    requires exists p :: p in c && p in owner && owner[p] == m
    ensures p in c && p in owner && owner[p] == m
    ensures forall q :: q in c && q in owner && owner[q] == m ==> NoLater(h, p, q)
  {
    var init, x := c[..|c| - 1], c[|c| - 1];
    assert c == init + [x];
    if exists p :: p in init && p in owner && owner[p] == m {
      p := EarliestPoint(init, owner, h, m);
      if x in owner && owner[x] == m && !NoLater(h, p, x) { p := x; }
    } else {
      p := x;
    }
  }

  lemma {:induction false} NoLaterThanAlive(w: seq<Node>, hs: seq<nat>, owner: map<nat, Node>, h: nat, alive: set<Node>,
                                            i: nat)
    requires Points(hs, owner) && IsWalk(w, hs, owner, h) && i < |w| && forall j :: 0 <= j < i ==> w[j] !in alive
    ensures exists p :: p in owner && owner[p] == w[i] &&
                        forall q :: q in owner && owner[q] in alive ==> NoLater(h, p, q)
  {
    assert w[i] in w;
    var p := EarliestPoint(hs, owner, h, w[i]);
    forall q | q in owner && owner[q] in alive ensures NoLater(h, p, q) {
      assert q in hs && owner[q] in w;
      var j :| 0 <= j < |w| && w[j] == owner[q];
      if j > i {
        assert MeetsFirst(hs, owner, h, w[i], w[j]);
        var r :| r in hs && r in owner && owner[r] == w[i] &&
                 forall q :: q in hs && q in owner && owner[q] == w[j] ==> NoLater(h, r, q);
        assert NoLater(h, p, r) && NoLater(h, r, q);
      }
    }
  }

  /** A key's owner is its first node whenever that node is alive. */
  lemma {:induction false} OwnerIsNodeFor(hs: seq<nat>, owner: map<nat, Node>, h: nat, alive: set<Node>)
    requires NodeFor(hs, owner, h).Some? && NodeFor(hs, owner, h).value in alive
    ensures FirstAlive(Walk(hs, owner, h), alive) == NodeFor(hs, owner, h)
  {
    hide Walk;
    FirstAliveIs(Walk(hs, owner, h), alive, NodeFor(hs, owner, h).value);
  }

  /** The ring after `n` took over or added points: every other point is as it was. */
  ghost predicate Joined(owner: map<nat, Node>, after: map<nat, Node>, n: Node) {
    && (forall h :: h in owner ==> h in after)
    && forall h :: h in after ==> after[h] == n || (h in owner && after[h] == owner[h])
  }

  /** Adding `n` moves keys only to `n`, even where its points fall on points of others. */
  lemma {:induction false} AdditionMovesOnlyToIt(hs: seq<nat>, owner: map<nat, Node>, hs': seq<nat>,
                                                 after: map<nat, Node>, n: Node, h: nat)
    requires Points(hs, owner) && Points(hs', after) && Joined(owner, after, n) && hs' != []
    ensures NodeFor(hs', after, h) == Some(n) || NodeFor(hs', after, h) == NodeFor(hs, owner, h)
  {
    hide NodeFor, Clockwise;
    NodeForIs(hs', after, h);
    FirstMet(hs', h);
    var x := Clockwise(hs', h)[0];
    if after[x] != n {
      assert x in hs && hs != [];
      NodeForIs(hs, owner, h);
      FirstMet(hs, h);
      var y := Clockwise(hs, h)[0];
      assert y in hs' && NoLater(h, x, y) && NoLater(h, y, x);
      assert x == y;
    }
  }
}
