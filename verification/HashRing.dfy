/** The hash ring as it is kept: a map from point to node, rebuilt into a sorted list of points. */
module HashRing {
  import opened Bytes
  import opened Ring

  /** Put `h` into its place among sorted points. */
  method InsertPoint(hs: seq<nat>, h: nat) returns (r: seq<nat>)
    requires Ascending(hs) && h !in hs
    ensures Ascending(r) && forall x :: x in r <==> x in hs || x == h
  {
    var i := 0;
    while i < |hs| && hs[i] < h
      invariant 0 <= i <= |hs| && forall j :: 0 <= j < i ==> hs[j] < h
    {
      i := i + 1;
    }
    r := hs[..i] + [h] + hs[i..];
    assert i < |hs| ==> hs[i] in hs;
    CutAscends(hs, i, h);
    CutMembers(hs, i, h);
  }

  lemma {:induction false} CutAscends(hs: seq<nat>, i: nat, h: nat)
    requires Ascending(hs) && i <= |hs| && (forall j :: 0 <= j < i ==> hs[j] < h) && (i < |hs| ==> h < hs[i])
    ensures Ascending(hs[..i] + [h] + hs[i..])
  {
    var r := hs[..i] + [h] + hs[i..];
    forall a, b | 0 <= a < b < |r| ensures r[a] < r[b] {
      assert a < i ==> r[a] == hs[a];
      assert b > i ==> r[b] == hs[b - 1];
      assert a > i ==> r[a] == hs[a - 1];
    }
  }

  lemma {:induction false} CutMembers(hs: seq<nat>, i: nat, h: nat)
    requires i <= |hs|
    ensures forall x :: x in hs[..i] + [h] + hs[i..] <==> x in hs || x == h
  {
    assert hs == hs[..i] + hs[i..];
  }

  /** `rebuildLocked`: the points of the map, in any order, sorted. */
  method SortedPoints(owner: map<nat, Node>) returns (hs: seq<nat>)
    ensures Points(hs, owner)
  {
    hs := [];
    var left := owner.Keys;
    while left != {}
      invariant left <= owner.Keys && Ascending(hs) && forall h :: h in hs <==> h in owner && h !in left
      decreases |left|
    {
      var h :| h in left;
      left := left - {h};
      hs := InsertPoint(hs, h);
    }
  }

  /** `sort.Search` for the first point not below `h`, wrapping round to the first point. */
  method Search(hs: seq<nat>, h: nat) returns (i: nat)
    requires Ascending(hs) && hs != []
    ensures i < |hs| && hs[i..] + hs[..i] == Clockwise(hs, h)
  {
    var lo, hi := 0, |hs|;
    while lo < hi
      invariant 0 <= lo <= hi <= |hs|
      invariant forall j :: 0 <= j < lo ==> hs[j] < h
      invariant forall j :: hi <= j < |hs| ==> hs[j] >= h
    {
      var mid := (lo + hi) / 2;
      if hs[mid] >= h { hi := mid; } else { lo := mid + 1; }
    }
    ClockwiseIsRotation(hs, h, lo);
    i := if lo == |hs| then 0 else lo;
    if lo == |hs| { assert hs[lo..] + hs[..lo] == hs[0..] + hs[..0]; }
  }

  lemma {:induction false} ClockwiseIsRotation(hs: seq<nat>, h: nat, i: nat)
    requires i <= |hs| && (forall j :: 0 <= j < i ==> hs[j] < h) && forall j :: i <= j < |hs| ==> hs[j] >= h
    ensures AtLeast(hs, h) == hs[i..] && Under(hs, h) == hs[..i]
  {
    hide AtLeast, Under;
    assert hs == hs[..i] + hs[i..];
    FilterConcat(hs[..i], hs[i..], h);
    AllUnder(hs[..i], h);
    AllAtLeast(hs[i..], h);
  }

  lemma {:induction false} FilterConcat(a: seq<nat>, b: seq<nat>, h: nat)
    ensures AtLeast(a + b, h) == AtLeast(a, h) + AtLeast(b, h) && Under(a + b, h) == Under(a, h) + Under(b, h)
  {
    if b == [] {
      assert a + b == a;
    } else {
      assert (a + b)[..|a + b| - 1] == a + b[..|b| - 1];
      FilterConcat(a, b[..|b| - 1], h);
    }
  }

  lemma {:induction false} AllUnder(hs: seq<nat>, h: nat)
    requires forall j :: 0 <= j < |hs| ==> hs[j] < h
    ensures Under(hs, h) == hs && AtLeast(hs, h) == []
  {
    if hs != [] { AllUnder(hs[..|hs| - 1], h); }
  }

  lemma {:induction false} AllAtLeast(hs: seq<nat>, h: nat)
    requires forall j :: 0 <= j < |hs| ==> hs[j] >= h
    ensures AtLeast(hs, h) == hs && Under(hs, h) == []
  {
    if hs != [] { AllAtLeast(hs[..|hs| - 1], h); }
  }

  /** Every point lies at a place of its owner, and its owner is present. */
  ghost predicate Placed(owner: map<nat, Node>, nodes: set<Node>, vnodes: nat, place: (Node, nat) -> nat) {
    forall h :: h in owner ==> owner[h] in nodes && exists i :: 0 <= i < vnodes && place(owner[h], i) == h
  }

  /** The loop of `addNodeLocked`: the node takes all its places. */
  method TakePlaces(owner: map<nat, Node>, n: Node, vnodes: nat, place: (Node, nat) -> nat)
    returns (after: map<nat, Node>)
    ensures Joined(owner, after, n) && forall i :: 0 <= i < vnodes ==> place(n, i) in after && after[place(n, i)] == n
    ensures forall nodes :: Placed(owner, nodes, vnodes, place) ==> Placed(after, nodes + {n}, vnodes, place)
  {
    after := owner;
    var i := 0;
    while i < vnodes
      invariant 0 <= i <= vnodes && Joined(owner, after, n)
      invariant forall j :: 0 <= j < i ==> place(n, j) in after && after[place(n, j)] == n
      invariant forall h :: h in after ==>
                  || (h in owner && after[h] == owner[h])
                  || exists j :: 0 <= j < vnodes && place(n, j) == h && after[h] == n
    {
      after := after[place(n, i) := n];
      i := i + 1;
    }
  }

  /** The loop of `RemoveNode`: the node gives up the places that are still its own. */
  method GiveUpPlaces(owner: map<nat, Node>, n: Node, vnodes: nat, place: (Node, nat) -> nat)
    returns (after: map<nat, Node>)
    requires forall h :: h in owner && owner[h] == n ==> exists i :: 0 <= i < vnodes && place(n, i) == h
    ensures after == Removed(owner, n)
  {
    after := owner;
    var i := 0;
    while i < vnodes
      invariant 0 <= i <= vnodes
      invariant forall h :: h in after ==> h in owner && after[h] == owner[h]
      invariant forall h :: h in owner && owner[h] != n ==> h in after
      invariant forall j :: 0 <= j < i ==> place(n, j) in after ==> after[place(n, j)] != n
    {
      var h := place(n, i);
      if h in after && after[h] == n { after := after - {h}; }
      i := i + 1;
    }
    assert forall h :: h in after ==> after[h] != n;
  }

  class HashRing {
    const vnodes: nat
    /** The place of each virtual node of a node. */
    const place: (Node, nat) -> nat
    var points: seq<nat>
    var owner: map<nat, Node>
    var nodes: set<Node>

    /** Points are sorted and owned by present nodes, each at one of its own places. */
    ghost predicate Valid()
      reads this
    {
      Points(points, owner) && Placed(owner, nodes, vnodes, place)
    }

    constructor (vnodes: nat, place: (Node, nat) -> nat)
      ensures Valid() && nodes == {} && owner == map[] && this.vnodes == vnodes && this.place == place
    {
      this.vnodes, this.place := vnodes, place;
      points, owner, nodes := [], map[], {};
    }

    /** `AddNode`: take every place of the node, even one held by another. */
    method AddNode(n: Node)
      requires Valid()
      modifies this
      ensures Valid() && nodes == old(nodes) + {n}
      ensures n in old(nodes) ==> owner == old(owner) && points == old(points)
      ensures n !in old(nodes) ==>
                && Joined(old(owner), owner, n)
                && forall i :: 0 <= i < vnodes ==> place(n, i) in owner && owner[place(n, i)] == n
    {
      if n in nodes {
        assert nodes + {n} == nodes;
        return;
      }
      hide Points, Placed, Joined;
      nodes := nodes + {n};
      owner := TakePlaces(owner, n, vnodes, place);
      points := SortedPoints(owner);
    }

    /** `RemoveNode`: give up the places that are still the node's own. */
    method RemoveNode(n: Node)
      requires Valid()
      modifies this
      ensures Valid() && nodes == old(nodes) - {n}
      ensures owner == Removed(old(owner), n) && points == Remaining(old(points), old(owner), n)
    {
      if n !in nodes {
        NobodysPoints(points, owner, n);
        return;
      }
      hide Points, Remaining;
      RemovedIsPlaced(owner, nodes, vnodes, place, n);
      ghost var was, before := owner, points;
      nodes := nodes - {n};
      owner := GiveUpPlaces(owner, n, vnodes, place);
      points := SortedPoints(owner);
      RemainingIsSorted(before, was, points, n);
    }

    /** `NodeFor`. */
    method NodeForKey(h: nat) returns (n: Option<Node>)
      requires Valid()
      ensures n == NodeFor(points, owner, h) && (n.None? <==> owner == map[])
      ensures n.Some? ==>
                exists p :: p in owner && owner[p] == n.value && forall q :: q in owner ==> NoLater(h, p, q)
    {
      if |points| == 0 {
        assert forall p :: p in owner ==> p in points;
        return None;
      }
      NodeForIs(points, owner, h);
      FirstMet(points, h);
      var i := Search(points, h);
      assert points[i] == (points[i..] + points[..i])[0] && points[i] in points;
      return Some(owner[points[i]]);
    }

    /** `walkNodesFrom`: once round the ring, each node where it is first met. */
    method WalkNodesFrom(h: nat) returns (out: seq<Node>)
      requires Valid()
      ensures out == Walk(points, owner, h) && IsWalk(out, points, owner, h)
    {
      WalkMeetsInOrder(points, owner, h);
      hide IsWalk;
      if |points| == 0 { return []; }
      var n := |points|;
      var start := Search(points, h);
      ghost var order := Clockwise(points, h);
      out := [];
      var i := 0;
      while i < n
        invariant 0 <= i <= n && out == Once(Owners(order[..i], owner))
      {
        var p := points[(start + i) % n];
        RotationAt(points, start, i);
        assert p == order[i] && p in points;
        WalkStep(order, i, owner);
        if owner[p] !in out { out := out + [owner[p]]; }
        i := i + 1;
      }
      assert order[..n] == order;
    }

    /** `OwnerOf`: the first node of the walk that is alive, which is the owner of a point met no later than any
        point of an alive node; none if and only if no node with a point is alive. */
    method OwnerOf(h: nat, alive: set<Node>) returns (n: Option<Node>)
      requires Valid()
      ensures n == FirstAlive(Walk(points, owner, h), alive)
      ensures n.None? <==> forall p :: p in owner ==> owner[p] !in alive
      ensures n.Some? ==> n.value in alive
      ensures n.Some? ==>
                exists p :: p in owner && owner[p] == n.value &&
                            forall q :: q in owner && owner[q] in alive ==> NoLater(h, p, q)
    {
      OwnerIsFirstMet(points, owner, h, alive);
      hide NoLater;
      var walk := WalkNodesFrom(h);
      var i := 0;
      assert walk[0..] == walk;
      while i < |walk|
        invariant 0 <= i <= |walk| && FirstAlive(walk, alive) == FirstAlive(walk[i..], alive)
      {
        if walk[i] in alive { return Some(walk[i]); }
        assert walk[i..][1..] == walk[i + 1..];
        i := i + 1;
      }
      return None;
    }
  }

  lemma {:induction false} RotationAt(hs: seq<nat>, start: nat, i: nat)
    requires start < |hs| && i < |hs|
    ensures (hs[start..] + hs[..start])[i] == hs[(start + i) % |hs|]
  {
    Wrapped(start + i, |hs|);
  }

  lemma {:induction false} Wrapped(x: nat, n: nat)
    requires 0 < n && x < 2 * n
    ensures x % n == if x < n then x else x - n
  {
    if x >= n { assert x == n * 1 + (x - n); }
  }

  lemma {:induction false} WalkStep(order: seq<nat>, i: nat, owner: map<nat, Node>)
    requires i < |order| && order[i] in owner
    ensures var before := Once(Owners(order[..i], owner));
            Once(Owners(order[..i + 1], owner)) ==
            if owner[order[i]] in before then before else before + [owner[order[i]]]
  {
    assert order[..i + 1] == order[..i] + [order[i]];
    OwnersLast(order[..i], order[i], owner);
    var ns := Owners(order[..i], owner);
    assert (ns + [owner[order[i]]])[..|ns + [owner[order[i]]]| - 1] == ns;
  }

  lemma {:induction false} RemainingPoints(hs: seq<nat>, owner: map<nat, Node>, n: Node)
    requires Ascending(hs)
    ensures Ascending(Remaining(hs, owner, n))
    ensures forall h :: h in Remaining(hs, owner, n) <==> h in hs && !(h in owner && owner[h] == n)
  {
    if hs != [] {
      var init, x := hs[..|hs| - 1], hs[|hs| - 1];
      RemainingPoints(init, owner, n);
      assert hs == init + [x];
      var r := Remaining(init, owner, n);
      forall i | 0 <= i < |r| ensures r[i] < x { assert r[i] in r; }
    }
  }

  lemma {:induction false} RemovedIsPlaced(owner: map<nat, Node>, nodes: set<Node>, vnodes: nat,
                                           place: (Node, nat) -> nat, n: Node)
    requires Placed(owner, nodes, vnodes, place)
    ensures Placed(Removed(owner, n), nodes - {n}, vnodes, place)
    ensures forall h :: h in owner && owner[h] == n ==> exists i :: 0 <= i < vnodes && place(n, i) == h
  {
  }

  lemma {:induction false} RemainingIsSorted(hs: seq<nat>, owner: map<nat, Node>, hs': seq<nat>, n: Node)
    requires Points(hs, owner) && Points(hs', Removed(owner, n))
    ensures hs' == Remaining(hs, owner, n)
  {
    RemainingPoints(hs, owner, n);
    SamePoints(hs', Remaining(hs, owner, n));
  }

  lemma {:induction false} NobodysPoints(hs: seq<nat>, owner: map<nat, Node>, n: Node)
    requires forall h :: h in owner ==> owner[h] != n
    ensures Remaining(hs, owner, n) == hs && Removed(owner, n) == owner
  {
    if hs != [] { NobodysPoints(hs[..|hs| - 1], owner, n); }
  }

  /** Sorted points are determined by which points they are. */
  lemma {:induction false} SamePoints(a: seq<nat>, b: seq<nat>)
    requires Ascending(a) && Ascending(b) && forall h :: h in a <==> h in b
    ensures a == b
  {
    assert a != [] ==> a[|a| - 1] in b;
    assert b != [] ==> b[|b| - 1] in a;
    if a != [] {
      var x, y := a[|a| - 1], b[|b| - 1];
      assert x == y;
      var a', b' := a[..|a| - 1], b[..|b| - 1];
      assert a == a' + [x] && b == b' + [y];
      forall h ensures h in a' <==> h in b' {
        if h in a' { assert h < x && h in b; }
        if h in b' { assert h < y && h in a; }
      }
      SamePoints(a', b');
    }
  }
}
