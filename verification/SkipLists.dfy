/** The memtable: a skip list whose nodes are linked in place at every level. */
module SkipLists {
  import opened Bytes
  import opened Tables

  class SkipNode {
    const key: Bytes
    var value: Value
    var next: seq<SkipNode?>

    constructor (height: nat, key: Bytes, value: Value)
      ensures this.key == key && this.value == value
      ensures |next| == height && forall l :: 0 <= l < height ==> next[l] == null
    {
      this.key, this.value := key, value;
      next := seq(height, _ => null);
    }
  }

  // ---- which node a link must name, from heights alone ----

  /** The first position after `i` whose tower is higher than `l`, or the end. */
  function NextTall(h: seq<nat>, i: nat, l: nat): (j: nat)
    requires i < |h|
    ensures i < j <= |h|
    ensures j < |h| ==> h[j] > l
    ensures forall m :: i < m < j ==> h[m] <= l
    decreases |h| - i
  {
    if i + 1 == |h| then |h| else if h[i + 1] > l then i + 1 else NextTall(h, i + 1, l)
  }

  lemma {:induction false} NextTallUnique(h: seq<nat>, i: nat, l: nat, j: nat)
    requires i < j <= |h| && (j < |h| ==> h[j] > l)
    requires forall m :: i < m < j ==> h[m] <= l
    ensures NextTall(h, i, l) == j
    decreases |h| - i
  {
    if i + 1 < j { NextTallUnique(h, i + 1, l, j); }
  }

  function InsertAt<T>(s: seq<T>, pos: nat, x: T): (r: seq<T>)
    requires pos <= |s|
    ensures |r| == |s| + 1 && r[pos] == x
  {
    s[..pos] + [x] + s[pos..]
  }

  /** Where links lead once a tower of height `nh` stands at `pos`: from behind it, one further on; ... */
  lemma {:induction false} NextTallBehind(h: seq<nat>, pos: nat, nh: nat, i: nat, l: nat)
    requires 1 <= pos <= i < |h|
    ensures NextTall(InsertAt<nat>(h, pos, nh), i + 1, l) == NextTall(h, i, l) + 1
  {
    var h', j := InsertAt<nat>(h, pos, nh), NextTall(h, i, l);
    assert forall m :: i + 1 < m < j + 1 ==> h'[m] == h[m - 1];
    NextTallUnique(h', i + 1, l, j + 1);
  }

  /** ... from before it, unchanged if they stopped short of it; ... */
  lemma {:induction false} NextTallBefore(h: seq<nat>, pos: nat, nh: nat, i: nat, l: nat)
    requires 1 <= pos <= |h| && i < pos && NextTall(h, i, l) < pos
    ensures NextTall(InsertAt<nat>(h, pos, nh), i, l) == NextTall(h, i, l)
  {
    NextTallUnique(InsertAt<nat>(h, pos, nh), i, l, NextTall(h, i, l));
  }

  /** ... and links that crossed `pos` pass below its top ... */
  lemma {:induction false} NextTallOver(h: seq<nat>, pos: nat, nh: nat, i: nat, l: nat)
    requires 1 <= pos <= |h| && i < pos <= NextTall(h, i, l) && l >= nh
    ensures NextTall(InsertAt<nat>(h, pos, nh), i, l) == NextTall(h, i, l) + 1
  {
    var h', j := InsertAt<nat>(h, pos, nh), NextTall(h, i, l);
    assert forall m :: pos < m < j + 1 ==> h'[m] == h[m - 1];
    NextTallUnique(h', i, l, j + 1);
  }

  /** ... or meet the tower, which carries them on. */
  lemma {:induction false} NextTallInto(h: seq<nat>, pos: nat, nh: nat, i: nat, l: nat)
    requires 1 <= pos <= |h| && i < pos <= NextTall(h, i, l) && l < nh
    ensures NextTall(InsertAt<nat>(h, pos, nh), i, l) == pos
  {
    NextTallUnique(InsertAt<nat>(h, pos, nh), i, l, pos);
  }

  lemma {:induction false} NextTallOnward(h: seq<nat>, pos: nat, nh: nat, i: nat, l: nat)
    requires 1 <= pos <= |h| && i < pos <= NextTall(h, i, l)
    ensures NextTall(InsertAt<nat>(h, pos, nh), pos, l) == NextTall(h, i, l) + 1
  {
    var h', j := InsertAt<nat>(h, pos, nh), NextTall(h, i, l);
    assert forall m :: pos < m < j + 1 ==> h'[m] == h[m - 1];
    NextTallUnique(h', pos, l, j + 1);
  }

  function At(order: seq<SkipNode>, i: nat): SkipNode? {
    if i < |order| then order[i] else null
  }

  /** An old tower's link after a node was inserted at `pos`: the same node as before, unless the link
      crossed `pos` below the new node's top. */
  lemma {:induction false} OldTowerLink(order: seq<SkipNode>, h: seq<nat>, pos: nat, nh: nat, node: SkipNode, i: nat,
                                        l: nat)
    requires 1 <= pos <= |h| == |order| && i < |h|
    ensures At(InsertAt(order, pos, node), NextTall(InsertAt<nat>(h, pos, nh), if i < pos then i else i + 1, l)) ==
            if l < nh && i < pos <= NextTall(h, i, l) then node else At(order, NextTall(h, i, l))
  {
    if i >= pos {
      NextTallBehind(h, pos, nh, i, l);
    } else if NextTall(h, i, l) < pos {
      NextTallBefore(h, pos, nh, i, l);
    } else if l < nh {
      NextTallInto(h, pos, nh, i, l);
    } else {
      NextTallOver(h, pos, nh, i, l);
    }
  }

  lemma {:induction false} NewTowerLink(order: seq<SkipNode>, h: seq<nat>, pos: nat, nh: nat, node: SkipNode, u: nat,
                                        l: nat)
    requires 1 <= pos <= |h| == |order| && u < pos <= NextTall(h, u, l) && l < nh
    ensures At(InsertAt(order, pos, node), NextTall(InsertAt<nat>(h, pos, nh), pos, l)) == At(order, NextTall(h, u, l))
  {
    NextTallOnward(h, pos, nh, u, l);
  }

  ghost predicate Heights(order: seq<SkipNode>, h: seq<nat>)
    reads order
  {
    |order| == |h| && forall i :: 0 <= i < |order| ==> |order[i].next| == h[i]
  }

  /** Distinct nodes with the given heights; all but the head stay below the top level in use. */
  ghost predicate TowersOf(order: seq<SkipNode>, h: seq<nat>, t: Table, level: nat, maxLevel: nat, head: SkipNode)
    reads order
  {
    && Heights(order, h) && |h| == |t| + 1 && order[0] == head && h[0] == maxLevel
    && level <= maxLevel && (level == 0 ==> |h| == 1)
    && (forall i :: 0 <= i < |h| ==> h[i] >= 1)
    && (forall i :: 1 <= i < |h| ==> h[i] <= level)
    && (forall i, j :: 0 <= i < j < |order| ==> order[i] != order[j])
  }

  /** Each link names the next tower that is high enough: every upper level is a subsequence of the
      level below it. */
  ghost predicate LinkedOf(order: seq<SkipNode>, h: seq<nat>)
    requires Heights(order, h)
    reads order
  {
    forall i, l :: 0 <= i < |order| && 0 <= l < h[i] ==> order[i].next[l] == At(order, NextTall(h, i, l))
  }

  ghost predicate HoldsOf(order: seq<SkipNode>, t: Table)
    requires |order| == |t| + 1
    reads order
  {
    forall i :: 0 <= i < |t| ==> t[i] == Entry(order[i + 1].key, order[i + 1].value)
  }

  /** `u` is the last tower higher than `l` at or before position `f`. */
  predicate IsPredecessor(h: seq<nat>, f: nat, u: nat, l: nat) {
    u < |h| && l < h[u] && u <= f < NextTall(h, u, l)
  }

  /** The predecessors noted for the levels from `from` upwards. */
  ghost predicate Recorded(order: seq<SkipNode>, h: seq<nat>, f: nat, update: seq<SkipNode>, upd: seq<nat>, from: nat) {
    && |update| == |upd| && |order| == |h|
    && forall i :: 0 <= i < |upd| ==> IsPredecessor(h, f, upd[i], from + i) && update[i] == order[upd[i]]
  }

  lemma {:induction false} RecordOne(order: seq<SkipNode>, h: seq<nat>, f: nat, update: seq<SkipNode>, upd: seq<nat>,
                                     l: nat, j: nat)
    requires Recorded(order, h, f, update, upd, l + 1) && IsPredecessor(h, f, j, l)
    ensures Recorded(order, h, f, [order[j]] + update, [j] + upd, l)
  {
    var now, up := [j] + upd, [order[j]] + update;
    forall i | 0 <= i < |now| ensures IsPredecessor(h, f, now[i], l + i) && up[i] == order[now[i]] {
      if i > 0 { assert IsPredecessor(h, f, upd[i - 1], l + 1 + (i - 1)); }
    }
  }

  lemma {:induction false} InsertAtIndex<T>(s: seq<T>, pos: nat, x: T, i: nat)
    requires pos <= |s| && i <= |s|
    ensures InsertAt(s, pos, x)[i] == if i < pos then s[i] else if i == pos then x else s[i - 1]
  {
  }

  lemma {:induction false} InsertAtMembers<T>(s: seq<T>, pos: nat, x: T)
    requires pos <= |s|
    ensures forall y :: y in InsertAt(s, pos, x) ==> y in s || y == x
  {
  }

  lemma {:induction false} HeightsInsert(order: seq<SkipNode>, h: seq<nat>, pos: nat, node: SkipNode, nh: nat)
    requires Heights(order, h) && 1 <= pos <= |order| && |node.next| == nh
    ensures Heights(InsertAt(order, pos, node), InsertAt<nat>(h, pos, nh))
  {
    var o', h' := InsertAt(order, pos, node), InsertAt<nat>(h, pos, nh);
    forall i | 0 <= i < |o'| ensures |o'[i].next| == h'[i] {
      InsertAtIndex(order, pos, node, i);
      InsertAtIndex(h, pos, nh, i);
    }
  }

  lemma {:induction false} TowersInsert(order: seq<SkipNode>, h: seq<nat>, t: Table, level: nat, maxLevel: nat,
                                        head: SkipNode,
                                        pos: nat, node: SkipNode, nh: nat, e: Entry)
    requires TowersOf(order, h, t, level, maxLevel, head)
    requires 1 <= pos <= |order| && node !in order && |node.next| == nh && 1 <= nh <= level
    ensures TowersOf(InsertAt(order, pos, node), InsertAt<nat>(h, pos, nh), InsertAt(t, pos - 1, e), level, maxLevel,
                     head)
  {
    var o', h' := InsertAt(order, pos, node), InsertAt<nat>(h, pos, nh);
    HeightsInsert(order, h, pos, node, nh);
    InsertAtIndex(order, pos, node, 0);
    InsertAtIndex(h, pos, nh, 0);
    forall i | 0 <= i < |h'| ensures h'[i] >= 1 && (i >= 1 ==> h'[i] <= level) {
      InsertAtIndex(h, pos, nh, i);
    }
    forall i, j | 0 <= i < j < |o'| ensures o'[i] != o'[j] {
      InsertAtIndex(order, pos, node, i);
      InsertAtIndex(order, pos, node, j);
    }
  }

  lemma {:induction false} HoldsInsert(order: seq<SkipNode>, t: Table, pos: nat, node: SkipNode)
    requires |order| == |t| + 1 && HoldsOf(order, t) && 1 <= pos <= |order|
    ensures HoldsOf(InsertAt(order, pos, node), InsertAt(t, pos - 1, Entry(node.key, node.value)))
  {
    var o', t' := InsertAt(order, pos, node), InsertAt(t, pos - 1, Entry(node.key, node.value));
    forall i | 0 <= i < |t'| ensures t'[i] == Entry(o'[i + 1].key, o'[i + 1].value) {
      InsertAtIndex(order, pos, node, i + 1);
      InsertAtIndex(t, pos - 1, Entry(node.key, node.value), i);
      if i >= pos { assert t[i - 1] == Entry(order[i - 1 + 1].key, order[i - 1 + 1].value); }
    }
  }

  /** A tower in front of `pos` whose link crosses it is the only one: the predecessor of `pos`. */
  lemma {:induction false} OnlyPredecessorCrosses(h: seq<nat>, u: nat, l: nat, pos: nat, i: nat)
    requires u < pos <= |h| && l < h[u] && pos <= NextTall(h, u, l)
    requires i < |h| && l < h[i]
    ensures i == u <==> i < pos <= NextTall(h, i, l)
  {
  }

  /** Once the predecessors of `pos` point to the new node, every old link leads where the new heights
      say. */
  lemma {:induction false} OldLinkAt(order: seq<SkipNode>, h: seq<nat>, upd: seq<nat>, pos: nat, node: SkipNode, j: nat,
                                     l: nat)
    requires 1 <= pos <= |h| == |order| && j < |h| && l < h[j]
    requires l < |upd| ==> upd[l] < pos <= NextTall(h, upd[l], l) && l < h[upd[l]]
    ensures At(InsertAt(order, pos, node), NextTall(InsertAt<nat>(h, pos, |upd|), if j < pos then j else j + 1, l)) ==
            if l < |upd| && j == upd[l] then node else At(order, NextTall(h, j, l))
  {
    if l < |upd| { OnlyPredecessorCrosses(h, upd[l], l, pos, j); }
    OldTowerLink(order, h, pos, |upd|, node, j, l);
  }

  /** Every link leads where the heights say, except that at the first `done` levels of `node` the
      predecessors point to `node` and `node` points where they did. */
  ghost predicate Rewired(order: seq<SkipNode>, h: seq<nat>, node: SkipNode, upd: seq<nat>, done: nat)
    requires Heights(order, h) && done <= |upd|
    reads order, node
  {
    && |node.next| == |upd|
    && (forall l :: 0 <= l < done ==> upd[l] < |order| && node.next[l] == At(order, NextTall(h, upd[l], l)))
    && (forall i, l :: 0 <= i < |order| && 0 <= l < h[i] ==>
          order[i].next[l] == if l < done && i == upd[l] then node else At(order, NextTall(h, i, l)))
  }

  /** A fully rewired node stands correctly linked at its place. */
  lemma {:induction false} LinkedInsert(order: seq<SkipNode>, h: seq<nat>, node: SkipNode, upd: seq<nat>, f: nat)
    requires Heights(order, h) && f < |order| && Rewired(order, h, node, upd, |upd|)
    requires forall l :: 0 <= l < |upd| ==> IsPredecessor(h, f, upd[l], l)
    requires Heights(InsertAt(order, f + 1, node), InsertAt<nat>(h, f + 1, |upd|))
    ensures LinkedOf(InsertAt(order, f + 1, node), InsertAt<nat>(h, f + 1, |upd|))
  {
    hide NextTall, At, Rewired, InsertAt;
    var o', h' := InsertAt(order, f + 1, node), InsertAt<nat>(h, f + 1, |upd|);
    forall i, l | 0 <= i < |o'| && 0 <= l < h'[i] ensures o'[i].next[l] == At(o', NextTall(h', i, l)) {
      InsertAtIndex(order, f + 1, node, i);
      InsertAtIndex(h, f + 1, |upd|, i);
      if l < |upd| { assert IsPredecessor(h, f, upd[l], l); }
      if i == f + 1 {
        NewTowerLinked(order, h, node, upd, f, l);
      } else {
        OldTowerLinked(order, h, node, upd, f, if i < f + 1 then i else i - 1, l);
      }
    }
  }

  lemma {:induction false} NewTowerLinked(order: seq<SkipNode>, h: seq<nat>, node: SkipNode, upd: seq<nat>, f: nat,
                                          l: nat)
    requires Heights(order, h) && f < |order| && Rewired(order, h, node, upd, |upd|)
    requires l < |upd| && IsPredecessor(h, f, upd[l], l)
    ensures node.next[l] == At(InsertAt(order, f + 1, node), NextTall(InsertAt<nat>(h, f + 1, |upd|), f + 1, l))
  {
    NewTowerLink(order, h, f + 1, |upd|, node, upd[l], l);
  }

  lemma {:induction false} OldTowerLinked(order: seq<SkipNode>, h: seq<nat>, node: SkipNode, upd: seq<nat>, f: nat,
                                          j: nat, l: nat)
    requires Heights(order, h) && f < |order| && Rewired(order, h, node, upd, |upd|)
    requires j < |order| && l < h[j] && (l < |upd| ==> IsPredecessor(h, f, upd[l], l))
    ensures order[j].next[l] ==
            At(InsertAt(order, f + 1, node),
               NextTall(InsertAt<nat>(h, f + 1, |upd|), if j < f + 1 then j else j + 1, l))
  {
    hide NextTall, InsertAt;
    assert order[j].next[l] == if l < |upd| && j == upd[l] then node else At(order, NextTall(h, j, l));
    hide Rewired, At;
    OldLinkAt(order, h, upd, f + 1, node, j, l);
  }

  ghost predicate ShapeOf(order: seq<SkipNode>, h: seq<nat>, t: Table, level: nat, maxLevel: nat, head: SkipNode)
    reads order
  {
    TowersOf(order, h, t, level, maxLevel, head) && LinkedOf(order, h) && HoldsOf(order, t)
  }

  lemma {:induction false} PlacedShape(order: seq<SkipNode>, h: seq<nat>, t: Table, level: nat, maxLevel: nat,
                                       head: SkipNode,
                                       node: SkipNode, preds: seq<SkipNode>, at: seq<nat>, f: nat)
    requires TowersOf(order, h, t, level, maxLevel, head) && HoldsOf(order, t)
    requires Rewired(order, h, node, at, |at|) && Recorded(order, h, f, preds, at, 0)
    requires f < |order| && node !in order && 1 <= |at| <= level
    ensures ShapeOf(InsertAt(order, f + 1, node), InsertAt<nat>(h, f + 1, |at|),
                    InsertAt(t, f, Entry(node.key, node.value)), level, maxLevel, head)
  {
    TowersInsert(order, h, t, level, maxLevel, head, f + 1, node, |at|, Entry(node.key, node.value));
    assert forall l :: 0 <= l < |at| ==> IsPredecessor(h, f, at[l], 0 + l);
    LinkedInsert(order, h, node, at, f);
    HoldsInsert(order, t, f + 1, node);
  }

  lemma {:induction false} LookupAtFirstGTE(t: Table, k: Bytes)
    requires Ascending(t)
    ensures var i := FirstGTE(t, k);
            Lookup(t, k) == if i < |t| && t[i].key == k then Some(t[i].value) else None
  {
    var lo, was, hi := UpsertParts(t, k, None);
    LookupParts(lo, was, hi, k, k);
  }

  /** Inserting an absent key at its sorted position is map update and adds the whole record's bytes. */
  lemma {:induction false} InsertIsUpsert(t: Table, k: Bytes, v: Value)
    requires Ascending(t)
    requires var f := FirstGTE(t, k); f < |t| ==> t[f].key != k
    ensures var u := InsertAt(t, FirstGTE(t, k), Entry(k, v));
            u == Upsert(t, k, v) && Ascending(u) && TableBytes(u) == TableBytes(t) + |k| + ValueBytes(v)
  {
    UpsertAscending(t, k, v);
    UpsertBytes(t, k, v);
    LookupAtFirstGTE(t, k);
  }

  lemma {:induction false} OverwriteBytes(t: Table, f: nat, v: Value)
    requires Ascending(t) && f < |t|
    ensures var u := t[f := Entry(t[f].key, v)];
            Ascending(u) && TableBytes(u) == TableBytes(t) + ValueBytes(v) - ValueBytes(t[f].value)
  {
    var u, k := t[f := Entry(t[f].key, v)], t[f].key;
    assert u == Upsert(t, k, v) by { PositionOf(t, f); }
    UpsertAscending(t, k, v);
    UpsertBytes(t, k, v);
    LookupAt(t, f);
  }

  lemma {:induction false} PositionOf(t: Table, f: nat)
    requires Ascending(t) && f < |t|
    ensures FirstGTE(t, t[f].key) == f
  {
    LtIrreflexive(t[f].key);
  }

  class SkipList {
    const maxLevel: nat
    const head: SkipNode
    var size: nat
    var level: nat
    var byteSize: int
    /** The head and then the nodes of the bottom level, in order; the height of each tower; and the
        entries they hold. */
    ghost var order: seq<SkipNode>
    ghost var heights: seq<nat>
    ghost var contents: Table

    ghost predicate Towers()
      reads this`order, this`heights, this`contents, this`level, order
    {
      TowersOf(order, heights, contents, level, maxLevel, head)
    }

    ghost predicate Shaped()
      reads this`order, this`heights, this`contents, this`level, order
    {
      ShapeOf(order, heights, contents, level, maxLevel, head)
    }

    /** The bottom level holds the sorted contents, every level is linked, and the counters are true. */
    ghost predicate Valid()
      reads this, order
    {
      Shaped() && Ascending(contents) && size == |contents| && byteSize == TableBytes(contents)
    }

    /** The list and its nodes. */
    ghost function Repr(): set<object>
      reads this
    {
      {this as object} + set n: object | n in order
    }

    /** A list none of whose nodes changed is as valid as it was. */
    twostate lemma StillValid()
      requires old(Valid()) && unchanged(this) && forall n :: n in order ==> unchanged(n)
      ensures Valid()
    {
      forall i | 0 <= i < |order|
        ensures order[i].next == old(order[i].next) && order[i].value == old(order[i].value)
      {
        assert order[i] in order;
      }
    }

    constructor (maxLevel: nat)
      requires maxLevel >= 1
      ensures Valid() && contents == [] && fresh(order) && this.maxLevel == maxLevel
    {
      this.maxLevel := maxLevel;
      var h := new SkipNode(maxLevel, [], None);
      head := h;
      size, level, byteSize := 0, 0, 0;
      order, heights, contents := [h], [maxLevel], [];
    }

    /** From `p` at position `i`, walk level `l` while the next key is below `key`. */
    method Walk(p: SkipNode, l: nat, key: Bytes, ghost i: nat) returns (q: SkipNode, ghost j: nat)
      requires Valid() && i < |order| && p == order[i] && l < heights[i]
      requires i <= FirstGTE(contents, key)
      ensures j < |order| && q == order[j] && l < heights[j]
      ensures i <= j <= FirstGTE(contents, key) < NextTall(heights, j, l)
    {
      q, j := p, i;
      while q.next[l] != null && Lt(q.next[l].key, key)
        invariant i <= j < |order| && q == order[j] && l < heights[j]
        invariant j <= FirstGTE(contents, key)
        decreases |order| - j
      {
        ghost var n := NextTall(heights, j, l);
        assert q.next[l] == At(order, n) == order[n];
        StillBelow(n, key);
        q, j := q.next[l], n;
      }
      NotBelow(NextTall(heights, j, l), key);
    }

    lemma {:induction false} StillBelow(n: nat, key: Bytes)
      requires Valid() && 1 <= n < |order| && Lt(order[n].key, key)
      ensures n <= FirstGTE(contents, key)
    {
      var f := FirstGTE(contents, key);
      assert contents[n - 1].key == order[n].key;
      if f < n - 1 {
        LtTransitive(contents[f].key, contents[n - 1].key, key);
      }
    }

    lemma {:induction false} NotBelow(n: nat, key: Bytes)
      requires Valid() && 1 <= n <= |order| && (n < |order| ==> !Lt(order[n].key, key))
      ensures FirstGTE(contents, key) < n
    {
      if n < |order| { assert contents[n - 1].key == order[n].key; }
    }

    /** The descent shared by `search`, `firstGTE` and `insert`: it ends on the last node below `key`. */
    method Descend(key: Bytes) returns (p: SkipNode)
      requires Valid()
      ensures p == order[FirstGTE(contents, key)]
    {
      p := head;
      ghost var j := 0;
      var l := level;
      while l > 0
        invariant 0 <= l <= level
        invariant j < |order| && p == order[j] && j <= FirstGTE(contents, key)
        invariant l < level ==> l < heights[j] && FirstGTE(contents, key) < NextTall(heights, j, l)
        invariant level <= heights[j] || l < level
      {
        l := l - 1;
        p, j := Walk(p, l, key, j);
      }
      AtBottom(j, key);
    }

    lemma {:induction false} AtBottom(j: nat, key: Bytes)
      requires Valid() && j < |order| && j <= FirstGTE(contents, key)
      requires level == 0 ==> j == 0
      requires level > 0 ==> FirstGTE(contents, key) < NextTall(heights, j, 0)
      ensures j == FirstGTE(contents, key)
    {
      if level > 0 && j + 1 < |order| {
        NextTallUnique(heights, j, 0, j + 1);
      }
    }

    /** `firstGTE`: the first node whose key is not below `key`. */
    method FindGTE(key: Bytes) returns (n: SkipNode?)
      requires Valid()
      ensures n == At(order, FirstGTE(contents, key) + 1)
    {
      var p := Descend(key);
      n := p.next[0];
      NextAtBottom(FirstGTE(contents, key));
    }

    lemma {:induction false} NextAtBottom(j: nat)
      requires Valid() && j < |order|
      ensures order[j].next[0] == At(order, j + 1)
    {
      NextTallUnique(heights, j, 0, j + 1);
      assert order[j].next[0] == At(order, NextTall(heights, j, 0));
    }

    lemma {:induction false} HeadOf()
      requires Valid()
      ensures |order| == |contents| + 1 && |head.next| > 0 && head.next[0] == At(order, 1)
    {
      NextAtBottom(0);
    }

    /** The node at position `i + 1` holds entry `i` and leads to the next one. */
    lemma {:induction false} NodeOf(i: nat)
      requires Valid() && i < |contents|
      ensures i + 1 < |order| && contents[i] == Entry(order[i + 1].key, order[i + 1].value)
      ensures |order[i + 1].next| > 0 && order[i + 1].next[0] == At(order, i + 2)
    {
      NextAtBottom(i + 1);
    }

    /** `search`: the answer of the sorted contents. */
    method Search(key: Bytes) returns (r: Option<Value>)
      requires Valid()
      ensures r == Lookup(contents, key)
    {
      LookupAtFirstGTE(contents, key);
      var n := FindGTE(key);
      if n != null {
        assert contents[FirstGTE(contents, key)] == Entry(n.key, n.value);
      }
      if n != null && n.key == key { return Some(n.value); }
      return None;
    }

    /** `collectAllEntry`: the bottom level, front to back. */
    method CollectAll() returns (t: Table)
      requires Valid()
      ensures t == contents
    {
      t := [];
      NextAtBottom(0);
      var p := head.next[0];
      while p != null
        invariant |t| <= |contents| && t == contents[..|t|] && p == At(order, |t| + 1)
        decreases |contents| - |t|
      {
        NextAtBottom(|t| + 1);
        assert contents[|t|] == Entry(p.key, p.value);
        t := t + [Entry(p.key, p.value)];
        p := p.next[0];
      }
    }

    /** The descent of `insert`, noting at every level the node it turned down from. */
    method DescendRecording(key: Bytes) returns (p: SkipNode, update: seq<SkipNode>, ghost upd: seq<nat>)
      requires Valid()
      ensures p == order[FirstGTE(contents, key)]
      ensures |update| == level && Recorded(order, heights, FirstGTE(contents, key), update, upd, 0)
    {
      p := head;
      ghost var j, f := 0, FirstGTE(contents, key);
      var l := level;
      update, upd := [], [];
      while l > 0
        invariant 0 <= l <= level && |update| == level - l
        invariant if l == level then j == 0 else IsPredecessor(heights, f, j, l)
        invariant p == order[j] && j <= f
        invariant Recorded(order, heights, f, update, upd, l)
      {
        l := l - 1;
        p, j := Walk(p, l, key, j);
        RecordOne(order, heights, f, update, upd, l, j);
        update, upd := [p] + update, [j] + upd;
      }
      AtBottom(j, key);
    }

    /** One turn of the rewiring loop of `insert`: the new node takes over the link of its predecessor
        and the predecessor points to the new node. */
    method LinkLevel(node: SkipNode, pred: SkipNode, l: nat, ghost upd: seq<nat>)
      requires Towers() && node !in order && l < |upd| && Rewired(order, heights, node, upd, l)
      requires upd[l] < |order| && l < heights[upd[l]] && pred == order[upd[l]]
      modifies node`next, pred`next
      ensures Towers() && Rewired(order, heights, node, upd, l + 1)
    {
      assert pred.next[l] == At(order, NextTall(heights, upd[l], l));
      node.next := node.next[l := pred.next[l]];
      pred.next := pred.next[l := node];
    }

    /** The whole loop: exactly the predecessors' links at the new node's levels move, and the list is in
        shape with the new node behind position `f`. */
    method LinkIn(node: SkipNode, update: seq<SkipNode>, ghost upd: seq<nat>, ghost f: nat)
      requires Shaped() && node !in order && f < |order|
      requires 1 <= |node.next| == |update| <= level && Recorded(order, heights, f, update, upd, 0)
      modifies node`next, order`next
      ensures ShapeOf(InsertAt(order, f + 1, node), InsertAt<nat>(heights, f + 1, |upd|),
                      InsertAt(contents, f, Entry(node.key, node.value)), level, maxLevel, head)
    {
      var l := 0;
      while l < |update|
        invariant 0 <= l <= |update| && Towers() && HoldsOf(order, contents) && Rewired(order, heights, node, upd, l)
      {
        assert IsPredecessor(heights, f, upd[l], 0 + l) && update[l] == order[upd[l]];
        LinkLevel(node, update[l], l, upd);
        l := l + 1;
      }
      PlacedShape(order, heights, contents, level, maxLevel, head, node, update, upd, f);
    }

    /** Levels that come into use for the first time hang off the head. */
    method RaiseLevel(height: nat, update: seq<SkipNode>, ghost upd: seq<nat>, ghost f: nat)
      returns (preds: seq<SkipNode>, ghost at: seq<nat>)
      requires Shaped() && 1 <= height <= maxLevel && f < |order|
      requires |update| == level && Recorded(order, heights, f, update, upd, 0)
      modifies this`level
      ensures Shaped() && height <= level
      ensures |preds| == height && Recorded(order, heights, f, preds, at, 0)
    {
      preds, at := PadWithHead(height, update, upd, f);
      if height > level { level := height; }
    }

    method PadWithHead(height: nat, update: seq<SkipNode>, ghost upd: seq<nat>, ghost f: nat)
      returns (preds: seq<SkipNode>, ghost at: seq<nat>)
      requires Towers() && height <= maxLevel && f < |order|
      requires |update| == level && Recorded(order, heights, f, update, upd, 0)
      ensures |preds| == height && Recorded(order, heights, f, preds, at, 0)
    {
      preds, at := update, upd;
      while |preds| < height
        invariant |preds| >= level && Recorded(order, heights, f, preds, at, 0)
        decreases height - |preds|
      {
        HeadIsPredecessor(|preds|, f);
        preds, at := preds + [head], at + [0];
      }
      preds, at := preds[..height], at[..height];
    }

    /** Create a tower and link it in behind position `f`. */
    method Place(key: Bytes, value: Value, preds: seq<SkipNode>, ghost at: seq<nat>, ghost f: nat)
      requires Shaped() && f < |order|
      requires 1 <= |preds| <= level && Recorded(order, heights, f, preds, at, 0)
      modifies order`next, this`order, this`heights, this`contents
      ensures Shaped()
      ensures forall n :: n in order ==> n in old(order) || fresh(n)
      ensures contents == InsertAt(old(contents), f, Entry(key, value))
    {
      assert |order| == |heights| == |contents| + 1 && |preds| == |at|;
      hide ShapeOf, Recorded, InsertAt;
      var node := new SkipNode(|preds|, key, value);
      LinkIn(node, preds, at, f);
      InsertAtMembers(order, f + 1, node);
      order, heights, contents := InsertAt(order, f + 1, node), InsertAt<nat>(heights, f + 1, |at|),
                                  InsertAt(contents, f, Entry(key, value));
    }

    method PlaceAtHeight(key: Bytes, value: Value, height: nat, update: seq<SkipNode>, ghost upd: seq<nat>,
                         ghost f: nat)
      requires Shaped() && 1 <= height <= maxLevel && f < |order|
      requires |update| == level && Recorded(order, heights, f, update, upd, 0)
      modifies order`next, this`order, this`heights, this`contents, this`level
      ensures Shaped()
      ensures forall n :: n in order ==> n in old(order) || fresh(n)
      ensures contents == InsertAt(old(contents), f, Entry(key, value))
    {
      var preds, at := RaiseLevel(height, update, upd, f);
      Place(key, value, preds, at, f);
    }

    /** `insert` at a key that is not there: a new tower of the chosen height. */
    method InsertNew(key: Bytes, value: Value, height: nat, update: seq<SkipNode>, ghost upd: seq<nat>)
      requires Valid() && 1 <= height <= maxLevel
      requires |update| == level && Recorded(order, heights, FirstGTE(contents, key), update, upd, 0)
      requires var f := FirstGTE(contents, key); f < |contents| ==> contents[f].key != key
      modifies this, order
      ensures Valid() && contents == Upsert(old(contents), key, value)
      ensures byteSize == old(byteSize) + |key| + ValueBytes(value)
      ensures forall n :: n in order ==> n in old(order) || fresh(n)
    {
      hide ShapeOf, Recorded, TableBytes, Upsert, FirstGTE;
      HeadOf();
      InsertIsUpsert(contents, key, value);
      size := size + 1;
      byteSize := byteSize + |key| + ValueBytes(value);
      PlaceAtHeight(key, value, height, update, upd, FirstGTE(contents, key));
    }

    /** `insert` at a key that is there: the value changes in place. */
    method Overwrite(n: SkipNode, value: Value, ghost f: nat)
      requires Valid() && f < |contents| && n == order[f + 1]
      modifies this`contents, this`byteSize, n`value
      ensures Valid()
      ensures contents == old(contents)[f := Entry(n.key, value)]
      ensures byteSize == old(byteSize) + ValueBytes(value) - ValueBytes(old(n.value))
    {
      hide TableBytes, Ascending, Lookup, NextTall;
      OverwriteBytes(contents, f, value);
      byteSize := byteSize + ValueBytes(value) - ValueBytes(n.value);
      n.value := value;
      contents := contents[f := Entry(n.key, value)];
    }

    /** `insert`, for whatever height the coin gives: map update on the contents, with the exact change
        in bytes as its result. */
    method Insert(key: Bytes, value: Value, height: nat) returns (delta: int)
      requires Valid() && 1 <= height <= maxLevel
      modifies this, order
      ensures Valid() && contents == Upsert(old(contents), key, value)
      ensures byteSize == old(byteSize) + delta
      ensures forall n :: n in order ==> n in old(order) || fresh(n)
    {
      ghost var f := FirstGTE(contents, key);
      var p, update, upd := DescendRecording(key);
      NextAtBottom(f);
      var n := p.next[0];
      if n != null {
        assert contents[f] == Entry(n.key, n.value);
        if n.key == key {
          delta := ValueBytes(value) - ValueBytes(n.value);
          Overwrite(n, value, f);
          return;
        }
      }
      delta := |key| + ValueBytes(value);
      InsertNew(key, value, height, update, upd);
    }

    lemma {:induction false} HeadIsPredecessor(l: nat, f: nat)
      requires Towers() && level <= l < maxLevel && f < |order|
      ensures IsPredecessor(heights, f, 0, l)
    {
      NextTallUnique(heights, 0, l, |heights|);
    }
  }
}
