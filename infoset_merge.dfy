/** Merging the information sets of two identically shaped subtrees of a `Tree`: both
    corresponding nodes get the smaller of their two labels when a game-specific test says
    they belong together, and the walk goes on over corresponding children. The Kuhn and
    Leduc builders each call this walk with their own test. */
module InfosetMerge {
  import opened Wrappers
  import opened GameTree

  function Min(a: int, b: int): int
  {
    if a <= b then a else b
  }

  /** `b` is `a` with some information-set labels lowered: the same records in the same
      places, each with the same fields apart from its label, which is never higher. */
  ghost predicate Relabelled(a: seq<NodeRec>, b: seq<NodeRec>)
  {
    |a| == |b| && forall j :: 0 <= j < |a| ==> b[j] == a[j].(infoset := b[j].infoset) && b[j].infoset <= a[j].infoset
  }

  lemma RelabelledTrans(a: seq<NodeRec>, b: seq<NodeRec>, c: seq<NodeRec>)
    requires Relabelled(a, b) && Relabelled(b, c)
    ensures Relabelled(a, c)
  {
    forall j | 0 <= j < |a| ensures c[j] == a[j].(infoset := c[j].infoset) && c[j].infoset <= a[j].infoset {
      assert b[j] == a[j].(infoset := b[j].infoset);
    }
  }

  /** Lowering labels keeps the table linked and within its bounds. */
  lemma RelabelKeepsValid(a: seq<NodeRec>, b: seq<NodeRec>, d: int, h: int)
    requires Linked(a) && Bounded(a, d, h) && Relabelled(a, b)
    ensures Linked(b) && Bounded(b, d, h)
  {
    forall i | 0 <= i < |b| ensures WellLinked(b, i) {
      assert WellLinked(a, i);
      var r := a[i];
      assert b[i] == r.(infoset := b[i].infoset);
      if i > 0 {
        assert b[r.parent] == a[r.parent].(infoset := b[r.parent].infoset);
      }
      forall k | 0 <= k < |r.children|
        ensures b[r.children[k]].parent == i && b[r.children[k]].incomingAction == Some(k)
      {
        assert b[r.children[k]] == a[r.children[k]].(infoset := b[r.children[k]].infoset);
      }
    }
    forall i | 0 <= i < |b| ensures b[i].depth <= d && (1 <= i && b[i].kind == DecisionKind ==> b[i].infoset <= h) {
      assert b[i] == a[i].(infoset := b[i].infoset);
    }
  }

  /** Node `j` lies in the subtree rooted at node `x`: following parents from `j` reaches `x`. */
  ghost predicate Below(ns: seq<NodeRec>, j: int, x: int)
    decreases j
  {
    0 <= x <= j < |ns| && (j == x || (0 <= ns[j].parent < j && Below(ns, ns[j].parent, x)))
  }

  /** Neither node lies in the other's subtree. */
  ghost predicate Apart(ns: seq<NodeRec>, a: int, b: int)
  {
    !Below(ns, a, b) && !Below(ns, b, a)
  }

  /** Relabelling leaves every parent link, hence every subtree, as it was. */
  lemma {:induction false} BelowKept(a: seq<NodeRec>, b: seq<NodeRec>, j: int, x: int)
    requires Relabelled(a, b)
    ensures Below(a, j, x) == Below(b, j, x)
    decreases j
  {
    if 0 <= x < j < |a| {
      assert b[j] == a[j].(infoset := b[j].infoset);
      if 0 <= a[j].parent < j {
        BelowKept(a, b, a[j].parent, x);
      }
    }
  }

  /** The subtree of a child lies in the subtree of its parent. */
  lemma {:induction false} BelowChild(ns: seq<NodeRec>, j: int, c: int, x: int)
    requires Below(ns, j, c) && 0 <= x < c && ns[c].parent == x
    ensures Below(ns, j, x)
    decreases j
  {
    if j != c {
      BelowChild(ns, ns[j].parent, c, x);
    }
  }

  /** The subtree of `b` has room for the subtree of `a`: `a` is a leaf, or `b` has at least
      as many children as `a` and each child of `a` fits the child of `b` at its index. This
      is when the walk over corresponding children never runs out of children of `b`. */
  ghost predicate Fits(ns: seq<NodeRec>, a: nat, b: nat)
    requires Linked(ns) && a < |ns| && b < |ns|
    decreases |ns| - a
  {
    assert WellLinked(ns, a) && WellLinked(ns, b);
    ns[a].kind == LeafKind
    || (|ns[a].children| <= |ns[b].children|
        && forall k :: 0 <= k < |ns[a].children| ==> Fits(ns, ns[a].children[k], ns[b].children[k]))
  }

  /** Fitting depends on kinds and children only, which relabelling keeps. */
  lemma {:induction false} FitsKept(a: seq<NodeRec>, b: seq<NodeRec>, x: nat, y: nat)
    requires Linked(a) && Linked(b) && Relabelled(a, b) && x < |a| && y < |a|
    ensures Fits(a, x, y) == Fits(b, x, y)
    decreases |a| - x
  {
    assert WellLinked(a, x) && WellLinked(a, y);
    assert b[x] == a[x].(infoset := b[x].infoset) && b[y] == a[y].(infoset := b[y].infoset);
    forall k | 0 <= k < |a[x].children| && k < |a[y].children|
      ensures Fits(a, a[x].children[k], a[y].children[k]) == Fits(b, b[x].children[k], b[y].children[k])
    {
      FitsKept(a, b, a[x].children[k], a[y].children[k]);
    }
  }

  /** The pair of corresponding nodes the walk from `x` and `y` reaches along the child
      indices `path`: it stops below a leaf on the first side, and where either side has no
      child at an index. */
  ghost function Pair(ns: seq<NodeRec>, x: nat, y: nat, path: seq<nat>): (r: Option<(nat, nat)>)
    requires Linked(ns) && x < |ns| && y < |ns|
    ensures r.Some? ==> r.value.0 < |ns| && r.value.1 < |ns|
    decreases |path|
  {
    assert WellLinked(ns, x) && WellLinked(ns, y);
    if path == [] then Some((x, y))
    else if ns[x].kind == LeafKind || path[0] >= |ns[x].children| || path[0] >= |ns[y].children| then None
    else Pair(ns, ns[x].children[path[0]], ns[y].children[path[0]], path[1..])
  }

  /** What the walk leaves at a pair it reaches: when the first node is not a leaf and `same`
      holds of the two records, both carry the smaller of their labels; otherwise both keep
      their own. */
  ghost predicate PairDone(base: seq<NodeRec>, cur: seq<NodeRec>, x: nat, y: nat, same: (NodeRec, NodeRec) -> bool)
    requires x < |base| && y < |base| && |cur| == |base|
  {
    if base[x].kind != LeafKind && same(base[x], base[y]) then
      cur[x].infoset == Min(base[x].infoset, base[y].infoset) && cur[y].infoset == Min(base[x].infoset, base[y].infoset)
    else
      cur[x].infoset == base[x].infoset && cur[y].infoset == base[y].infoset
  }

  /** Every pair the walk from `x` and `y` reaches in `base` is done in `cur`. */
  ghost predicate DoneBelow(base: seq<NodeRec>, cur: seq<NodeRec>, x: nat, y: nat, same: (NodeRec, NodeRec) -> bool)
    requires Linked(base) && x < |base| && y < |base|
  {
    |cur| == |base| &&
    forall path :: Pair(base, x, y, path).Some? ==>
      PairDone(base, cur, Pair(base, x, y, path).value.0, Pair(base, x, y, path).value.1, same)
  }

  /** The walk's pairs depend on kinds and children only, which relabelling keeps. */
  lemma {:induction false} PairKept(a: seq<NodeRec>, b: seq<NodeRec>, x: nat, y: nat, path: seq<nat>)
    requires Linked(a) && Linked(b) && Relabelled(a, b) && x < |a| && y < |a|
    ensures Pair(a, x, y, path) == Pair(b, x, y, path)
    decreases |path|
  {
    assert WellLinked(a, x) && WellLinked(a, y);
    assert b[x] == a[x].(infoset := b[x].infoset) && b[y] == a[y].(infoset := b[y].infoset);
    if path != [] && a[x].kind != LeafKind && path[0] < |a[x].children| && path[0] < |a[y].children| {
      PairKept(a, b, a[x].children[path[0]], a[y].children[path[0]], path[1..]);
    }
  }

  /** A pair reached from `x` and `y` lies in their subtrees. */
  lemma {:induction false} PairBelow(ns: seq<NodeRec>, x: nat, y: nat, path: seq<nat>)
    requires Linked(ns) && x < |ns| && y < |ns| && Pair(ns, x, y, path).Some?
    ensures Below(ns, Pair(ns, x, y, path).value.0, x) && Below(ns, Pair(ns, x, y, path).value.1, y)
    decreases |path|
  {
    assert WellLinked(ns, x) && WellLinked(ns, y);
    if path != [] {
      var c1, c2 := ns[x].children[path[0]], ns[y].children[path[0]];
      PairBelow(ns, c1, c2, path[1..]);
      BelowChild(ns, Pair(ns, x, y, path).value.0, c1, x);
      BelowChild(ns, Pair(ns, x, y, path).value.1, c2, y);
    }
  }

  /** A pair reached along a non-empty path is reached from the children at its first index. */
  lemma PairFirst(ns: seq<NodeRec>, x: nat, y: nat, path: seq<nat>)
    requires Linked(ns) && x < |ns| && y < |ns| && path != [] && Pair(ns, x, y, path).Some?
    ensures WellLinked(ns, x) && WellLinked(ns, y)
    ensures ns[x].kind != LeafKind && path[0] < |ns[x].children| && path[0] < |ns[y].children|
    ensures Pair(ns, x, y, path) == Pair(ns, ns[x].children[path[0]], ns[y].children[path[0]], path[1..])
  {
    assert WellLinked(ns, x) && WellLinked(ns, y);
  }

  /** The ancestors of a node form a chain: of two subtrees holding it, one holds the other. */
  lemma {:induction false} BelowChain(ns: seq<NodeRec>, j: int, a: int, b: int)
    requires Below(ns, j, a) && Below(ns, j, b)
    ensures Below(ns, a, b) || Below(ns, b, a)
    decreases j
  {
    if j != a && j != b {
      BelowChain(ns, ns[j].parent, a, b);
    }
  }

  /** A node below one child is not below another child of the same parent. */
  lemma SiblingsApart(ns: seq<NodeRec>, n: nat, k: nat, k': nat, j: int)
    requires Linked(ns) && n < |ns| && k < k' < |ns[n].children|
    ensures WellLinked(ns, n)
    ensures !(Below(ns, j, ns[n].children[k]) && Below(ns, j, ns[n].children[k']))
  {
    assert WellLinked(ns, n);
    var c, c' := ns[n].children[k], ns[n].children[k'];
    assert ns[c].incomingAction == Some(k) && ns[c'].incomingAction == Some(k');
    if Below(ns, j, c) && Below(ns, j, c') {
      BelowChain(ns, j, c, c');
    }
  }

  /** Two children of one node are apart from each other. */
  lemma SiblingNodesApart(ns: seq<NodeRec>, n: nat, k: nat, k': nat)
    requires Linked(ns) && n < |ns| && k < k' < |ns[n].children|
    ensures WellLinked(ns, n) && Apart(ns, ns[n].children[k], ns[n].children[k'])
  {
    var c, c' := ns[n].children[k], ns[n].children[k'];
    SiblingsApart(ns, n, k, k', c);
    SiblingsApart(ns, n, k, k', c');
    assert Below(ns, c, c) && Below(ns, c', c');
  }

  /** A node below `a` is below no node apart from `a`. */
  lemma ApartBelow(ns: seq<NodeRec>, a: int, b: int, j: int)
    requires Apart(ns, a, b) && Below(ns, j, a)
    ensures !Below(ns, j, b)
  {
    if Below(ns, j, b) {
      BelowChain(ns, j, a, b);
    }
  }

  /** The children of two nodes apart from each other are apart from each other. */
  lemma ChildrenApart(ns: seq<NodeRec>, n1: nat, n2: nat, i: nat)
    requires Linked(ns) && n1 < |ns| && n2 < |ns| && Apart(ns, n1, n2)
    requires WellLinked(ns, n1) && WellLinked(ns, n2) && i < |ns[n1].children| && i < |ns[n2].children|
    ensures Apart(ns, ns[n1].children[i], ns[n2].children[i])
  {
    var c1, c2 := ns[n1].children[i], ns[n2].children[i];
    BelowChild(ns, c1, c1, n1);
    BelowChild(ns, c2, c2, n2);
    if Below(ns, c1, c2) {
      BelowChild(ns, c1, c2, n2);
      BelowChain(ns, c1, n1, n2);
    }
    if Below(ns, c2, c1) {
      BelowChild(ns, c2, c1, n1);
      BelowChain(ns, c2, n1, n2);
    }
  }

  /** A node below the `k`-th child of `n1` is below neither `i`-th child of `n1` and `n2`,
      for `i` other than `k`, when `n1` and `n2` are apart. */
  lemma OutsideChild(ns: seq<NodeRec>, n1: nat, n2: nat, k: nat, i: nat, j: int)
    requires Linked(ns) && n1 < |ns| && n2 < |ns| && Apart(ns, n1, n2) && WellLinked(ns, n1) && WellLinked(ns, n2)
    requires k < |ns[n1].children| && i < |ns[n1].children| && i < |ns[n2].children| && k != i
    requires Below(ns, j, ns[n1].children[k])
    ensures !Below(ns, j, ns[n1].children[i]) && !Below(ns, j, ns[n2].children[i])
  {
    if k < i {
      SiblingsApart(ns, n1, k, i, j);
    } else {
      SiblingsApart(ns, n1, i, k, j);
    }
    BelowChild(ns, j, ns[n1].children[k], n1);
    ApartBelow(ns, n1, n2, j);
    if Below(ns, j, ns[n2].children[i]) {
      BelowChild(ns, j, ns[n2].children[i], n2);
    }
  }

  /** Node `j` lies below one of the first `i` children of `n1` or of `n2`. */
  ghost predicate Touched(ns: seq<NodeRec>, n1: nat, n2: nat, i: nat, j: int)
    requires Linked(ns) && n1 < |ns| && n2 < |ns|
  {
    assert WellLinked(ns, n1) && WellLinked(ns, n2);
    exists k :: 0 <= k < i && k < |ns[n1].children| && k < |ns[n2].children| &&
      (Below(ns, j, ns[n1].children[k]) || Below(ns, j, ns[n2].children[k]))
  }

  /** The nodes whose labels differ from `start` are `n1`, `n2` and nodes below the first `i`
      children of either. */
  ghost predicate ChangedSoFar(start: seq<NodeRec>, cur: seq<NodeRec>, n1: nat, n2: nat, i: nat)
    requires Linked(start) && n1 < |start| && n2 < |start| && |cur| == |start|
  {
    forall j :: 0 <= j < |cur| && cur[j].infoset != start[j].infoset ==> j == n1 || j == n2 || Touched(start, n1, n2, i, j)
  }

  /** The pairs below the first `i` children of `n1` and `n2` are done. */
  ghost predicate KidsDone(start: seq<NodeRec>, cur: seq<NodeRec>, n1: nat, n2: nat, i: nat, same: (NodeRec, NodeRec) -> bool)
    requires Linked(start) && n1 < |start| && n2 < |start|
  {
    assert WellLinked(start, n1) && WellLinked(start, n2);
    forall k :: 0 <= k < i && k < |start[n1].children| && k < |start[n2].children| ==>
      DoneBelow(start, cur, start[n1].children[k], start[n2].children[k], same)
  }

  /** A round of the loop over the children keeps the pairs done by earlier rounds, since it
      changes labels below the `i`-th children only. */
  lemma KeepsEarlier(start: seq<NodeRec>, before: seq<NodeRec>, after: seq<NodeRec>, n1: nat, n2: nat, i: nat,
                     same: (NodeRec, NodeRec) -> bool)
    requires Linked(start) && n1 < |start| && n2 < |start| && Apart(start, n1, n2)
    requires WellLinked(start, n1) && WellLinked(start, n2)
    requires i < |start[n1].children| && i < |start[n2].children|
    requires |before| == |start| && |after| == |start|
    requires forall j :: 0 <= j < |after| && after[j].infoset != before[j].infoset ==>
      Below(start, j, start[n1].children[i]) || Below(start, j, start[n2].children[i])
    requires KidsDone(start, before, n1, n2, i, same)
    ensures KidsDone(start, after, n1, n2, i, same)
  {
    forall k, path | 0 <= k < i && Pair(start, start[n1].children[k], start[n2].children[k], path).Some?
      ensures PairDone(start, after, Pair(start, start[n1].children[k], start[n2].children[k], path).value.0,
                       Pair(start, start[n1].children[k], start[n2].children[k], path).value.1, same)
    {
      var c1, c2 := start[n1].children[k], start[n2].children[k];
      var xy := Pair(start, c1, c2, path).value;
      assert DoneBelow(start, before, c1, c2, same);
      PairBelow(start, c1, c2, path);
      OutsideChild(start, n1, n2, k, i, xy.0);
      OutsideChild(start, n2, n1, k, i, xy.1);
    }
  }

  /** The pairs below the `i`-th children are done when the round's walk did them on a table
      that agrees with `start` there. */
  lemma AddsRound(start: seq<NodeRec>, before: seq<NodeRec>, after: seq<NodeRec>, n1: nat, n2: nat, i: nat,
                  same: (NodeRec, NodeRec) -> bool)
    requires Linked(start) && Linked(before) && Relabelled(start, before) && n1 < |start| && n2 < |start|
    requires Apart(start, n1, n2) && WellLinked(start, n1) && WellLinked(start, n2)
    requires i < |start[n1].children| && i < |start[n2].children| && |after| == |start|
    requires ChangedSoFar(start, before, n1, n2, i)
    requires DoneBelow(before, after, start[n1].children[i], start[n2].children[i], same)
    ensures DoneBelow(start, after, start[n1].children[i], start[n2].children[i], same)
  {
    var c1, c2 := start[n1].children[i], start[n2].children[i];
    forall path | Pair(start, c1, c2, path).Some?
      ensures PairDone(start, after, Pair(start, c1, c2, path).value.0, Pair(start, c1, c2, path).value.1, same)
    {
      PairKept(start, before, c1, c2, path);
      var xy := Pair(start, c1, c2, path).value;
      PairBelow(start, c1, c2, path);
      Untouched(start, n1, n2, i, xy.0);
      Untouched(start, n2, n1, i, xy.1);
      assert Touched(start, n1, n2, i, xy.1) == Touched(start, n2, n1, i, xy.1);
      assert before[xy.0] == start[xy.0].(infoset := before[xy.0].infoset);
      assert before[xy.1] == start[xy.1].(infoset := before[xy.1].infoset);
    }
  }

  /** A node below the `i`-th child of `n1` is neither `n1` nor `n2` and is not touched by the
      first `i` rounds. */
  lemma Untouched(ns: seq<NodeRec>, n1: nat, n2: nat, i: nat, j: int)
    requires Linked(ns) && n1 < |ns| && n2 < |ns| && Apart(ns, n1, n2) && WellLinked(ns, n1) && WellLinked(ns, n2)
    requires i < |ns[n1].children| && i < |ns[n2].children| && Below(ns, j, ns[n1].children[i])
    ensures j != n1 && j != n2 && !Touched(ns, n1, n2, i, j) && !Touched(ns, n2, n1, i, j)
  {
    BelowChild(ns, j, ns[n1].children[i], n1);
    ApartBelow(ns, n1, n2, j);
    forall k | 0 <= k < i && k < |ns[n1].children| && k < |ns[n2].children|
      ensures !Below(ns, j, ns[n1].children[k]) && !Below(ns, j, ns[n2].children[k])
    {
      OutsideChild(ns, n1, n2, i, k, j);
    }
  }

  /** A round that changes labels below the `i`-th children only leaves the changes within
      the first `i + 1` rounds' reach. */
  lemma ChangedStep(start: seq<NodeRec>, before: seq<NodeRec>, after: seq<NodeRec>, n1: nat, n2: nat, i: nat)
    requires Linked(start) && n1 < |start| && n2 < |start| && WellLinked(start, n1) && WellLinked(start, n2)
    requires i < |start[n1].children| && i < |start[n2].children|
    requires |before| == |start| && |after| == |start| && ChangedSoFar(start, before, n1, n2, i)
    requires forall j :: 0 <= j < |after| && after[j].infoset != before[j].infoset ==>
      Below(start, j, start[n1].children[i]) || Below(start, j, start[n2].children[i])
    ensures ChangedSoFar(start, after, n1, n2, i + 1)
  {
    forall j | 0 <= j < |after| && after[j].infoset != start[j].infoset
      ensures j == n1 || j == n2 || Touched(start, n1, n2, i + 1, j)
    {
      if after[j].infoset != before[j].infoset {
        assert Below(start, j, start[n1].children[i]) || Below(start, j, start[n2].children[i]);
      } else if j != n1 && j != n2 {
        assert Touched(start, n1, n2, i, j);
      }
    }
  }

  /** A round of the loop over the children, from a table `before` reached by the earlier
      rounds, adds the pairs below the `i`-th children and keeps the earlier ones. */
  lemma RoundDone(start: seq<NodeRec>, before: seq<NodeRec>, after: seq<NodeRec>, n1: nat, n2: nat, i: nat,
                  same: (NodeRec, NodeRec) -> bool)
    requires Linked(start) && Linked(before) && Relabelled(start, before) && n1 < |start| && n2 < |start|
    requires Apart(start, n1, n2) && WellLinked(start, n1) && WellLinked(start, n2)
    requires i < |start[n1].children| && i < |start[n2].children| && |after| == |start|
    requires ChangedSoFar(start, before, n1, n2, i) && KidsDone(start, before, n1, n2, i, same)
    requires forall j :: 0 <= j < |after| && after[j].infoset != before[j].infoset ==>
      Below(start, j, start[n1].children[i]) || Below(start, j, start[n2].children[i])
    requires DoneBelow(before, after, start[n1].children[i], start[n2].children[i], same)
    ensures ChangedSoFar(start, after, n1, n2, i + 1) && KidsDone(start, after, n1, n2, i + 1, same)
  {
    AddsRound(start, before, after, n1, n2, i, same);
    KeepsEarlier(start, before, after, n1, n2, i, same);
    ChangedStep(start, before, after, n1, n2, i);
  }

  /** The pairs below all corresponding children and the pair of the two nodes themselves make
      up every pair of the walk. */
  lemma DoneFromKids(start: seq<NodeRec>, cur: seq<NodeRec>, n1: nat, n2: nat, same: (NodeRec, NodeRec) -> bool)
    requires Linked(start) && n1 < |start| && n2 < |start| && |cur| == |start|
    requires PairDone(start, cur, n1, n2, same)
    requires KidsDone(start, cur, n1, n2, |start[n1].children|, same)
    ensures DoneBelow(start, cur, n1, n2, same)
  {
    forall path | Pair(start, n1, n2, path).Some?
      ensures PairDone(start, cur, Pair(start, n1, n2, path).value.0, Pair(start, n1, n2, path).value.1, same)
    {
      if path != [] {
        PairFirst(start, n1, n2, path);
        assert DoneBelow(start, cur, start[n1].children[path[0]], start[n2].children[path[0]], same);
      }
    }
  }

  /** Sets the label of node `j` to `h`, no higher than its current label. */
  method SetLabel(tree: Tree, j: nat, h: int)
    requires tree.Valid() && j < |tree.nodes| && h <= tree.nodes[j].infoset
    modifies tree
    ensures tree.Valid()
    ensures tree.nodeCount == old(tree.nodeCount) && tree.infosetCount == old(tree.infosetCount)
    ensures tree.maxInfoset == old(tree.maxInfoset) && tree.numOfPlayers == old(tree.numOfPlayers)
    ensures tree.maxDepth == old(tree.maxDepth)
    ensures tree.nodes == old(tree.nodes)[j := old(tree.nodes[j]).(infoset := h)]
    ensures Relabelled(old(tree.nodes), tree.nodes)
  {
    var ns := tree.nodes[j := tree.nodes[j].(infoset := h)];
    assert Relabelled(tree.nodes, ns);
    RelabelKeepsValid(tree.nodes, ns, tree.maxDepth, tree.maxInfoset);
    tree.nodes := ns;
  }

  /** `create_information_sets(node1, node2, …)`: nothing happens below a leaf `node1`;
      otherwise, when `same` holds of the two nodes, both get the smaller of their labels, and
      the walk goes on over each child of `node1` with the child of `node2` at the same index.
      `ok` is false where Python raises an IndexError, `node2` having fewer children: this
      happens exactly when the subtree of `n2` does not fit that of `n1`. Only labels change,
      none rises, and only within the two subtrees; when neither node lies under the other,
      the walk below them leaves the labels just given to `n1` and `n2` as they are. */
  method MergeCorresponding(tree: Tree, n1: nat, n2: nat, same: (NodeRec, NodeRec) -> bool) returns (ok: bool)
    requires tree.Valid() && n1 < |tree.nodes| && n2 < |tree.nodes|
    modifies tree
    ensures tree.Valid()
    ensures tree.nodeCount == old(tree.nodeCount) && tree.infosetCount == old(tree.infosetCount)
    ensures tree.maxInfoset == old(tree.maxInfoset) && tree.numOfPlayers == old(tree.numOfPlayers)
    ensures tree.maxDepth == old(tree.maxDepth)
    ensures Relabelled(old(tree.nodes), tree.nodes)
    ensures ok == Fits(old(tree.nodes), n1, n2)
    ensures forall j :: 0 <= j < |tree.nodes| && tree.nodes[j].infoset != old(tree.nodes[j].infoset) ==>
      Below(old(tree.nodes), j, n1) || Below(old(tree.nodes), j, n2)
    ensures old(tree.nodes[n1].kind) == LeafKind ==> tree.nodes == old(tree.nodes)
    ensures old(tree.nodes[n1].kind) != LeafKind && Apart(old(tree.nodes), n1, n2) ==>
      var r1, r2 := old(tree.nodes[n1]), old(tree.nodes[n2]);
      var h := Min(r1.infoset, r2.infoset);
      (same(r1, r2) ==> tree.nodes[n1].infoset == h && tree.nodes[n2].infoset == h)
      && (!same(r1, r2) ==> tree.nodes[n1].infoset == r1.infoset && tree.nodes[n2].infoset == r2.infoset)
    ensures ok && Apart(old(tree.nodes), n1, n2) ==> DoneBelow(old(tree.nodes), tree.nodes, n1, n2, same)
    decreases |tree.nodes| - n1, 2
  {
    ghost var start := tree.nodes;
    if tree.nodes[n1].kind == LeafKind {
      assert WellLinked(start, n1);
      return true;
    }
    if same(tree.nodes[n1], tree.nodes[n2]) {
      var h := Min(tree.nodes[n1].infoset, tree.nodes[n2].infoset);
      SetLabel(tree, n1, h);
      ghost var mid := tree.nodes;
      SetLabel(tree, n2, h);
      RelabelledTrans(start, mid, tree.nodes);
    }
    ok := MergeChildren(tree, n1, n2, same, start);
    if ok && Apart(start, n1, n2) {
      DoneFromKids(start, tree.nodes, n1, n2, same);
    }
  }

  /** The loop of that walk over the children of `n1`, from a table `start` that only the
      labels of `n1` and `n2` set it apart from. */
  method MergeChildren(tree: Tree, n1: nat, n2: nat, same: (NodeRec, NodeRec) -> bool, ghost start: seq<NodeRec>)
    returns (ok: bool)
    requires tree.Valid() && n1 < |tree.nodes| && n2 < |tree.nodes| && Linked(start)
    requires Relabelled(start, tree.nodes) && start[n1].kind != LeafKind
    requires forall j :: 0 <= j < |start| && tree.nodes[j].infoset != start[j].infoset ==> j == n1 || j == n2
    modifies tree
    ensures tree.Valid()
    ensures tree.nodeCount == old(tree.nodeCount) && tree.infosetCount == old(tree.infosetCount)
    ensures tree.maxInfoset == old(tree.maxInfoset) && tree.numOfPlayers == old(tree.numOfPlayers)
    ensures tree.maxDepth == old(tree.maxDepth)
    ensures Relabelled(start, tree.nodes)
    ensures ok == Fits(start, n1, n2)
    ensures forall j :: 0 <= j < |tree.nodes| && tree.nodes[j].infoset != start[j].infoset ==>
      Below(start, j, n1) || Below(start, j, n2)
    ensures Apart(start, n1, n2) ==>
      tree.nodes[n1].infoset == old(tree.nodes[n1].infoset) && tree.nodes[n2].infoset == old(tree.nodes[n2].infoset)
    ensures ok && Apart(start, n1, n2) ==> KidsDone(start, tree.nodes, n1, n2, |start[n1].children|, same)
    decreases |tree.nodes| - n1, 1
  {
    ghost var entry := tree.nodes;
    assert WellLinked(start, n1) && WellLinked(start, n2);
    var cs1 := tree.nodes[n1].children;
    var cs2 := tree.nodes[n2].children;
    assert cs1 == start[n1].children && cs2 == start[n2].children by {
      assert tree.nodes[n1] == start[n1].(infoset := tree.nodes[n1].infoset);
      assert tree.nodes[n2] == start[n2].(infoset := tree.nodes[n2].infoset);
    }
    FitsKept(start, tree.nodes, n1, n2);
    ok := true;
    for i := 0 to |cs1|
      invariant ok
      invariant tree.Valid() && |tree.nodes| == |start|
      invariant tree.nodeCount == old(tree.nodeCount) && tree.infosetCount == old(tree.infosetCount)
      invariant tree.maxInfoset == old(tree.maxInfoset) && tree.numOfPlayers == old(tree.numOfPlayers)
      invariant tree.maxDepth == old(tree.maxDepth)
      invariant ChildrenFit(start, cs1, cs2, i)
      invariant Progress(start, entry, tree.nodes, n1, n2, i, same)
    {
      if i >= |cs2| {
        assert !Fits(start, n1, n2);
        ok := false;
        break;
      }
      ok := MergeChild(tree, n1, n2, i, same, start, entry);
      if !ok {
        assert !Fits(start, n1, n2);
        break;
      }
      FitsUpTo(start, cs1, cs2, i);
    }
  }

  /** The labels of `cur` are those of `start` but for some below `n1` or `n2`, and when those
      two are apart their own labels are still those of `entry`. */
  ghost predicate Kept(start: seq<NodeRec>, entry: seq<NodeRec>, cur: seq<NodeRec>, n1: nat, n2: nat)
    requires n1 < |start| && n2 < |start| && |entry| == |start|
  {
    Relabelled(start, cur) &&
    (forall j :: 0 <= j < |cur| && cur[j].infoset != start[j].infoset ==> Below(start, j, n1) || Below(start, j, n2)) &&
    (Apart(start, n1, n2) ==> cur[n1].infoset == entry[n1].infoset && cur[n2].infoset == entry[n2].infoset)
  }

  /** After `i` rounds of the loop over the children: `Kept`, and when `n1` and `n2` are apart,
      the changes lie within the rounds' reach and the rounds' pairs are done. */
  ghost predicate Progress(start: seq<NodeRec>, entry: seq<NodeRec>, cur: seq<NodeRec>, n1: nat, n2: nat, i: nat,
                           same: (NodeRec, NodeRec) -> bool)
    requires Linked(start) && n1 < |start| && n2 < |start| && |entry| == |start|
  {
    Kept(start, entry, cur, n1, n2) &&
    (Apart(start, n1, n2) ==> ChangedSoFar(start, cur, n1, n2, i) && KidsDone(start, cur, n1, n2, i, same))
  }

  /** The first `n` children in `cs1` fit the children at the same indices in `cs2`. */
  ghost predicate ChildrenFit(ns: seq<NodeRec>, cs1: seq<nat>, cs2: seq<nat>, n: nat)
    requires Linked(ns) && n <= |cs1| && forall k :: 0 <= k < |cs1| ==> cs1[k] < |ns|
    requires forall k :: 0 <= k < |cs2| ==> cs2[k] < |ns|
  {
    n <= |cs2| && forall k :: 0 <= k < n ==> Fits(ns, cs1[k], cs2[k])
  }

  lemma FitsUpTo(ns: seq<NodeRec>, cs1: seq<nat>, cs2: seq<nat>, i: nat)
    requires Linked(ns) && i < |cs1| && i < |cs2|
    requires forall k :: 0 <= k < |cs1| ==> cs1[k] < |ns|
    requires forall k :: 0 <= k < |cs2| ==> cs2[k] < |ns|
    requires ChildrenFit(ns, cs1, cs2, i) && Fits(ns, cs1[i], cs2[i])
    ensures ChildrenFit(ns, cs1, cs2, i + 1)
  {
  }

  /** One round of that loop: the walk from the `i`-th children of `n1` and `n2`. */
  method MergeChild(tree: Tree, n1: nat, n2: nat, i: nat, same: (NodeRec, NodeRec) -> bool,
                    ghost start: seq<NodeRec>, ghost entry: seq<NodeRec>)
    returns (ok: bool)
    requires tree.Valid() && n1 < |start| && n2 < |start| && Linked(start) && |entry| == |start|
    requires WellLinked(start, n1) && WellLinked(start, n2)
    requires i < |start[n1].children| && i < |start[n2].children|
    requires Progress(start, entry, tree.nodes, n1, n2, i, same)
    modifies tree
    ensures tree.Valid()
    ensures tree.nodeCount == old(tree.nodeCount) && tree.infosetCount == old(tree.infosetCount)
    ensures tree.maxInfoset == old(tree.maxInfoset) && tree.numOfPlayers == old(tree.numOfPlayers)
    ensures tree.maxDepth == old(tree.maxDepth)
    ensures ok == Fits(start, start[n1].children[i], start[n2].children[i])
    ensures Kept(start, entry, tree.nodes, n1, n2)
    ensures ok ==> Progress(start, entry, tree.nodes, n1, n2, i + 1, same)
    decreases |start| - n1, 0
  {
    ghost var before := tree.nodes;
    assert tree.nodes[n1] == start[n1].(infoset := tree.nodes[n1].infoset);
    assert tree.nodes[n2] == start[n2].(infoset := tree.nodes[n2].infoset);
    var c1 := tree.nodes[n1].children[i];
    var c2 := tree.nodes[n2].children[i];
    if Apart(start, n1, n2) {
      ChildrenApart(start, n1, n2, i);
      BelowKept(start, before, c1, c2);
      BelowKept(start, before, c2, c1);
    }
    ok := MergeCorresponding(tree, c1, c2, same);
    FitsKept(start, before, c1, c2);
    ChildAfter(start, entry, before, tree.nodes, n1, n2, i, same, ok);
  }

  /** The new changes of a round lie below its children in `start` too. */
  lemma ChangesBelow(start: seq<NodeRec>, before: seq<NodeRec>, after: seq<NodeRec>, c1: nat, c2: nat)
    requires Relabelled(start, before) && |after| == |before|
    requires forall j :: 0 <= j < |after| && after[j].infoset != before[j].infoset ==>
      Below(before, j, c1) || Below(before, j, c2)
    ensures forall j :: 0 <= j < |after| && after[j].infoset != before[j].infoset ==>
      Below(start, j, c1) || Below(start, j, c2)
  {
    forall j | 0 <= j < |after| && after[j].infoset != before[j].infoset
      ensures Below(start, j, c1) || Below(start, j, c2)
    {
      BelowKept(start, before, j, c1);
      BelowKept(start, before, j, c2);
    }
  }

  /** A round whose changes lie below the `i`-th children keeps `Kept`. */
  lemma KeptStep(start: seq<NodeRec>, entry: seq<NodeRec>, before: seq<NodeRec>, after: seq<NodeRec>, n1: nat, n2: nat, i: nat)
    requires Linked(start) && n1 < |start| && n2 < |start| && WellLinked(start, n1) && WellLinked(start, n2)
    requires |entry| == |start| && i < |start[n1].children| && i < |start[n2].children|
    requires Kept(start, entry, before, n1, n2) && Relabelled(before, after)
    requires forall j :: 0 <= j < |after| && after[j].infoset != before[j].infoset ==>
      Below(start, j, start[n1].children[i]) || Below(start, j, start[n2].children[i])
    ensures Kept(start, entry, after, n1, n2)
  {
    var c1, c2 := start[n1].children[i], start[n2].children[i];
    RelabelledTrans(start, before, after);
    forall j | 0 <= j < |after| && after[j].infoset != start[j].infoset
      ensures Below(start, j, n1) || Below(start, j, n2)
    {
      if after[j].infoset != before[j].infoset {
        if Below(start, j, c1) {
          BelowChild(start, j, c1, n1);
        } else {
          BelowChild(start, j, c2, n2);
        }
      }
    }
    if Apart(start, n1, n2) {
      if Below(start, n1, c2) {
        BelowChild(start, n1, c2, n2);
      }
      if Below(start, n2, c1) {
        BelowChild(start, n2, c1, n1);
      }
      assert !Below(start, n1, c1) && !Below(start, n2, c2);
    }
  }

  /** A round of the loop over the children, from `before` to `after`, in terms of `start`. */
  lemma ChildAfter(start: seq<NodeRec>, entry: seq<NodeRec>, before: seq<NodeRec>, after: seq<NodeRec>,
                   n1: nat, n2: nat, i: nat, same: (NodeRec, NodeRec) -> bool, ok: bool)
    requires Linked(start) && Linked(before) && n1 < |start| && n2 < |start| && WellLinked(start, n1) && WellLinked(start, n2)
    requires |entry| == |start| && i < |start[n1].children| && i < |start[n2].children|
    requires Progress(start, entry, before, n1, n2, i, same) && Relabelled(before, after)
    requires forall j :: 0 <= j < |after| && after[j].infoset != before[j].infoset ==>
      Below(before, j, start[n1].children[i]) || Below(before, j, start[n2].children[i])
    requires ok && Apart(start, n1, n2) ==> DoneBelow(before, after, start[n1].children[i], start[n2].children[i], same)
    ensures Kept(start, entry, after, n1, n2)
    ensures ok ==> Progress(start, entry, after, n1, n2, i + 1, same)
  {
    ChangesBelow(start, before, after, start[n1].children[i], start[n2].children[i]);
    KeptStep(start, entry, before, after, n1, n2, i);
    if ok && Apart(start, n1, n2) {
      RoundDone(start, before, after, n1, n2, i, same);
    }
  }
}
