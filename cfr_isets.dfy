/** The information sets of a `CFRTree` as a graph: from an information set, an action leads
    to the information sets of the same player reached next (`children_infoset`). The walks
    over this graph (`computeReachability`, `updateSupportingPlan`) terminate because every
    edge goes strictly deeper into the tree, which perfect recall guarantees. */
module CfrIsets {
  import opened Wrappers
  import opened Dicts
  import opened GameTree
  import opened CfrTrees

  // ---------------------------------------------------------------------------------------
  // Depth of the tree and of an information set.

  /** The length of the longest path from `n` to a leaf. */
  function Height(n: Node): nat
    decreases n, |ChildrenOf(n)| + 1
  {
    if n.Leaf? then 0 else 1 + HeightUnder(n, |n.children|)
  }

  /** The greatest height among children `0 .. k - 1` of `n`. */
  function HeightUnder(n: Node, k: nat): nat
    requires !n.Leaf? && k <= |n.children|
    decreases n, k
  {
    if k == 0 then 0
    else
      var a := HeightUnder(n, k - 1);
      var b := Height(n.children[k - 1]);
      if a < b then b else a
  }

  lemma {:induction false} HeightUnderHas(n: Node, k: nat, i: nat)
    requires !n.Leaf? && k <= |n.children| && i < k
    ensures Height(n.children[i]) <= HeightUnder(n, k)
    decreases k
  {
    if i < k - 1 {
      HeightUnderHas(n, k - 1, i);
    }
  }

  /** No path of the tree is longer than its height. */
  lemma {:induction false} HeightBound(n: Node, p: seq<int>)
    requires ValidPath(n, p)
    ensures |p| <= Height(n)
    decreases |p|
  {
    if p != [] {
      HeightBound(n.children[p[0]], p[1..]);
      HeightUnderHas(n, |n.children|, p[0]);
    }
  }

  /** Walking `x` and then `q` is walking `x + q`. */
  lemma {:induction false} AtConcat(n: Node, x: seq<int>, q: seq<int>)
    requires ValidPath(n, x) && ValidPath(At(n, x), q)
    ensures ValidPath(n, x + q) && At(n, x + q) == At(At(n, x), q)
    decreases |x|
  {
    if x == [] {
      assert x + q == q;
    } else {
      assert (x + q)[0] == x[0] && (x + q)[1..] == x[1..] + q;
      AtConcat(ChildrenOf(n)[x[0]], x[1..], q);
    }
  }

  /** The length of the shortest of the paths `ps`. */
  function Shortest(ps: seq<seq<int>>): (r: nat)
    requires ps != []
    ensures exists i :: 0 <= i < |ps| && |ps[i]| == r
    ensures forall i :: 0 <= i < |ps| ==> r <= |ps[i]|
  {
    if |ps| == 1 then |ps[0]|
    else
      var rest := Shortest(ps[1..]);
      assert forall i :: 1 <= i < |ps| ==> ps[1..][i - 1] == ps[i];
      if |ps[0]| <= rest then |ps[0]| else rest
  }

  /** The depth of the shallowest node of information set `h`. */
  ghost function Depth(t: CFRTree, h: int): nat
    requires h in t.informationSets.m && t.informationSets.m[h].nodes != []
  {
    Shortest(t.informationSets.m[h].nodes)
  }

  /** A label in `ChildInfosets` belongs to a decision node of `player` below `n`. */
  lemma {:induction false} ChildInfosetBelow(n: Node, player: int, h: int) returns (q: seq<int>)
    requires h in ChildInfosets(n, player)
    ensures ValidPath(n, q) && At(n, q).Decision? && At(n, q).player == player && At(n, q).infoset == h
  {
    if n.Decision? && n.player == player {
      q := [];
    } else {
      var i := InfosetsUnderHas(n, player, |n.children|, h);
      var r := ChildInfosetBelow(n.children[i], player, h);
      assert ([i] + r)[0] == i && ([i] + r)[1..] == r;
      q := [i] + r;
    }
  }

  /** The node of `h2` below child `a` of a node of `s`. */
  lemma ChildNodeOf(root: Node, s: InfoSet, a: nat, h2: int) returns (x: seq<int>, y: seq<int>)
    requires s.nodes != [] && AllValid(root, s.nodes)
    requires forall i :: 0 <= i < |s.nodes| ==> !At(root, s.nodes[i]).Leaf? && 0 <= a < |At(root, s.nodes[i]).children|
    requires h2 in UnionInfosets(root, s.nodes, a, s.player)
    ensures x in s.nodes && ValidPath(root, x) && |x| < |y| && y[..|x|] == x
    ensures ValidPath(root, y) && At(root, y).Decision? && At(root, y).infoset == h2 && At(root, y).player == s.player
  {
    var i :| 0 <= i < |s.nodes| && h2 in ChildInfosets(At(root, s.nodes[i]).children[a], s.player);
    x := s.nodes[i];
    var c := At(root, x).children[a];
    var q := ChildInfosetBelow(c, s.player, h2);
    ValidPathSnoc(root, x, a);
    AtConcat(root, x + [a], q);
    y := x + [a] + q;
    assert y[..|x|] == x;
  }

  /** The shallowest node `z` of an information set whose nodes record `h`, for a player `p`,
      has an ancestor of label `h` that is a decision node. */
  lemma RecordedAncestor(root: Node, z: seq<int>, p: int, h: int) returns (k: nat)
    requires NonNegativeLabels(root) && ValidPath(root, z) && h >= 0
    requires h in Sequence(root, z, Some(p)).m
    ensures k < |z| && ValidPath(root, z[..k]) && At(root, z[..k]).Decision? && At(root, z[..k]).infoset == h
  {
    k := SequenceKeyOrigin(root, z, Some(p), h);
    ValidPathPrefix(root, z, k);
  }

  /** An information set `h2` that action `a` of `h` leads to is a set of the same player, and
      every node of `h2` lies strictly below a node of `h`: the node of `h2` found below a node
      of `h` records `h` in its sequence, perfect recall makes every node of `h2` record it,
      and so every node of `h2` has an ancestor in `h`. */
  lemma ChildDeeperIn(root: Node, isets: Dict<int, InfoSet>, h: int, a: nat, h2: int)
    requires NonNegativeLabels(root) && IsetsMatch(root, isets) && Registered(root, isets)
    requires NodesValid(root, isets) && PerfectRecall(root, isets)
    requires h in isets.m && a < isets.m[h].actionCount
    requires h2 in UnionInfosets(root, isets.m[h].nodes, a, isets.m[h].player)
    ensures h2 in isets.m && isets.m[h2].player == isets.m[h].player
    ensures Shortest(isets.m[h].nodes) < Shortest(isets.m[h2].nodes) <= Height(root)
  {
    var s := isets.m[h];
    var player := s.player;
    var x, y := ChildNodeOf(root, s, a, h2);
    var s2 := isets.m[h2];
    var j :| 0 <= j < |s2.nodes| && s2.nodes[j] == y;
    assert s2.player == player;
    // `h` is recorded in the sequence of `y`, so at every node of `h2`.
    assert AncestorAt(root, y, |x|) == At(root, x);
    SequenceHasKey(root, y, Some(player), |x|);
    assert RecallAt(root, s2);
    assert Sequence(root, s2.nodes[j], Some(player)).m == s2.sequence.m;
    NonNegativeBelow(root, x);
    RecordedDeeper(root, isets, h, h2);
  }

  /** When every node of `h2` records `h` in its sequence, the shortest node of `h` lies
      above the shortest node of `h2`. */
  lemma RecordedDeeper(root: Node, isets: Dict<int, InfoSet>, h: int, h2: int)
    requires NonNegativeLabels(root) && IsetsMatch(root, isets) && Registered(root, isets) && NodesValid(root, isets)
    requires h in isets.m && h2 in isets.m && h >= 0
    requires RecallAt(root, isets.m[h2]) && h in isets.m[h2].sequence.m
    ensures Shortest(isets.m[h].nodes) < Shortest(isets.m[h2].nodes) <= Height(root)
  {
    var s, s2 := isets.m[h], isets.m[h2];
    var m :| 0 <= m < |s2.nodes| && |s2.nodes[m]| == Shortest(s2.nodes);
    var z := s2.nodes[m];
    var k := RecordedAncestor(root, z, s2.player, h);
    assert z[..k] in s.nodes;
    HeightBound(root, z);
  }

  lemma ChildDeeper(t: CFRTree, h: int, a: int, h2: int)
    requires t.Shape() && h in t.informationSets.m && 0 <= a < t.informationSets.m[h].actionCount
    requires h2 in t.childrenInfoset[h][a]
    ensures h2 in t.informationSets.m
    ensures t.informationSets.m[h2].player == t.informationSets.m[h].player
    ensures Depth(t, h) < Depth(t, h2) <= Height(t.root)
  {
    var s := t.informationSets.m[h];
    assert t.childrenInfoset[h][a] == UnionInfosets(t.root, s.nodes, a, s.player);
    ChildDeeperIn(t.root, t.informationSets, h, a, h2);
  }

  /** The shallowest node of an information set is a path of the tree. */
  lemma DepthBound(t: CFRTree, h: int)
    requires t.Shape() && h in t.informationSets.m
    ensures Depth(t, h) <= Height(t.root)
  {
    var s := t.informationSets.m[h];
    var m :| 0 <= m < |s.nodes| && |s.nodes[m]| == Shortest(s.nodes);
    assert ValidPath(t.root, s.nodes[m]);
    HeightBound(t.root, s.nodes[m]);
  }

  /** What the walks over the information sets need of the tree: one set of children per
      action, each child deeper than its parent, and no depth beyond the height. */
  ghost predicate Layered(t: CFRTree)
  {
    IsetsShaped(t) && EdgesDeep(t)
  }

  /** Every set has nodes, one child-set list per action, and a depth within the height. */
  ghost predicate IsetsShaped(t: CFRTree)
  {
    forall h :: h in t.informationSets.m ==>
      t.informationSets.m[h].nodes != [] && h in t.childrenInfoset &&
      |t.childrenInfoset[h]| == t.informationSets.m[h].actionCount && Depth(t, h) <= Height(t.root)
  }

  /** Every child set of every set is a set, strictly deeper. */
  ghost predicate EdgesDeep(t: CFRTree)
    requires IsetsShaped(t)
  {
    forall h, a, x :: h in t.informationSets.m && 0 <= a < |t.childrenInfoset[h]| && x in t.childrenInfoset[h][a] ==>
      x in t.informationSets.m && Depth(t, h) < Depth(t, x)
  }

  lemma ShapeLayered(t: CFRTree)
    requires t.Shape()
    ensures Layered(t)
  {
    IsetsLayered(t);
    EdgesDeeper(t);
  }

  lemma IsetsLayered(t: CFRTree)
    requires t.Shape()
    ensures IsetsShaped(t)
  {
    forall h | h in t.informationSets.m
      ensures t.informationSets.m[h].nodes != [] && h in t.childrenInfoset &&
        |t.childrenInfoset[h]| == t.informationSets.m[h].actionCount && Depth(t, h) <= Height(t.root)
    {
      DepthBound(t, h);
    }
  }

  lemma EdgesDeeper(t: CFRTree)
    requires t.Shape()
    requires IsetsShaped(t)
    ensures EdgesDeep(t)
  {
    forall h, a, x | h in t.informationSets.m && 0 <= a < |t.childrenInfoset[h]| && x in t.childrenInfoset[h][a]
      ensures x in t.informationSets.m && Depth(t, h) < Depth(t, x)
    {
      ChildDeeper(t, h, a, x);
    }
  }

  // ---------------------------------------------------------------------------------------
  // `computeReachability` and `reduceActionPlan`.

  /** The information sets `computeReachability(plan)` marks from `h`: `h` itself and, below
      the action the plan gives `h` (read as a Python list index, so negative values count
      from the end), everything marked from each child information set. A set missing from
      the plan is a `KeyError` and an action out of range an `IndexError`. */
  ghost function Reach(t: CFRTree, plan: map<int, int>, h: int): Result<set<int>>
    requires Layered(t) && h in t.informationSets.m
    decreases Height(t.root) - Depth(t, h), 1
  {
    if h !in plan then Failure("KeyError")
    else
      var n := t.informationSets.m[h].actionCount;
      var i := PyIndex(n, plan[h]);
      if !(0 <= i < n) then Failure("IndexError")
      else
        var below :- ReachAll(t, plan, t.childrenInfoset[h][i], Depth(t, h));
        Success({h} + below)
  }

  /** `Reach` over a set of information sets, all deeper than `d`: the union, or a failure
      when any of them fails. */
  ghost function ReachAll(t: CFRTree, plan: map<int, int>, s: set<int>, d: int): Result<set<int>>
    requires Layered(t)
    requires forall x :: x in s ==> x in t.informationSets.m && d < Depth(t, x)
    decreases Height(t.root) - d, 0, |s|
  {
    if s == {} then Success({})
    else
      var x := Pick(s);
      var here :- Reach(t, plan, x);
      var rest :- ReachAll(t, plan, s - {x}, d);
      Success(here + rest)
  }

  /** `ReachAll` succeeds exactly when `Reach` succeeds on every member, and marks what they
      mark, whichever member is taken first. */
  lemma {:induction false} ReachAllIs(t: CFRTree, plan: map<int, int>, s: set<int>, d: int)
    requires Layered(t)
    requires forall x :: x in s ==> x in t.informationSets.m && d < Depth(t, x)
    ensures ReachAll(t, plan, s, d).Success? <==> forall x :: x in s ==> Reach(t, plan, x).Success?
    ensures ReachAll(t, plan, s, d).Success? ==> forall g ::
      g in ReachAll(t, plan, s, d).value <==> exists x :: x in s && g in Reach(t, plan, x).value
    decreases |s|
  {
    if s != {} {
      var x := Pick(s);
      ReachAllIs(t, plan, s - {x}, d);
    }
  }

  /** Adding one information set to a set `ReachAll` succeeds on. */
  lemma ReachAllAdd(t: CFRTree, plan: map<int, int>, s: set<int>, x: int, d: int)
    requires Layered(t)
    requires forall y :: y in s ==> y in t.informationSets.m && d < Depth(t, y)
    requires x in t.informationSets.m && d < Depth(t, x)
    requires ReachAll(t, plan, s, d).Success?
    ensures ReachAll(t, plan, s + {x}, d).Success? <==> Reach(t, plan, x).Success?
    ensures ReachAll(t, plan, s + {x}, d).Success? ==>
      ReachAll(t, plan, s + {x}, d).value == ReachAll(t, plan, s, d).value + Reach(t, plan, x).value
  {
    ReachAllIs(t, plan, s, d);
    ReachAllIs(t, plan, s + {x}, d);
    if ReachAll(t, plan, s + {x}, d).Success? {
      var a := ReachAll(t, plan, s + {x}, d).value;
      var b := ReachAll(t, plan, s, d).value;
      var c := Reach(t, plan, x).value;
      forall g ensures g in a <==> g in b + c {
        if g in a {
          var y :| y in s + {x} && g in Reach(t, plan, y).value;
        }
        if g in b {
          var y :| y in s && g in Reach(t, plan, y).value;
        }
      }
    }
  }

  /** One unfolding of `Reach`. */
  lemma ReachStep(t: CFRTree, plan: map<int, int>, h: int)
    requires Layered(t) && h in t.informationSets.m
    ensures var n := t.informationSets.m[h].actionCount;
      if h !in plan || !(0 <= PyIndex(n, plan[h]) < n) then Reach(t, plan, h).Failure?
      else
        var i := PyIndex(n, plan[h]);
        |t.childrenInfoset[h]| == n &&
        (Reach(t, plan, h).Success? <==> ReachAll(t, plan, t.childrenInfoset[h][i], Depth(t, h)).Success?) &&
        (Reach(t, plan, h).Success? ==> Reach(t, plan, h).value == {h} + ReachAll(t, plan, t.childrenInfoset[h][i], Depth(t, h)).value)
  {
  }

  /** Two states of the information sets that differ at most in `reachability`, which is 1 in
      the new one for the members of `marked` and unchanged elsewhere. */
  ghost predicate Marked(st: map<int, IsetState>, st': map<int, IsetState>, marked: set<int>)
  {
    st'.Keys == st.Keys &&
    forall g :: g in st ==> st'[g] == st[g].(reachability := if g in marked then 1.0 else st[g].reachability)
  }

  /** Two states that differ at most in `reachability`, which is either unchanged or 1. */
  ghost predicate MarkedSome(st: map<int, IsetState>, st': map<int, IsetState>)
  {
    st'.Keys == st.Keys &&
    forall g :: g in st ==> st'[g] == st[g] || st'[g] == st[g].(reachability := 1.0)
  }

  lemma MarkedThen(st: map<int, IsetState>, st': map<int, IsetState>, st'': map<int, IsetState>, a: set<int>, b: set<int>)
    requires Marked(st, st', a) && Marked(st', st'', b)
    ensures Marked(st, st'', a + b)
  {
  }

  lemma MarkedAdd(st: map<int, IsetState>, st': map<int, IsetState>, st'': map<int, IsetState>, h: int, a: set<int>, b: set<int>, c: set<int>)
    requires Marked(st, st', {h} + a) && Marked(st', st'', b) && c == a + b
    ensures Marked(st, st'', {h} + c)
  {
  }

  lemma MarkedSomeThen(st: map<int, IsetState>, st': map<int, IsetState>, st'': map<int, IsetState>)
    requires MarkedSome(st, st') && MarkedSome(st', st'')
    ensures MarkedSome(st, st'')
  {
  }

  /** `CFRInformationSet.computeReachability(plan)` from `h`: marks `h` reachable, then
      recurses into the information sets below the planned action. It succeeds exactly when
      `Reach` does, and then marks exactly the sets `Reach` names; on a failure some of them
      are already marked. Nothing but `reachability` changes. */
  method ComputeReachability(t: CFRTree, h: int, plan: map<int, int>) returns (ok: bool)
    requires Layered(t) && h in t.informationSets.m && t.isetState.Keys == t.informationSets.m.Keys
    modifies t
    decreases Height(t.root) - Depth(t, h)
    ensures MarkedSome(old(t.isetState), t.isetState)
    ensures ok <==> Reach(t, plan, h).Success?
    ensures ok ==> Marked(old(t.isetState), t.isetState, Reach(t, plan, h).value)
    ensures t.visits == old(t.visits) && t.omega == old(t.omega)
    ensures t.marginalizedUtility == old(t.marginalizedUtility) && t.rootT == old(t.rootT)
  {
    ReachStep(t, plan, h);
    t.isetState := t.isetState[h := t.isetState[h].(reachability := 1.0)];
    if h !in plan {
      return false;
    }
    var n := t.informationSets.m[h].actionCount;
    var i := PyIndex(n, plan[h]);
    if !(0 <= i < n) {
      return false;
    }
    var children := t.childrenInfoset[h][i];
    assert forall y :: y in children ==> y in t.informationSets.m && Depth(t, h) < Depth(t, y);
    var remaining := children;
    var done: set<int> := {};
    while remaining != {}
      invariant done <= children && remaining == children - done
      invariant MarkedSome(old(t.isetState), t.isetState)
      invariant ReachAll(t, plan, done, Depth(t, h)).Success?
      invariant Marked(old(t.isetState), t.isetState, {h} + ReachAll(t, plan, done, Depth(t, h)).value)
      invariant t.visits == old(t.visits) && t.omega == old(t.omega)
      invariant t.marginalizedUtility == old(t.marginalizedUtility) && t.rootT == old(t.rootT)
      decreases remaining
    {
      ghost var w := Pick(remaining);
      assert w in remaining;
      var x :| x in remaining;
      ghost var before := t.isetState;
      var found := ComputeReachability(t, x, plan);
      MarkedSomeThen(old(t.isetState), before, t.isetState);
      if !found {
        ReachAllIs(t, plan, children, Depth(t, h));
        return false;
      }
      assert forall y :: y in done + {x} ==> y in children;
      ReachAllAdd(t, plan, done, x, Depth(t, h));
      MarkedAdd(old(t.isetState), before, t.isetState, h, ReachAll(t, plan, done, Depth(t, h)).value,
        Reach(t, plan, x).value, ReachAll(t, plan, done + {x}, Depth(t, h)).value);
      done := done + {x};
      remaining := children - done;
    }
    assert done == children;
    ok := true;
  }

  /** The plan gives `h` an action in range. */
  ghost predicate Steps(t: CFRTree, plan: map<int, int>, h: int)
    requires h in t.informationSets.m
  {
    var n := t.informationSets.m[h].actionCount;
    h in plan && 0 <= PyIndex(n, plan[h]) < n
  }

  /** A chain of information sets, each one below the planned action of the one before. */
  ghost predicate PlanChain(t: CFRTree, plan: map<int, int>, c: seq<int>)
    requires Layered(t)
  {
    |c| > 0 && (forall k :: 0 <= k < |c| ==> c[k] in t.informationSets.m) &&
    forall k :: 0 <= k < |c| - 1 ==>
      Steps(t, plan, c[k]) &&
      c[k + 1] in t.childrenInfoset[c[k]][PyIndex(t.informationSets.m[c[k]].actionCount, plan[c[k]])]
  }

  lemma ChainCons(t: CFRTree, plan: map<int, int>, h: int, c: seq<int>)
    requires Layered(t) && h in t.informationSets.m && Steps(t, plan, h) && PlanChain(t, plan, c)
    requires c[0] in t.childrenInfoset[h][PyIndex(t.informationSets.m[h].actionCount, plan[h])]
    ensures PlanChain(t, plan, [h] + c)
    ensures ([h] + c)[0] == h && ([h] + c)[|[h] + c| - 1] == c[|c| - 1]
  {
    var c' := [h] + c;
    assert forall k :: 0 < k < |c'| ==> c'[k] == c[k - 1];
  }

  lemma ChainTail(t: CFRTree, plan: map<int, int>, c: seq<int>)
    requires Layered(t) && PlanChain(t, plan, c) && |c| > 1
    ensures PlanChain(t, plan, c[1..])
  {
    assert forall k :: 0 <= k < |c| - 1 ==> c[1..][k] == c[k + 1];
  }

  /** `computeReachability` from `h` raises nothing exactly when every chain from `h` ends at
      an information set the plan gives an action in range. */
  lemma {:induction false} ReachSucceeds(t: CFRTree, plan: map<int, int>, h: int)
    requires Layered(t) && h in t.informationSets.m
    ensures Reach(t, plan, h).Success? <==>
      forall c :: PlanChain(t, plan, c) && c[0] == h ==> Steps(t, plan, c[|c| - 1])
    decreases Height(t.root) - Depth(t, h)
  {
    ReachStep(t, plan, h);
    if !Steps(t, plan, h) {
      assert PlanChain(t, plan, [h]);
    } else {
      var i := PyIndex(t.informationSets.m[h].actionCount, plan[h]);
      var below := t.childrenInfoset[h][i];
      ReachAllIs(t, plan, below, Depth(t, h));
      forall x | x in below ensures Height(t.root) - Depth(t, x) < Height(t.root) - Depth(t, h) {
      }
      if Reach(t, plan, h).Success? {
        forall c | PlanChain(t, plan, c) && c[0] == h ensures Steps(t, plan, c[|c| - 1]) {
          if |c| > 1 {
            ChainTail(t, plan, c);
            ReachSucceeds(t, plan, c[1]);
            assert c[1..][|c[1..]| - 1] == c[|c| - 1];
          }
        }
      } else {
        var x :| x in below && Reach(t, plan, x).Failure?;
        ReachSucceeds(t, plan, x);
        var c :| PlanChain(t, plan, c) && c[0] == x && !Steps(t, plan, c[|c| - 1]);
        ChainCons(t, plan, h, c);
      }
    }
  }

  /** When `computeReachability` from `h` raises nothing, it marks exactly the ends of the
      chains from `h`. */
  lemma ReachMarks(t: CFRTree, plan: map<int, int>, h: int, g: int)
    requires Layered(t) && h in t.informationSets.m && Reach(t, plan, h).Success?
    ensures g in Reach(t, plan, h).value <==> exists c :: PlanChain(t, plan, c) && c[0] == h && c[|c| - 1] == g
  {
    if g in Reach(t, plan, h).value {
      MarkedChain(t, plan, h, g);
    }
    if exists c :: PlanChain(t, plan, c) && c[0] == h && c[|c| - 1] == g {
      var c :| PlanChain(t, plan, c) && c[0] == h && c[|c| - 1] == g;
      ChainMarked(t, plan, c, g);
    }
  }

  /** What `computeReachability` marks is the end of a chain from `h`. */
  lemma {:induction false} MarkedChain(t: CFRTree, plan: map<int, int>, h: int, g: int)
    requires Layered(t) && h in t.informationSets.m && Reach(t, plan, h).Success?
    requires g in Reach(t, plan, h).value
    ensures exists c :: PlanChain(t, plan, c) && c[0] == h && c[|c| - 1] == g
    decreases Height(t.root) - Depth(t, h)
  {
    ReachStep(t, plan, h);
    if g == h {
      assert PlanChain(t, plan, [h]);
    } else {
      var i := PyIndex(t.informationSets.m[h].actionCount, plan[h]);
      var below := t.childrenInfoset[h][i];
      ReachAllIs(t, plan, below, Depth(t, h));
      var x :| x in below && g in Reach(t, plan, x).value;
      MarkedChain(t, plan, x, g);
      var c :| PlanChain(t, plan, c) && c[0] == x && c[|c| - 1] == g;
      ChainCons(t, plan, h, c);
    }
  }

  /** The end of a chain is marked by `computeReachability` from the chain's start. */
  lemma {:induction false} ChainMarked(t: CFRTree, plan: map<int, int>, c: seq<int>, g: int)
    requires Layered(t) && PlanChain(t, plan, c) && c[|c| - 1] == g && Reach(t, plan, c[0]).Success?
    ensures g in Reach(t, plan, c[0]).value
    decreases |c|
  {
    var h := c[0];
    ReachStep(t, plan, h);
    if |c| > 1 {
      var i := PyIndex(t.informationSets.m[h].actionCount, plan[h]);
      var below := t.childrenInfoset[h][i];
      ReachAllIs(t, plan, below, Depth(t, h));
      ChainTail(t, plan, c);
      assert c[1..][|c[1..]| - 1] == g;
      ChainMarked(t, plan, c[1..], g);
    }
  }

  /** The information sets whose sequence is empty: no earlier move of their own player leads
      to them. `reduceActionPlan` starts `computeReachability` from each of them. */
  ghost function Roots(t: CFRTree): set<int>
  {
    set h | h in t.informationSets.m && t.informationSets.m[h].sequence.keys == []
  }

  /** The members of `keys` that lie in `s`, in order. */
  function KeepIn(keys: seq<int>, s: set<int>): (r: seq<int>)
    ensures Elems(r) == Elems(keys) * s
    ensures Distinct(keys) ==> Distinct(r)
  {
    if keys == [] then []
    else
      var k := |keys| - 1;
      var front := KeepIn(keys[..k], s);
      var tail := if keys[k] in s then [keys[k]] else [];
      KeepInSnoc(keys, s, front, tail);
      front + tail
  }

  lemma KeepInSnoc(keys: seq<int>, s: set<int>, front: seq<int>, tail: seq<int>)
    requires keys != []
    requires Elems(front) == Elems(keys[..|keys| - 1]) * s
    requires Distinct(keys[..|keys| - 1]) ==> Distinct(front)
    requires tail == if keys[|keys| - 1] in s then [keys[|keys| - 1]] else []
    ensures Elems(front + tail) == Elems(keys) * s
    ensures Distinct(keys) ==> Distinct(front + tail)
  {
    var k := |keys| - 1;
    assert keys[..k + 1] == keys;
    PrefixElems(keys, k);
    assert Elems(front + tail) == Elems(front) + Elems(tail);
    if Distinct(keys) {
      NotInPrefix(keys, k);
      assert Distinct(keys[..k]);
      DistinctConcat(front, tail);
    }
  }

  lemma RootsReachable(t: CFRTree)
    requires Layered(t)
    ensures forall x :: x in Roots(t) ==> x in t.informationSets.m && -1 < Depth(t, x)
  {
  }

  /** What `reduceActionPlan` keeps: the information sets at the ends of the chains that start
      at a root. */
  lemma ReducedKeys(t: CFRTree, plan: map<int, int>, g: int)
    requires Layered(t)
    ensures forall x :: x in Roots(t) ==> x in t.informationSets.m && -1 < Depth(t, x)
    ensures ReachAll(t, plan, Roots(t), -1).Success? ==>
      (g in ReachAll(t, plan, Roots(t), -1).value <==>
       exists c :: PlanChain(t, plan, c) && c[0] in Roots(t) && c[|c| - 1] == g)
  {
    RootsReachable(t);
    ReachAllIs(t, plan, Roots(t), -1);
    if ReachAll(t, plan, Roots(t), -1).Success? {
      if g in ReachAll(t, plan, Roots(t), -1).value {
        var x :| x in Roots(t) && g in Reach(t, plan, x).value;
        ReachMarks(t, plan, x, g);
      }
      if exists c :: PlanChain(t, plan, c) && c[0] in Roots(t) && c[|c| - 1] == g {
        var c :| PlanChain(t, plan, c) && c[0] in Roots(t) && c[|c| - 1] == g;
        ReachMarks(t, plan, c[0], g);
      }
    }
  }

  /** `reduceActionPlan` raises nothing exactly when every chain from a root ends at an
      information set the plan gives an action in range. */
  lemma ReducedSucceeds(t: CFRTree, plan: map<int, int>)
    requires Layered(t)
    ensures forall x :: x in Roots(t) ==> x in t.informationSets.m && -1 < Depth(t, x)
    ensures ReachAll(t, plan, Roots(t), -1).Success? <==>
      forall c :: PlanChain(t, plan, c) && c[0] in Roots(t) ==> Steps(t, plan, c[|c| - 1])
  {
    RootsReachable(t);
    ReachAllIs(t, plan, Roots(t), -1);
    forall x | x in Roots(t) {
      ReachSucceeds(t, plan, x);
    }
  }

  /** A marked information set is in the plan. */
  lemma MarkedInPlan(t: CFRTree, plan: map<int, int>, g: int)
    requires Layered(t)
    ensures forall x :: x in Roots(t) ==> x in t.informationSets.m && -1 < Depth(t, x)
    ensures ReachAll(t, plan, Roots(t), -1).Success? && g in ReachAll(t, plan, Roots(t), -1).value ==>
      g in t.informationSets.m && Steps(t, plan, g)
  {
    ReducedKeys(t, plan, g);
    ReducedSucceeds(t, plan);
  }

  /** `reduceActionPlan`'s first loop: every reachability becomes 0. */
  method ClearReachability(t: CFRTree)
    requires Dicts.Valid(t.informationSets) && t.isetState.Keys == t.informationSets.m.Keys
    modifies t
    ensures t.isetState.Keys == old(t.isetState).Keys
    ensures forall g :: g in t.isetState ==> t.isetState[g] == old(t.isetState)[g].(reachability := 0.0)
    ensures t.visits == old(t.visits) && t.omega == old(t.omega)
    ensures t.marginalizedUtility == old(t.marginalizedUtility) && t.rootT == old(t.rootT)
  {
    var keys := t.informationSets.keys;
    assert forall j :: 0 <= j < |keys| ==> keys[j] in Elems(keys);
    var st := t.isetState;
    ghost var done: set<int> := {};
    var k := 0;
    while k < |keys|
      invariant 0 <= k <= |keys|
      invariant st.Keys == t.isetState.Keys
      invariant forall j :: 0 <= j < k ==> keys[j] in done
      invariant forall g :: g in st ==>
        st[g] == if g in done then t.isetState[g].(reachability := 0.0) else t.isetState[g]
    {
      st := st[keys[k] := st[keys[k]].(reachability := 0.0)];
      done := done + {keys[k]};
      k := k + 1;
    }
    forall g | g in st ensures g in done {
      assert g in Elems(keys);
      var j :| 0 <= j < |keys| && keys[j] == g;
    }
    t.isetState := st;
  }

  lemma RootsStep(t: CFRTree, keys: seq<int>, k: nat)
    requires keys == t.informationSets.keys && Dicts.Valid(t.informationSets) && k < |keys|
    ensures keys[k] in t.informationSets.m
    ensures Roots(t) * Elems(keys[..k + 1]) ==
      Roots(t) * Elems(keys[..k]) + if t.informationSets.m[keys[k]].sequence.keys == [] then {keys[k]} else {}
  {
    assert Elems(keys[..k + 1]) == Elems(keys[..k]) + {keys[k]} by {
      assert keys[..k + 1] == keys[..k] + [keys[k]];
    }
    assert keys[k] in Elems(keys);
  }

  /** `reduceActionPlan`'s second loop: `computeReachability` from every information set with
      an empty sequence, in creation order, stopping at the first that raises. It succeeds
      exactly when `ReachAll` from the roots does, and then marks what that names. */
  method ReachFromRoots(t: CFRTree, plan: map<int, int>) returns (ok: bool)
    requires Layered(t) && Dicts.Valid(t.informationSets) && t.isetState.Keys == t.informationSets.m.Keys
    modifies t
    ensures forall x :: x in Roots(t) ==> x in t.informationSets.m && -1 < Depth(t, x)
    ensures MarkedSome(old(t.isetState), t.isetState)
    ensures ok <==> ReachAll(t, plan, Roots(t), -1).Success?
    ensures ok ==> Marked(old(t.isetState), t.isetState, ReachAll(t, plan, Roots(t), -1).value)
    ensures t.visits == old(t.visits) && t.omega == old(t.omega)
    ensures t.marginalizedUtility == old(t.marginalizedUtility) && t.rootT == old(t.rootT)
  {
    RootsReachable(t);
    var keys := t.informationSets.keys;
    ghost var started: set<int> := {};
    var k := 0;
    while k < |keys|
      invariant 0 <= k <= |keys|
      invariant started == Roots(t) * Elems(keys[..k])
      invariant ReachAll(t, plan, started, -1).Success?
      invariant MarkedSome(old(t.isetState), t.isetState)
      invariant Marked(old(t.isetState), t.isetState, ReachAll(t, plan, started, -1).value)
      invariant t.visits == old(t.visits) && t.omega == old(t.omega)
      invariant t.marginalizedUtility == old(t.marginalizedUtility) && t.rootT == old(t.rootT)
    {
      var h := keys[k];
      RootsStep(t, keys, k);
      if t.informationSets.m[h].sequence.keys == [] {
        ghost var before := t.isetState;
        var found := ComputeReachability(t, h, plan);
        MarkedSomeThen(old(t.isetState), before, t.isetState);
        ReachAllAdd(t, plan, started, h, -1);
        if !found {
          ReachAllIs(t, plan, Roots(t), -1);
          return false;
        }
        MarkedThen(old(t.isetState), before, t.isetState, ReachAll(t, plan, started, -1).value, Reach(t, plan, h).value);
        started := started + {h};
      }
      k := k + 1;
    }
    assert keys[..k] == keys;
    assert started == Roots(t);
    ok := true;
  }

  /** `reduceActionPlan`'s last loop: over `keys` in order, the plan's action on each
      information set whose reachability is positive. */
  method KeepReachable(keys: seq<int>, st: map<int, IsetState>, plan: map<int, int>) returns (r: Dict<int, int>)
    requires Distinct(keys) && forall g :: g in st && st[g].reachability > 0.0 ==> g in plan
    requires Elems(keys) <= st.Keys
    ensures Dicts.Valid(r)
    ensures r.keys == KeepIn(keys, set g | g in st && st[g].reachability > 0.0)
    ensures r.m == map g | g in Elems(keys) && st[g].reachability > 0.0 :: plan[g]
  {
    ghost var pos := set g | g in st && st[g].reachability > 0.0;
    forall g | g in pos ensures g in plan {
    }
    r := Empty();
    var k := 0;
    while k < |keys|
      invariant 0 <= k <= |keys|
      invariant Dicts.Valid(r) && r == KeepDict(keys[..k], pos, plan)
    {
      var h := keys[k];
      assert h in Elems(keys);
      ghost var r' := KeepStep(keys, k, pos, plan, r);
      if st[h].reachability > 0.0 {
        assert h in pos;
        r := Put(r, h, plan[h]);
      } else {
        assert h !in pos;
      }
      assert r == r';
      k := k + 1;
    }
    assert keys[..k] == keys;
    PositiveKept(keys, st, plan, pos);
  }

  /** Keeping the members of `pos` keeps those whose reachability is positive. */
  lemma PositiveKept(keys: seq<int>, st: map<int, IsetState>, plan: map<int, int>, pos: set<int>)
    requires Elems(keys) <= st.Keys && pos == (set g | g in st && st[g].reachability > 0.0) && pos <= plan.Keys
    ensures (map g | g in Elems(keys) && g in pos :: plan[g]) == (map g | g in Elems(keys) && st[g].reachability > 0.0 :: plan[g])
  {
  }

  /** The plan's action on the members of `keys` that lie in `pos`, in order. */
  ghost function KeepDict(keys: seq<int>, pos: set<int>, plan: map<int, int>): Dict<int, int>
    requires pos <= plan.Keys
  {
    Dict(KeepIn(keys, pos), map g | g in Elems(keys) && g in pos :: plan[g])
  }

  /** One step of `KeepReachable`'s loop, from the prefix `keys[..k]` to `keys[..k + 1]`. */
  lemma KeepStep(keys: seq<int>, k: nat, pos: set<int>, plan: map<int, int>, r: Dict<int, int>) returns (r': Dict<int, int>)
    requires k < |keys| && Distinct(keys) && pos <= plan.Keys
    requires Dicts.Valid(r) && r == KeepDict(keys[..k], pos, plan)
    ensures r' == if keys[k] in pos then Put(r, keys[k], plan[keys[k]]) else r
    ensures Dicts.Valid(r') && r' == KeepDict(keys[..k + 1], pos, plan)
  {
    var h := keys[k];
    assert keys[..k + 1][..k] == keys[..k];
    PrefixElems(keys, k);
    NotInPrefix(keys, k);
    r' := if h in pos then Put(r, h, plan[h]) else r;
    KeepMapStep(Elems(keys[..k]), h, pos, plan, r.m, r'.m);
  }

  lemma PrefixElems(keys: seq<int>, k: nat)
    requires k < |keys|
    ensures Elems(keys[..k + 1]) == Elems(keys[..k]) + {keys[k]}
  {
    assert keys[..k + 1] == keys[..k] + [keys[k]];
  }

  lemma KeepMapStep(e: set<int>, h: int, pos: set<int>, plan: map<int, int>, m: map<int, int>, m': map<int, int>)
    requires pos <= plan.Keys && m == (map g | g in e && g in pos :: plan[g])
    requires m' == if h in pos then m[h := plan[h]] else m
    ensures m' == map g | g in e + {h} && g in pos :: plan[g]
  {
  }

  /** `reduceActionPlan(plan, tree)`: zero every reachability, run `computeReachability` from
      every information set with an empty sequence, and keep the plan's action on the
      information sets so marked, in creation order. `None` when `computeReachability`
      raises. */
  method ReduceActionPlan(plan: map<int, int>, t: CFRTree) returns (r: Option<Dict<int, int>>)
    requires Layered(t) && Dicts.Valid(t.informationSets) && t.isetState.Keys == t.informationSets.m.Keys
    modifies t
    ensures forall x :: x in Roots(t) ==> x in t.informationSets.m && -1 < Depth(t, x)
    ensures r.Some? <==> ReachAll(t, plan, Roots(t), -1).Success?
    ensures r.Some? ==>
      var kept := ReachAll(t, plan, Roots(t), -1).value;
      (forall g :: g in kept ==> g in plan) &&
      Dicts.Valid(r.value) && r.value.keys == KeepIn(t.informationSets.keys, kept) &&
      r.value.m == (map g | g in kept :: plan[g])
    ensures t.isetState.Keys == old(t.isetState).Keys
    ensures forall g :: g in t.isetState ==>
      t.isetState[g] == old(t.isetState)[g].(reachability := t.isetState[g].reachability)
    ensures r.Some? ==> forall g :: g in t.isetState ==>
      t.isetState[g].reachability == if g in ReachAll(t, plan, Roots(t), -1).value then 1.0 else 0.0
    ensures t.visits == old(t.visits) && t.omega == old(t.omega)
    ensures t.marginalizedUtility == old(t.marginalizedUtility) && t.rootT == old(t.rootT)
  {
    RootsReachable(t);
    ClearReachability(t);
    ghost var zeroed := t.isetState;
    var ok := ReachFromRoots(t, plan);
    if !ok {
      return None;
    }
    ghost var kept := ReachAll(t, plan, Roots(t), -1).value;
    forall g | g in kept ensures g in plan && g in t.informationSets.m {
      MarkedInPlan(t, plan, g);
    }
    assert Marked(zeroed, t.isetState, kept);
    forall g | g in t.isetState ensures t.isetState[g].reachability == if g in kept then 1.0 else 0.0 {
    }
    var reduced := KeepMarked(t.informationSets.keys, t.isetState, plan, kept);
    r := Some(reduced);
  }

  /** The last loop of `reduceActionPlan` once the reachability is 1 exactly on `kept`. */
  method KeepMarked(keys: seq<int>, st: map<int, IsetState>, plan: map<int, int>, ghost kept: set<int>) returns (r: Dict<int, int>)
    requires Distinct(keys) && Elems(keys) == st.Keys && kept <= st.Keys && kept <= plan.Keys
    requires forall g :: g in st ==> st[g].reachability == if g in kept then 1.0 else 0.0
    ensures Dicts.Valid(r) && r.keys == KeepIn(keys, kept)
    ensures r.m == map g | g in kept :: plan[g]
  {
    ghost var pos := set g | g in st && st[g].reachability > 0.0;
    forall g ensures g in pos <==> g in kept {
      if g in kept {
        assert g in st && st[g].reachability == 1.0;
      }
    }
    assert pos == kept;
    r := KeepReachable(keys, st, plan);
  }
}
