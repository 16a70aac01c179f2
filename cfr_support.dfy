/** The supporting plan of a leaf (`builSupportingPlan` and `updateSupportingPlan`): for one
    player, the plan that agrees with the leaf's own sequence and elsewhere picks, set by set,
    the action whose worst `omega` below is largest. */
module CfrSupport {
  import opened Wrappers
  import opened Dicts
  import opened GameTree
  import opened CfrTrees
  import opened CfrWalks
  import opened CfrIsets

  function Min(a: real, b: real): real
  {
    if b < a then b else a
  }

  /** What the supporting-plan walk needs of the tree and of the leaf weights `omega`: the
      information-set graph is layered, every information set has an action, and every leaf
      directly below an action carries a weight. */
  ghost predicate SupportReady(t: CFRTree, omega: map<seq<int>, real>)
  {
    Layered(t) &&
    forall h :: h in t.informationSets.m ==>
      t.informationSets.m[h].actionCount > 0 && h in t.childrenLeaves &&
      |t.childrenLeaves[h]| == t.informationSets.m[h].actionCount &&
      forall a, x :: 0 <= a < |t.childrenLeaves[h]| && x in t.childrenLeaves[h][a] ==> x in omega
  }

  /** A path in `ChildLeaves` is a leaf below `n`. */
  lemma {:induction false} ChildLeafBelow(n: Node, path: seq<int>, player: int, x: seq<int>) returns (q: seq<int>)
    requires x in ChildLeaves(n, path, player)
    ensures ValidPath(n, q) && At(n, q).Leaf? && x == path + q
  {
    if n.Leaf? {
      q := [];
      assert path + q == path;
    } else {
      var i := LeavesUnderHas(n, path, player, |n.children|, x);
      var r := ChildLeafBelow(n.children[i], path + [i], player, x);
      assert ([i] + r)[0] == i && ([i] + r)[1..] == r;
      q := [i] + r;
      assert path + [i] + r == path + q;
    }
  }

  /** Every leaf in `children_leaves` is a path of the tree. */
  lemma ChildLeafValid(root: Node, s: InfoSet, a: nat, x: seq<int>)
    requires s.nodes != [] && AllValid(root, s.nodes)
    requires forall i :: 0 <= i < |s.nodes| ==> !At(root, s.nodes[i]).Leaf? && a < |At(root, s.nodes[i]).children|
    requires x in UnionLeaves(root, s.nodes, a, s.player)
    ensures ValidPath(root, x)
  {
    var i :| 0 <= i < |s.nodes| && x in ChildLeaves(At(root, s.nodes[i]).children[a], s.nodes[i] + [a], s.player);
    var y := s.nodes[i];
    var q := ChildLeafBelow(At(root, y).children[a], y + [a], s.player, x);
    ValidPathSnoc(root, y, a);
    AtConcat(root, y + [a], q);
  }

  lemma LeavesCovered(t: CFRTree, omega: map<seq<int>, real>)
    requires t.Shape() && Covers(t.root, omega)
    ensures forall h :: h in t.informationSets.m ==>
      h in t.childrenLeaves && |t.childrenLeaves[h]| == t.informationSets.m[h].actionCount &&
      forall a, x :: 0 <= a < |t.childrenLeaves[h]| && x in t.childrenLeaves[h][a] ==> x in omega
  {
    forall h, a, x | h in t.informationSets.m && 0 <= a < |t.childrenLeaves[h]| && x in t.childrenLeaves[h][a]
      ensures x in omega
    {
      var s := t.informationSets.m[h];
      assert t.childrenLeaves[h][a] == UnionLeaves(t.root, s.nodes, a, s.player);
      ChildLeafValid(t.root, s, a, x);
    }
  }

  lemma ActionsPositive(t: CFRTree)
    requires t.Shape()
    ensures forall h :: h in t.informationSets.m ==> t.informationSets.m[h].actionCount > 0
  {
    forall h | h in t.informationSets.m ensures t.informationSets.m[h].actionCount > 0 {
      t.ActionCountPositive(h);
    }
  }

  /** A tree built by `CFRTree`, with a weight on every node, is ready. */
  lemma ShapeReady(t: CFRTree, omega: map<seq<int>, real>)
    requires t.Shape() && Covers(t.root, omega)
    ensures SupportReady(t, omega)
  {
    ShapeLayered(t);
    LeavesCovered(t, omega);
    ActionsPositive(t);
  }

  // ---------------------------------------------------------------------------------------
  // What `updateSupportingPlan` computes.

  /** The stored `supportingPlanInfo` of information set `h`: the preset pair when `h` lies on
      the leaf's sequence (`pre`), otherwise the first action of greatest value and that
      value. */
  ghost function SupportInfo(t: CFRTree, pre: map<int, (int, real)>, omega: map<seq<int>, real>, h: int): (int, real)
    requires SupportReady(t, omega) && h in t.informationSets.m
    decreases Height(t.root) - Depth(t, h), 3, 0
  {
    if h in pre then pre[h] else BestAction(t, pre, omega, h, t.informationSets.m[h].actionCount)
  }

  /** Among actions `0 .. k - 1` of `h`, the first whose value is greatest, with its value. */
  ghost function BestAction(t: CFRTree, pre: map<int, (int, real)>, omega: map<seq<int>, real>, h: int, k: nat): (r: (int, real))
    requires SupportReady(t, omega) && h in t.informationSets.m
    requires 0 < k <= t.informationSets.m[h].actionCount
    ensures 0 <= r.0 < k
    decreases Height(t.root) - Depth(t, h), 2, k
  {
    if k == 1 then (0, ActionValue(t, pre, omega, h, 0))
    else
      var best := BestAction(t, pre, omega, h, k - 1);
      var v := ActionValue(t, pre, omega, h, k - 1);
      if v > best.1 then (k - 1, v) else best
  }

  /** `a_omega` of action `a` of `h`: the least of 1, the value of every information set
      directly below `a` and the weight of every leaf directly below `a`. */
  ghost function ActionValue(t: CFRTree, pre: map<int, (int, real)>, omega: map<seq<int>, real>, h: int, a: nat): real
    requires SupportReady(t, omega) && h in t.informationSets.m
    requires a < t.informationSets.m[h].actionCount
    decreases Height(t.root) - Depth(t, h), 1, 0
  {
    LeafMin(omega, t.childrenLeaves[h][a], IsetMin(t, pre, omega, t.childrenInfoset[h][a], Depth(t, h)))
  }

  /** The least of 1 and the values of the information sets of `s`, all deeper than `d`. */
  ghost function IsetMin(t: CFRTree, pre: map<int, (int, real)>, omega: map<seq<int>, real>, s: set<int>, d: int): real
    requires SupportReady(t, omega)
    requires forall x :: x in s ==> x in t.informationSets.m && d < Depth(t, x)
    decreases Height(t.root) - d, 0, |s|
  {
    if s == {} then 1.0
    else
      var x := Pick(s);
      Min(IsetMin(t, pre, omega, s - {x}, d), SupportInfo(t, pre, omega, x).1)
  }

  /** The least of `init` and the weights of the leaves of `s`. */
  ghost function LeafMin(omega: map<seq<int>, real>, s: set<seq<int>>, init: real): real
    requires forall x :: x in s ==> x in omega
    decreases |s|
  {
    if s == {} then init
    else
      var x := Pick(s);
      Min(LeafMin(omega, s - {x}, init), omega[x])
  }

  /** `IsetMin` is the minimum, whatever member is taken first. */
  lemma {:induction false} IsetMinIs(t: CFRTree, pre: map<int, (int, real)>, omega: map<seq<int>, real>, s: set<int>, d: int)
    requires SupportReady(t, omega)
    requires forall x :: x in s ==> x in t.informationSets.m && d < Depth(t, x)
    ensures IsetMin(t, pre, omega, s, d) <= 1.0
    ensures forall x :: x in s ==> IsetMin(t, pre, omega, s, d) <= SupportInfo(t, pre, omega, x).1
    ensures IsetMin(t, pre, omega, s, d) == 1.0 || exists x :: x in s && IsetMin(t, pre, omega, s, d) == SupportInfo(t, pre, omega, x).1
    decreases |s|
  {
    if s != {} {
      var x := Pick(s);
      IsetMinIs(t, pre, omega, s - {x}, d);
    }
  }

  lemma {:induction false} LeafMinIs(omega: map<seq<int>, real>, s: set<seq<int>>, init: real)
    requires forall x :: x in s ==> x in omega
    ensures LeafMin(omega, s, init) <= init
    ensures forall x :: x in s ==> LeafMin(omega, s, init) <= omega[x]
    ensures LeafMin(omega, s, init) == init || exists x :: x in s && LeafMin(omega, s, init) == omega[x]
    decreases |s|
  {
    if s != {} {
      var x := Pick(s);
      LeafMinIs(omega, s - {x}, init);
    }
  }

  /** Taking one more information set into the running minimum. */
  lemma IsetMinAdd(t: CFRTree, pre: map<int, (int, real)>, omega: map<seq<int>, real>, s: set<int>, x: int, d: int)
    requires SupportReady(t, omega)
    requires forall y :: y in s ==> y in t.informationSets.m && d < Depth(t, y)
    requires x in t.informationSets.m && d < Depth(t, x)
    ensures IsetMin(t, pre, omega, s + {x}, d) == Min(IsetMin(t, pre, omega, s, d), SupportInfo(t, pre, omega, x).1)
  {
    IsetMinIs(t, pre, omega, s, d);
    IsetMinIs(t, pre, omega, s + {x}, d);
  }

  lemma LeafMinAdd(omega: map<seq<int>, real>, s: set<seq<int>>, x: seq<int>, init: real)
    requires forall y :: y in s ==> y in omega
    requires x in omega
    ensures LeafMin(omega, s + {x}, init) == Min(LeafMin(omega, s, init), omega[x])
  {
    LeafMinIs(omega, s, init);
    LeafMinIs(omega, s + {x}, init);
  }

  // ---------------------------------------------------------------------------------------
  // `updateSupportingPlan`.

  /** The `supportingPlanInfo` stored so far: it holds every preset entry, and every entry is
      what `SupportInfo` names. */
  ghost predicate MemoAgrees(t: CFRTree, pre: map<int, (int, real)>, omega: map<seq<int>, real>, info: map<int, (int, real)>)
    requires SupportReady(t, omega)
  {
    pre.Keys <= info.Keys &&
    forall g :: g in info ==> g in t.informationSets.m && info[g] == SupportInfo(t, pre, omega, g)
  }

  /** `CFRInformationSet.updateSupportingPlan(target)` for a target player: nothing when `h`
      already has its information; otherwise, for each action in order, the least of 1, the
      information of each information set directly below (computed first) and the weight of
      each leaf directly below, keeping the first action of greatest value. The stored
      information `info` is threaded through, and every entry it gains is `SupportInfo`. */
  method UpdateSupportingPlan(t: CFRTree, pre: map<int, (int, real)>, omega: map<seq<int>, real>, h: int, info: map<int, (int, real)>)
    returns (info': map<int, (int, real)>)
    requires SupportReady(t, omega) && h in t.informationSets.m && MemoAgrees(t, pre, omega, info)
    decreases Height(t.root) - Depth(t, h), 2
    ensures MemoAgrees(t, pre, omega, info') && info.Keys <= info'.Keys && h in info'
  {
    if h in info {
      return info;
    }
    info' := info;
    var n := t.informationSets.m[h].actionCount;
    var action: int := -1;
    var best := 0.0;
    var a := 0;
    while a < n
      invariant 0 <= a <= n
      invariant MemoAgrees(t, pre, omega, info') && info.Keys <= info'.Keys
      invariant a == 0 ==> action == -1
      invariant a > 0 ==> (action, best) == BestAction(t, pre, omega, h, a)
    {
      var value;
      value, info' := ActionSupport(t, pre, omega, h, a, info');
      if action == -1 || value > best {
        action := a;
        best := value;
      }
      a := a + 1;
    }
    info' := info'[h := (action, best)];
  }

  /** The value of action `a` at `h` inside `updateSupportingPlan`: the least of 1, the
      information of each information set directly below (computed first, threading `info`)
      and the weight of each leaf directly below. */
  method ActionSupport(t: CFRTree, pre: map<int, (int, real)>, omega: map<seq<int>, real>, h: int, a: int, info: map<int, (int, real)>)
    returns (value: real, info': map<int, (int, real)>)
    requires SupportReady(t, omega) && h in t.informationSets.m && 0 <= a < t.informationSets.m[h].actionCount
    requires MemoAgrees(t, pre, omega, info)
    decreases Height(t.root) - Depth(t, h), 1
    ensures MemoAgrees(t, pre, omega, info') && info.Keys <= info'.Keys
    ensures value == ActionValue(t, pre, omega, h, a)
  {
    info' := info;
    var children := t.childrenInfoset[h][a];
    assert forall y :: y in children ==> y in t.informationSets.m && Depth(t, h) < Depth(t, y);
    value := 1.0;
    var done: set<int> := {};
    var remaining := children;
    while remaining != {}
      invariant done <= children && remaining == children - done
      invariant MemoAgrees(t, pre, omega, info') && info.Keys <= info'.Keys
      invariant value == IsetMin(t, pre, omega, done, Depth(t, h))
      decreases remaining
    {
      ghost var w := Pick(remaining);
      assert w in remaining;
      var x :| x in remaining;
      info' := UpdateSupportingPlan(t, pre, omega, x, info');
      assert forall y :: y in done ==> y in children;
      IsetMinAdd(t, pre, omega, done, x, Depth(t, h));
      value := Min(value, info'[x].1);
      done := done + {x};
      remaining := children - done;
    }
    assert done == children;
    value := MinOverLeaves(omega, t.childrenLeaves[h][a], value);
  }

  /** The inner loop over the leaves directly below an action: the least of `init` and
      their weights. */
  method MinOverLeaves(omega: map<seq<int>, real>, leaves: set<seq<int>>, init: real) returns (value: real)
    requires forall x :: x in leaves ==> x in omega
    ensures value == LeafMin(omega, leaves, init)
  {
    value := init;
    var done: set<seq<int>> := {};
    var rest := leaves;
    while rest != {}
      invariant done <= leaves && rest == leaves - done
      invariant value == LeafMin(omega, done, init)
      decreases rest
    {
      ghost var w := Pick(rest);
      assert w in rest;
      var x :| x in rest;
      LeafMinAdd(omega, done, x, init);
      value := Min(value, omega[x]);
      done := done + {x};
      rest := leaves - done;
    }
    assert done == leaves;
  }

  // ---------------------------------------------------------------------------------------
  // `builSupportingPlan`.

  /** A label `getSequence(p)` records, for a player `p`, is one of `p`'s information sets. */
  lemma SequenceOwnIsets(root: Node, isets: Dict<int, InfoSet>, path: seq<int>, p: int, k: int)
    requires IsetsMatch(root, isets) && Registered(root, isets) && ValidPath(root, path) && p >= 0
    requires k in Sequence(root, path, Some(p)).m
    ensures k in isets.m && isets.m[k].player == p
  {
    var i := SequenceKeyOrigin(root, path, Some(p), k);
    ValidPathPrefix(root, path, i);
    var y := path[..i];
    assert At(root, y).Decision?;
    var j :| 0 <= j < |isets.m[k].nodes| && isets.m[k].nodes[j] == y;
  }

  /** The information preset on the leaf's own sequence: the leaf's action, with the leaf's
      weight. */
  function Preset(t: CFRTree, leaf: seq<int>, p: int): map<int, (int, real)>
    reads t
    requires ValidPath(t.root, leaf) && leaf in t.omega
  {
    var s := Sequence(t.root, leaf, Some(p));
    map h | h in s.m :: (s.m[h], t.omega[leaf])
  }

  /** The supporting plan: each information set of `p` takes the action of its information. */
  ghost function SupportMap(t: CFRTree, pre: map<int, (int, real)>, p: int): map<int, int>
    reads t
    requires SupportReady(t, t.omega)
  {
    map h | h in t.informationSets.m && t.informationSets.m[h].player == p :: SupportInfo(t, pre, t.omega, h).0
  }

  /** `w` is the least weight of the leaves `ts`. */
  ghost predicate Least(w: real, omega: map<seq<int>, real>, ts: seq<seq<int>>)
  {
    (exists i :: 0 <= i < |ts| && ts[i] in omega && w == omega[ts[i]]) &&
    forall i :: 0 <= i < |ts| && ts[i] in omega ==> w <= omega[ts[i]]
  }

  /** The loop of `builSupportingPlan`: starting from the leaf's sequence `s`, every
      information set of `hs` (those of `p`) gets the action of its information. */
  method CompletePlan(t: CFRTree, pre: map<int, (int, real)>, s: Dict<int, int>, hs: seq<int>, p: int)
    returns (plan: Dict<int, int>)
    requires SupportReady(t, t.omega) && Valid(s) && MemoAgrees(t, pre, t.omega, pre)
    requires forall h :: h in s.m ==> h in pre && pre[h].0 == s.m[h]
    requires forall h :: h in s.m ==> h in t.informationSets.m && t.informationSets.m[h].player == p
    requires forall h :: h in hs <==> h in t.informationSets.m && t.informationSets.m[h].player == p
    ensures Valid(plan) && plan.m == SupportMap(t, pre, p)
  {
    var info := pre;
    plan := s;
    for i := 0 to |hs|
      invariant MemoAgrees(t, pre, t.omega, info) && Valid(plan)
      invariant forall h :: h in plan.m <==> h in s.m || h in hs[..i]
      invariant forall h :: h in plan.m ==> plan.m[h] == SupportInfo(t, pre, t.omega, h).0
    {
      assert hs[..i + 1] == hs[..i] + [hs[i]];
      info := UpdateSupportingPlan(t, pre, t.omega, hs[i], info);
      plan := Put(plan, hs[i], info[hs[i]].0);
    }
    assert hs[..|hs|] == hs;
    CompletedIsSupport(t, pre, s, hs, p, plan.m);
  }

  lemma CompletedIsSupport(t: CFRTree, pre: map<int, (int, real)>, s: Dict<int, int>, hs: seq<int>, p: int, m: map<int, int>)
    requires SupportReady(t, t.omega)
    requires forall h :: h in s.m ==> h in t.informationSets.m && t.informationSets.m[h].player == p
    requires forall h :: h in hs <==> h in t.informationSets.m && t.informationSets.m[h].player == p
    requires forall h :: h in m <==> h in s.m || h in hs
    requires forall h :: h in m ==> m[h] == SupportInfo(t, pre, t.omega, h).0
    ensures m == SupportMap(t, pre, p)
  {
    ghost var want := SupportMap(t, pre, p);
    forall h ensures h in m <==> h in want {
    }
  }

  /** `min(ts, key = omega).omega` over a non-empty list: the first least weight. */
  method LeastWeight(omega: map<seq<int>, real>, ts: seq<seq<int>>) returns (w: real)
    requires ts != [] && forall i :: 0 <= i < |ts| ==> ts[i] in omega
    ensures Least(w, omega, ts)
  {
    var k := 0;
    for i := 1 to |ts|
      invariant 0 <= k < i
      invariant forall j :: 0 <= j < i ==> omega[ts[k]] <= omega[ts[j]]
    {
      if omega[ts[i]] < omega[ts[k]] {
        k := i;
      }
    }
    w := omega[ts[k]];
  }

  /** Perfect recall: no decision node has an ancestor in its own information set. Such an
      ancestor would be recorded in the node's sequence, so by recall in the ancestor's own
      sequence too, and so the ancestor would have one of its own, without end. */
  lemma {:induction false} LabelOnce(root: Node, isets: Dict<int, InfoSet>, z: seq<int>, k: nat)
    requires NonNegativeLabels(root) && IsetsMatch(root, isets) && Registered(root, isets)
    requires NodesValid(root, isets) && PerfectRecall(root, isets)
    requires ValidPath(root, z) && At(root, z).Decision? && k < |z|
    ensures ValidPath(root, z[..k])
    ensures !(At(root, z[..k]).Decision? && At(root, z[..k]).infoset == At(root, z).infoset)
    decreases |z|
  {
    ValidPathPrefix(root, z, k);
    var x := z[..k];
    var h := At(root, z).infoset;
    NonNegativeBelow(root, z);
    if At(root, x).Decision? && At(root, x).infoset == h {
      var s := isets.m[h];
      var q := s.player;
      var jz :| 0 <= jz < |s.nodes| && s.nodes[jz] == z;
      var jx :| 0 <= jx < |s.nodes| && s.nodes[jx] == x;
      assert AncestorAt(root, z, k) == At(root, x);
      SequenceHasKey(root, z, Some(q), k);
      assert RecallAt(root, s);
      var k' := RecordedAncestor(root, x, q, h);
      assert x[..k'] == z[..k'];
      LabelOnce(root, isets, x, k');
    }
  }

  lemma {:induction false} AtSplit(n: Node, path: seq<int>, i: nat)
    requires ValidPath(n, path) && i <= |path|
    ensures ValidPath(n, path[..i]) && ValidPath(At(n, path[..i]), path[i..])
    ensures At(At(n, path[..i]), path[i..]) == At(n, path)
    decreases i
  {
    ValidPathPrefix(n, path, i);
    if i == 0 {
      assert path[..0] == [] && path[0..] == path;
    } else {
      AtSplit(ChildrenOf(n)[path[0]], path[1..], i - 1);
      assert path[..i][0] == path[0] && path[..i][1..] == path[1..][..i - 1];
      assert path[1..][i - 1..] == path[i..];
    }
  }

  /** A plan that agrees with the sequence of `path` for `p` is followed along `path` from
      its `i`-th node on: at each node of `p` the recorded action is the one `path` takes
      there, since a label is not met twice on the way. */
  lemma {:induction false} FollowsSequence(root: Node, isets: Dict<int, InfoSet>, path: seq<int>, i: nat, p: int, plan: map<int, int>)
    requires NonNegativeLabels(root) && IsetsMatch(root, isets) && Registered(root, isets)
    requires NodesValid(root, isets) && PerfectRecall(root, isets)
    requires ValidPath(root, path) && i <= |path| && p >= 0
    requires forall h :: h in Sequence(root, path, Some(p)).m ==> h in plan && plan[h] == Sequence(root, path, Some(p)).m[h]
    ensures ValidPath(root, path[..i]) && ValidPath(At(root, path[..i]), path[i..])
    ensures Follows(At(root, path[..i]), path[i..], Some(p), plan)
    decreases |path| - i
  {
    AtSplit(root, path, i);
    if i < |path| {
      var n := At(root, path[..i]);
      AtSplit(root, path, i + 1);
      ValidPathSnoc(root, path[..i], path[i]);
      assert path[..i] + [path[i]] == path[..i + 1];
      FollowsSequence(root, isets, path, i + 1, p, plan);
      assert path[i..] == [path[i]] + path[i + 1..];
      FollowsStep(n, path[i], path[i + 1..], Some(p), plan);
      if Planned(n, Some(p)) {
        assert AncestorAt(root, path, i) == n;
        LaterLabels(root, isets, path, i, p);
        SequenceValue(root, path, Some(p), i);
      }
    }
  }

  /** Below the `i`-th node of `path`, no counted node carries its label again. */
  lemma LaterLabels(root: Node, isets: Dict<int, InfoSet>, path: seq<int>, i: nat, p: int)
    requires NonNegativeLabels(root) && IsetsMatch(root, isets) && Registered(root, isets)
    requires NodesValid(root, isets) && PerfectRecall(root, isets)
    requires ValidPath(root, path) && i < |path| && p >= 0 && Counts(AncestorAt(root, path, i), Some(p))
    ensures forall j :: i < j < |path| && Counts(AncestorAt(root, path, j), Some(p)) ==>
      LabelOf(AncestorAt(root, path, j)) != LabelOf(AncestorAt(root, path, i))
  {
    forall j | i < j < |path| && Counts(AncestorAt(root, path, j), Some(p))
      ensures LabelOf(AncestorAt(root, path, j)) != LabelOf(AncestorAt(root, path, i))
    {
      ValidPathPrefix(root, path, j);
      assert path[..j][..i] == path[..i];
      LabelOnce(root, isets, path[..j], i);
    }
  }

  /** `builSupportingPlan(leaf, p)` for a player `p`: the plan is the leaf's own sequence for
      `p`, completed on every other information set of `p` by the first action of greatest
      value; the weight is the least `omega` of the leaves under that plan. The plan keeps the
      sequence's actions, so the leaf itself is under it: the list `min` ranges over is never
      empty and the weight is at most the leaf's own. An error of `terminalsUnderPlan` is
      passed on. */
  method BuildSupportingPlan(t: CFRTree, leaf: seq<int>, p: int) returns (r: Result<(Dict<int, int>, real)>)
    requires t.Valid() && 0 <= p < t.numOfPlayers && ValidPath(t.root, leaf) && At(t.root, leaf).Leaf?
    ensures SupportReady(t, t.omega)
    ensures var plan := SupportMap(t, Preset(t, leaf, p), p);
      var s := Sequence(t.root, leaf, Some(p));
      var terms := Terminals(t.root, [], Some(p), plan);
      (forall h :: h in s.m ==> h in plan && plan[h] == s.m[h]) &&
      (terms.Success? ==> leaf in terms.value) &&
      (r.Success? <==> terms.Success?) &&
      (r.Success? ==> Valid(r.value.0) && r.value.0.m == plan &&
                      Least(r.value.1, t.omega, terms.value) && r.value.1 <= t.omega[leaf]) &&
      (r.Failure? ==> r == Failure(terms.error))
  {
    ShapeReady(t, t.omega);
    var s := Sequence(t.root, leaf, Some(p));
    var pre := Preset(t, leaf, p);
    forall k | k in s.m ensures k in t.informationSets.m && t.informationSets.m[k].player == p {
      SequenceOwnIsets(t.root, t.informationSets, leaf, p, k);
    }
    var plan := CompletePlan(t, pre, s, t.infosetsByPlayer[p], p);
    var terms := Terminals(t.root, [], Some(p), plan.m);
    if terms.Failure? {
      return Failure(terms.error);
    }
    var ts := terms.value;
    FollowsSequence(t.root, t.informationSets, leaf, 0, p, plan.m);
    assert leaf[..0] == [] && leaf[0..] == leaf;
    TerminalReached(t.root, [], Some(p), plan.m, leaf);
    assert [] + leaf == leaf;
    forall i | 0 <= i < |ts| ensures ts[i] in t.omega {
      var q := TerminalWitness(t.root, [], Some(p), plan.m, ts[i]);
      assert ts[i] == q;
      assert Covers(t.root, t.omega);
    }
    var w := LeastWeight(t.omega, ts);
    r := Success((plan, w));
  }
}
