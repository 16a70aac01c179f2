/** The CFR wrapper of a game tree: the information sets collected from the tree, the perfect
    recall check, and the per-information-set and per-node fields the solvers update. Nodes are
    identified by their paths and information sets by their labels. */
module CfrTrees {
  import opened Wrappers
  import opened Dicts
  import opened GameTree
  import opened RealSeq
  import opened Strings

  /** A `CFRInformationSet`'s fixed part: its label, its player and action count (both from the
      first node found), the sequence of that first node for that player, and the paths of its
      nodes in the order they were found. */
  datatype InfoSet = InfoSet(id: int, player: int, actionCount: nat, sequence: Dict<int, int>, nodes: seq<seq<int>>)

  /** What the construction loop accumulates: the information sets by label, and the number of
      actions (children of decision nodes). */
  datatype Built = Built(isets: Dict<int, InfoSet>, numOfActions: nat)

  /** The loop expands chance nodes and decision nodes with a non-negative label; leaves
      (label -1) and decision nodes with a negative label are passed over. */
  predicate Expands(n: Node)
  {
    n.Chance? || (n.Decision? && n.infoset >= 0)
  }

  /** The order in which the construction loop pops the nodes of the subtree `n` at `path`:
      a node, then the subtrees of its children from the last child to the first. */
  function VisitOrder(n: Node, path: seq<int>): (r: seq<seq<int>>)
    ensures |r| > 0 && r[0] == path
    decreases n, |ChildrenOf(n)| + 1
  {
    if Expands(n) then [path] + VisitChildren(n, path, |n.children|) else [path]
  }

  /** The visit order of the subtrees of children `k - 1`, …, `0` of `n`. */
  function VisitChildren(n: Node, path: seq<int>, k: nat): seq<seq<int>>
    requires !n.Leaf? && k <= |n.children|
    decreases n, k
  {
    if k == 0 then [] else VisitOrder(n.children[k - 1], path + [k - 1]) + VisitChildren(n, path, k - 1)
  }

  ghost predicate AllValid(root: Node, ps: seq<seq<int>>)
  {
    forall i :: 0 <= i < |ps| ==> ValidPath(root, ps[i])
  }

  /** What the stack still holds, in the order it will be popped (its top is its last entry). */
  function Pending(root: Node, stack: seq<seq<int>>): seq<seq<int>>
    requires AllValid(root, stack)
  {
    if stack == [] then []
    else VisitOrder(At(root, stack[|stack| - 1]), stack[|stack| - 1]) + Pending(root, stack[..|stack| - 1])
  }

  /** One step of the loop for the popped node at `path`. */
  function BuildStep(root: Node, b: Built, path: seq<int>): Built
    requires ValidPath(root, path) && Valid(b.isets)
  {
    var n := At(root, path);
    if !(n.Decision? && n.infoset >= 0) then b
    else
      var h := n.infoset;
      var isets :=
        if h in b.isets.m then Put(b.isets, h, b.isets.m[h].(nodes := b.isets.m[h].nodes + [path]))
        else Put(b.isets, h, InfoSet(h, n.player, |n.children|, Sequence(root, path, Some(n.player)), [path]));
      Built(isets, b.numOfActions + |n.children|)
  }

  /** The loop's accumulated state after popping `ps`. */
  function BuildFold(root: Node, ps: seq<seq<int>>): (b: Built)
    requires AllValid(root, ps)
    ensures Valid(b.isets)
  {
    if ps == [] then Built(Empty(), 0)
    else BuildStep(root, BuildFold(root, ps[..|ps| - 1]), ps[|ps| - 1])
  }

  lemma {:induction false} VisitOrderValid(root: Node, path: seq<int>)
    requires ValidPath(root, path)
    ensures AllValid(root, VisitOrder(At(root, path), path))
    decreases At(root, path), |ChildrenOf(At(root, path))| + 1
  {
    var n := At(root, path);
    if Expands(n) {
      VisitChildrenValid(root, path, |n.children|);
    }
  }

  lemma {:induction false} VisitChildrenValid(root: Node, path: seq<int>, k: nat)
    requires ValidPath(root, path) && !At(root, path).Leaf? && k <= |At(root, path).children|
    ensures AllValid(root, VisitChildren(At(root, path), path, k))
    decreases At(root, path), k
  {
    if k > 0 {
      var n := At(root, path);
      ValidPathSnoc(root, path, k - 1);
      VisitOrderValid(root, path + [k - 1]);
      VisitChildrenValid(root, path, k - 1);
    }
  }

  lemma PendingPush(root: Node, stack: seq<seq<int>>, x: seq<int>)
    requires AllValid(root, stack) && ValidPath(root, x)
    ensures AllValid(root, stack + [x])
    ensures Pending(root, stack + [x]) == VisitOrder(At(root, x), x) + Pending(root, stack)
  {
    assert (stack + [x])[..|stack|] == stack;
  }

  lemma PendingPop(root: Node, stack: seq<seq<int>>)
    requires AllValid(root, stack) && stack != []
    ensures ValidPath(root, stack[|stack| - 1]) && AllValid(root, stack[..|stack| - 1])
    ensures Pending(root, stack) ==
      VisitOrder(At(root, stack[|stack| - 1]), stack[|stack| - 1]) + Pending(root, stack[..|stack| - 1])
  {
  }

  lemma FoldSnoc(root: Node, ps: seq<seq<int>>, e: seq<int>)
    requires AllValid(root, ps) && ValidPath(root, e)
    ensures AllValid(root, ps + [e])
    ensures BuildFold(root, ps + [e]) == BuildStep(root, BuildFold(root, ps), e)
  {
    assert (ps + [e])[..|ps|] == ps;
  }

  lemma ShiftOne<T>(v: seq<T>, x: T, a: seq<T>, p: seq<T>)
    ensures (v + [x]) + (a + p) == v + (([x] + a) + p)
  {
  }

  /** One turn of the construction loop keeps what is visited followed by what is pending. */
  lemma PopStep(root: Node, popped: seq<seq<int>>, visited: seq<seq<int>>, stack: seq<seq<int>>)
    requires AllValid(root, popped) && popped != [] && AllValid(root, stack)
    requires visited + Pending(root, popped) == VisitOrder(root, [])
    requires var e := popped[|popped| - 1];
      ValidPath(root, e) && AllValid(root, popped[..|popped| - 1]) &&
      Pending(root, stack) ==
        (if Expands(At(root, e)) then VisitChildren(At(root, e), e, |At(root, e).children|) else []) +
        Pending(root, popped[..|popped| - 1])
    ensures (visited + [popped[|popped| - 1]]) + Pending(root, stack) == VisitOrder(root, [])
  {
    var e := popped[|popped| - 1];
    var rest := popped[..|popped| - 1];
    PendingPop(root, popped);
    StepPending(root, e);
    ShiftOne(visited, e, if Expands(At(root, e)) then VisitChildren(At(root, e), e, |At(root, e).children|) else [], Pending(root, rest));
  }

  lemma StepPending(root: Node, e: seq<int>)
    requires ValidPath(root, e)
    ensures VisitOrder(At(root, e), e) ==
      [e] + if Expands(At(root, e)) then VisitChildren(At(root, e), e, |At(root, e).children|) else []
  {
  }

  lemma PushStep(root: Node, r: seq<seq<int>>, stack: seq<seq<int>>, e: seq<int>, j: nat)
    requires AllValid(root, r) && AllValid(root, stack) && ValidPath(root, e)
    requires !At(root, e).Leaf? && j < |At(root, e).children|
    requires Pending(root, r) == VisitChildren(At(root, e), e, j) + Pending(root, stack)
    ensures ValidPath(root, e + [j]) && AllValid(root, r + [e + [j]])
    ensures Pending(root, r + [e + [j]]) == VisitChildren(At(root, e), e, j + 1) + Pending(root, stack)
  {
    var node := At(root, e);
    ValidPathSnoc(root, e, j);
    PendingPush(root, r, e + [j]);
    var c := VisitOrder(node.children[j], e + [j]);
    assert VisitChildren(node, e, j + 1) == c + VisitChildren(node, e, j);
    assert Pending(root, r + [e + [j]]) == c + Pending(root, r);
  }

  /** Pushes the children of the node at `e` onto `stack`, first child first. */
  method PushChildren(root: Node, stack: seq<seq<int>>, e: seq<int>) returns (r: seq<seq<int>>)
    requires AllValid(root, stack) && ValidPath(root, e) && !At(root, e).Leaf?
    ensures AllValid(root, r)
    ensures Pending(root, r) == VisitChildren(At(root, e), e, |At(root, e).children|) + Pending(root, stack)
  {
    var node := At(root, e);
    r := stack;
    var j := 0;
    while j < |node.children|
      invariant 0 <= j <= |node.children|
      invariant AllValid(root, r)
      invariant Pending(root, r) == VisitChildren(node, e, j) + Pending(root, stack)
    {
      PushStep(root, r, stack, e, j);
      r := r + [e + [j]];
      j := j + 1;
    }
  }

  /** The decision-node part of a step of the construction loop: count the node's actions
      and add it to the information set of its label, creating the set if the label is new. */
  method JoinInfoSet(root: Node, isets: Dict<int, InfoSet>, numOfActions: nat, e: seq<int>)
    returns (isets': Dict<int, InfoSet>, numOfActions': nat)
    requires ValidPath(root, e) && Valid(isets)
    ensures Built(isets', numOfActions') == BuildStep(root, Built(isets, numOfActions), e)
  {
    isets', numOfActions' := isets, numOfActions;
    var node := At(root, e);
    if node.Decision? && node.infoset >= 0 {
      numOfActions' := numOfActions + |node.children|;
      var h := node.infoset;
      if h in isets.m {
        isets' := Put(isets, h, isets.m[h].(nodes := isets.m[h].nodes + [e]));
      } else {
        isets' := Put(isets, h, InfoSet(h, node.player, |node.children|, Sequence(root, e, Some(node.player)), [e]));
      }
    }
  }

  /** `CFRTree.__init__`'s construction loop: pop the last node of `nodes_to_expand`;
      a chance node pushes its children; a decision node with a non-negative label pushes its
      children, counts them as actions and joins the information set of its label, creating it
      when the label is new. */
  method BuildInformationSets(root: Node) returns (b: Built)
    ensures AllValid(root, VisitOrder(root, []))
    ensures b == BuildFold(root, VisitOrder(root, []))
  {
    VisitOrderValid(root, []);
    var isets: Dict<int, InfoSet> := Empty();
    var numOfActions: nat := 0;
    var stack: seq<seq<int>> := [[]];
    ghost var visited: seq<seq<int>> := [];
    while |stack| > 0
      invariant AllValid(root, stack) && AllValid(root, visited)
      invariant visited + Pending(root, stack) == VisitOrder(root, [])
      invariant Built(isets, numOfActions) == BuildFold(root, visited)
      decreases |VisitOrder(root, [])| - |visited|
    {
      PendingPop(root, stack);
      ghost var popped := stack;
      var e := stack[|stack| - 1];
      var rest := stack[..|stack| - 1];
      stack := rest;
      var node := At(root, e);
      if node.Chance? || (node.Decision? && node.infoset >= 0) {
        stack := PushChildren(root, rest, e);
      } else {
        assert Pending(root, stack) == [] + Pending(root, rest);
      }
      isets, numOfActions := JoinInfoSet(root, isets, numOfActions, e);
      PopStep(root, popped, visited, stack);
      FoldSnoc(root, visited, e);
      visited := visited + [e];
    }
    assert Pending(root, stack) == [];
    assert visited == VisitOrder(root, []);
    b := Built(isets, numOfActions);
  }

  // ---------------------------------------------------------------------------------------
  // What the construction loop computes.

  /** The decision nodes labelled `h` among `ps`, in order. */
  function WithLabel(root: Node, ps: seq<seq<int>>, h: int): (r: seq<seq<int>>)
    requires AllValid(root, ps)
    ensures forall i :: 0 <= i < |r| ==> r[i] in ps && ValidPath(root, r[i]) && At(root, r[i]).Decision? && At(root, r[i]).infoset == h
  {
    if ps == [] then []
    else
      var last := ps[|ps| - 1];
      var before := WithLabel(root, ps[..|ps| - 1], h);
      if At(root, last).Decision? && At(root, last).infoset == h then before + [last] else before
  }

  /** The information set built for label `h` from its nodes: player and action count come
      from the first node, as does the stored sequence. */
  function InfoSetOf(root: Node, h: int, nodes: seq<seq<int>>): InfoSet
    requires nodes != [] && ValidPath(root, nodes[0]) && At(root, nodes[0]).Decision?
  {
    var first := At(root, nodes[0]);
    InfoSet(h, first.player, |first.children|, Sequence(root, nodes[0], Some(first.player)), nodes)
  }

  /** The number of children of the decision nodes with a non-negative label among `ps`. */
  function ActionsIn(root: Node, ps: seq<seq<int>>): nat
    requires AllValid(root, ps)
  {
    if ps == [] then 0
    else
      var n := At(root, ps[|ps| - 1]);
      ActionsIn(root, ps[..|ps| - 1]) + if n.Decision? && n.infoset >= 0 then |n.children| else 0
  }

  /** After the loop has popped `ps`: there is an information set for label `h` exactly when
      some popped decision node carries the non-negative label `h`; it holds all those nodes in
      popping order and takes its player, action count and sequence from the first of them;
      the action count is the number of children of the popped decision nodes. */
  lemma {:induction false} FoldInfoSets(root: Node, ps: seq<seq<int>>, h: int)
    requires AllValid(root, ps)
    ensures h in BuildFold(root, ps).isets.m <==> h >= 0 && WithLabel(root, ps, h) != []
    ensures h in BuildFold(root, ps).isets.m ==>
      BuildFold(root, ps).isets.m[h] == InfoSetOf(root, h, WithLabel(root, ps, h))
    ensures BuildFold(root, ps).numOfActions == ActionsIn(root, ps)
  {
    FoldKeys(root, ps, h);
    if h in BuildFold(root, ps).isets.m {
      FoldEntry(root, ps, h);
    }
    FoldActions(root, ps);
  }

  lemma {:induction false} FoldKeys(root: Node, ps: seq<seq<int>>, h: int)
    requires AllValid(root, ps)
    ensures h in BuildFold(root, ps).isets.m <==> h >= 0 && WithLabel(root, ps, h) != []
  {
    if ps != [] {
      FoldKeys(root, ps[..|ps| - 1], h);
    }
  }

  lemma {:induction false} FoldEntry(root: Node, ps: seq<seq<int>>, h: int)
    requires AllValid(root, ps) && h in BuildFold(root, ps).isets.m
    ensures WithLabel(root, ps, h) != []
    ensures BuildFold(root, ps).isets.m[h] == InfoSetOf(root, h, WithLabel(root, ps, h))
  {
    FoldKeys(root, ps, h);
    var q := ps[..|ps| - 1];
    var last := ps[|ps| - 1];
    var n := At(root, last);
    var w := WithLabel(root, q, h);
    assert BuildFold(root, ps) == BuildStep(root, BuildFold(root, q), last);
    if h in BuildFold(root, q).isets.m {
      FoldEntry(root, q, h);
      if n.Decision? && n.infoset == h {
        assert (w + [last])[0] == w[0];
      }
    } else {
      FoldKeys(root, q, h);
    }
  }

  lemma {:induction false} FoldActions(root: Node, ps: seq<seq<int>>)
    requires AllValid(root, ps)
    ensures BuildFold(root, ps).numOfActions == ActionsIn(root, ps)
  {
    if ps != [] {
      FoldActions(root, ps[..|ps| - 1]);
    }
  }

  /** Every node strictly above the end of `q` (starting at `n`) is expanded by the loop. */
  ghost predicate ExpandsAlong(n: Node, q: seq<int>)
    requires ValidPath(n, q)
    decreases |q|
  {
    q == [] || (Expands(n) && ExpandsAlong(ChildrenOf(n)[q[0]], q[1..]))
  }

  lemma {:induction false} VisitChildrenContains(n: Node, base: seq<int>, k: nat, a: nat, x: seq<int>)
    requires !n.Leaf? && a < k <= |n.children|
    requires x in VisitOrder(n.children[a], base + [a])
    ensures x in VisitChildren(n, base, k)
    decreases k
  {
    if a < k - 1 {
      VisitChildrenContains(n, base, k - 1, a, x);
    }
  }

  /** The loop pops exactly once every node whose ancestors it all expands; in particular it
      reaches each such path. */
  lemma {:induction false} VisitOrderReaches(n: Node, base: seq<int>, q: seq<int>)
    requires ValidPath(n, q) && ExpandsAlong(n, q)
    ensures base + q in VisitOrder(n, base)
    decreases |q|
  {
    if q == [] {
      assert base + q == base;
    } else {
      var a := q[0];
      VisitOrderReaches(n.children[a], base + [a], q[1..]);
      assert base + [a] + q[1..] == base + q;
      VisitChildrenContains(n, base, |n.children|, a, base + q);
    }
  }

  /** Every decision node's label is non-negative, so the loop expands every inner node. */
  ghost predicate NonNegativeLabels(n: Node)
  {
    match n
    case Leaf(_) => true
    case Decision(_, h, cs) => h >= 0 && forall i :: 0 <= i < |cs| ==> NonNegativeLabels(cs[i])
    case Chance(_, cs) => forall i :: 0 <= i < |cs| ==> NonNegativeLabels(cs[i])
  }

  lemma {:induction false} AllExpand(n: Node, q: seq<int>)
    requires ValidPath(n, q) && NonNegativeLabels(n)
    ensures ExpandsAlong(n, q)
    decreases |q|
  {
    if q != [] {
      AllExpand(ChildrenOf(n)[q[0]], q[1..]);
    }
  }

  /** Once the loop is done, every decision node of a tree whose labels are all non-negative
      belongs to the information set of its label. */
  lemma EveryDecisionRegistered(root: Node, path: seq<int>)
    requires NonNegativeLabels(root) && ValidPath(root, path) && At(root, path).Decision?
    ensures AllValid(root, VisitOrder(root, []))
    ensures At(root, path).infoset in BuildFold(root, VisitOrder(root, [])).isets.m
    ensures path in BuildFold(root, VisitOrder(root, [])).isets.m[At(root, path).infoset].nodes
  {
    var ps := VisitOrder(root, []);
    VisitOrderValid(root, []);
    AllExpand(root, path);
    VisitOrderReaches(root, [], path);
    assert [] + path == path;
    var h := At(root, path).infoset;
    WithLabelContains(root, ps, h, path);
    NonNegativeBelow(root, path);
    FoldInfoSets(root, ps, h);
  }

  lemma {:induction false} NonNegativeBelow(n: Node, q: seq<int>)
    requires ValidPath(n, q) && NonNegativeLabels(n)
    ensures NonNegativeLabels(At(n, q))
    decreases |q|
  {
    if q != [] {
      NonNegativeBelow(ChildrenOf(n)[q[0]], q[1..]);
    }
  }

  lemma {:induction false} WithLabelContains(root: Node, ps: seq<seq<int>>, h: int, x: seq<int>)
    requires AllValid(root, ps) && x in ps && ValidPath(root, x) && At(root, x).Decision? && At(root, x).infoset == h
    ensures x in WithLabel(root, ps, h)
  {
    var last := ps[|ps| - 1];
    if x != last {
      assert x in ps[..|ps| - 1] by {
        var i :| 0 <= i < |ps| && ps[i] == x;
        assert i < |ps| - 1;
        assert ps[..|ps| - 1][i] == x;
      }
      WithLabelContains(root, ps[..|ps| - 1], h, x);
    }
  }

  // ---------------------------------------------------------------------------------------
  // What the rest of the solvers assume of a game tree.

  /** Every chance node carries one probability per child (what `ChanceNode.addChild` keeps). */
  ghost predicate ChanceAligned(n: Node)
  {
    match n
    case Leaf(_) => true
    case Decision(_, _, cs) => forall i :: 0 <= i < |cs| ==> ChanceAligned(cs[i])
    case Chance(d, cs) => |d| == |cs| && forall i :: 0 <= i < |cs| ==> ChanceAligned(cs[i])
  }

  /** Every decision and chance node has a child. A childless one is taken for a leaf by the
      `CFRNode` constructor, which then reads a utility it does not have. */
  predicate InnerHaveChildren(n: Node)
  {
    match n
    case Leaf(_) => true
    case Decision(_, _, cs) => |cs| > 0 && forall i :: 0 <= i < |cs| ==> InnerHaveChildren(cs[i])
    case Chance(_, cs) => |cs| > 0 && forall i :: 0 <= i < |cs| ==> InnerHaveChildren(cs[i])
  }

  /** Decision nodes sharing a label share their player and their number of actions. */
  ghost predicate LabelsAgree(root: Node)
  {
    forall p, q ::
      ValidPath(root, p) && ValidPath(root, q) && At(root, p).Decision? && At(root, q).Decision? &&
      At(root, p).infoset == At(root, q).infoset ==>
        At(root, p).player == At(root, q).player && |At(root, p).children| == |At(root, q).children|
  }

  /** Every leaf below `n` has `m` utilities. */
  ghost predicate LeafWidth(n: Node, m: nat)
  {
    match n
    case Leaf(u) => |u| == m
    case Decision(_, _, cs) => forall i :: 0 <= i < |cs| ==> LeafWidth(cs[i], m)
    case Chance(_, cs) => forall i :: 0 <= i < |cs| ==> LeafWidth(cs[i], m)
  }

  ghost predicate GameShape(root: Node)
  {
    ChanceAligned(root) && NonNegativeLabels(root) && LabelsAgree(root) && InnerHaveChildren(root)
  }

  lemma {:induction false} ShapeBelow(n: Node, q: seq<int>)
    requires ValidPath(n, q) && ChanceAligned(n) && InnerHaveChildren(n)
    ensures ChanceAligned(At(n, q)) && InnerHaveChildren(At(n, q))
    decreases |q|
  {
    if q != [] {
      ShapeBelow(ChildrenOf(n)[q[0]], q[1..]);
    }
  }

  // ---------------------------------------------------------------------------------------
  // Perfect recall.

  ghost predicate NodesValid(root: Node, isets: Dict<int, InfoSet>)
  {
    forall h {:trigger isets.m[h]} :: h in isets.m ==> AllValid(root, isets.m[h].nodes)
  }

  /** All nodes of `s` have the stored sequence of `s`'s player (dicts compare by content). */
  ghost predicate RecallAt(root: Node, s: InfoSet)
    requires AllValid(root, s.nodes)
  {
    forall i :: 0 <= i < |s.nodes| ==> Sequence(root, s.nodes[i], Some(s.player)).m == s.sequence.m
  }

  ghost predicate PerfectRecall(root: Node, isets: Dict<int, InfoSet>)
    requires NodesValid(root, isets)
  {
    forall h :: h in isets.m ==> RecallAt(root, isets.m[h])
  }

  /** The inner loop of the check: whether every node of `s` has the stored sequence. */
  method NodesAgree(root: Node, s: InfoSet) returns (ok: bool)
    requires AllValid(root, s.nodes)
    ensures ok <==> RecallAt(root, s)
  {
    var i := 0;
    while i < |s.nodes|
      invariant 0 <= i <= |s.nodes|
      invariant forall j :: 0 <= j < i ==> Sequence(root, s.nodes[j], Some(s.player)).m == s.sequence.m
    {
      if Sequence(root, s.nodes[i], Some(s.player)).m != s.sequence.m {
        return false;
      }
      i := i + 1;
    }
    return true;
  }

  /** The perfect-recall check over the information sets in the order they were created: the
      label of the first one with a node of a different sequence, or `None` when there is none. */
  method FirstRecallViolation(root: Node, isets: Dict<int, InfoSet>) returns (bad: Option<int>)
    requires Valid(isets) && NodesValid(root, isets)
    ensures bad.None? <==> PerfectRecall(root, isets)
    ensures bad.Some? ==> bad.value in isets.m && AllValid(root, isets.m[bad.value].nodes) && !RecallAt(root, isets.m[bad.value])
  {
    assert forall j :: 0 <= j < |isets.keys| ==> isets.keys[j] in Elems(isets.keys);
    var k := 0;
    while k < |isets.keys|
      invariant 0 <= k <= |isets.keys|
      invariant forall j :: 0 <= j < k ==> AllValid(root, isets.m[isets.keys[j]].nodes) && RecallAt(root, isets.m[isets.keys[j]])
    {
      var h := isets.keys[k];
      assert h in isets.m && AllValid(root, isets.m[h].nodes);
      var ok := NodesAgree(root, isets.m[isets.keys[k]]);
      if !ok {
        return Some(isets.keys[k]);
      }
      k := k + 1;
    }
    forall h | h in isets.m ensures RecallAt(root, isets.m[h]) {
      assert h in Elems(isets.keys);
      var j :| 0 <= j < |isets.keys| && isets.keys[j] == h;
    }
    return None;
  }

  // ---------------------------------------------------------------------------------------
  // `infosets_by_player`.

  /** The labels among `keys` of the information sets of `player`, in order. */
  function OfPlayer(keys: seq<int>, m: map<int, InfoSet>, player: int): (r: seq<int>)
    requires forall i :: 0 <= i < |keys| ==> keys[i] in m
    ensures forall h :: h in r <==> h in keys && m[h].player == player
  {
    if keys == [] then []
    else
      var rest := OfPlayer(keys[1..], m, player);
      assert forall h :: h in keys <==> h == keys[0] || h in keys[1..];
      if m[keys[0]].player == player then [keys[0]] + rest else rest
  }

  /** `infosets_by_player`: for each player, the labels of that player's information sets, in
      creation order. It partitions the information sets of the players `0 .. players - 1`: each
      lands in the list of its player and in no other. */
  function ByPlayer(isets: Dict<int, InfoSet>, players: nat): (r: seq<seq<int>>)
    requires Valid(isets)
    ensures |r| == players
    ensures forall p, h :: 0 <= p < players ==> (h in r[p] <==> h in isets.m && isets.m[h].player == p)
    ensures forall p, q, h :: 0 <= p < players && 0 <= q < players && h in r[p] && h in r[q] ==> p == q
  {
    seq(players, p requires 0 <= p < players => OfPlayer(isets.keys, isets.m, p))
  }

  // ---------------------------------------------------------------------------------------
  // `getChildrenInformationSets` and `getChildrenLeaves`.

  /** Below `n` (the child taken by an action of `player`), the information sets of `player`
      reached before any other node of `player`. */
  function ChildInfosets(n: Node, player: int): set<int>
    decreases n, |ChildrenOf(n)| + 1
  {
    match n
    case Leaf(_) => {}
    case Decision(q, h, cs) => if q == player then {h} else InfosetsUnder(n, player, |cs|)
    case Chance(_, cs) => InfosetsUnder(n, player, |cs|)
  }

  /** The union of `ChildInfosets` over children `0 .. k - 1` of `n`. */
  function InfosetsUnder(n: Node, player: int, k: nat): set<int>
    requires !n.Leaf? && k <= |n.children|
    decreases n, k
  {
    if k == 0 then {} else InfosetsUnder(n, player, k - 1) + ChildInfosets(n.children[k - 1], player)
  }

  /** Below `n` at `path`, the leaves reached before any node of `player`. */
  function ChildLeaves(n: Node, path: seq<int>, player: int): set<seq<int>>
    decreases n, |ChildrenOf(n)| + 1
  {
    match n
    case Leaf(_) => {path}
    case Decision(q, _, cs) => if q == player then {} else LeavesUnder(n, path, player, |cs|)
    case Chance(_, cs) => LeavesUnder(n, path, player, |cs|)
  }

  function LeavesUnder(n: Node, path: seq<int>, player: int, k: nat): set<seq<int>>
    requires !n.Leaf? && k <= |n.children|
    decreases n, k
  {
    if k == 0 then {} else LeavesUnder(n, path, player, k - 1) + ChildLeaves(n.children[k - 1], path + [k - 1], player)
  }

  lemma {:induction false} InfosetsUnderHas(n: Node, player: int, k: nat, h: int) returns (i: nat)
    requires !n.Leaf? && k <= |n.children| && h in InfosetsUnder(n, player, k)
    ensures i < k && h in ChildInfosets(n.children[i], player)
  {
    if h in ChildInfosets(n.children[k - 1], player) {
      i := k - 1;
    } else {
      i := InfosetsUnderHas(n, player, k - 1, h);
    }
  }

  lemma {:induction false} InfosetsUnderGets(n: Node, player: int, k: nat, i: nat, h: int)
    requires !n.Leaf? && i < k <= |n.children| && h in ChildInfosets(n.children[i], player)
    ensures h in InfosetsUnder(n, player, k)
  {
    if i < k - 1 {
      InfosetsUnderGets(n, player, k - 1, i, h);
    }
  }

  lemma {:induction false} LeavesUnderHas(n: Node, path: seq<int>, player: int, k: nat, x: seq<int>) returns (i: nat)
    requires !n.Leaf? && k <= |n.children| && x in LeavesUnder(n, path, player, k)
    ensures i < k && x in ChildLeaves(n.children[i], path + [i], player)
  {
    if x in ChildLeaves(n.children[k - 1], path + [k - 1], player) {
      i := k - 1;
    } else {
      i := LeavesUnderHas(n, path, player, k - 1, x);
    }
  }

  lemma {:induction false} LeavesUnderGets(n: Node, path: seq<int>, player: int, k: nat, i: nat, x: seq<int>)
    requires !n.Leaf? && i < k <= |n.children| && x in ChildLeaves(n.children[i], path + [i], player)
    ensures x in LeavesUnder(n, path, player, k)
  {
    if i < k - 1 {
      LeavesUnderGets(n, path, player, k - 1, i, x);
    }
  }

  /** `q` leads from `n` without passing a leaf or a node of `player` on the way (the end of
      `q` itself may be anything). */
  ghost predicate Direct(n: Node, q: seq<int>, player: int)
    requires ValidPath(n, q)
    decreases |q|
  {
    q == [] || (PlayerOf(n) != player && Direct(ChildrenOf(n)[q[0]], q[1..], player))
  }

  lemma {:induction false} DirectStep(n: Node, i: int, q: seq<int>, player: int)
    requires !n.Leaf? && 0 <= i < |n.children| && ValidPath(n.children[i], q)
    ensures ValidPath(n, [i] + q) && At(n, [i] + q) == At(n.children[i], q)
    ensures Direct(n, [i] + q, player) <==> PlayerOf(n) != player && Direct(n.children[i], q, player)
  {
    assert ([i] + q)[0] == i && ([i] + q)[1..] == q;
  }

  /** A label in `ChildInfosets` comes from a node of `player` reached directly. */
  lemma {:induction false} ChildInfosetWitness(n: Node, player: int, h: int) returns (q: seq<int>)
    requires player >= 0 && h in ChildInfosets(n, player)
    ensures ValidPath(n, q) && Direct(n, q, player) && At(n, q).Decision? && At(n, q).player == player && At(n, q).infoset == h
  {
    if n.Decision? && n.player == player {
      q := [];
    } else {
      var i := InfosetsUnderHas(n, player, |n.children|, h);
      var r := ChildInfosetWitness(n.children[i], player, h);
      DirectStep(n, i, r, player);
      q := [i] + r;
    }
  }

  lemma {:induction false} ChildInfosetReached(n: Node, player: int, q: seq<int>)
    requires player >= 0 && ValidPath(n, q) && Direct(n, q, player) && At(n, q).Decision? && At(n, q).player == player
    ensures At(n, q).infoset in ChildInfosets(n, player)
    decreases |q|
  {
    if q != [] {
      var i := q[0];
      DirectStep(n, i, q[1..], player);
      assert [i] + q[1..] == q;
      ChildInfosetReached(n.children[i], player, q[1..]);
      InfosetsUnderGets(n, player, |n.children|, i, At(n, q).infoset);
    }
  }

  /** `getChildrenInformationSets(-1, player)`: exactly the labels of the nodes of `player`
      reached directly. */
  lemma ChildInfosetsAre(n: Node, player: int, h: int)
    requires player >= 0
    ensures h in ChildInfosets(n, player) <==>
      exists q :: ValidPath(n, q) && Direct(n, q, player) && At(n, q).Decision? && At(n, q).player == player && At(n, q).infoset == h
  {
    if h in ChildInfosets(n, player) {
      var q := ChildInfosetWitness(n, player, h);
    }
    forall q | ValidPath(n, q) && Direct(n, q, player) && At(n, q).Decision? && At(n, q).player == player && At(n, q).infoset == h
      ensures h in ChildInfosets(n, player)
    {
      ChildInfosetReached(n, player, q);
    }
  }

  lemma {:induction false} ChildLeafWitness(n: Node, path: seq<int>, player: int, x: seq<int>) returns (q: seq<int>)
    requires player >= 0 && x in ChildLeaves(n, path, player)
    ensures ValidPath(n, q) && Direct(n, q, player) && At(n, q).Leaf? && x == path + q
  {
    if n.Leaf? {
      q := [];
      assert path + q == path;
    } else {
      var i := LeavesUnderHas(n, path, player, |n.children|, x);
      var r := ChildLeafWitness(n.children[i], path + [i], player, x);
      DirectStep(n, i, r, player);
      q := [i] + r;
      assert path + [i] + r == path + q;
    }
  }

  lemma {:induction false} ChildLeafReached(n: Node, path: seq<int>, player: int, q: seq<int>)
    requires player >= 0 && ValidPath(n, q) && Direct(n, q, player) && At(n, q).Leaf?
    ensures path + q in ChildLeaves(n, path, player)
    decreases |q|
  {
    if q == [] {
      assert path + q == path;
    } else {
      var i := q[0];
      DirectStep(n, i, q[1..], player);
      assert [i] + q[1..] == q;
      assert path + [i] + q[1..] == path + q;
      ChildLeafReached(n.children[i], path + [i], player, q[1..]);
      LeavesUnderGets(n, path, player, |n.children|, i, path + q);
    }
  }

  /** `getChildrenLeaves(-1, player)`: exactly the leaves reached directly. */
  lemma ChildLeavesAre(n: Node, path: seq<int>, player: int, x: seq<int>)
    requires player >= 0
    ensures x in ChildLeaves(n, path, player) <==>
      exists q :: ValidPath(n, q) && Direct(n, q, player) && At(n, q).Leaf? && x == path + q
  {
    if x in ChildLeaves(n, path, player) {
      var q := ChildLeafWitness(n, path, player, x);
    }
    forall q | ValidPath(n, q) && Direct(n, q, player) && At(n, q).Leaf? && x == path + q
      ensures x in ChildLeaves(n, path, player)
    {
      ChildLeafReached(n, path, player, q);
    }
  }

  // ---------------------------------------------------------------------------------------
  // The information sets as built, and their children.

  /** Each information set holds decision nodes carrying its label, all of its player and all
      with `actionCount` children. */
  ghost predicate IsetsMatch(root: Node, isets: Dict<int, InfoSet>)
  {
    forall h :: h in isets.m ==>
      var s := isets.m[h];
      s.id == h && s.nodes != [] && AllValid(root, s.nodes) &&
      forall i :: 0 <= i < |s.nodes| ==>
        At(root, s.nodes[i]).Decision? && At(root, s.nodes[i]).infoset == h &&
        At(root, s.nodes[i]).player == s.player && |At(root, s.nodes[i]).children| == s.actionCount
  }

  /** Every decision node belongs to the information set of its label. */
  ghost predicate Registered(root: Node, isets: Dict<int, InfoSet>)
  {
    forall p :: ValidPath(root, p) && At(root, p).Decision? ==>
      At(root, p).infoset in isets.m && p in isets.m[At(root, p).infoset].nodes
  }

  lemma BuiltIsetsMatch(root: Node)
    requires GameShape(root)
    ensures AllValid(root, VisitOrder(root, []))
    ensures IsetsMatch(root, BuildFold(root, VisitOrder(root, [])).isets)
    ensures Registered(root, BuildFold(root, VisitOrder(root, [])).isets)
  {
    var ps := VisitOrder(root, []);
    VisitOrderValid(root, []);
    assert At(root, []) == root;
    var isets := BuildFold(root, ps).isets;
    forall h | h in isets.m
      ensures var s := isets.m[h];
        s.id == h && s.nodes != [] && AllValid(root, s.nodes) &&
        forall i :: 0 <= i < |s.nodes| ==>
          At(root, s.nodes[i]).Decision? && At(root, s.nodes[i]).infoset == h &&
          At(root, s.nodes[i]).player == s.player && |At(root, s.nodes[i]).children| == s.actionCount
    {
      FoldInfoSets(root, ps, h);
      var w := WithLabel(root, ps, h);
      assert isets.m[h] == InfoSetOf(root, h, w);
      forall i | 0 <= i < |w|
        ensures At(root, w[i]).player == At(root, w[0]).player && |At(root, w[i]).children| == |At(root, w[0]).children|
      {
      }
    }
    forall p | ValidPath(root, p) && At(root, p).Decision?
      ensures At(root, p).infoset in isets.m && p in isets.m[At(root, p).infoset].nodes
    {
      EveryDecisionRegistered(root, p);
    }
  }

  /** Every path of the tree is popped by the loop when no decision label is negative. */
  lemma EveryPathVisited(root: Node, p: seq<int>)
    requires NonNegativeLabels(root) && ValidPath(root, p)
    ensures p in VisitOrder(root, [])
  {
    AllExpand(root, p);
    VisitOrderReaches(root, [], p);
    assert [] + p == p;
  }

  /** `iset.getChildrenInformationSets(a)`: the union over the nodes of the set of the
      information sets reached directly below their child `a`. */
  function UnionInfosets(root: Node, nodes: seq<seq<int>>, a: nat, player: int): (r: set<int>)
    requires forall i :: 0 <= i < |nodes| ==> ValidPath(root, nodes[i]) && !At(root, nodes[i]).Leaf? && a < |At(root, nodes[i]).children|
    ensures forall x :: x in r <==> exists i :: 0 <= i < |nodes| && x in ChildInfosets(At(root, nodes[i]).children[a], player)
  {
    if nodes == [] then {}
    else
      var k := |nodes| - 1;
      var r := UnionInfosets(root, nodes[..k], a, player) + ChildInfosets(At(root, nodes[k]).children[a], player);
      assert forall i :: 0 <= i < k ==> nodes[..k][i] == nodes[i];
      r
  }

  /** `iset.getChildrenLeaves(a)`: the union over the nodes of the leaves reached directly
      below their child `a`. */
  function UnionLeaves(root: Node, nodes: seq<seq<int>>, a: nat, player: int): (r: set<seq<int>>)
    requires forall i :: 0 <= i < |nodes| ==> ValidPath(root, nodes[i]) && !At(root, nodes[i]).Leaf? && a < |At(root, nodes[i]).children|
    ensures forall x :: x in r <==> exists i :: 0 <= i < |nodes| && x in ChildLeaves(At(root, nodes[i]).children[a], nodes[i] + [a], player)
  {
    if nodes == [] then {}
    else
      var k := |nodes| - 1;
      var r := UnionLeaves(root, nodes[..k], a, player) + ChildLeaves(At(root, nodes[k]).children[a], nodes[k] + [a], player);
      assert forall i :: 0 <= i < k ==> nodes[..k][i] == nodes[i];
      r
  }

  /** `children_infoset` of every information set, one set per action. */
  function ChildrenInfosetMap(root: Node, isets: Dict<int, InfoSet>): (r: map<int, seq<set<int>>>)
    requires IsetsMatch(root, isets)
    ensures r.Keys == isets.m.Keys
    ensures forall h :: h in r ==> |r[h]| == isets.m[h].actionCount
  {
    map h | h in isets.m ::
      var s := isets.m[h];
      seq(s.actionCount, a requires 0 <= a < s.actionCount => UnionInfosets(root, s.nodes, a, s.player))
  }

  /** `children_leaves` of every information set, one set per action. */
  function ChildrenLeavesMap(root: Node, isets: Dict<int, InfoSet>): (r: map<int, seq<set<seq<int>>>>)
    requires IsetsMatch(root, isets)
    ensures r.Keys == isets.m.Keys
    ensures forall h :: h in r ==> |r[h]| == isets.m[h].actionCount
  {
    map h | h in isets.m ::
      var s := isets.m[h];
      seq(s.actionCount, a requires 0 <= a < s.actionCount => UnionLeaves(root, s.nodes, a, s.player))
  }

  // ---------------------------------------------------------------------------------------
  // Regret matching and sampling.

  /** `updateCurrentStrategy`'s loop: the positive part of each regret over the sum of the
      positive parts, or `1 / n` everywhere when that sum is not positive. The result is regret
      matching, a distribution. */
  method RegretMatched(regrets: seq<real>) returns (s: seq<real>)
    requires |regrets| > 0
    ensures s == RegretMatch(regrets)
    ensures IsDistribution(s)
  {
    var total := Sum(PosPart(regrets));
    var n := |regrets|;
    s := [];
    var a := 0;
    while a < n
      invariant 0 <= a <= n && |s| == a
      invariant forall j :: 0 <= j < a ==> s[j] == if total > 0.0 then Pos(regrets[j]) / total else 1.0 / n as real
    {
      if total > 0.0 {
        s := s + [Pos(regrets[a]) / total];
      } else {
        s := s + [1.0 / n as real];
      }
      a := a + 1;
    }
    RegretMatchIsDistribution(regrets);
    if total > 0.0 {
      assert s == Divide(PosPart(regrets), total);
    } else {
      assert s == Uniform(n);
    }
  }

  /** The running total of `s` through entry `j`. */
  function RunningTotal(s: seq<real>, j: nat): real
    requires j < |s|
  {
    Sum(s[..j + 1])
  }

  /** A key listed once is not among the keys before it. */
  lemma NotInPrefix<K>(keys: seq<K>, k: nat)
    requires Distinct(keys) && k < |keys|
    ensures keys[k] !in keys[..k]
  {
    forall j | 0 <= j < k ensures keys[..k][j] != keys[k] {
      assert keys[..k][j] == keys[j];
    }
  }

  /** Index `i` is the one sampling picks from `s` with the draw `r`. */
  ghost predicate Sampled(s: seq<real>, r: real, i: int)
  {
    0 <= i < |s| && r < RunningTotal(s, i) && forall j :: 0 <= j < i ==> r >= RunningTotal(s, j)
  }

  /** `sampleAction`'s loop: the first index whose running total exceeds the draw `r`, or
      `None` when the draw is at least every running total. */
  method SampleIndex(s: seq<real>, r: real) returns (i: Option<nat>)
    ensures i.Some? ==> Sampled(s, r, i.value)
    ensures i.None? ==> forall j :: 0 <= j < |s| ==> r >= RunningTotal(s, j)
  {
    var count := 0.0;
    var k := 0;
    while k < |s|
      invariant 0 <= k <= |s| && count == Sum(s[..k])
      invariant forall j :: 0 <= j < k ==> r >= RunningTotal(s, j)
    {
      PrefixSumStep(s, k);
      count := count + s[k];
      if r < count {
        return Some(k);
      }
      k := k + 1;
    }
    return None;
  }

  // ---------------------------------------------------------------------------------------
  // The CFR tree.

  /** The fields a `CFRInformationSet` updates while the solvers run. */
  /** The plan loop of `sampleActionPlan`, over the information sets `keys` in creation order. */
  method SamplePlanOver(keys: seq<int>, st: map<int, IsetState>, draws: map<int, real>) returns (plan: Dict<int, int>)
    requires Distinct(keys)
    requires forall j :: 0 <= j < |keys| ==> keys[j] in st && keys[j] in draws && 0.0 <= draws[keys[j]] < 1.0
    requires forall j :: 0 <= j < |keys| ==> |st[keys[j]].currentStrategy| > 0 && Sum(st[keys[j]].currentStrategy) == 1.0
    ensures Dicts.Valid(plan) && plan.keys == keys
    ensures forall h :: h in plan.m ==> h in st && Sampled(st[h].currentStrategy, draws[h], plan.m[h])
  {
    plan := Empty();
    var k := 0;
    while k < |keys|
      invariant 0 <= k <= |keys| && Dicts.Valid(plan) && plan.keys == keys[..k]
      invariant forall h :: h in plan.m ==> h in st && Sampled(st[h].currentStrategy, draws[h], plan.m[h])
    {
      var h := keys[k];
      var s := st[h].currentStrategy;
      assert s[..|s|] == s;
      assert RunningTotal(s, |s| - 1) == 1.0;
      var a := SampleIndex(s, draws[h]);
      NotInPrefix(keys, k);
      assert plan.m.Keys == Elems(keys[..k]);
      assert keys[..k + 1] == keys[..k] + [h];
      plan := Put(plan, h, a.value);
      k := k + 1;
    }
    assert keys[..k] == keys;
  }

  datatype IsetState = IsetState(
    cumulativeRegret: seq<real>,
    cumulativeStrategy: seq<real>,
    currentStrategy: seq<real>,
    muT: seq<real>,
    reachability: real)

  /** `st` is `st0` with the current strategy of the information sets in `done` recomputed
      from their cumulative regrets. */
  ghost predicate RefreshedOn(st0: map<int, IsetState>, st: map<int, IsetState>, done: set<int>)
  {
    st.Keys == st0.Keys &&
    forall h :: h in st ==>
      st[h] == if h in done then st0[h].(currentStrategy := RegretMatch(st0[h].cumulativeRegret)) else st0[h]
  }

  lemma RefreshStep(st0: map<int, IsetState>, st: map<int, IsetState>, done: set<int>, h: int)
    requires RefreshedOn(st0, st, done) && h in st
    ensures RefreshedOn(st0, st[h := st[h].(currentStrategy := RegretMatch(st[h].cumulativeRegret))], done + {h})
  {
  }

  /** A new information set with `n` actions: zero regrets and sums, the uniform current
      strategy, reachability -1. */
  function FreshState(n: nat): (r: IsetState)
    ensures |r.cumulativeRegret| == |r.cumulativeStrategy| == |r.currentStrategy| == |r.muT| == n
  {
    IsetState(Zeros(n), Zeros(n), Uniform(n), Zeros(n), -1.0)
  }

  /** A fresh state for every information set of `isets`. */
  function FreshStates(isets: Dict<int, InfoSet>): (r: map<int, IsetState>)
    ensures StateFits(isets, r)
    ensures forall h :: h in r ==> r[h] == FreshState(isets.m[h].actionCount)
  {
    map h | h in isets.m :: FreshState(isets.m[h].actionCount)
  }

  /** 0 at every node, keyed by the paths in visiting order. */
  function ZeroAtNodes(root: Node): (r: map<seq<int>, real>)
    requires NonNegativeLabels(root)
    ensures Covers(root, r) && forall p :: p in r ==> r[p] == 0.0
  {
    forall p | ValidPath(root, p) ensures p in VisitOrder(root, []) {
      EveryPathVisited(root, p);
    }
    map p | p in VisitOrder(root, []) :: 0.0
  }

  ghost predicate StateFits(isets: Dict<int, InfoSet>, st: map<int, IsetState>)
  {
    st.Keys == isets.m.Keys &&
    forall h :: h in st ==>
      var n := isets.m[h].actionCount;
      |st[h].cumulativeRegret| == n && |st[h].cumulativeStrategy| == n && |st[h].currentStrategy| == n && |st[h].muT| == n
  }

  /** A per-node field that every node of the tree carries. */
  ghost predicate Covers<V>(root: Node, m: map<seq<int>, V>)
  {
    forall p :: ValidPath(root, p) ==> p in m
  }

  class CFRTree {
    const root: Node
    const informationSets: Dict<int, InfoSet>
    const numOfActions: nat
    const numOfPlayers: nat
    const infosetsByPlayer: seq<seq<int>>
    const childrenInfoset: map<int, seq<set<int>>>
    const childrenLeaves: map<int, seq<set<seq<int>>>>
    var isetState: map<int, IsetState>
    var visits: map<seq<int>, real>
    var omega: map<seq<int>, real>
    var marginalizedUtility: map<seq<int>, real>
    /** `root.T`, the iteration count the average strategy divides by. */
    var rootT: int

    /** What construction established: the information sets and counts are those of the
        construction loop, the game has perfect recall, and the per-player lists and children
        sets are derived from the information sets. */
    ghost predicate Shape()
    {
      GameShape(root) && LeafWidth(root, numOfPlayers) &&
      AllValid(root, VisitOrder(root, [])) &&
      informationSets == BuildFold(root, VisitOrder(root, [])).isets &&
      numOfActions == BuildFold(root, VisitOrder(root, [])).numOfActions &&
      Dicts.Valid(informationSets) &&
      IsetsMatch(root, informationSets) && Registered(root, informationSets) &&
      NodesValid(root, informationSets) && PerfectRecall(root, informationSets) &&
      infosetsByPlayer == ByPlayer(informationSets, numOfPlayers) &&
      childrenInfoset == ChildrenInfosetMap(root, informationSets) &&
      childrenLeaves == ChildrenLeavesMap(root, informationSets)
    }

    ghost predicate Valid()
      reads this
    {
      Shape() && StateFits(informationSets, isetState) &&
      (forall h :: h in isetState ==> IsDistribution(isetState[h].currentStrategy)) &&
      Covers(root, visits) && Covers(root, omega) && Covers(root, marginalizedUtility)
    }

    /** An information set has at least one action. */
    lemma ActionCountPositive(h: int)
      requires Shape() && h in informationSets.m
      ensures informationSets.m[h].actionCount > 0
    {
      var s := informationSets.m[h];
      assert ValidPath(root, s.nodes[0]);
      ShapeBelow(root, s.nodes[0]);
    }

    /** `updateCurrentStrategy`: the current strategy of `h` becomes regret matching of its
        cumulative regret, a distribution; nothing else changes. */
    method UpdateCurrentStrategy(h: int)
      requires Valid() && h in informationSets.m
      modifies this
      ensures Valid()
      ensures isetState == old(isetState)[h := old(isetState)[h].(currentStrategy := RegretMatch(old(isetState)[h].cumulativeRegret))]
      ensures IsDistribution(isetState[h].currentStrategy)
      ensures visits == old(visits) && omega == old(omega) && marginalizedUtility == old(marginalizedUtility) && rootT == old(rootT)
    {
      ActionCountPositive(h);
      var s := RegretMatched(isetState[h].cumulativeRegret);
      isetState := isetState[h := isetState[h].(currentStrategy := s)];
    }

    /** The strategy update that closes every iteration: `updateCurrentStrategy` on every
        information set, in creation order. */
    method UpdateAllStrategies()
      requires Valid()
      modifies this
      ensures Valid()
      ensures isetState.Keys == old(isetState).Keys
      ensures forall h :: h in isetState ==>
        isetState[h] == old(isetState)[h].(currentStrategy := RegretMatch(old(isetState)[h].cumulativeRegret))
      ensures visits == old(visits) && omega == old(omega) && marginalizedUtility == old(marginalizedUtility) && rootT == old(rootT)
    {
      var keys := informationSets.keys;
      assert forall j :: 0 <= j < |keys| ==> keys[j] in Elems(keys);
      ghost var done: set<int> := {};
      var k := 0;
      while k < |keys|
        invariant 0 <= k <= |keys| && Valid()
        invariant forall j :: 0 <= j < k ==> keys[j] in done
        invariant RefreshedOn(old(isetState), isetState, done)
        invariant visits == old(visits) && omega == old(omega) && marginalizedUtility == old(marginalizedUtility) && rootT == old(rootT)
      {
        ghost var before := isetState;
        UpdateCurrentStrategy(keys[k]);
        RefreshStep(old(isetState), before, done, keys[k]);
        done := done + {keys[k]};
        k := k + 1;
      }
      forall h | h in isetState ensures h in done {
        assert h in Elems(keys);
      }
    }

    /** `getAverageStrategy`: `mu_T` divided by `root.T`. `root.T` starts at 0 and only an
        ICFR checkpoint sets it; while it is 0 the division raises `ZeroDivisionError`, since
        every set has an action (`ActionCountPositive`) and so is divided at least once. */
    function AverageStrategy(h: int): (r: Result<seq<real>>)
      requires Valid() && h in informationSets.m
      reads this
      ensures r.Failure? <==> rootT == 0
      ensures r.Failure? ==> r.error == "ZeroDivisionError"
      ensures r.Success? ==> |r.value| == informationSets.m[h].actionCount
      ensures r.Success? ==> forall a :: 0 <= a < |r.value| ==> r.value[a] * rootT as real == isetState[h].muT[a]
    {
      if rootT == 0 then Failure("ZeroDivisionError") else Success(Divide(isetState[h].muT, rootT as real))
    }

    /** When `mu_T` is non-negative and counts `root.T` plays in all, the average strategy is
        a distribution. */
    lemma AverageIsDistribution(h: int)
      requires Valid() && h in informationSets.m && rootT > 0
      requires NonNegative(isetState[h].muT) && Sum(isetState[h].muT) == rootT as real
      ensures AverageStrategy(h).Success? && IsDistribution(AverageStrategy(h).value)
    {
      DivideIsScale(isetState[h].muT, rootT as real);
      ScaledIsDistribution(isetState[h].muT, rootT as real);
    }

    /** `sampleAction` with the draw `r`: the first action whose running total of the current
        strategy exceeds `r`; a draw in [0, 1) always yields an action. */
    method SampleAction(h: int, r: real) returns (a: Option<nat>)
      requires Valid() && h in informationSets.m
      ensures a.Some? ==> Sampled(isetState[h].currentStrategy, r, a.value)
      ensures a.None? ==> forall j :: 0 <= j < |isetState[h].currentStrategy| ==> r >= RunningTotal(isetState[h].currentStrategy, j)
      ensures 0.0 <= r < 1.0 ==> a.Some?
    {
      var s := isetState[h].currentStrategy;
      a := SampleIndex(s, r);
      ActionCountPositive(h);
      assert s[..|s|] == s;
      assert RunningTotal(s, |s| - 1) == 1.0;
    }

    /** `sampleActionPlan` with one draw in [0, 1) per information set: a plan over every
        information set in creation order, each action sampled from the current strategy. */
    method SampleActionPlan(draws: map<int, real>) returns (plan: Dict<int, int>)
      requires Valid()
      requires forall h :: h in informationSets.m ==> h in draws && 0.0 <= draws[h] < 1.0
      ensures Dicts.Valid(plan) && plan.keys == informationSets.keys
      ensures forall h :: h in plan.m ==> h in isetState && Sampled(isetState[h].currentStrategy, draws[h], plan.m[h])
    {
      var keys := informationSets.keys;
      assert forall h :: h in isetState ==> IsDistribution(isetState[h].currentStrategy);
      forall j | 0 <= j < |keys|
        ensures keys[j] in informationSets.m && keys[j] in isetState
        ensures keys[j] in draws && 0.0 <= draws[keys[j]] < 1.0
        ensures |isetState[keys[j]].currentStrategy| > 0 && Sum(isetState[keys[j]].currentStrategy) == 1.0
      {
        var h := keys[j];
        assert h in Elems(keys);
        assert IsDistribution(isetState[h].currentStrategy);
        ActionCountPositive(h);
      }
      plan := SamplePlanOver(informationSets.keys, isetState, draws);
    }

    constructor (root: Node, built: Built, players: nat)
      requires GameShape(root) && LeafWidth(root, players)
      requires AllValid(root, VisitOrder(root, [])) && built == BuildFold(root, VisitOrder(root, []))
      requires RecallHolds(root, built.isets)
      ensures Valid()
      ensures this.root == root && informationSets == built.isets && numOfActions == built.numOfActions
      ensures numOfPlayers == players
      ensures isetState == FreshStates(built.isets)
      ensures forall h :: h in isetState ==> isetState[h].currentStrategy == Uniform(informationSets.m[h].actionCount)
      ensures rootT == 0
      ensures forall p :: ValidPath(root, p) ==> visits[p] == 0.0
    {
      BuiltIsetsMatch(root);
      this.root := root;
      informationSets := built.isets;
      numOfActions := built.numOfActions;
      numOfPlayers := players;
      infosetsByPlayer := ByPlayer(built.isets, players);
      childrenInfoset := ChildrenInfosetMap(root, built.isets);
      childrenLeaves := ChildrenLeavesMap(root, built.isets);
      isetState := FreshStates(built.isets);
      visits := ZeroAtNodes(root);
      omega := ZeroAtNodes(root);
      marginalizedUtility := ZeroAtNodes(root);
      rootT := 0;
      new;
      forall h | h in isetState ensures IsDistribution(isetState[h].currentStrategy) {
        ActionCountPositive(h);
        UniformIsDistribution(informationSets.m[h].actionCount);
      }
    }
  }

  /** The perfect-recall property taken on the information sets straight from the loop. */
  ghost predicate RecallHolds(root: Node, isets: Dict<int, InfoSet>)
  {
    NodesValid(root, isets) && PerfectRecall(root, isets)
  }

  /** The message of the exception raised for an information set `h` without perfect recall. */
  function RecallMessage(h: int): string
  {
    "ERROR: This tree is not a game with perfect recall. Nodes of information set "
      + IntToString(h) + " have different sequences."
  }

  /** `CFRTree(base_tree)`: fails with an attribute error on a childless inner node, collects
      the information sets, and fails when an information set's nodes do not all have the
      stored sequence; otherwise a fresh tree whose information sets are those of the loop. */
  method NewCFRTree(root: Node, players: nat) returns (r: Result<CFRTree>)
    requires ChanceAligned(root) && NonNegativeLabels(root) && LabelsAgree(root) && LeafWidth(root, players)
    ensures !InnerHaveChildren(root) ==> r == Failure("AttributeError")
    ensures InnerHaveChildren(root) ==> AllValid(root, VisitOrder(root, []))
    ensures InnerHaveChildren(root) ==>
      var isets := BuildFold(root, VisitOrder(root, [])).isets;
      NodesValid(root, isets) && (r.Success? <==> PerfectRecall(root, isets))
    ensures r.Success? ==> fresh(r.value) && r.value.Valid() && r.value.numOfPlayers == players
    ensures r.Success? ==> r.value.isetState == FreshStates(r.value.informationSets)
  {
    if !InnerHaveChildren(root) {
      return Failure("AttributeError");
    }
    var built := BuildInformationSets(root);
    BuiltIsetsMatch(root);
    var bad := FirstRecallViolation(root, built.isets);
    if bad.Some? {
      return Failure(RecallMessage(bad.value));
    }
    var t := new CFRTree(root, built, players);
    return Success(t);
  }
}