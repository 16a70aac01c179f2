/** Extensive-form game trees. `Node` is the value view used by every walk: a node is
    identified by its path, the sequence of child indices from the root. `Tree` is the mutable
    builder: a table of node records indexed by id, grown by `AddNode` and `AddLeaf`. */
module GameTree {
  import opened Wrappers
  import opened Dicts
  import opened Strings

  datatype Node =
    | Leaf(utility: seq<real>)
    | Decision(player: int, infoset: int, children: seq<Node>)
    | Chance(distribution: seq<real>, children: seq<Node>)

  /** The player field: a leaf belongs to -1 and a chance node to -42. */
  function PlayerOf(n: Node): int
  {
    match n
    case Leaf(_) => -1
    case Decision(p, _, _) => p
    case Chance(_, _) => -42
  }

  /** The information-set label: -1 at a leaf, -42 at a chance node. */
  function LabelOf(n: Node): int
  {
    match n
    case Leaf(_) => -1
    case Decision(_, h, _) => h
    case Chance(_, _) => -42
  }

  function ChildrenOf(n: Node): seq<Node>
  {
    if n.Leaf? then [] else n.children
  }

  predicate ValidPath(n: Node, path: seq<int>)
    decreases |path|
  {
    path == [] || (0 <= path[0] < |ChildrenOf(n)| && ValidPath(ChildrenOf(n)[path[0]], path[1..]))
  }

  /** The node reached from `n` along `path`. */
  function At(n: Node, path: seq<int>): Node
    requires ValidPath(n, path)
    decreases |path|
  {
    if path == [] then n else At(ChildrenOf(n)[path[0]], path[1..])
  }

  lemma {:induction false} ValidPathSnoc(n: Node, path: seq<int>, a: int)
    requires ValidPath(n, path)
    ensures ValidPath(n, path + [a]) <==> 0 <= a < |ChildrenOf(At(n, path))|
    ensures ValidPath(n, path + [a]) ==> At(n, path + [a]) == ChildrenOf(At(n, path))[a]
    decreases |path|
  {
    if path == [] {
      assert [] + [a] == [a];
      assert [a][1..] == [];
    } else {
      assert (path + [a])[0] == path[0];
      assert (path + [a])[1..] == path[1..] + [a];
      ValidPathSnoc(ChildrenOf(n)[path[0]], path[1..], a);
    }
  }

  lemma {:induction false} ValidPathPrefix(n: Node, path: seq<int>, i: nat)
    requires ValidPath(n, path) && i <= |path|
    ensures ValidPath(n, path[..i])
    decreases |path|
  {
    if i > 0 {
      assert path[..i][0] == path[0];
      assert path[..i][1..] == path[1..][..i - 1];
      ValidPathPrefix(ChildrenOf(n)[path[0]], path[1..], i - 1);
    }
  }

  /** The `i`-th node on the way from `root` to the node at `path` (the root for `i == 0`). */
  function AncestorAt(root: Node, path: seq<int>, i: nat): Node
    requires ValidPath(root, path) && i <= |path|
  {
    ValidPathPrefix(root, path, i);
    At(root, path[..i])
  }

  /** Whether an ancestor's move is recorded in a sequence for `p`: it belongs to `p`, or `p`
      is `None`. */
  predicate Counts(n: Node, p: Option<int>)
  {
    p.None? || PlayerOf(n) == p.value
  }

  /** `getSequence(p)` of the node at `path`: information-set label to the action taken there,
      over the ancestors that count for `p`, inserted from the root downwards. */
  function Sequence(root: Node, path: seq<int>, p: Option<int>): (r: Dict<int, int>)
    requires ValidPath(root, path)
    ensures Valid(r)
    decreases |path|
  {
    if path == [] then Empty()
    else
      var q := path[..|path| - 1];
      ValidPathPrefix(root, path, |path| - 1);
      var parent := At(root, q);
      var s := Sequence(root, q, p);
      if !Counts(parent, p) then s else Put(s, LabelOf(parent), path[|path| - 1])
  }

  lemma AncestorOfPrefix(root: Node, path: seq<int>, i: nat)
    requires ValidPath(root, path) && 0 < |path| && i < |path|
    ensures ValidPath(root, path[..|path| - 1])
    ensures AncestorAt(root, path, i) == AncestorAt(root, path[..|path| - 1], i)
  {
    ValidPathPrefix(root, path, |path| - 1);
    assert path[..|path| - 1][..i] == path[..i];
  }

  /** One step of `getSequence`: the parent's move is recorded on top of the parent's own
      sequence when the parent counts. */
  lemma SequenceStep(root: Node, path: seq<int>, p: Option<int>)
    requires ValidPath(root, path) && path != []
    ensures ValidPath(root, path[..|path| - 1])
    ensures Sequence(root, path, p) ==
      var parent := AncestorAt(root, path, |path| - 1);
      var s := Sequence(root, path[..|path| - 1], p);
      if Counts(parent, p) then Put(s, LabelOf(parent), path[|path| - 1]) else s
  {
    ValidPathPrefix(root, path, |path| - 1);
  }

  /** Every counting ancestor's label is recorded. */
  lemma {:induction false} SequenceHasKey(root: Node, path: seq<int>, p: Option<int>, i: nat)
    requires ValidPath(root, path) && i < |path| && Counts(AncestorAt(root, path, i), p)
    ensures LabelOf(AncestorAt(root, path, i)) in Sequence(root, path, p).m
    decreases |path|
  {
    var n := |path| - 1;
    SequenceStep(root, path, p);
    var parent := AncestorAt(root, path, n);
    var s := Sequence(root, path[..n], p);
    if i < n {
      AncestorOfPrefix(root, path, i);
      SequenceHasKey(root, path[..n], p, i);
      if Counts(parent, p) {
        assert Sequence(root, path, p).m == s.m[LabelOf(parent) := path[n]];
      }
    } else {
      assert Sequence(root, path, p).m == s.m[LabelOf(parent) := path[n]];
    }
  }

  /** Every recorded label comes from a counting ancestor. */
  lemma {:induction false} SequenceKeyOrigin(root: Node, path: seq<int>, p: Option<int>, k: int) returns (i: nat)
    requires ValidPath(root, path) && k in Sequence(root, path, p).m
    ensures i < |path| && Counts(AncestorAt(root, path, i), p) && LabelOf(AncestorAt(root, path, i)) == k
    decreases |path|
  {
    var n := |path| - 1;
    SequenceStep(root, path, p);
    var parent := AncestorAt(root, path, n);
    if Counts(parent, p) && LabelOf(parent) == k {
      i := n;
    } else {
      i := SequenceKeyOrigin(root, path[..n], p, k);
      AncestorOfPrefix(root, path, i);
    }
  }

  /** The labels recorded by `getSequence(p)` are exactly those of the ancestors that count
      for `p`. */
  lemma SequenceKeys(root: Node, path: seq<int>, p: Option<int>, k: int)
    requires ValidPath(root, path)
    ensures k in Sequence(root, path, p).m <==>
      exists i :: 0 <= i < |path| && Counts(AncestorAt(root, path, i), p) && LabelOf(AncestorAt(root, path, i)) == k
  {
    if k in Sequence(root, path, p).m {
      var i := SequenceKeyOrigin(root, path, p, k);
    }
    if exists i :: 0 <= i < |path| && Counts(AncestorAt(root, path, i), p) && LabelOf(AncestorAt(root, path, i)) == k {
      var i :| 0 <= i < |path| && Counts(AncestorAt(root, path, i), p) && LabelOf(AncestorAt(root, path, i)) == k;
      SequenceHasKey(root, path, p, i);
    }
  }

  /** The action recorded for a label is the one taken at the deepest counting ancestor with
      that label. */
  lemma {:induction false} SequenceValue(root: Node, path: seq<int>, p: Option<int>, i: nat)
    requires ValidPath(root, path) && i < |path|
    requires Counts(AncestorAt(root, path, i), p)
    requires forall j :: i < j < |path| && Counts(AncestorAt(root, path, j), p) ==>
      LabelOf(AncestorAt(root, path, j)) != LabelOf(AncestorAt(root, path, i))
    ensures LabelOf(AncestorAt(root, path, i)) in Sequence(root, path, p).m
    ensures Sequence(root, path, p).m[LabelOf(AncestorAt(root, path, i))] == path[i]
    decreases |path|
  {
    var n := |path| - 1;
    SequenceStep(root, path, p);
    SequenceHasKey(root, path, p, i);
    if i < n {
      LabelsDistinctPrefix(root, path, path[..n], p, i);
      SequenceValue(root, path[..n], p, i);
      SequenceValueKept(root, path, p, i);
    }
  }

  lemma LabelsDistinctPrefix(root: Node, path: seq<int>, q: seq<int>, p: Option<int>, i: nat)
    requires ValidPath(root, path) && i < |path| - 1 && q == path[..|path| - 1]
    requires Counts(AncestorAt(root, path, i), p)
    requires forall j :: i < j < |path| && Counts(AncestorAt(root, path, j), p) ==>
      LabelOf(AncestorAt(root, path, j)) != LabelOf(AncestorAt(root, path, i))
    ensures ValidPath(root, q) && AncestorAt(root, q, i) == AncestorAt(root, path, i)
    ensures Counts(AncestorAt(root, q, i), p)
    ensures forall j :: i < j < |q| && Counts(AncestorAt(root, q, j), p) ==>
      LabelOf(AncestorAt(root, q, j)) != LabelOf(AncestorAt(root, q, i))
  {
    AncestorOfPrefix(root, path, i);
    forall j | i < j < |q| && Counts(AncestorAt(root, q, j), p)
      ensures LabelOf(AncestorAt(root, q, j)) != LabelOf(AncestorAt(root, q, i))
    {
      AncestorOfPrefix(root, path, j);
    }
  }

  /** The label recorded for ancestor `i < |path| - 1` keeps its value when the last step is
      recorded, the parent's label being another one. */
  lemma SequenceValueKept(root: Node, path: seq<int>, p: Option<int>, i: nat)
    requires ValidPath(root, path) && i < |path| - 1
    requires Counts(AncestorAt(root, path, i), p)
    requires forall j :: i < j < |path| && Counts(AncestorAt(root, path, j), p) ==>
      LabelOf(AncestorAt(root, path, j)) != LabelOf(AncestorAt(root, path, i))
    requires ValidPath(root, path[..|path| - 1]) && AncestorAt(root, path[..|path| - 1], i) == AncestorAt(root, path, i)
    requires LabelOf(AncestorAt(root, path, i)) in Sequence(root, path[..|path| - 1], p).m
    requires Sequence(root, path[..|path| - 1], p).m[LabelOf(AncestorAt(root, path, i))] == path[..|path| - 1][i]
    ensures Sequence(root, path, p).m[LabelOf(AncestorAt(root, path, i))] == path[i]
  {
    var n := |path| - 1;
    SequenceStep(root, path, p);
    assert path[..n][i] == path[i];
  }

  /** The ancestors are the root and then the child reached by each step. */
  lemma {:induction false} AncestorStep(root: Node, path: seq<int>, i: nat)
    requires ValidPath(root, path) && i < |path|
    ensures 0 <= path[i] < |ChildrenOf(AncestorAt(root, path, i))|
    ensures AncestorAt(root, path, i + 1) == ChildrenOf(AncestorAt(root, path, i))[path[i]]
  {
    ValidPathPrefix(root, path, i);
    ValidPathPrefix(root, path, i + 1);
    assert path[..i + 1] == path[..i] + [path[i]];
    ValidPathSnoc(root, path[..i], path[i]);
  }

  /** `getActionLeadingToNode`: from the node at `s`, the action on the way to the node at
      `t`, found by walking up from `t` until the parent is the node at `s`. */
  function ActionLeadingTo(s: seq<int>, t: seq<int>): Option<int>
    decreases |t|
  {
    if t == [] then None
    else if t[..|t| - 1] == s then Some(t[|t| - 1])
    else ActionLeadingTo(s, t[..|t| - 1])
  }

  /** The action leading to `t` exists exactly when `s` is a proper ancestor of `t`, and it is
      the step `t` takes right after `s`. */
  lemma {:induction false} ActionLeadingToAncestor(s: seq<int>, t: seq<int>)
    ensures ActionLeadingTo(s, t) ==
      if |s| < |t| && t[..|s|] == s then Some(t[|s|]) else None
    decreases |t|
  {
    if t != [] {
      var u := t[..|t| - 1];
      ActionLeadingToAncestor(s, u);
      if u != s {
        if |s| < |u| {
          assert u[..|s|] == t[..|s|];
          assert u[|s|] == t[|s|];
        } else if |s| == |u| {
          assert t[..|s|] == u;
        }
      }
    }
  }

  /** Python's `x[i]` for `-len(x) <= i < len(x)`. */
  function PyIndex(n: nat, i: int): int
  {
    if i < 0 then n + i else i
  }

  /** `getNodeFollowJointSequence`: follows each player's sequence from `n` and stops at a
      leaf or at the first node whose label its player's sequence lacks. A chance node indexes
      the joint sequence with -42, and an index out of range is Python's IndexError. */
  function FollowJointSequence(n: Node, js: seq<Dict<int, int>>): (r: Result<Node>)
    ensures r.Success? ==>
      r.value.Leaf? ||
      (0 <= PyIndex(|js|, PlayerOf(r.value)) < |js| && LabelOf(r.value) !in js[PyIndex(|js|, PlayerOf(r.value))].m)
    ensures n.Chance? && |js| < 42 ==> r.Failure?
    decreases n
  {
    if n.Leaf? then Success(n)
    else
      var who := PyIndex(|js|, PlayerOf(n));
      if !(0 <= who < |js|) then Failure("IndexError")
      else if LabelOf(n) !in js[who].m then Success(n)
      else
        var k := PyIndex(|n.children|, js[who].m[LabelOf(n)]);
        if !(0 <= k < |n.children|) then Failure("IndexError")
        else FollowJointSequence(n.children[k], js)
  }

  // ---------------------------------------------------------------------------------------
  // The mutable tree builder.

  datatype Kind = DecisionKind | LeafKind | ChanceKind

  /** What a chance node stores as the probability of a child: a number, a string (a
      probability given as text, or an action name that lands in that argument position), or
      None. */
  datatype Prob = PNum(p: real) | PText(text: string) | PNone

  /** One node of a `Tree`: its kind, id, player and information-set label, the id of its
      parent (-1 for the root), its depth, its children's ids with their action names and,
      under a chance node, their probabilities, the index and name of the action leading to
      it, and a leaf's utility vector. */
  datatype NodeRec = NodeRec(
    kind: Kind, id: int, player: int, infoset: int, parent: int, depth: nat,
    children: seq<nat>, actionNames: seq<string>, distribution: seq<Prob>,
    incomingAction: Option<nat>, incomingName: Option<string>, utility: seq<real>)

  /** The root handed to the `Tree` constructor: a decision node of a player with a label,
      or a chance node. */
  datatype RootSpec = DecisionRoot(player: int, infoset: int) | ChanceRoot

  function RootRecord(root: RootSpec): (r: NodeRec)
    ensures r.id == 0 && r.parent == -1 && r.depth == 0 && r.children == []
  {
    match root
    case DecisionRoot(p, h) => NodeRec(DecisionKind, 0, p, h, -1, 0, [], [], [], None, None, [])
    case ChanceRoot => NodeRec(ChanceKind, 0, -42, -42, -1, 0, [], [], [], None, None, [])
  }

  function Max(a: int, b: int): int
  {
    if a >= b then a else b
  }

  /** The name a child gets when none is given: `"<label>.<k>"` under a decision node (or a
      leaf), `"c.<k>"` under a chance node. */
  function DefaultActionName(parent: NodeRec, k: nat): string
  {
    if parent.kind == ChanceKind then "c." + NatToString(k)
    else IntToString(parent.infoset) + "." + NatToString(k)
  }

  /** The record table after `child` is appended as the new last child of `par`: the parent
      gains the child's id, its action name and, for a chance parent, the probability; the
      child gets its incoming action index and name. */
  function AttachChild(ns: seq<NodeRec>, par: nat, child: NodeRec, prob: Prob, name: string): (r: seq<NodeRec>)
    requires par < |ns|
    ensures |r| == |ns| + 1
  {
    var pr := ns[par];
    var pr2 := pr.(children := pr.children + [|ns|], actionNames := pr.actionNames + [name],
      distribution := if pr.kind == ChanceKind then pr.distribution + [prob] else pr.distribution);
    ns[par := pr2] + [child.(incomingAction := Some(|pr.children|), incomingName := Some(name))]
  }

  /** What attaching changes: the parent's lists gain an entry, the new record is the child,
      and every other record is kept. */
  lemma AttachFacts(ns: seq<NodeRec>, par: nat, child: NodeRec, prob: Prob, name: string)
    requires par < |ns|
    ensures var r := AttachChild(ns, par, child, prob, name);
      && r[par].children == ns[par].children + [|ns|]
      && r[par].actionNames == ns[par].actionNames + [name]
      && r[par].distribution == (if ns[par].kind == ChanceKind then ns[par].distribution + [prob] else ns[par].distribution)
      && Core(r[par]) == Core(ns[par])
      && r[|ns|] == child.(incomingAction := Some(|ns[par].children|), incomingName := Some(name))
      && (forall j :: 0 <= j < |ns| && j != par ==> r[j] == ns[j])
  {
  }

  /** Node `i` is linked with its parent and children: ids are positions, a parent comes
      before its children and is one level up, each child knows the index it was added at,
      and action names (and a chance node's probabilities) line up with the children. */
  ghost predicate WellLinked(ns: seq<NodeRec>, i: int)
    requires 0 <= i < |ns|
  {
    var r := ns[i];
    r.id == i
    && (i == 0 ==> r.parent == -1 && r.depth == 0 && r.incomingAction.None?)
    && (i > 0 ==>
          0 <= r.parent < i && r.depth == ns[r.parent].depth + 1
          && r.incomingAction.Some? && r.incomingAction.value < |ns[r.parent].children|
          && ns[r.parent].children[r.incomingAction.value] == i)
    && |r.actionNames| == |r.children|
    && (r.kind == ChanceKind ==> |r.distribution| == |r.children|)
    && (forall k :: 0 <= k < |r.children| ==>
          i < r.children[k] < |ns| && ns[r.children[k]].parent == i && ns[r.children[k]].incomingAction == Some(k))
  }

  ghost predicate Linked(ns: seq<NodeRec>)
  {
    |ns| >= 1 && forall i :: 0 <= i < |ns| ==> WellLinked(ns, i)
  }

  lemma AttachKeepsLinked(ns: seq<NodeRec>, par: nat, child: NodeRec, prob: Prob, name: string)
    requires Linked(ns) && par < |ns|
    requires child.id == |ns| && child.parent == par && child.depth == ns[par].depth + 1
    requires child.children == [] && child.actionNames == [] && child.distribution == []
    ensures Linked(AttachChild(ns, par, child, prob, name))
  {
    var r := AttachChild(ns, par, child, prob, name);
    AttachFacts(ns, par, child, prob, name);
    forall i | 0 <= i < |r| ensures WellLinked(r, i) {
      if i < |ns| {
        assert WellLinked(ns, i);
        assert r[i].id == i;
        if i > 0 {
          var q := ns[i].parent;
          assert r[i].parent == q;
          assert r[q].children[..|ns[q].children|] == ns[q].children;
        }
        forall k | 0 <= k < |r[i].children|
          ensures i < r[i].children[k] < |r| && r[r[i].children[k]].parent == i && r[r[i].children[k]].incomingAction == Some(k)
        {
          if k < |ns[i].children| {
            assert r[i].children[k] == ns[i].children[k];
          }
        }
      }
    }
  }

  /** `maxDepth` bounds every depth and `maxInfoset` every label of a decision node added
      after the root. */
  ghost predicate Bounded(ns: seq<NodeRec>, maxDepth: int, maxInfoset: int)
  {
    (forall i :: 0 <= i < |ns| ==> ns[i].depth <= maxDepth)
    && (forall i :: 1 <= i < |ns| && ns[i].kind == DecisionKind ==> ns[i].infoset <= maxInfoset)
  }

  /** Attaching a child within the bounds keeps the table within them. */
  lemma AttachKeepsBounded(ns: seq<NodeRec>, par: nat, child: NodeRec, prob: Prob, name: string,
                           d: int, h: int, d': int, h': int)
    requires par < |ns| && |ns| >= 1 && Bounded(ns, d, h) && d <= d' && h <= h'
    requires child.depth <= d' && (child.kind == DecisionKind ==> child.infoset <= h')
    ensures Bounded(AttachChild(ns, par, child, prob, name), d', h')
  {
    var r := AttachChild(ns, par, child, prob, name);
    AttachFacts(ns, par, child, prob, name);
    forall i | 0 <= i < |r| ensures r[i].depth <= d' && (1 <= i && r[i].kind == DecisionKind ==> r[i].infoset <= h') {
      if i < |ns| {
        assert r[i].depth == ns[i].depth && r[i].kind == ns[i].kind && r[i].infoset == ns[i].infoset;
      }
    }
  }

  /** The parts of a record that adding further nodes never changes: kind, player, label,
      parent, depth and utility. */
  function Core(r: NodeRec): (Kind, int, int, int, nat, seq<real>)
  {
    (r.kind, r.player, r.infoset, r.parent, r.depth, r.utility)
  }

  /** `b` is `a` with nodes added: every old record keeps its core, and its children and
      action names only gain entries at the end. */
  ghost predicate Grows(a: seq<NodeRec>, b: seq<NodeRec>)
  {
    |a| <= |b| &&
    forall j :: 0 <= j < |a| ==> Core(b[j]) == Core(a[j]) && a[j].children <= b[j].children
  }

  lemma AttachGrows(ns: seq<NodeRec>, par: nat, child: NodeRec, prob: Prob, name: string)
    requires par < |ns|
    ensures Grows(ns, AttachChild(ns, par, child, prob, name))
  {
    AttachFacts(ns, par, child, prob, name);
  }

  lemma GrowsTrans(a: seq<NodeRec>, b: seq<NodeRec>, c: seq<NodeRec>)
    requires Grows(a, b) && Grows(b, c)
    ensures Grows(a, c)
  {
    forall j | 0 <= j < |a| ensures Core(c[j]) == Core(a[j]) && a[j].children <= c[j].children {
      assert Core(c[j]) == Core(b[j]);
    }
  }

  class Tree {
    var nodes: seq<NodeRec>
    var nodeCount: int
    var infosetCount: int
    var maxInfoset: int
    var numOfPlayers: int
    var maxDepth: int

    /** The builder's invariant: the table is linked, `nodeCount` is the next id, `maxDepth`
        bounds every depth and `maxInfoset` every label given to a node added after the root. */
    ghost predicate Valid()
      reads this
    {
      Linked(nodes) && nodeCount == |nodes| && Bounded(nodes, maxDepth, maxInfoset)
    }

    /** `Tree(numOfPlayers, first_player, root)`: without a root, the root is a decision node of
        `firstPlayer` in information set 0. */
    constructor (players: int, firstPlayer: int, root: Option<RootSpec>)
      ensures Valid()
      ensures nodes == [RootRecord(if root.Some? then root.value else DecisionRoot(firstPlayer, 0))]
      ensures nodeCount == 1 && infosetCount == 1 && maxInfoset == 0 && maxDepth == 0
      ensures numOfPlayers == players
    {
      nodes := [RootRecord(if root.Some? then root.value else DecisionRoot(firstPlayer, 0))];
      nodeCount := 1;
      infosetCount := 1;
      maxInfoset := 0;
      numOfPlayers := players;
      maxDepth := 0;
    }

    /** `addNode`: a decision node of `player` under `parent` (the root when `None`). Label -1
        asks for a fresh label, the current `infosetCount`; another label is kept. A chance
        parent records `probability` for it. The new node gets id `nodeCount`. */
    method AddNode(player: int, informationSet: int, parent: Option<nat>, probability: Prob, actionName: Option<string>)
      returns (id: nat)
      requires Valid() && (parent.Some? ==> parent.value < |nodes|)
      modifies this
      ensures Valid() && numOfPlayers == old(numOfPlayers)
      ensures id == old(nodeCount) && nodeCount == old(nodeCount) + 1
      ensures informationSet == -1 ==> nodes[id].infoset == old(infosetCount) && infosetCount == old(infosetCount) + 1
      ensures informationSet != -1 ==> nodes[id].infoset == informationSet && infosetCount == old(infosetCount)
      ensures maxInfoset == Max(old(maxInfoset), nodes[id].infoset)
      ensures Grows(old(nodes), nodes) && |nodes| == old(|nodes|) + 1
      ensures var par := if parent.Some? then parent.value else 0;
        Core(nodes[id]) == (DecisionKind, player, nodes[id].infoset, par, old(nodes[par].depth) + 1, [])
      ensures var par := if parent.Some? then parent.value else 0;
        var h := if informationSet == -1 then old(infosetCount) else informationSet;
        var name := if actionName.Some? then actionName.value else DefaultActionName(old(nodes[par]), |old(nodes[par].children)|);
        nodes == AttachChild(old(nodes), par,
          NodeRec(DecisionKind, id, player, h, par, old(nodes[par].depth) + 1, [], [], [], None, None, []),
          probability, name)
        && maxDepth == Max(old(maxDepth), old(nodes[par].depth) + 1)
    {
      var par := if parent.Some? then parent.value else 0;
      var h := if informationSet == -1 then infosetCount else informationSet;
      var depth := nodes[par].depth + 1;
      var name := if actionName.Some? then actionName.value else DefaultActionName(nodes[par], |nodes[par].children|);
      id := nodeCount;
      var child := NodeRec(DecisionKind, id, player, h, par, depth, [], [], [], None, None, []);
      var md, mi := Max(maxDepth, depth), Max(maxInfoset, h);
      AttachKeepsLinked(nodes, par, child, probability, name);
      AttachKeepsBounded(nodes, par, child, probability, name, maxDepth, maxInfoset, md, mi);
      AttachGrows(nodes, par, child, probability, name);
      AttachFacts(nodes, par, child, probability, name);
      nodes, nodeCount, maxDepth, maxInfoset := AttachChild(nodes, par, child, probability, name), nodeCount + 1, md, mi;
      if informationSet == -1 {
        infosetCount := infosetCount + 1;
      }
    }

    /** `addLeaf`: a leaf with `utility` under `parent`, or nothing at all when the utility
        vector does not have one entry per player. Under a chance parent the action name lands
        in the probability argument, so the parent records it as the probability and names the
        action `"c.<k>"`. */
    method AddLeaf(parent: nat, utility: seq<real>, actionName: Option<string>) returns (id: Option<nat>)
      requires Valid() && parent < |nodes|
      modifies this
      ensures Valid() && numOfPlayers == old(numOfPlayers)
      ensures infosetCount == old(infosetCount) && maxInfoset == old(maxInfoset)
      ensures |utility| != numOfPlayers ==> id.None? && nodes == old(nodes) && nodeCount == old(nodeCount) && maxDepth == old(maxDepth)
      ensures Grows(old(nodes), nodes)
      ensures |utility| == numOfPlayers ==>
        |nodes| == old(|nodes|) + 1 && Core(nodes[old(|nodes|)]) == (LeafKind, -1, -1, parent, old(nodes[parent].depth) + 1, utility)
      ensures |utility| == numOfPlayers ==>
        id == Some(old(nodeCount)) && nodeCount == old(nodeCount) + 1
        && maxDepth == Max(old(maxDepth), old(nodes[parent].depth) + 1)
        && var chance := old(nodes[parent].kind) == ChanceKind;
           var name := if actionName.Some? && !chance then actionName.value else DefaultActionName(old(nodes[parent]), |old(nodes[parent].children)|);
           var prob := if actionName.Some? then PText(actionName.value) else PNone;
           nodes == AttachChild(old(nodes), parent,
             NodeRec(LeafKind, old(nodeCount), -1, -1, parent, old(nodes[parent].depth) + 1, [], [], [], None, None, utility),
             prob, name)
    {
      if |utility| != numOfPlayers {
        return None;
      }
      var depth := nodes[parent].depth + 1;
      maxDepth := Max(maxDepth, depth);
      var chance := nodes[parent].kind == ChanceKind;
      var name := if actionName.Some? && !chance then actionName.value else DefaultActionName(nodes[parent], |nodes[parent].children|);
      var prob := if actionName.Some? then PText(actionName.value) else PNone;
      var leaf := NodeRec(LeafKind, nodeCount, -1, -1, parent, depth, [], [], [], None, None, utility);
      AttachKeepsLinked(nodes, parent, leaf, prob, name);
      AttachKeepsBounded(nodes, parent, leaf, prob, name, old(maxDepth), maxInfoset, maxDepth, maxInfoset);
      AttachGrows(nodes, parent, leaf, prob, name);
      AttachFacts(nodes, parent, leaf, prob, name);
      nodes := AttachChild(nodes, parent, leaf, prob, name);
      id := Some(nodeCount);
      nodeCount := nodeCount + 1;
    }

    /** `addChanceNode` calls the chance-node constructor with more arguments than it takes,
        so it always fails with a TypeError and adds nothing. */
    method AddChanceNode(parent: Option<nat>, actionName: Option<string>) returns (r: Result<nat>)
      requires Valid()
      ensures r == Failure("TypeError")
    {
      r := Failure("TypeError");
    }
  }
}