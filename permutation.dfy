/** The permutation game: an upper tree of `n` levels picks an ordering slot, then `n` further
    players act in one of two orderings of the players `n-1, …, 2n-2`, each picking one of
    `b` actions; every player is paid the sum of `params[a][a']` over consecutive actions. */
module Permutation {
  import opened Wrappers
  import opened GameTree
  import opened GameUtilities

  /** Every consecutive pair of actions of `h` indexes the utility matrix. */
  predicate Indexes(h: seq<int>, params: seq<seq<real>>)
    decreases |h|
  {
    |h| < 2 ||
      (Indexes(h[..|h| - 1], params)
       && 0 <= h[|h| - 2] < |params| && 0 <= h[|h| - 1] < |params[h[|h| - 2]]|)
  }

  /** The sum of `params[a][a']` over the consecutive pairs `(a, a')` of the history. */
  function PairSum(h: seq<int>, params: seq<seq<real>>): real
    requires Indexes(h, params)
    decreases |h|
  {
    if |h| < 2 then 0.0 else PairSum(h[..|h| - 1], params) + params[h[|h| - 2]][h[|h| - 1]]
  }

  /** A prefix of a history whose pairs index the matrix has the same property. */
  lemma {:induction false} IndexesPrefix(h: seq<int>, k: nat, params: seq<seq<real>>)
    requires Indexes(h, params) && k <= |h|
    ensures Indexes(h[..k], params)
    decreases |h|
  {
    if k < |h| {
      assert h[..|h| - 1][..k] == h[..k];
      IndexesPrefix(h[..|h| - 1], k, params);
    } else {
      assert h[..k] == h;
    }
  }

  /** Actions below `b`, the branching factor. */
  predicate InRange(h: seq<int>, b: nat)
  {
    forall i :: 0 <= i < |h| ==> 0 <= h[i] < b
  }

  /** The matrix has a row and a column for every action below `b`. */
  predicate ParamsCover(params: seq<seq<real>>, b: nat)
  {
    b <= |params| && forall i :: 0 <= i < b ==> b <= |params[i]|
  }

  lemma {:induction false} Covered(h: seq<int>, params: seq<seq<real>>, b: nat)
    requires InRange(h, b) && ParamsCover(params, b)
    ensures Indexes(h, params)
    decreases |h|
  {
    if |h| >= 2 {
      Covered(h[..|h| - 1], params, b);
    }
  }

  /** The length of the utility vector: `(n - 1) + n` entries, none when that is negative. */
  function Width(n: int): nat
  {
    if 2 * n - 1 > 0 then 2 * n - 1 else 0
  }

  /** The utility vector of a finished history: every entry is the pair sum. */
  function PermutationUtility(h: seq<int>, params: seq<seq<real>>, n: int): (u: seq<real>)
    requires Indexes(h, params)
    ensures |u| == Width(n)
    ensures forall i :: 0 <= i < |u| ==> u[i] == PairSum(h, params)
  {
    seq(Width(n), i => PairSum(h, params))
  }

  /** `get_permutation_utility(action_history, utility_params, n_players)`: the pair sum
      accumulated over `zip(h, h[1:])`, repeated `(n - 1) + n` times. */
  method GetPermutationUtility(h: seq<int>, params: seq<seq<real>>, n: int) returns (u: seq<real>)
    requires Indexes(h, params)
    ensures u == PermutationUtility(h, params, n)
  {
    var sum := 0.0;
    if |h| >= 1 {
      for i := 0 to |h| - 1
        invariant Indexes(h[..i + 1], params) && sum == PairSum(h[..i + 1], params)
      {
        IndexesPrefix(h, i + 2, params);
        assert h[..i + 2][..i + 1] == h[..i + 1];
        sum := sum + params[h[i]][h[i + 1]];
      }
      assert h[..|h|] == h;
    }
    u := seq(Width(n), _ => sum);
  }

  /** `n · (n-1) ··· 3`, the number of bottom nodes of the upper tree; 1 when `n < 3`. */
  function FallingProduct(n: int): nat
    decreases if n < 3 then 0 else n
  {
    if n < 3 then 1 else n * FallingProduct(n - 1)
  }

  /** The number of nodes the upper tree adds. */
  function UpperSize(n: int): nat
    decreases if n < 3 then 0 else n
  {
    if n < 3 then 0 else n * (1 + UpperSize(n - 1))
  }

  /** Every record of `a` but the one at `except` is still there, unchanged. */
  ghost predicate Unchanged(a: seq<NodeRec>, b: seq<NodeRec>, except: nat)
  {
    |a| <= |b| && forall j :: 0 <= j < |a| && j != except ==> b[j] == a[j]
  }

  lemma UnchangedTrans(a: seq<NodeRec>, b: seq<NodeRec>, c: seq<NodeRec>, except: nat)
    requires Unchanged(a, b, except) && Unchanged(b, c, except)
    ensures Unchanged(a, c, except)
  {
  }

  /** Growing below a node added after `a` leaves all of `a` alone. */
  lemma UnchangedBelow(a: seq<NodeRec>, b: seq<NodeRec>, c: seq<NodeRec>, except: nat, child: nat)
    requires Unchanged(a, b, except) && Unchanged(b, c, child) && child >= |a|
    ensures Unchanged(a, c, except)
  {
  }

  /** `bottom` is a childless decision node added at or after `lo`, owned by `player` and
      at `depth`, with a label not below `floor`. */
  ghost predicate Bottom(ns: seq<NodeRec>, bottom: nat, lo: int, player: int, depth: int, floor: int)
  {
    lo <= bottom < |ns| && ns[bottom].kind == DecisionKind && ns[bottom].player == player
    && ns[bottom].depth == depth && ns[bottom].infoset >= floor && ns[bottom].children == []
  }

  predicate Increasing(s: seq<nat>)
  {
    forall i, j :: 0 <= i < j < |s| ==> s[i] < s[j]
  }

  lemma BottomsKept(a: seq<NodeRec>, b: seq<NodeRec>, bs: seq<nat>, lo: int, except: nat, player: int, depth: int, floor: int)
    requires Unchanged(a, b, except) && except < lo
    requires forall i :: 0 <= i < |bs| ==> bs[i] < |a| && Bottom(a, bs[i], lo, player, depth, floor)
    ensures forall i :: 0 <= i < |bs| ==> Bottom(b, bs[i], lo, player, depth, floor)
  {
    forall i | 0 <= i < |bs| ensures Bottom(b, bs[i], lo, player, depth, floor) {
      assert b[bs[i]] == a[bs[i]];
    }
  }

  /** `build_permutation_upper_tree(tree, current_node, n_actions)`: below fewer than three
      actions the node itself is the only bottom node; otherwise `n` children of the next
      player, each with floor labels, and the bottom nodes of their subtrees in order. */
  method BuildUpperTree(tree: Tree, node: nat, n: int) returns (bottom: seq<nat>)
    requires tree.Valid() && node < |tree.nodes|
    modifies tree
    ensures tree.Valid() && tree.numOfPlayers == old(tree.numOfPlayers) && tree.infosetCount >= old(tree.infosetCount)
    ensures Grows(old(tree.nodes), tree.nodes) && Unchanged(old(tree.nodes), tree.nodes, node)
    ensures |tree.nodes| == old(|tree.nodes|) + UpperSize(n)
    ensures n < 3 ==> bottom == [node] && tree.nodes == old(tree.nodes) && tree.infosetCount == old(tree.infosetCount)
    ensures |bottom| == FallingProduct(n) && Increasing(bottom)
    ensures n >= 3 ==> forall i :: 0 <= i < |bottom| ==>
      Bottom(tree.nodes, bottom[i], old(|tree.nodes|), old(tree.nodes[node].player) + n - 2,
             old(tree.nodes[node].depth) + n - 2, old(tree.infosetCount))
    decreases if n < 3 then 0 else n, 1
  {
    if n < 3 {
      return [node];
    }
    bottom := [];
    ghost var start := tree.nodes;
    ghost var count := tree.infosetCount;
    var player, depth := tree.nodes[node].player, tree.nodes[node].depth;
    var size := 1 + UpperSize(n - 1);
    for k := 0 to n
      invariant tree.Valid() && tree.numOfPlayers == old(tree.numOfPlayers) && tree.infosetCount >= count
      invariant node < |tree.nodes| && tree.nodes[node].player == player && tree.nodes[node].depth == depth
      invariant Grows(start, tree.nodes) && Unchanged(start, tree.nodes, node)
      invariant |tree.nodes| == |start| + k * size
      invariant |bottom| == k * FallingProduct(n - 1) && Increasing(bottom)
      invariant forall i :: 0 <= i < |bottom| ==>
        Bottom(tree.nodes, bottom[i], |start|, player + n - 2, depth + n - 2, count)
    {
      ghost var before := tree.nodes;
      var more := UpperChild(tree, node, n);
      BottomsKept(before, tree.nodes, bottom, |start|, node, player + n - 2, depth + n - 2, count);
      UnchangedTrans(start, before, tree.nodes, node);
      GrowsTrans(start, before, tree.nodes);
      assert Core(tree.nodes[node]) == Core(before[node]);
      AddStep(k, size);
      AddStep(k, FallingProduct(n - 1));
      bottom := bottom + more;
    }
  }

  lemma AddStep(k: int, size: int)
    ensures (k + 1) * size == k * size + size
  {
  }

  /** One pass of that loop: a child of the next player with a fresh label and its subtree. */
  method UpperChild(tree: Tree, node: nat, n: int) returns (more: seq<nat>)
    requires tree.Valid() && node < |tree.nodes| && n >= 3
    modifies tree
    ensures tree.Valid() && tree.numOfPlayers == old(tree.numOfPlayers) && tree.infosetCount >= old(tree.infosetCount)
    ensures Grows(old(tree.nodes), tree.nodes) && Unchanged(old(tree.nodes), tree.nodes, node)
    ensures |tree.nodes| == old(|tree.nodes|) + 1 + UpperSize(n - 1)
    ensures |more| == FallingProduct(n - 1) && Increasing(more)
    ensures forall i :: 0 <= i < |more| ==>
      Bottom(tree.nodes, more[i], old(|tree.nodes|), old(tree.nodes[node].player) + n - 2,
             old(tree.nodes[node].depth) + n - 2, old(tree.infosetCount))
    decreases n, 0
  {
    ghost var before := tree.nodes;
    var child := tree.AddNode(tree.nodes[node].player + 1, -1, Some(node), PNum(-1.0), None);
    ghost var mid := tree.nodes;
    assert mid[child].children == [];
    more := BuildUpperTree(tree, child, n - 1);
    UnchangedBelow(before, mid, tree.nodes, node, child);
    GrowsTrans(before, mid, tree.nodes);
  }

  /** The number of nodes the lower tree adds below a node with `k` players still to act:
      `b` leaves once the ordering is exhausted (none when the utility vectors do not fit the
      tree's player count), otherwise `b` decision nodes each with its own subtree. */
  function LowerSize(b: nat, k: nat, leaves: bool): nat
  {
    if k == 0 then (if leaves then b else 0) else b * (1 + LowerSize(b, k - 1, leaves))
  }

  /** A record the lower tree adds below a history of `hlen` actions, with `levels` players
      still to act among `players`: a decision node of one of them, labelled
      `last + player - n` (unless that is -1, which asks for a fresh label); or a leaf paid the
      utility of a history of `hlen + levels + 1` actions below `b`. */
  ghost predicate LowerBuilt(r: NodeRec, players: seq<int>, levels: nat, last: int, n: int, hlen: nat,
                             params: seq<seq<real>>, b: nat)
  {
    (r.kind == DecisionKind || r.kind == LeafKind)
    && (r.kind == DecisionKind ==>
          r.player in players && (last + r.player - n != -1 ==> r.infoset == last + r.player - n))
    && (r.kind == LeafKind ==>
          exists h: seq<int> :: |h| == hlen + levels + 1 && InRange(h, b) && Indexes(h, params)
            && r.utility == PermutationUtility(h, params, n))
  }

  /** What a deeper level adds, one action further down, is also what this level adds. */
  lemma LowerDeeper(s: seq<NodeRec>, lo: nat, ordering: seq<int>, last: int, n: int, hlen: nat,
                    params: seq<seq<real>>, b: nat)
    requires |ordering| > 0
    requires forall j :: lo <= j < |s| ==> LowerBuilt(s[j], ordering[1..], |ordering| - 1, last, n, hlen + 1, params, b)
    ensures forall j :: lo <= j < |s| ==> LowerBuilt(s[j], ordering, |ordering|, last, n, hlen, params, b)
  {
    forall j | lo <= j < |s| ensures LowerBuilt(s[j], ordering, |ordering|, last, n, hlen, params, b) {
      var r := s[j];
      if r.kind == DecisionKind {
        assert r.player in ordering[1..];
      }
      if r.kind == LeafKind {
        var h: seq<int> :| |h| == hlen + 1 + (|ordering| - 1) + 1 && InRange(h, b) && Indexes(h, params)
          && r.utility == PermutationUtility(h, params, n);
        assert |h| == hlen + |ordering| + 1;
      }
    }
  }

  /** Records that keep their core keep what the lower tree promised about them. */
  lemma LowerKept(a: seq<NodeRec>, c: seq<NodeRec>, lo: nat, players: seq<int>, levels: nat, last: int, n: int,
                  hlen: nat, params: seq<seq<real>>, b: nat)
    requires Grows(a, c) && lo <= |a|
    requires forall j :: lo <= j < |a| ==> LowerBuilt(a[j], players, levels, last, n, hlen, params, b)
    ensures forall j :: lo <= j < |a| ==> LowerBuilt(c[j], players, levels, last, n, hlen, params, b)
  {
    forall j | lo <= j < |a| ensures LowerBuilt(c[j], players, levels, last, n, hlen, params, b) {
      assert Core(c[j]) == Core(a[j]);
    }
  }

  /** `build_permutation_lower_tree(tree, b, current_node, ordering, utility_params,
      last_infoset_id, n_players, action_history)`: once the ordering is exhausted, `b`
      leaves paid the utility of the history extended by each action; otherwise `b` decision
      nodes of `ordering[0]` labelled `last + ordering[0] - n`, each with the subtree of the
      rest of the ordering. */
  method BuildLowerTree(tree: Tree, b: nat, node: nat, ordering: seq<int>, params: seq<seq<real>>,
                        last: int, n: int, history: seq<int>)
    requires tree.Valid() && node < |tree.nodes| && ParamsCover(params, b) && InRange(history, b)
    modifies tree
    ensures tree.Valid() && tree.numOfPlayers == old(tree.numOfPlayers)
    ensures Grows(old(tree.nodes), tree.nodes) && Unchanged(old(tree.nodes), tree.nodes, node)
    ensures |tree.nodes| == old(|tree.nodes|) + LowerSize(b, |ordering|, Width(n) == tree.numOfPlayers)
    ensures forall j :: old(|tree.nodes|) <= j < |tree.nodes| ==>
      LowerBuilt(tree.nodes[j], ordering, |ordering|, last, n, |history|, params, b)
    decreases |ordering|, 2
  {
    if |ordering| == 0 {
      LowerLeaves(tree, b, node, params, n, history);
    } else {
      LowerChildren(tree, b, node, ordering, params, last, n, history);
    }
  }

  /** The ordering is exhausted: one leaf per action, added only when its utility vector has
      one entry per player of the tree. */
  method LowerLeaves(tree: Tree, b: nat, node: nat, params: seq<seq<real>>, n: int, history: seq<int>)
    requires tree.Valid() && node < |tree.nodes| && ParamsCover(params, b) && InRange(history, b)
    modifies tree
    ensures tree.Valid() && tree.numOfPlayers == old(tree.numOfPlayers)
    ensures Grows(old(tree.nodes), tree.nodes) && Unchanged(old(tree.nodes), tree.nodes, node)
    ensures |tree.nodes| == old(|tree.nodes|) + LowerSize(b, 0, Width(n) == tree.numOfPlayers)
    ensures forall j :: old(|tree.nodes|) <= j < |tree.nodes| ==>
      LowerBuilt(tree.nodes[j], [], 0, 0, n, |history|, params, b)
  {
    ghost var start := tree.nodes;
    var fits := Width(n) == tree.numOfPlayers;
    for a := 0 to b
      invariant tree.Valid() && tree.numOfPlayers == old(tree.numOfPlayers) && node < |tree.nodes|
      invariant Grows(start, tree.nodes) && Unchanged(start, tree.nodes, node)
      invariant |tree.nodes| == |start| + (if fits then a else 0)
      invariant forall j :: |start| <= j < |tree.nodes| ==> LowerBuilt(tree.nodes[j], [], 0, 0, n, |history|, params, b)
    {
      ghost var before := tree.nodes;
      var h := history + [a];
      assert InRange(h, b);
      Covered(h, params, b);
      var u := GetPermutationUtility(h, params, n);
      var leaf := tree.AddLeaf(node, u, None);
      GrowsTrans(start, before, tree.nodes);
      LowerKept(before, tree.nodes, |start|, [], 0, 0, n, |history|, params, b);
      if fits {
        assert LowerBuilt(tree.nodes[|before|], [], 0, 0, n, |history|, params, b) by {
          assert |h| == |history| + 0 + 1;
        }
      }
    }
  }

  /** Players are still to act: one decision node per action, each with its subtree. */
  method LowerChildren(tree: Tree, b: nat, node: nat, ordering: seq<int>, params: seq<seq<real>>,
                       last: int, n: int, history: seq<int>)
    requires tree.Valid() && node < |tree.nodes| && ParamsCover(params, b) && InRange(history, b) && |ordering| > 0
    modifies tree
    ensures tree.Valid() && tree.numOfPlayers == old(tree.numOfPlayers)
    ensures Grows(old(tree.nodes), tree.nodes) && Unchanged(old(tree.nodes), tree.nodes, node)
    ensures |tree.nodes| == old(|tree.nodes|) + b * (1 + LowerSize(b, |ordering| - 1, Width(n) == tree.numOfPlayers))
    ensures forall j :: old(|tree.nodes|) <= j < |tree.nodes| ==>
      LowerBuilt(tree.nodes[j], ordering, |ordering|, last, n, |history|, params, b)
    decreases |ordering|, 1
  {
    ghost var start := tree.nodes;
    var size := 1 + LowerSize(b, |ordering| - 1, Width(n) == tree.numOfPlayers);
    for a := 0 to b
      invariant tree.Valid() && tree.numOfPlayers == old(tree.numOfPlayers) && node < |tree.nodes|
      invariant Grows(start, tree.nodes) && Unchanged(start, tree.nodes, node)
      invariant |tree.nodes| == |start| + a * size
      invariant forall j :: |start| <= j < |tree.nodes| ==>
        LowerBuilt(tree.nodes[j], ordering, |ordering|, last, n, |history|, params, b)
    {
      ghost var before := tree.nodes;
      LowerChild(tree, b, node, ordering, params, last, n, history, a);
      LowerKept(before, tree.nodes, |start|, ordering, |ordering|, last, n, |history|, params, b);
      UnchangedTrans(start, before, tree.nodes, node);
      GrowsTrans(start, before, tree.nodes);
      AddStep(a, size);
    }
  }

  /** That loop's body for action `a`. */
  method LowerChild(tree: Tree, b: nat, node: nat, ordering: seq<int>, params: seq<seq<real>>,
                    last: int, n: int, history: seq<int>, a: nat)
    requires tree.Valid() && node < |tree.nodes| && ParamsCover(params, b) && InRange(history, b) && |ordering| > 0
    requires a < b
    modifies tree
    ensures tree.Valid() && tree.numOfPlayers == old(tree.numOfPlayers)
    ensures Grows(old(tree.nodes), tree.nodes) && Unchanged(old(tree.nodes), tree.nodes, node)
    ensures |tree.nodes| == old(|tree.nodes|) + 1 + LowerSize(b, |ordering| - 1, Width(n) == tree.numOfPlayers)
    ensures forall j :: old(|tree.nodes|) <= j < |tree.nodes| ==>
      LowerBuilt(tree.nodes[j], ordering, |ordering|, last, n, |history|, params, b)
    decreases |ordering|, 0
  {
    ghost var before := tree.nodes;
    var child := tree.AddNode(ordering[0], last + ordering[0] - n, Some(node), PNum(-1.0), None);
    ghost var mid := tree.nodes;
    assert LowerBuilt(mid[child], ordering, |ordering|, last, n, |history|, params, b);
    assert InRange(history + [a], b);
    BuildLowerTree(tree, b, child, ordering[1..], params, last, n, history + [a]);
    LowerDeeper(tree.nodes, |mid|, ordering, last, n, |history|, params, b);
    LowerKept(mid, tree.nodes, |before|, ordering, |ordering|, last, n, |history|, params, b);
    UnchangedBelow(before, mid, tree.nodes, node, child);
    GrowsTrans(before, mid, tree.nodes);
  }

  /** `list(range(lo, hi))`. */
  function Range(lo: int, hi: int): (r: seq<int>)
    ensures |r| == if hi > lo then hi - lo else 0
    ensures forall i :: 0 <= i < |r| ==> r[i] == lo + i
  {
    if hi > lo then seq(hi - lo, i => lo + i) else []
  }

  /** An ordering of the lower players `n-1, …, 2n-2` lists each of them once. */
  lemma OrderingPlayers(p: seq<int>, n: int)
    requires IsReordering(p, Range(n - 1, 2 * n - 1))
    ensures |p| == if n > 0 then n else 0
    ensures forall x :: x in p ==> n - 1 <= x < 2 * n - 1
  {
    var items := Range(n - 1, 2 * n - 1);
    assert |p| == |multiset(p)| == |multiset(items)| == |items|;
    forall x | x in p ensures n - 1 <= x < 2 * n - 1 {
      assert x in multiset(p);
      assert x in multiset(items);
      var i :| 0 <= i < |items| && items[i] == x;
    }
  }

  /** A list of at most one item has only itself as a reordering. */
  lemma OnlyOrdering(p: seq<int>, items: seq<int>)
    requires |items| <= 1 && IsReordering(p, items)
    ensures p == items
  {
    assert |p| == |multiset(p)| == |multiset(items)| == |items|;
    if |p| == 1 {
      assert p[0] in multiset(items);
      assert p == [p[0]];
    }
  }

  /** `max(bottom_nodes, key = information_set).information_set`. */
  function MaxLabel(ns: seq<NodeRec>, bs: seq<nat>): (m: int)
    requires |bs| > 0 && forall i :: 0 <= i < |bs| ==> bs[i] < |ns|
    ensures forall i :: 0 <= i < |bs| ==> ns[bs[i]].infoset <= m
    ensures exists i :: 0 <= i < |bs| && ns[bs[i]].infoset == m
  {
    if |bs| == 1 then ns[bs[0]].infoset
    else
      var rest := MaxLabel(ns, bs[1..]);
      assert forall i :: 1 <= i < |bs| ==> bs[i] == bs[1..][i - 1];
      if ns[bs[0]].infoset >= rest then ns[bs[0]].infoset else rest
  }

  /** A first lower node: a decision node of one of the lower players `n-1, …, 2n-2`, labelled
      `last + player - n`. */
  ghost predicate Head(ns: seq<NodeRec>, c: nat, last: int, n: int)
  {
    c < |ns| && ns[c].kind == DecisionKind && n - 1 <= ns[c].player < 2 * n - 1
    && ns[c].infoset == last + ns[c].player - n
  }

  /** One half of the loop body of `build_permutation_game_tree`: the first player of
      `ordering` under `bottom`, labelled `last + ordering[0] - n`, with the lower tree of the
      rest of the ordering; an empty ordering fails with IndexError before anything is added. */
  method AttachOrdering(tree: Tree, b: nat, bottom: nat, ordering: seq<int>, params: seq<seq<real>>, last: int, n: int)
    returns (ok: bool, child: nat)
    requires tree.Valid() && bottom < |tree.nodes| && ParamsCover(params, b) && last >= 2
    requires |ordering| > 0 ==> forall x :: x in ordering ==> n - 1 <= x < 2 * n - 1
    modifies tree
    ensures tree.Valid() && tree.numOfPlayers == old(tree.numOfPlayers)
    ensures ok <==> |ordering| > 0
    ensures !ok ==> tree.nodes == old(tree.nodes)
    ensures Grows(old(tree.nodes), tree.nodes) && Unchanged(old(tree.nodes), tree.nodes, bottom)
    ensures ok ==>
      child == old(|tree.nodes|) && Head(tree.nodes, child, last, n)
      && tree.nodes[bottom].children == old(tree.nodes[bottom].children) + [child]
    ensures forall j :: old(|tree.nodes|) <= j < |tree.nodes| ==>
      LowerBuilt(tree.nodes[j], ordering, |ordering| - 1, last, n, 0, params, b)
  {
    if |ordering| == 0 {
      return false, 0;
    }
    ghost var before := tree.nodes;
    var id := tree.AddNode(ordering[0], last + ordering[0] - n, Some(bottom), PNum(-1.0), None);
    child := id;
    ghost var mid := tree.nodes;
    assert ordering[0] in ordering;
    assert Head(mid, child, last, n);
    assert LowerBuilt(mid[child], ordering, |ordering| - 1, last, n, 0, params, b);
    BuildLowerTree(tree, b, id, ordering[1..], params, last, n, []);
    LowerWiden(tree.nodes, |mid|, ordering[1..], ordering, |ordering| - 1, last, n, 0, params, b);
    LowerKept(mid, tree.nodes, |before|, ordering, |ordering| - 1, last, n, 0, params, b);
    assert Core(tree.nodes[child]) == Core(mid[child]);
    UnchangedBelow(before, mid, tree.nodes, bottom, child);
    GrowsTrans(before, mid, tree.nodes);
    ok := true;
  }

  /** Every player of `small` is among `large`, so what was built for `small` is built for
      `large`. */
  lemma LowerWiden(s: seq<NodeRec>, lo: nat, small: seq<int>, large: seq<int>, levels: nat, last: int, n: int,
                   hlen: nat, params: seq<seq<real>>, b: nat)
    requires forall x :: x in small ==> x in large
    requires forall j :: lo <= j < |s| ==> LowerBuilt(s[j], small, levels, last, n, hlen, params, b)
    ensures forall j :: lo <= j < |s| ==> LowerBuilt(s[j], large, levels, last, n, hlen, params, b)
  {
  }

  /** The number of lower players after the first: `n - 1`, none when there are none. */
  function Later(n: int): nat
  {
    if n > 0 then n - 1 else 0
  }

  /** What was built for one ordering of the lower players is built for the players
      `n-1, …, 2n-2`, one level less than there are players. */
  lemma WidenOrdering(s: seq<NodeRec>, lo: nat, ordering: seq<int>, last: int, n: int, params: seq<seq<real>>, b: nat)
    requires IsReordering(ordering, Range(n - 1, 2 * n - 1)) && |ordering| > 0
    requires forall j :: lo <= j < |s| ==> LowerBuilt(s[j], ordering, |ordering| - 1, last, n, 0, params, b)
    ensures forall j :: lo <= j < |s| ==> LowerBuilt(s[j], Range(n - 1, 2 * n - 1), Later(n), last, n, 0, params, b)
  {
    OrderingPlayers(ordering, n);
    var range := Range(n - 1, 2 * n - 1);
    forall x | x in ordering ensures x in range {
      assert range[x - (n - 1)] == x;
    }
    LowerWiden(s, lo, ordering, range, |ordering| - 1, last, n, 0, params, b);
  }

  /** `bottom` has exactly two children, each a first lower node. */
  ghost predicate Paired(ns: seq<NodeRec>, bottom: nat, last: int, n: int)
  {
    bottom < |ns| && |ns[bottom].children| == 2
    && Head(ns, ns[bottom].children[0], last, n) && Head(ns, ns[bottom].children[1], last, n)
  }

  lemma PairedKept(a: seq<NodeRec>, c: seq<NodeRec>, bottom: nat, last: int, n: int)
    requires Grows(a, c) && Paired(a, bottom, last, n) && bottom < |c| && c[bottom] == a[bottom]
    ensures Paired(c, bottom, last, n)
  {
    var cs := a[bottom].children;
    assert Core(c[cs[0]]) == Core(a[cs[0]]);
    assert Core(c[cs[1]]) == Core(a[cs[1]]);
  }

  /** The loop body of `build_permutation_game_tree` for bottom node `i`: the orderings `2i`
      and `2i + 1` under it. Running past the end of the orderings or meeting an empty one
      fails with IndexError. */
  method PairStep(tree: Tree, b: nat, bottom: nat, perms: seq<seq<int>>, i: nat, params: seq<seq<real>>, last: int, n: int)
    returns (ok: bool)
    requires tree.Valid() && bottom < |tree.nodes| && ParamsCover(params, b) && last >= 2
    requires tree.nodes[bottom].children == []
    requires forall p :: p in perms ==> IsReordering(p, Range(n - 1, 2 * n - 1))
    modifies tree
    ensures tree.Valid() && tree.numOfPlayers == old(tree.numOfPlayers)
    ensures Grows(old(tree.nodes), tree.nodes) && Unchanged(old(tree.nodes), tree.nodes, bottom)
    ensures ok ==> 2 * i + 1 < |perms| && Paired(tree.nodes, bottom, last, n)
    ensures forall j :: old(|tree.nodes|) <= j < |tree.nodes| ==>
      LowerBuilt(tree.nodes[j], Range(n - 1, 2 * n - 1), Later(n), last, n, 0, params, b)
  {
    ghost var start := tree.nodes;
    if 2 * i >= |perms| {
      return false;
    }
    var first := perms[2 * i];
    assert first in perms;
    OrderingPlayers(first, n);
    var done, c1 := AttachOrdering(tree, b, bottom, first, params, last, n);
    if !done {
      return false;
    }
    WidenOrdering(tree.nodes, |start|, first, last, n, params, b);
    if 2 * i + 1 >= |perms| {
      return false;
    }
    ghost var mid := tree.nodes;
    var second := perms[2 * i + 1];
    assert second in perms;
    OrderingPlayers(second, n);
    var c2;
    done, c2 := AttachOrdering(tree, b, bottom, second, params, last, n);
    if done {
      WidenOrdering(tree.nodes, |mid|, second, last, n, params, b);
    }
    LowerKept(mid, tree.nodes, |start|, Range(n - 1, 2 * n - 1), Later(n), last, n, 0, params, b);
    UnchangedTrans(start, mid, tree.nodes, bottom);
    GrowsTrans(start, mid, tree.nodes);
    if done {
      assert Core(tree.nodes[c1]) == Core(mid[c1]);
      assert tree.nodes[bottom].children == [c1, c2];
    }
    ok := done;
  }

  /** `build_permutation_game_tree(n_players, branching_factor, utility_params)`: a tree for
      `(n - 1) + n` players whose upper tree has `n · (n-1) ··· 3` bottom nodes; each bottom
      node gets two first lower nodes, of the orderings `2i` and `2i + 1` of the lower players,
      labelled from `last`, two more than the largest bottom label. With fewer than two
      players the orderings run out and the build fails with IndexError. */
  method BuildPermutationGameTree(n: int, b: nat, params: seq<seq<real>>)
    returns (r: Result<Tree>, ghost bottoms: seq<nat>, ghost last: int)
    requires ParamsCover(params, b)
    ensures n < 2 ==> r.Failure?
    ensures |bottoms| == FallingProduct(n) && Increasing(bottoms) && last >= 2
    ensures r.Success? ==>
      fresh(r.value) && r.value.Valid() && r.value.numOfPlayers == 2 * n - 1
      && (forall i :: 0 <= i < |bottoms| ==> bottoms[i] < 1 + UpperSize(n) && Paired(r.value.nodes, bottoms[i], last, n))
      && 1 + UpperSize(n) <= |r.value.nodes|
      && (forall j :: 1 + UpperSize(n) <= j < |r.value.nodes| ==>
            LowerBuilt(r.value.nodes[j], Range(n - 1, 2 * n - 1), Later(n), last, n, 0, params, b))
  {
    var tree := new Tree(2 * n - 1, 0, None);
    var bs := BuildUpperTree(tree, 0, n);
    bottoms := bs;
    var items := Range(n - 1, 2 * n - 1);
    var perms := AllPermutations(items);
    if n < 2 {
      OnlyOrderings(perms, items);
    }
    FallingPositive(n);
    UpperBottoms(tree.nodes, bs, n);
    var lastId := MaxLabel(tree.nodes, bs) + 2;
    last := lastId;
    var ok := PairAll(tree, b, bs, perms, params, lastId, n);
    if !ok {
      return Failure("IndexError"), bottoms, last;
    }
    r := Success(tree);
  }

  lemma {:induction false} FallingPositive(n: int)
    ensures FallingProduct(n) >= 1
    decreases if n < 3 then 0 else n
  {
    if n >= 3 {
      FallingPositive(n - 1);
    }
  }

  /** The bottom nodes of the upper tree of a fresh tree are childless, with labels at least 0. */
  lemma UpperBottoms(ns: seq<NodeRec>, bs: seq<nat>, n: int)
    requires n < 3 ==> bs == [0] && ns == [RootRecord(DecisionRoot(0, 0))]
    requires n >= 3 ==> forall i :: 0 <= i < |bs| ==> Bottom(ns, bs[i], 1, n - 2, n - 2, 1)
    ensures forall k :: 0 <= k < |bs| ==> bs[k] < |ns| && ns[bs[k]].children == [] && ns[bs[k]].infoset >= 0
  {
  }

  /** The loop of `build_permutation_game_tree` over the bottom nodes. */
  method PairAll(tree: Tree, b: nat, bs: seq<nat>, perms: seq<seq<int>>, params: seq<seq<real>>, last: int, n: int)
    returns (ok: bool)
    requires tree.Valid() && ParamsCover(params, b) && last >= 2 && Increasing(bs)
    requires forall k :: 0 <= k < |bs| ==> bs[k] < |tree.nodes| && tree.nodes[bs[k]].children == []
    requires forall p :: p in perms ==> IsReordering(p, Range(n - 1, 2 * n - 1))
    modifies tree
    ensures tree.Valid() && tree.numOfPlayers == old(tree.numOfPlayers)
    ensures Grows(old(tree.nodes), tree.nodes)
    ensures ok ==> |bs| == 0 || |perms| >= 2
    ensures ok ==> forall k :: 0 <= k < |bs| ==> Paired(tree.nodes, bs[k], last, n)
    ensures forall j :: old(|tree.nodes|) <= j < |tree.nodes| ==>
      LowerBuilt(tree.nodes[j], Range(n - 1, 2 * n - 1), Later(n), last, n, 0, params, b)
  {
    ghost var upper := tree.nodes;
    var items := Range(n - 1, 2 * n - 1);
    for i := 0 to |bs|
      invariant tree.Valid() && tree.numOfPlayers == old(tree.numOfPlayers)
      invariant Grows(upper, tree.nodes)
      invariant forall k :: i <= k < |bs| ==> bs[k] < |upper| && tree.nodes[bs[k]] == upper[bs[k]]
      invariant forall k :: 0 <= k < i ==> Paired(tree.nodes, bs[k], last, n)
      invariant forall j :: |upper| <= j < |tree.nodes| ==>
        LowerBuilt(tree.nodes[j], items, Later(n), last, n, 0, params, b)
      invariant i > 0 ==> |perms| >= 2
    {
      ghost var before := tree.nodes;
      ok := PairStep(tree, b, bs[i], perms, i, params, last, n);
      if !ok {
        return;
      }
      LowerKept(before, tree.nodes, |upper|, items, Later(n), last, n, 0, params, b);
      GrowsTrans(upper, before, tree.nodes);
      forall k | 0 <= k < |bs| && k != i ensures bs[k] < |before| && tree.nodes[bs[k]] == before[bs[k]] {
        assert bs[k] != bs[i];
      }
      forall k | 0 <= k < i ensures Paired(tree.nodes, bs[k], last, n) {
        PairedKept(before, tree.nodes, bs[k], last, n);
      }
    }
    ok := true;
  }

  /** With at most one lower player there is a single ordering. */
  lemma OnlyOrderings(perms: seq<seq<int>>, items: seq<int>)
    requires |items| <= 1
    requires forall p :: p in perms ==> IsReordering(p, items)
    requires forall i, j :: 0 <= i < j < |perms| ==> perms[i] != perms[j]
    ensures |perms| <= 1
  {
    if |perms| >= 2 {
      assert perms[0] in perms && perms[1] in perms;
      OnlyOrdering(perms[0], items);
      OnlyOrdering(perms[1], items);
    }
  }
}
