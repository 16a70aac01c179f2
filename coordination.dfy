/** The coordination game: players 0, 1, …, n-1 each pick one of `b` actions without seeing
    the others; everybody gets the same drawn payoff when all picks agree, and 0 otherwise. */
module Coordination {
  import opened Wrappers
  import opened GameTree

  /** Every entry of `h` is the same. */
  predicate AllEqual(h: seq<int>)
  {
    forall i, j :: 0 <= i < |h| && 0 <= j < |h| ==> h[i] == h[j]
  }

  function MaxOf(h: seq<int>): int
    requires |h| > 0
  {
    if |h| == 1 then h[0] else Max(h[0], MaxOf(h[1..]))
  }

  function MinOf(h: seq<int>): int
    requires |h| > 0
  {
    if |h| == 1 then h[0] else (var m := MinOf(h[1..]); if h[0] <= m then h[0] else m)
  }

  /** `max(h)` is an entry of `h` and bounds every entry from above; `min(h)` from below. */
  lemma {:induction false} Extremes(h: seq<int>)
    requires |h| > 0
    ensures MaxOf(h) in h && MinOf(h) in h
    ensures forall i :: 0 <= i < |h| ==> MinOf(h) <= h[i] <= MaxOf(h)
  {
    if |h| > 1 {
      Extremes(h[1..]);
      forall i | 1 <= i < |h| ensures MinOf(h) <= h[i] <= MaxOf(h) {
        assert h[i] == h[1..][i - 1];
      }
    }
  }

  /** `max(h) == min(h)` exactly when all entries agree. */
  lemma MaxMinEqual(h: seq<int>)
    requires |h| > 0
    ensures MaxOf(h) == MinOf(h) <==> AllEqual(h)
  {
    Extremes(h);
    if AllEqual(h) {
      var i :| 0 <= i < |h| && h[i] == MaxOf(h);
      var j :| 0 <= j < |h| && h[j] == MinOf(h);
    }
  }

  /** `get_coordination_utility(history, n)` with `x` the value `randint(1, 5)` returns:
      `n` copies of `x` when every action of the history agrees, `n` zeros otherwise. */
  function CoordinationUtility(history: seq<int>, n: nat, x: int): (u: seq<real>)
    requires |history| > 0
    ensures |u| == n
    ensures AllEqual(history) ==> forall i :: 0 <= i < n ==> u[i] == x as real
    ensures !AllEqual(history) ==> forall i :: 0 <= i < n ==> u[i] == 0.0
  {
    MaxMinEqual(history);
    if MaxOf(history) == MinOf(history) then seq(n, i => x as real) else seq(n, i => 0.0)
  }

  /** The number of nodes `build_coordination_game_subtree` adds under a node of `player`:
      `b` leaves once every player has moved, otherwise `b` nodes each with its own subtree. */
  function SubtreeSize(players: int, player: int, b: nat): nat
    decreases if player < players then players - player else 0
  {
    if player >= players then b else b * (1 + SubtreeSize(players, player + 1, b))
  }

  /** A record the builder adds below a node at depth `depth` reached by a history of
      `hlen` actions, the next mover being `player`: a decision node of a later player, in the
      information set named after that player, one level deeper per player in between; or a
      leaf one level below the last player, paid the coordination utility of a full history. */
  ghost predicate Built(r: NodeRec, players: nat, player: int, depth: nat, hlen: nat, draw: seq<int> -> int)
  {
    var extra := if player < players then players - player else 0;
    (r.kind == DecisionKind || r.kind == LeafKind)
    && (r.kind == DecisionKind ==>
          player <= r.player < players && r.infoset == r.player && r.depth == depth + (r.player - player) + 1)
    && (r.kind == LeafKind ==>
          r.depth == depth + extra + 1
          && exists h: seq<int> :: |h| == hlen + extra + 1 && r.utility == CoordinationUtility(h, players, draw(h)))
  }

  /** What the next player's subtree adds is also what the current player's adds. */
  lemma BuiltDeeper(r: NodeRec, players: nat, player: int, depth: nat, hlen: nat, draw: seq<int> -> int)
    requires player < players && Built(r, players, player + 1, depth + 1, hlen + 1, draw)
    ensures Built(r, players, player, depth, hlen, draw)
  {
    if r.kind == LeafKind {
      var h: seq<int> :| |h| == hlen + 1 + (if player + 1 < players then players - player - 1 else 0) + 1
        && r.utility == CoordinationUtility(h, players, draw(h));
      assert |h| == hlen + (players - player) + 1;
    }
  }

  lemma BuiltDeeperFrom(s: seq<NodeRec>, lo: nat, players: nat, player: int, depth: nat, hlen: nat, draw: seq<int> -> int)
    requires player < players
    requires forall j :: lo <= j < |s| ==> Built(s[j], players, player + 1, depth + 1, hlen + 1, draw)
    ensures forall j :: lo <= j < |s| ==> Built(s[j], players, player, depth, hlen, draw)
  {
    forall j | lo <= j < |s| ensures Built(s[j], players, player, depth, hlen, draw) {
      BuiltDeeper(s[j], players, player, depth, hlen, draw);
    }
  }

  lemma BuiltKept(a: seq<NodeRec>, b: seq<NodeRec>, lo: nat, players: nat, player: int, depth: nat, hlen: nat, draw: seq<int> -> int)
    requires Grows(a, b) && lo <= |a|
    requires forall j :: lo <= j < |a| ==> Built(a[j], players, player, depth, hlen, draw)
    ensures forall j :: lo <= j < |a| ==> Built(b[j], players, player, depth, hlen, draw)
  {
    forall j | lo <= j < |a| ensures Built(b[j], players, player, depth, hlen, draw) {
      assert Core(b[j]) == Core(a[j]);
    }
  }

  /** `build_coordination_game_subtree(tree, node, player, b, history)`: once every player
      has moved, `b` leaves paid the coordination utility of the history extended by each
      action; otherwise `b` decision nodes of `player`, in information set `player`, each
      with the subtree of the next player. Draws of `randint(1, 5)` come from `draw`. */
  method BuildCoordinationSubtree(tree: Tree, node: nat, player: int, b: nat, history: seq<int>, draw: seq<int> -> int)
    requires tree.Valid() && node < |tree.nodes| && player >= 1 && tree.numOfPlayers >= 0
    modifies tree
    ensures tree.Valid() && tree.numOfPlayers == old(tree.numOfPlayers)
    ensures Grows(old(tree.nodes), tree.nodes)
    ensures |tree.nodes| == old(|tree.nodes|) + SubtreeSize(tree.numOfPlayers, player, b)
    ensures forall j :: old(|tree.nodes|) <= j < |tree.nodes| ==>
      Built(tree.nodes[j], tree.numOfPlayers, player, old(tree.nodes[node].depth), |history|, draw)
    decreases if player < tree.numOfPlayers then tree.numOfPlayers - player else 0, 2
  {
    if player >= tree.numOfPlayers {
      AddLeaves(tree, node, player, b, history, draw);
    } else {
      AddChildren(tree, node, player, b, history, draw);
    }
  }

  /** The last player has moved: one leaf per action. */
  method AddLeaves(tree: Tree, node: nat, player: int, b: nat, history: seq<int>, draw: seq<int> -> int)
    requires tree.Valid() && node < |tree.nodes| && player >= tree.numOfPlayers >= 0
    modifies tree
    ensures tree.Valid() && tree.numOfPlayers == old(tree.numOfPlayers)
    ensures Grows(old(tree.nodes), tree.nodes)
    ensures |tree.nodes| == old(|tree.nodes|) + b
    ensures forall j :: old(|tree.nodes|) <= j < |tree.nodes| ==>
      Built(tree.nodes[j], tree.numOfPlayers, player, old(tree.nodes[node].depth), |history|, draw)
  {
    var players: nat := tree.numOfPlayers;
    ghost var start := tree.nodes;
    var depth := tree.nodes[node].depth;
    for a := 0 to b
      invariant tree.Valid() && tree.numOfPlayers == players
      invariant Grows(start, tree.nodes) && |tree.nodes| == |start| + a
      invariant forall j :: |start| <= j < |tree.nodes| ==> Built(tree.nodes[j], players, player, depth, |history|, draw)
    {
      ghost var before := tree.nodes;
      var h := history + [a];
      var u := CoordinationUtility(h, players, draw(h));
      var leaf := tree.AddLeaf(node, u, None);
      GrowsTrans(start, before, tree.nodes);
      BuiltKept(before, tree.nodes, |start|, players, player, depth, |history|, draw);
      assert Built(tree.nodes[|before|], players, player, depth, |history|, draw) by {
        assert |h| == |history| + 0 + 1;
      }
    }
  }

  /** A player still has to move: one decision node per action, each with its subtree. */
  method AddChildren(tree: Tree, node: nat, player: int, b: nat, history: seq<int>, draw: seq<int> -> int)
    requires tree.Valid() && node < |tree.nodes| && 1 <= player < tree.numOfPlayers
    modifies tree
    ensures tree.Valid() && tree.numOfPlayers == old(tree.numOfPlayers)
    ensures Grows(old(tree.nodes), tree.nodes)
    ensures |tree.nodes| == old(|tree.nodes|) + b * (1 + SubtreeSize(tree.numOfPlayers, player + 1, b))
    ensures forall j :: old(|tree.nodes|) <= j < |tree.nodes| ==>
      Built(tree.nodes[j], tree.numOfPlayers, player, old(tree.nodes[node].depth), |history|, draw)
    decreases tree.numOfPlayers - player, 1
  {
    var players: nat := tree.numOfPlayers;
    ghost var start := tree.nodes;
    var depth := tree.nodes[node].depth;
    var size := 1 + SubtreeSize(players, player + 1, b);
    for a := 0 to b
      invariant tree.Valid() && tree.numOfPlayers == players && node < |tree.nodes| && tree.nodes[node].depth == depth
      invariant Grows(start, tree.nodes) && |tree.nodes| == |start| + a * size
      invariant forall j :: |start| <= j < |tree.nodes| ==> Built(tree.nodes[j], players, player, depth, |history|, draw)
    {
      ghost var before := tree.nodes;
      ChildWithSubtree(tree, node, player, b, history, a, draw);
      BuiltKept(before, tree.nodes, |start|, players, player, depth, |history|, draw);
      GrowsTrans(start, before, tree.nodes);
      assert Core(tree.nodes[node]) == Core(before[node]);
      assert (a + 1) * size == a * size + size;
    }
  }

  /** The body of that loop for action `a`: the decision node of `player` and its subtree. */
  method ChildWithSubtree(tree: Tree, node: nat, player: int, b: nat, history: seq<int>, a: int, draw: seq<int> -> int)
    requires tree.Valid() && node < |tree.nodes| && 1 <= player < tree.numOfPlayers
    modifies tree
    ensures tree.Valid() && tree.numOfPlayers == old(tree.numOfPlayers)
    ensures Grows(old(tree.nodes), tree.nodes)
    ensures |tree.nodes| == old(|tree.nodes|) + 1 + SubtreeSize(tree.numOfPlayers, player + 1, b)
    ensures forall j :: old(|tree.nodes|) <= j < |tree.nodes| ==>
      Built(tree.nodes[j], tree.numOfPlayers, player, old(tree.nodes[node].depth), |history|, draw)
    decreases tree.numOfPlayers - player, 0
  {
    var players: nat := tree.numOfPlayers;
    var depth := tree.nodes[node].depth;
    ghost var before := tree.nodes;
    var child := tree.AddNode(player, player, Some(node), PNum(-1.0), None);
    ghost var mid := tree.nodes;
    assert Built(mid[child], players, player, depth, |history|, draw);
    BuildCoordinationSubtree(tree, child, player + 1, b, history + [a], draw);
    BuiltDeeperFrom(tree.nodes, |mid|, players, player, depth, |history|, draw);
    BuiltKept(mid, tree.nodes, |before|, players, player, depth, |history|, draw);
    GrowsTrans(before, mid, tree.nodes);
  }
}
