/** Sampled CFR (`sampleCFR`): chance nodes follow one drawn child, decision nodes are
    explored in full with the reach of the actor set to 0 off the sampled action, the value is
    that of the sampled action, and the regrets are always clamped at 0. */
module SampleCfr {
  import opened Wrappers
  import opened RealSeq
  import opened GameTree
  import opened CfrTrees
  import opened CfrWalks
  import opened Cfr

  // ---------------------------------------------------------------------------------------
  // Drawing a chance child.

  /** The first index from `k` on whose running total of `d` exceeds the draw `r`, as
      `CFRChanceNode.sampleAction` scans it, or `None` when there is none. */
  function FirstOver(d: seq<real>, r: real, k: nat): (o: Option<nat>)
    requires k <= |d|
    ensures o.Some? ==> k <= o.value < |d|
    decreases |d| - k
  {
    if k == |d| then None else if r < RunningTotal(d, k) then Some(k) else FirstOver(d, r, k + 1)
  }

  lemma {:induction false} FirstOverSampled(d: seq<real>, r: real, k: nat)
    requires k <= |d| && forall j :: 0 <= j < k ==> r >= RunningTotal(d, j)
    ensures FirstOver(d, r, k).Some? ==> Sampled(d, r, FirstOver(d, r, k).value)
    ensures FirstOver(d, r, k).None? ==> forall j :: 0 <= j < |d| ==> r >= RunningTotal(d, j)
    decreases |d| - k
  {
    if k < |d| && r >= RunningTotal(d, k) {
      FirstOverSampled(d, r, k + 1);
    }
  }

  /** At most one index is the sampled one. */
  lemma SampledUnique(d: seq<real>, r: real, i: int, j: int)
    requires Sampled(d, r, i) && Sampled(d, r, j)
    ensures i == j
  {
  }

  /** `sampleAction` of a chance node: the scan of `SampleIndex` yields `FirstOver`. */
  method ChanceDraw(d: seq<real>, r: real) returns (o: Option<nat>)
    ensures o == FirstOver(d, r, 0)
  {
    o := SampleIndex(d, r);
    FirstOverSampled(d, r, 0);
    if o.Some? && FirstOver(d, r, 0).Some? {
      SampledUnique(d, r, o.value, FirstOver(d, r, 0).value);
    }
  }

  // ---------------------------------------------------------------------------------------
  // The traversal as a function.

  /** Every information set below `n` has a sampled action naming one of its children. */
  ghost predicate PlanFits(n: Node, plan: map<int, int>)
  {
    match n
    case Leaf(_) => true
    case Decision(_, h, cs) => h in plan && 0 <= plan[h] < |cs| && forall i :: 0 <= i < |cs| ==> PlanFits(cs[i], plan)
    case Chance(_, cs) => forall i :: 0 <= i < |cs| ==> PlanFits(cs[i], plan)
  }

  /** Every chance node the traversal reaches below `n` (at `path`) draws a child: the
      draw `draws(path)` falls below the distribution's total. Only the drawn child of a chance
      node is traversed. */
  ghost predicate DrawsHit(n: Node, path: seq<int>, draws: seq<int> -> real)
  {
    match n
    case Leaf(_) => true
    case Decision(_, _, cs) => forall i :: 0 <= i < |cs| ==> DrawsHit(cs[i], path + [i], draws)
    case Chance(d, cs) =>
      var o := FirstOver(d, draws(path), 0);
      o.Some? && (o.value < |cs| ==> DrawsHit(cs[o.value], path + [o.value], draws))
  }

  ghost predicate SampleReady(n: Node, path: seq<int>, player: int, pi: seq<real>, plan: map<int, int>,
      draws: seq<int> -> real, acc: Acc)
  {
    Ready(n, path, player, pi, acc) && PlanFits(n, plan) && DrawsHit(n, path, draws)
  }

  /** The chance child drawn at `path`. */
  function Drawn(n: Node, path: seq<int>, draws: seq<int> -> real): (i: nat)
    requires n.Chance? && ChanceAligned(n) && FirstOver(n.distribution, draws(path), 0).Some?
    ensures i < |n.children|
  {
    FirstOver(n.distribution, draws(path), 0).value
  }

  lemma SampleReadyChild(n: Node, path: seq<int>, player: int, pi: seq<real>, plan: map<int, int>,
      draws: seq<int> -> real, acc: Acc, i: int, pi': seq<real>)
    requires SampleReady(n, path, player, pi, plan, draws, acc) && |pi'| == |pi|
    requires n.Decision? && 0 <= i < |n.children|
    ensures SampleReady(n.children[i], path + [i], player, pi', plan, draws, acc)
  {
    ReadyChild(n, path, player, pi, acc, i, pi');
  }

  lemma SampleReadyDrawn(n: Node, path: seq<int>, player: int, pi: seq<real>, plan: map<int, int>,
      draws: seq<int> -> real, acc: Acc)
    requires SampleReady(n, path, player, pi, plan, draws, acc) && n.Chance?
    ensures FirstOver(n.distribution, draws(path), 0).Some?
    ensures SampleReady(n.children[Drawn(n, path, draws)], path + [Drawn(n, path, draws)], player, pi, plan, draws, acc)
  {
    ReadyChild(n, path, player, pi, acc, Drawn(n, path, draws), pi);
  }

  lemma SampleReadyKept(n: Node, path: seq<int>, player: int, pi: seq<real>, plan: map<int, int>,
      draws: seq<int> -> real, a: Acc, b: Acc)
    requires SampleReady(n, path, player, pi, plan, draws, a) && Kept(a, b)
    ensures SampleReady(n, path, player, pi, plan, draws, b)
  {
    ReadyKept(n, path, player, pi, a, b);
  }

  /** `max(s)`. */
  function MaxOf(s: seq<real>): (r: real)
    requires |s| > 0
    ensures forall i :: 0 <= i < |s| ==> s[i] <= r
    ensures exists i :: 0 <= i < |s| && s[i] == r
  {
    if |s| == 1 then s[0]
    else
      var m := MaxOf(s[1..]);
      assert forall i :: 1 <= i < |s| ==> s[i] == s[1..][i - 1];
      if s[0] >= m then s[0] else m
  }

  /** `pi` with the reach of player `q` set to 0. */
  function ZeroAt(pi: seq<real>, q: int): (r: seq<real>)
    requires 0 <= q < |pi|
    ensures |r| == |pi|
  {
    pi[q := 0.0]
  }

  /** `sampleCFR(node, player, pi, action_plan)` as a function of the traversal state, the
      chance draws being `draws`: the visit count grows by the product of `pi`; a leaf gives
      its utility for `player`, a chance node the value of its drawn child; at a decision node
      with no positive reach only the sampled child is traversed, otherwise every child is,
      the actor's reach being set to 0 off the sampled action, the value is the sampled
      child's, and at a node of `player` the regrets are updated and clamped at 0 and the
      strategy sums grow as in CFR. */
  function SampleWalk(n: Node, path: seq<int>, player: int, pi: seq<real>, plan: map<int, int>,
      draws: seq<int> -> real, acc: Acc): (r: (real, Acc))
    requires SampleReady(n, path, player, pi, plan, draws, acc)
    ensures Kept(acc, r.1)
    decreases n, |ChildrenOf(n)| + 1
  {
    VisitedReady(n, path, player, pi, acc);
    var acc1 := Visited(acc, path, Prod(pi));
    SampleReadyKept(n, path, player, pi, plan, draws, acc, acc1);
    match n
    case Leaf(u) => (u[player], acc1)
    case Chance(_, cs) =>
      SampleReadyDrawn(n, path, player, pi, plan, draws, acc1);
      var i := Drawn(n, path, draws);
      var r := SampleWalk(cs[i], path + [i], player, pi, plan, draws, acc1);
      KeptTrans(acc, acc1, r.1);
      r
    case Decision(q, h, cs) =>
      var a := plan[h];
      if MaxOf(pi) == 0.0 then
        SampleReadyChild(n, path, player, pi, plan, draws, acc1, a, pi);
        var r := SampleWalk(cs[a], path + [a], player, pi, plan, draws, acc1);
        KeptTrans(acc, acc1, r.1);
        r
      else
        var alt := SampleAlternatives(n, path, player, pi, plan, draws, acc1, 0);
        KeptTrans(acc, acc1, alt.1);
        FitKept(n, acc1, alt.1);
        var v := alt.0[a];
        if q != player then (v, alt.1)
        else
          var s := alt.1.st[h];
          var s' := s.(cumulativeRegret := UpdatedRegrets(s.cumulativeRegret, alt.0, v, ProdExcept(pi, player), true),
                       cumulativeStrategy := UpdatedStrategySums(s.cumulativeStrategy, s.currentStrategy, pi[player]));
          (v, alt.1.(st := alt.1.st[h := s']))
  }

  /** The reach passed to child `i` of the decision node `n`. */
  function ChildReach(n: Node, pi: seq<real>, plan: map<int, int>, i: int): (r: seq<real>)
    requires n.Decision? && n.infoset in plan && 0 <= n.player < |pi|
    ensures |r| == |pi|
  {
    if i == plan[n.infoset] then pi else ZeroAt(pi, n.player)
  }

  /** The loop over the actions of a decision node from action `i` on. */
  function SampleAlternatives(n: Node, path: seq<int>, player: int, pi: seq<real>, plan: map<int, int>,
      draws: seq<int> -> real, acc: Acc, i: nat): (r: (seq<real>, Acc))
    requires n.Decision? && i <= |n.children| && SampleReady(n, path, player, pi, plan, draws, acc)
    ensures |r.0| == |n.children| - i && Kept(acc, r.1)
    decreases n, |n.children| - i
  {
    if i == |n.children| then ([], acc)
    else
      var pi' := ChildReach(n, pi, plan, i);
      SampleReadyChild(n, path, player, pi, plan, draws, acc, i, pi');
      var c := SampleWalk(n.children[i], path + [i], player, pi', plan, draws, acc);
      SampleReadyKept(n, path, player, pi, plan, draws, acc, c.1);
      var rest := SampleAlternatives(n, path, player, pi, plan, draws, c.1, i + 1);
      KeptTrans(acc, c.1, rest.1);
      ([c.0] + rest.0, rest.1)
  }

  /** One step of the action loop: the child's traversal `c` and the rest of the loop. */
  lemma SampleAlternativesStep(n: Node, path: seq<int>, player: int, pi: seq<real>, plan: map<int, int>,
      draws: seq<int> -> real, acc: Acc, i: nat) returns (c: (real, Acc))
    requires n.Decision? && i < |n.children| && SampleReady(n, path, player, pi, plan, draws, acc)
    ensures SampleReady(n.children[i], path + [i], player, ChildReach(n, pi, plan, i), plan, draws, acc)
    ensures c == SampleWalk(n.children[i], path + [i], player, ChildReach(n, pi, plan, i), plan, draws, acc)
    ensures SampleReady(n, path, player, pi, plan, draws, c.1)
    ensures SampleAlternatives(n, path, player, pi, plan, draws, acc, i).0 ==
      [c.0] + SampleAlternatives(n, path, player, pi, plan, draws, c.1, i + 1).0
    ensures SampleAlternatives(n, path, player, pi, plan, draws, acc, i).1 ==
      SampleAlternatives(n, path, player, pi, plan, draws, c.1, i + 1).1
  {
    var pi' := ChildReach(n, pi, plan, i);
    SampleReadyChild(n, path, player, pi, plan, draws, acc, i, pi');
    c := SampleWalk(n.children[i], path + [i], player, pi', plan, draws, acc);
    SampleReadyKept(n, path, player, pi, plan, draws, acc, c.1);
    assert i != |n.children|;
    var l := SampleAlternatives(n, path, player, pi, plan, draws, acc, i);
    var r := SampleAlternatives(n, path, player, pi, plan, draws, c.1, i + 1);
    assert l.1 == r.1;
    assert l.0 == [c.0] + r.0;
  }

  /** A decision node with some positive reach: every child traversed, the sampled child's
      value, and the clamped update when the actor is `player`. */
  lemma SampleWalkDecision(n: Node, path: seq<int>, player: int, pi: seq<real>, plan: map<int, int>,
      draws: seq<int> -> real, acc: Acc)
    requires SampleReady(n, path, player, pi, plan, draws, acc) && n.Decision? && MaxOf(pi) != 0.0
    ensures path in acc.visits && SampleReady(n, path, player, pi, plan, draws, Visited(acc, path, Prod(pi)))
    ensures var alt := SampleAlternatives(n, path, player, pi, plan, draws, Visited(acc, path, Prod(pi)), 0);
      var h := n.infoset;
      h in plan && 0 <= plan[h] < |alt.0| &&
      h in alt.1.st && |alt.1.st[h].cumulativeRegret| == |alt.1.st[h].cumulativeStrategy| == |alt.1.st[h].currentStrategy| == |alt.0| &&
      SampleWalk(n, path, player, pi, plan, draws, acc) ==
        if n.player != player then (alt.0[plan[h]], alt.1)
        else
          var s := alt.1.st[h];
          (alt.0[plan[h]], alt.1.(st := alt.1.st[h := s.(
            cumulativeRegret := UpdatedRegrets(s.cumulativeRegret, alt.0, alt.0[plan[h]], ProdExcept(pi, player), true),
            cumulativeStrategy := UpdatedStrategySums(s.cumulativeStrategy, s.currentStrategy, pi[player]))]))
  {
    VisitedReady(n, path, player, pi, acc);
    var acc1 := Visited(acc, path, Prod(pi));
    SampleReadyKept(n, path, player, pi, plan, draws, acc, acc1);
    var alt := SampleAlternatives(n, path, player, pi, plan, draws, acc1, 0);
    FitKept(n, acc1, alt.1);
  }

  /** A decision node with no positive reach: only the sampled child, nothing updated here. */
  lemma SampleWalkIdle(n: Node, path: seq<int>, player: int, pi: seq<real>, plan: map<int, int>,
      draws: seq<int> -> real, acc: Acc)
    requires SampleReady(n, path, player, pi, plan, draws, acc) && n.Decision? && MaxOf(pi) == 0.0
    ensures path in acc.visits && n.infoset in plan && 0 <= plan[n.infoset] < |n.children|
    ensures SampleReady(n.children[plan[n.infoset]], path + [plan[n.infoset]], player, pi, plan, draws, Visited(acc, path, Prod(pi)))
    ensures SampleWalk(n, path, player, pi, plan, draws, acc) ==
      SampleWalk(n.children[plan[n.infoset]], path + [plan[n.infoset]], player, pi, plan, draws, Visited(acc, path, Prod(pi)))
  {
    VisitedReady(n, path, player, pi, acc);
    var acc1 := Visited(acc, path, Prod(pi));
    SampleReadyKept(n, path, player, pi, plan, draws, acc, acc1);
    SampleReadyChild(n, path, player, pi, plan, draws, acc1, plan[n.infoset], pi);
  }

  /** A chance node: its drawn child only. */
  lemma SampleWalkChance(n: Node, path: seq<int>, player: int, pi: seq<real>, plan: map<int, int>,
      draws: seq<int> -> real, acc: Acc)
    requires SampleReady(n, path, player, pi, plan, draws, acc) && n.Chance?
    ensures path in acc.visits && FirstOver(n.distribution, draws(path), 0).Some?
    ensures SampleReady(n.children[Drawn(n, path, draws)], path + [Drawn(n, path, draws)], player, pi, plan, draws, Visited(acc, path, Prod(pi)))
    ensures SampleWalk(n, path, player, pi, plan, draws, acc) ==
      SampleWalk(n.children[Drawn(n, path, draws)], path + [Drawn(n, path, draws)], player, pi, plan, draws, Visited(acc, path, Prod(pi)))
  {
    VisitedReady(n, path, player, pi, acc);
    var acc1 := Visited(acc, path, Prod(pi));
    SampleReadyKept(n, path, player, pi, plan, draws, acc, acc1);
    SampleReadyDrawn(n, path, player, pi, plan, draws, acc1);
  }

  // ---------------------------------------------------------------------------------------
  // The traversal with the reach vector in an array.

  /** `max(pi)`. */
  method MaxReach(pi: array<real>) returns (m: real)
    requires pi.Length > 0
    ensures m == MaxOf(pi[..])
  {
    m := pi[pi.Length - 1];
    var i := pi.Length - 1;
    while i > 0
      invariant 0 <= i < pi.Length && m == MaxOf(pi[i..])
    {
      i := i - 1;
      assert pi[i..][1..] == pi[i + 1..];
      if pi[i] >= m {
        m := pi[i];
      }
    }
    assert pi[0..] == pi[..];
  }

  /** `pi[q] = 0`, returning the old entry. */
  method ZeroReach(pi: array<real>, q: int) returns (oldPi: real)
    requires 0 <= q < pi.Length
    modifies pi
    ensures oldPi == old(pi[q]) && pi[..] == ZeroAt(old(pi[..]), q)
  {
    oldPi := pi[q];
    pi[q] := 0.0;
  }

  /** `sampleCFR(node, player, pi, action_plan)` on the node `n` at `path`: the shared reach
      array is as it was on return, and the value and new state are those of `SampleWalk`. */
  method SampleCfrFrom(n: Node, path: seq<int>, player: int, pi: array<real>, plan: map<int, int>,
      draws: seq<int> -> real, acc: Acc) returns (v: real, out: Acc)
    requires SampleReady(n, path, player, pi[..], plan, draws, acc)
    modifies pi
    ensures pi[..] == old(pi[..])
    ensures (v, out) == SampleWalk(n, path, player, old(pi[..]), plan, draws, acc)
    decreases n, 2
  {
    ghost var pi0 := pi[..];
    VisitedReady(n, path, player, pi0, acc);
    var visits := ReachProduct(pi);
    var acc1 := Visited(acc, path, visits);
    if n.Chance? {
      SampleWalkChance(n, path, player, pi0, plan, draws, acc);
      var o := ChanceDraw(n.distribution, draws(path));
      var i := o.value;
      v, out := SampleCfrFrom(n.children[i], path + [i], player, pi, plan, draws, acc1);
      return;
    }
    if n.Leaf? {
      return n.utility[player], acc1;
    }
    var q, h := n.player, n.infoset;
    var a := plan[h];
    var top := MaxReach(pi);
    if top == 0.0 {
      SampleWalkIdle(n, path, player, pi0, plan, draws, acc);
      v, out := SampleCfrFrom(n.children[a], path + [a], player, pi, plan, draws, acc1);
      return;
    }
    SampleWalkDecision(n, path, player, pi0, plan, draws, acc);
    var vs, cur := SampleChildren(n, path, player, pi, plan, draws, acc1);
    v := vs[a];
    if q != player {
      return v, cur;
    }
    var piOther := OthersReach(pi, player);
    var s' := UpdateSums(cur.st[h], vs, v, piOther, pi[player], true);
    out := cur.(st := cur.st[h := s']);
  }

  /** The loop over the actions of a decision node: the sampled action is traversed with
      the reach as it is, every other one with the actor's reach set to 0 and restored. */
  method SampleChildren(n: Node, path: seq<int>, player: int, pi: array<real>, plan: map<int, int>,
      draws: seq<int> -> real, acc: Acc) returns (vs: seq<real>, out: Acc)
    requires n.Decision? && SampleReady(n, path, player, pi[..], plan, draws, acc)
    modifies pi
    ensures pi[..] == old(pi[..])
    ensures vs == SampleAlternatives(n, path, player, old(pi[..]), plan, draws, acc, 0).0
    ensures out == SampleAlternatives(n, path, player, old(pi[..]), plan, draws, acc, 0).1
    decreases n, 1
  {
    ghost var pi0 := pi[..];
    vs := [];
    out := acc;
    var a := 0;
    ghost var alt0 := SampleAlternatives(n, path, player, pi0, plan, draws, acc, 0);
    assert [] + alt0.0 == alt0.0;
    while a < |n.children|
      invariant 0 <= a <= |n.children| && |vs| == a && pi[..] == pi0
      invariant SampleReady(n, path, player, pi0, plan, draws, out)
      invariant alt0.0 == vs + SampleAlternatives(n, path, player, pi0, plan, draws, out, a).0
      invariant alt0.1 == SampleAlternatives(n, path, player, pi0, plan, draws, out, a).1
    {
      ghost var c := SampleAlternativesAdvance(n, path, player, pi0, plan, draws, out, a, vs, alt0);
      var x, next := SampleChild(n, path, player, pi, plan, draws, out, a);
      vs := vs + [x];
      out := next;
      a := a + 1;
    }
    assert vs + [] == vs;
  }

  /** A step of the action loop as the loop sees it: with `vs` the values so far, the
      child's traversal `c` extends them by its value and leaves the rest of the loop. */
  lemma SampleAlternativesAdvance(n: Node, path: seq<int>, player: int, pi: seq<real>, plan: map<int, int>,
      draws: seq<int> -> real, acc: Acc, a: nat, vs: seq<real>, whole: (seq<real>, Acc)) returns (c: (real, Acc))
    requires n.Decision? && a < |n.children| && SampleReady(n, path, player, pi, plan, draws, acc)
    requires whole.0 == vs + SampleAlternatives(n, path, player, pi, plan, draws, acc, a).0
    requires whole.1 == SampleAlternatives(n, path, player, pi, plan, draws, acc, a).1
    ensures c == SampleWalk(n.children[a], path + [a], player, ChildReach(n, pi, plan, a), plan, draws, acc)
    ensures SampleReady(n, path, player, pi, plan, draws, c.1)
    ensures whole.0 == (vs + [c.0]) + SampleAlternatives(n, path, player, pi, plan, draws, c.1, a + 1).0
    ensures whole.1 == SampleAlternatives(n, path, player, pi, plan, draws, c.1, a + 1).1
  {
    c := SampleAlternativesStep(n, path, player, pi, plan, draws, acc, a);
    Associative(vs, [c.0], SampleAlternatives(n, path, player, pi, plan, draws, c.1, a + 1).0);
  }

  /** One action of the loop: the child's traversal with the reach `ChildReach` gives. */
  method SampleChild(n: Node, path: seq<int>, player: int, pi: array<real>, plan: map<int, int>,
      draws: seq<int> -> real, acc: Acc, a: nat) returns (x: real, next: Acc)
    requires n.Decision? && a < |n.children| && SampleReady(n, path, player, pi[..], plan, draws, acc)
    modifies pi
    ensures pi[..] == old(pi[..])
    ensures SampleReady(n.children[a], path + [a], player, ChildReach(n, old(pi[..]), plan, a), plan, draws, acc)
    ensures (x, next) == SampleWalk(n.children[a], path + [a], player, ChildReach(n, old(pi[..]), plan, a), plan, draws, acc)
    decreases n, 0
  {
    SampleReadyChild(n, path, player, pi[..], plan, draws, acc, a, ChildReach(n, pi[..], plan, a));
    if a == plan[n.infoset] {
      x, next := SampleCfrFrom(n.children[a], path + [a], player, pi, plan, draws, acc);
    } else {
      var oldPi := ZeroReach(pi, n.player);
      x, next := SampleCfrFrom(n.children[a], path + [a], player, pi, plan, draws, acc);
      RestoreReach(pi, n.player, oldPi);
    }
  }

  // ---------------------------------------------------------------------------------------
  // What the sampled traversal computes.

  /** The utility vector of the leaf reached from `n` (at `path`) by following the plan at
      decision nodes and the drawn child at chance nodes. */
  function Outcome(n: Node, path: seq<int>, plan: map<int, int>, draws: seq<int> -> real, m: nat): (u: seq<real>)
    requires PlanFits(n, plan) && DrawsHit(n, path, draws) && ChanceAligned(n) && LeafWidth(n, m)
    ensures |u| == m
    decreases n
  {
    match n
    case Leaf(u) => u
    case Decision(_, h, cs) => Outcome(cs[plan[h]], path + [plan[h]], plan, draws, m)
    case Chance(_, cs) =>
      var i := Drawn(n, path, draws);
      Outcome(cs[i], path + [i], plan, draws, m)
  }

  /** The value `sampleCFR` returns is `player`'s utility at the leaf the plan and the
      chance draws lead to, whatever the reach vector and the sums. */
  lemma {:induction false} SampleWalkValue(n: Node, path: seq<int>, player: int, pi: seq<real>, plan: map<int, int>,
      draws: seq<int> -> real, acc: Acc)
    requires SampleReady(n, path, player, pi, plan, draws, acc)
    ensures SampleWalk(n, path, player, pi, plan, draws, acc).0 == Outcome(n, path, plan, draws, |pi|)[player]
    decreases n, |ChildrenOf(n)| + 1
  {
    VisitedReady(n, path, player, pi, acc);
    var acc1 := Visited(acc, path, Prod(pi));
    if n.Chance? {
      SampleWalkChance(n, path, player, pi, plan, draws, acc);
      var i := Drawn(n, path, draws);
      SampleWalkValue(n.children[i], path + [i], player, pi, plan, draws, acc1);
    } else if n.Decision? {
      var a := plan[n.infoset];
      if MaxOf(pi) == 0.0 {
        SampleWalkIdle(n, path, player, pi, plan, draws, acc);
        SampleWalkValue(n.children[a], path + [a], player, pi, plan, draws, acc1);
      } else {
        SampleWalkDecision(n, path, player, pi, plan, draws, acc);
        SampleAlternativesValue(n, path, player, pi, plan, draws, acc1, 0, a);
      }
    }
  }

  /** Entry `k - i` of the action loop from `i` on is `player`'s outcome below child `k`. */
  lemma {:induction false} SampleAlternativesValue(n: Node, path: seq<int>, player: int, pi: seq<real>, plan: map<int, int>,
      draws: seq<int> -> real, acc: Acc, i: nat, k: nat)
    requires n.Decision? && i <= k < |n.children| && SampleReady(n, path, player, pi, plan, draws, acc)
    ensures PlanFits(n.children[k], plan) && DrawsHit(n.children[k], path + [k], draws)
    ensures SampleAlternatives(n, path, player, pi, plan, draws, acc, i).0[k - i] ==
      Outcome(n.children[k], path + [k], plan, draws, |pi|)[player]
    decreases n, |n.children| - i
  {
    var c := SampleAlternativesStep(n, path, player, pi, plan, draws, acc, i);
    if i == k {
      SampleWalkValue(n.children[i], path + [i], player, ChildReach(n, pi, plan, i), plan, draws, acc);
    } else {
      SampleAlternativesValue(n, path, player, pi, plan, draws, c.1, i + 1, k);
    }
  }

  /** Every entry of `s` is 0. */
  ghost predicate AllZero(s: seq<real>)
  {
    forall i :: 0 <= i < |s| ==> s[i] == 0.0
  }

  lemma {:induction false} ProdAllZero(s: seq<real>)
    requires AllZero(s) && |s| > 0
    ensures Prod(s) == 0.0 && MaxOf(s) == 0.0
  {
    assert s[0] == 0.0;
  }

  /** A traversal with no reach at all changes nothing: the visit counts grow by 0 and no
      decision node has positive reach, so no sums are updated anywhere below. */
  lemma {:induction false} SampleWalkZeroReach(n: Node, path: seq<int>, player: int, pi: seq<real>, plan: map<int, int>,
      draws: seq<int> -> real, acc: Acc)
    requires SampleReady(n, path, player, pi, plan, draws, acc) && AllZero(pi)
    ensures SampleWalk(n, path, player, pi, plan, draws, acc).1 == acc
    decreases n
  {
    VisitedReady(n, path, player, pi, acc);
    ProdAllZero(pi);
    var acc1 := Visited(acc, path, Prod(pi));
    assert acc1.visits == acc.visits;
    assert acc1 == acc;
    if n.Chance? {
      SampleWalkChance(n, path, player, pi, plan, draws, acc);
      var i := Drawn(n, path, draws);
      SampleWalkZeroReach(n.children[i], path + [i], player, pi, plan, draws, acc1);
    } else if n.Decision? {
      var a := plan[n.infoset];
      SampleWalkIdle(n, path, player, pi, plan, draws, acc);
      SampleWalkZeroReach(n.children[a], path + [a], player, pi, plan, draws, acc1);
    }
  }

  lemma ClampedNonNegative(reg: seq<real>, vs: seq<real>, v: real, piOther: real)
    requires |vs| == |reg|
    ensures NonNegative(UpdatedRegrets(reg, vs, v, piOther, true))
  {
    forall a | 0 <= a < |reg| ensures UpdatedRegrets(reg, vs, v, piOther, true)[a] >= 0.0 {
    }
  }

  /** At a decision node of `player` with some positive reach, the regrets of its
      information set come out non-negative: the update always clamps at 0. */
  lemma SampleWalkClamped(n: Node, path: seq<int>, player: int, pi: seq<real>, plan: map<int, int>,
      draws: seq<int> -> real, acc: Acc)
    requires SampleReady(n, path, player, pi, plan, draws, acc) && n.Decision? && n.player == player && MaxOf(pi) != 0.0
    ensures Kept(acc, SampleWalk(n, path, player, pi, plan, draws, acc).1)
    ensures n.infoset in acc.st && NonNegative(SampleWalk(n, path, player, pi, plan, draws, acc).1.st[n.infoset].cumulativeRegret)
  {
    SampleWalkDecision(n, path, player, pi, plan, draws, acc);
    var alt := SampleAlternatives(n, path, player, pi, plan, draws, Visited(acc, path, Prod(pi)), 0);
    var h := n.infoset;
    ClampedNonNegative(alt.1.st[h].cumulativeRegret, alt.0, alt.0[plan[h]], ProdExcept(pi, player));
  }

  /** Only the information sets of `player` below `n` have their sums changed, only the
      nodes below `n` have their visit counts changed, and the visit count of `n` itself grows
      by the product of the reach vector. */
  lemma {:induction false} SampleWalkFrame(n: Node, path: seq<int>, player: int, pi: seq<real>, plan: map<int, int>,
      draws: seq<int> -> real, acc: Acc)
    requires SampleReady(n, path, player, pi, plan, draws, acc)
    ensures Framed(acc, SampleWalk(n, path, player, pi, plan, draws, acc).1, OwnLabels(n, player), path)
    ensures path in acc.visits && SampleWalk(n, path, player, pi, plan, draws, acc).1.visits[path] == acc.visits[path] + Prod(pi)
    decreases n, |ChildrenOf(n)| + 1
  {
    VisitedReady(n, path, player, pi, acc);
    var acc1 := Visited(acc, path, Prod(pi));
    assert Framed(acc, acc1, {}, path);
    if n.Chance? {
      SampleWalkChance(n, path, player, pi, plan, draws, acc);
      var i := Drawn(n, path, draws);
      SampleWalkFrame(n.children[i], path + [i], player, pi, plan, draws, acc1);
      ChildFrame(n, path, player, acc, acc1, SampleWalk(n, path, player, pi, plan, draws, acc).1, i);
    } else if n.Decision? {
      var a := plan[n.infoset];
      if MaxOf(pi) == 0.0 {
        SampleWalkIdle(n, path, player, pi, plan, draws, acc);
        SampleWalkFrame(n.children[a], path + [a], player, pi, plan, draws, acc1);
        ChildFrame(n, path, player, acc, acc1, SampleWalk(n, path, player, pi, plan, draws, acc).1, a);
      } else {
        SampleWalkDecision(n, path, player, pi, plan, draws, acc);
        var r := SampleAlternativesFrame(n, path, player, pi, plan, draws, acc1, 0);
        FramedMore(acc1, r, LabelsFrom(n, player, 0), OwnLabels(n, player), path);
        FramedTrans(acc, acc1, r, OwnLabels(n, player), path, path, {});
      }
    }
  }

  /** The frame of a node that traverses one child only, `b` being the state after its own
      visit count grew and `c` the state after the child. */
  lemma ChildFrame(n: Node, path: seq<int>, player: int, a: Acc, b: Acc, c: Acc, i: int)
    requires !n.Leaf? && 0 <= i < |n.children|
    requires Framed(a, b, {}, path) && Framed(b, c, OwnLabels(n.children[i], player), path + [i])
    requires path in b.visits && c.visits[path] == b.visits[path]
    ensures Framed(a, c, OwnLabels(n, player), path) && c.visits[path] == b.visits[path]
  {
    LabelsFromHas(n, player, 0, i);
    FramedMore(b, c, OwnLabels(n.children[i], player), OwnLabels(n, player), path + [i]);
    assert (path + [i])[..|path|] == path;
    FramedTrans(b, c, c, OwnLabels(n, player), path, path + [i], OwnLabels(n, player));
    FramedTrans(a, b, c, OwnLabels(n, player), path, path, {});
  }

  lemma {:induction false} LabelsFromHas(n: Node, player: int, j: nat, i: int)
    requires !n.Leaf? && j <= i < |n.children|
    ensures OwnLabels(n.children[i], player) <= LabelsFrom(n, player, j) <= OwnLabels(n, player)
    decreases |n.children| - j
  {
    if j < i {
      LabelsFromHas(n, player, j + 1, i);
    }
    LabelsFromSub(n, player, j);
  }

  lemma {:induction false} LabelsFromSub(n: Node, player: int, j: nat)
    requires !n.Leaf? && j <= |n.children|
    ensures LabelsFrom(n, player, j) <= OwnLabels(n, player)
    decreases j
  {
    if j > 0 {
      LabelsFromSub(n, player, j - 1);
    }
  }

  lemma {:induction false} SampleAlternativesFrame(n: Node, path: seq<int>, player: int, pi: seq<real>, plan: map<int, int>,
      draws: seq<int> -> real, acc: Acc, i: nat) returns (r: Acc)
    requires n.Decision? && i <= |n.children| && SampleReady(n, path, player, pi, plan, draws, acc)
    ensures r == SampleAlternatives(n, path, player, pi, plan, draws, acc, i).1
    ensures path in acc.visits && Framed(acc, r, LabelsFrom(n, player, i), path) && r.visits[path] == acc.visits[path]
    decreases n, |n.children| - i
  {
    PathVisited(n, path, player, pi, acc);
    if i == |n.children| {
      r := acc;
    } else {
      var c := SampleAlternativesStep(n, path, player, pi, plan, draws, acc, i);
      SampleWalkFrame(n.children[i], path + [i], player, ChildReach(n, pi, plan, i), plan, draws, acc);
      r := SampleAlternativesFrame(n, path, player, pi, plan, draws, c.1, i + 1);
      SiblingFrames(n, path, player, acc, c.1, r, i);
    }
  }

  /** Child `i`'s frame followed by the frame of the children after it. */
  lemma SiblingFrames(n: Node, path: seq<int>, player: int, a: Acc, b: Acc, c: Acc, i: int)
    requires !n.Leaf? && 0 <= i < |n.children|
    requires Framed(a, b, OwnLabels(n.children[i], player), path + [i]) && Framed(b, c, LabelsFrom(n, player, i + 1), path)
    requires path in a.visits && c.visits[path] == b.visits[path]
    ensures Framed(a, c, LabelsFrom(n, player, i), path) && c.visits[path] == a.visits[path]
  {
    assert LabelsFrom(n, player, i) == OwnLabels(n.children[i], player) + LabelsFrom(n, player, i + 1);
    FramedStep(a, b, c, path, i, OwnLabels(n.children[i], player), LabelsFrom(n, player, i + 1));
  }
}
