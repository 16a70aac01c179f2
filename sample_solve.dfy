/** `SolveWithSampleCFR`: every iteration samples a joint action plan from the current
    strategies, runs `sampleCFR` from the root for every player in turn, recomputes every
    current strategy by regret matching and, past the bootstrap iterations, adds the plan
    reduced to its reachable information sets to the joint strategy. */
module SampleSolve {
  import opened Wrappers
  import opened Dicts
  import opened RealSeq
  import opened GameTree
  import opened CfrTrees
  import opened CfrWalks
  import opened Cfr
  import opened CfrSolve
  import opened SampleCfr
  import opened CfrIsets
  import opened CfrJoint

  /** What the sampled traversals from the root need: the tree as for a full traversal, an
      action of the plan at every decision node, and for every player chance draws that hit. */
  ghost predicate SweepReady(root: Node, m: nat, plan: map<int, int>, draws: seq<seq<int> -> real>, acc: Acc)
  {
    RootReady(root, m, acc) && PlanFits(root, plan) && |draws| == m &&
    forall p :: 0 <= p < m ==> DrawsHit(root, [], draws[p])
  }

  lemma SweepReadyKept(root: Node, m: nat, plan: map<int, int>, draws: seq<seq<int> -> real>, a: Acc, b: Acc)
    requires SweepReady(root, m, plan, draws, a) && Kept(a, b)
    ensures SweepReady(root, m, plan, draws, b)
  {
    RootReadyKept(root, m, a, b);
  }

  /** The state after `sampleCFR(root, p, [1] * m, plan)` for the players `p`, …, `m - 1` in
      turn, player `q` drawing at chance nodes by `draws[q]`. */
  function SampleSweep(root: Node, m: nat, plan: map<int, int>, draws: seq<seq<int> -> real>, acc: Acc, p: nat): (r: Acc)
    requires p <= m && SweepReady(root, m, plan, draws, acc)
    ensures Kept(acc, r)
    decreases m - p
  {
    if p == m then acc
    else
      var next := SampleWalk(root, [], p, Ones(m), plan, draws[p], acc).1;
      SweepReadyKept(root, m, plan, draws, acc, next);
      var r := SampleSweep(root, m, plan, draws, next, p + 1);
      KeptTrans(acc, next, r);
      r
  }

  /** The root is visited once per remaining player, each time with reach 1. */
  lemma {:induction false} SampleSweepRootVisits(root: Node, m: nat, plan: map<int, int>, draws: seq<seq<int> -> real>,
      acc: Acc, p: nat)
    requires p <= m && SweepReady(root, m, plan, draws, acc)
    ensures [] in acc.visits
    ensures SampleSweep(root, m, plan, draws, acc, p).visits[[]] == acc.visits[[]] + (m - p) as real
    decreases m - p
  {
    assert [] in acc.visits;
    if p < m {
      SampleWalkFrame(root, [], p, Ones(m), plan, draws[p], acc);
      ProdOnes(m);
      var next := SampleWalk(root, [], p, Ones(m), plan, draws[p], acc).1;
      SweepReadyKept(root, m, plan, draws, acc, next);
      SampleSweepRootVisits(root, m, plan, draws, next, p + 1);
    }
  }

  /** The information sets of no player in `[p, m)` keep their sums through the sweep. */
  lemma {:induction false} SampleSweepFrame(root: Node, m: nat, plan: map<int, int>, draws: seq<seq<int> -> real>,
      acc: Acc, p: nat, h: int)
    requires p <= m && SweepReady(root, m, plan, draws, acc) && h in acc.st
    requires forall q :: p <= q < m ==> h !in OwnLabels(root, q)
    ensures SampleSweep(root, m, plan, draws, acc, p).st[h] == acc.st[h]
    decreases m - p
  {
    if p < m {
      SampleWalkFrame(root, [], p, Ones(m), plan, draws[p], acc);
      var next := SampleWalk(root, [], p, Ones(m), plan, draws[p], acc).1;
      SweepReadyKept(root, m, plan, draws, acc, next);
      SampleSweepFrame(root, m, plan, draws, next, p + 1, h);
    }
  }

  /** `sampleCFR(root, p, [1] * m, plan)`, the value dropped. */
  method SampleFromRoot(root: Node, m: nat, p: nat, plan: map<int, int>, draws: seq<int> -> real, acc: Acc)
    returns (next: Acc)
    requires p < m && RootReady(root, m, acc) && PlanFits(root, plan) && DrawsHit(root, [], draws)
    ensures next == SampleWalk(root, [], p, Ones(m), plan, draws, acc).1
  {
    var pi := new real[m](i => 1.0);
    assert pi[..] == Ones(m);
    var v;
    v, next := SampleCfrFrom(root, [], p, pi, plan, draws, acc);
  }

  /** The sampled traversals from the root for the players `0`, …, `m - 1`, each with a fresh
      reach array of ones. */
  method SampleSweepAll(root: Node, m: nat, plan: map<int, int>, draws: seq<seq<int> -> real>, acc: Acc)
    returns (out: Acc)
    requires SweepReady(root, m, plan, draws, acc)
    ensures out == SampleSweep(root, m, plan, draws, acc, 0)
  {
    out := acc;
    var p := 0;
    while p < m
      invariant 0 <= p <= m && SweepReady(root, m, plan, draws, out)
      invariant SampleSweep(root, m, plan, draws, acc, 0) == SampleSweep(root, m, plan, draws, out, p)
    {
      var next := SampleFromRoot(root, m, p, plan, draws[p], out);
      SweepReadyKept(root, m, plan, draws, out, next);
      out := next;
      p := p + 1;
    }
  }

  /** A plan naming, for every information set, an index into its current strategy names a
      child at every decision node of a valid tree. */
  lemma {:induction false} TreePlanFits(t: CFRTree, n: Node, path: seq<int>, plan: map<int, int>)
    requires t.Valid() && ValidPath(t.root, path) && At(t.root, path) == n
    requires forall h :: h in t.isetState ==> h in plan && 0 <= plan[h] < |t.isetState[h].currentStrategy|
    ensures PlanFits(n, plan)
    decreases n
  {
    if !n.Leaf? {
      if n.Decision? {
        DecisionState(t, path);
      }
      forall i | 0 <= i < |n.children| ensures PlanFits(n.children[i], plan) {
        ValidPathSnoc(t.root, path, i);
        TreePlanFits(t, n.children[i], path + [i], plan);
      }
    }
  }

  /** `CFRJointStrategy(cfr_tree.numOfActions * 2)` when the joint is bounded, otherwise
      `CFRJointStrategy(-1)`. */
  method NewJoint(t: CFRTree, bound: bool) returns (joint: CFRJointStrategy)
    ensures fresh(joint) && joint.Valid()
    ensures joint.maxPlanCount == (if bound then 2 * t.numOfActions else -1)
    ensures joint.plans == Empty() && joint.frequencyCount == 0.0
  {
    if bound {
      joint := new CFRJointStrategy(t.numOfActions * 2);
    } else {
      joint := new CFRJointStrategy(-1);
    }
  }

  /** The first half of an iteration: the plan sampled with `planDraws` (one draw per
      information set), the sampled traversal of every player `p` drawing at chance nodes by
      `draws[p]`, then `updateCurrentStrategy` on every information set. */
  method SampleAndUpdate(t: CFRTree, planDraws: map<int, real>, draws: seq<seq<int> -> real>)
    returns (plan: Dict<int, int>, ghost swept: Acc)
    requires t.Valid() && PlayersIn(t.root, t.numOfPlayers)
    requires forall h :: h in t.informationSets.m ==> h in planDraws && 0.0 <= planDraws[h] < 1.0
    requires |draws| == t.numOfPlayers && forall p :: 0 <= p < |draws| ==> DrawsHit(t.root, [], draws[p])
    modifies t
    ensures t.Valid()
    ensures Dicts.Valid(plan) && plan.keys == t.informationSets.keys
    ensures forall h :: h in plan.m ==>
      h in old(t.isetState) && Sampled(old(t.isetState)[h].currentStrategy, planDraws[h], plan.m[h])
    ensures SweepReady(t.root, t.numOfPlayers, plan.m, draws, old(Acc(t.isetState, t.visits))) &&
      swept == SampleSweep(t.root, t.numOfPlayers, plan.m, draws, old(Acc(t.isetState, t.visits)), 0)
    ensures t.isetState == Refreshed(swept.st) && t.visits == swept.visits
    ensures t.omega == old(t.omega) && t.marginalizedUtility == old(t.marginalizedUtility) && t.rootT == old(t.rootT)
  {
    plan := t.SampleActionPlan(planDraws);
    assert ValidPath(t.root, []);
    TreePlanFits(t, t.root, [], plan.m);
    TreeReady(t);
    var acc := SampleSweepAll(t.root, t.numOfPlayers, plan.m, draws, Acc(t.isetState, t.visits));
    swept := acc;
    KeptFits(t, acc);
    t.isetState, t.visits := acc.st, acc.visits;
    t.UpdateAllStrategies();
    RefreshedIs(acc.st, t.isetState);
  }

  /** The information sets `reduceActionPlan` keeps for `plan`: those `computeReachability`
      marks from the information sets with an empty sequence, or the error it raises. */
  ghost function Reachable(t: CFRTree, plan: map<int, int>): Result<set<int>>
    requires Layered(t)
  {
    RootsReachable(t);
    ReachAll(t, plan, Roots(t), -1)
  }

  /** The stored plans after `addActionPlan(reduced)`, or the error it raises. */
  function Offered(plans: Dict<string, real>, maxPlanCount: int, reduced: Dict<int, int>): Result<Dict<string, real>>
    requires Dicts.Valid(plans) && Dicts.Valid(reduced)
  {
    assert forall i :: 0 <= i < |reduced.keys| ==> reduced.keys[i] in Elems(reduced.keys);
    CfrJoint.Added(plans, maxPlanCount, Render(reduced.keys, reduced.m), 1.0)
  }

  /** `CFRJointStrategy.reduceActionPlan(plan, cfr_tree)` on a valid tree, which stays valid:
      only the reachabilities change. `None` when it raises. */
  method ReduceValid(t: CFRTree, plan: Dict<int, int>) returns (reduced: Option<Dict<int, int>>)
    requires t.Valid()
    modifies t
    ensures t.Valid()
    ensures t.visits == old(t.visits) && t.isetState.Keys == old(t.isetState).Keys
    ensures forall g :: g in t.isetState ==>
      t.isetState[g] == old(t.isetState)[g].(reachability := t.isetState[g].reachability)
    ensures t.omega == old(t.omega) && t.marginalizedUtility == old(t.marginalizedUtility) && t.rootT == old(t.rootT)
    ensures Layered(t) && (reduced.Some? <==> Reachable(t, plan.m).Success?)
    ensures reduced.Some? ==>
      var kept := Reachable(t, plan.m).value;
      Dicts.Valid(reduced.value) && reduced.value.keys == KeepIn(t.informationSets.keys, kept) &&
      (forall g :: g in kept ==> g in plan.m) && reduced.value.m == (map g | g in kept :: plan.m[g])
  {
    ShapeLayered(t);
    ghost var before := t.isetState;
    reduced := ReduceActionPlan(plan.m, t);
    ReachabilityOnly(t, before);
  }

  /** `jointStrategy.addActionPlan(reduced)`, the weight being 1. An unbounded joint strategy
      always takes the plan, its frequency count growing by 1. */
  method Offer(joint: CFRJointStrategy, reduced: Dict<int, int>) returns (added: bool)
    requires joint.Valid() && Dicts.Valid(reduced)
    modifies joint
    ensures joint.Valid() && joint.maxPlanCount == old(joint.maxPlanCount)
    ensures added == Offered(old(joint.plans), joint.maxPlanCount, reduced).Success?
    ensures joint.plans == if added then Offered(old(joint.plans), joint.maxPlanCount, reduced).value else old(joint.plans)
    ensures joint.maxPlanCount == -1 ==> added && joint.frequencyCount == old(joint.frequencyCount) + 1.0
  {
    ghost var plans0 := joint.plans;
    added := joint.AddActionPlan(reduced, 1.0);
    if joint.maxPlanCount == -1 {
      AddedUnbounded(plans0, Render(reduced.keys, reduced.m), 1.0);
    }
  }

  /** Iteration `i` of `SolveWithSampleCFR`: the sampling half, then, past the `bootstrap`
      iterations, the reduced plan offered to the joint strategy; within them the joint
      strategy and the reachabilities are left alone. */
  method SampleIteration(t: CFRTree, joint: CFRJointStrategy, i: int, bootstrap: int,
      planDraws: map<int, real>, draws: seq<seq<int> -> real>)
    returns (plan: Dict<int, int>, ghost swept: Acc, reduced: Option<Dict<int, int>>, added: bool)
    requires t.Valid() && PlayersIn(t.root, t.numOfPlayers) && joint.Valid()
    requires forall h :: h in t.informationSets.m ==> h in planDraws && 0.0 <= planDraws[h] < 1.0
    requires |draws| == t.numOfPlayers && forall p :: 0 <= p < |draws| ==> DrawsHit(t.root, [], draws[p])
    modifies t, joint
    ensures t.Valid() && joint.Valid() && joint.maxPlanCount == old(joint.maxPlanCount)
    ensures forall h :: h in plan.m ==>
      h in old(t.isetState) && Sampled(old(t.isetState)[h].currentStrategy, planDraws[h], plan.m[h])
    ensures SweepReady(t.root, t.numOfPlayers, plan.m, draws, old(Acc(t.isetState, t.visits))) &&
      swept == SampleSweep(t.root, t.numOfPlayers, plan.m, draws, old(Acc(t.isetState, t.visits)), 0)
    ensures t.visits == swept.visits && t.isetState.Keys == swept.st.Keys
    ensures forall h :: h in t.isetState ==>
      t.isetState[h] == Refreshed(swept.st)[h].(reachability := t.isetState[h].reachability)
    ensures t.omega == old(t.omega) && t.marginalizedUtility == old(t.marginalizedUtility) && t.rootT == old(t.rootT)
    ensures i <= bootstrap ==>
      t.isetState == Refreshed(swept.st) && reduced.None? && !added && joint.plans == old(joint.plans)
    ensures i > bootstrap ==> Layered(t) && (reduced.Some? <==> Reachable(t, plan.m).Success?)
    ensures reduced.None? ==> !added && joint.plans == old(joint.plans)
    ensures reduced.Some? && joint.maxPlanCount == -1 ==> added && joint.frequencyCount == old(joint.frequencyCount) + 1.0
    ensures reduced.Some? ==> Dicts.Valid(reduced.value)
    ensures reduced.Some? ==> added == Offered(old(joint.plans), joint.maxPlanCount, reduced.value).Success?
    ensures reduced.Some? ==>
      joint.plans == if added then Offered(old(joint.plans), joint.maxPlanCount, reduced.value).value else old(joint.plans)
  {
    plan, swept := SampleAndUpdate(t, planDraws, draws);
    reduced, added := None, false;
    if i > bootstrap {
      reduced := ReduceValid(t, plan);
      if reduced.Some? {
        added := Offer(joint, reduced.value);
      }
    }
  }

  /** With a cap of 0 the first plan offered to an empty joint strategy is refused: `min`
      of the empty dict raises `ValueError`. */
  lemma NoRoomFails(reduced: Dict<int, int>)
    requires Dicts.Valid(reduced)
    ensures Offered(Empty(), 0, reduced).Failure?
  {
    assert forall i :: 0 <= i < |reduced.keys| ==> reduced.keys[i] in Elems(reduced.keys);
    AddedFails(Empty(), 0, Render(reduced.keys, reduced.m), 1.0);
  }

  /** Changing only the reachability of the information sets keeps a tree valid. */
  lemma ReachabilityOnly(t: CFRTree, before: map<int, IsetState>)
    requires t.Shape() && StateFits(t.informationSets, before)
    requires forall h :: h in before ==> IsDistribution(before[h].currentStrategy)
    requires t.isetState.Keys == before.Keys
    requires forall g :: g in t.isetState ==> t.isetState[g] == before[g].(reachability := t.isetState[g].reachability)
    ensures StateFits(t.informationSets, t.isetState)
    ensures forall h :: h in t.isetState ==> IsDistribution(t.isetState[h].currentStrategy)
  {
  }

  /** `SolveWithSampleCFR(cfr_tree, iterations, bootstrap_iterations, bound_joint_size)`:
      iterations `1`, …, `iterations + bootstrap` in turn, iteration `k` drawing with
      `planDraws[k - 1]` and `draws[k - 1]`. `completed` is false when `reduceActionPlan`
      or `addActionPlan` raised, which ends the run there. A bounded joint strategy over a
      tree without actions has a cap of 0, so the first plan offered raises `ValueError`
      (`min` of an empty dict). An unbounded joint strategy ends up with a frequency count
      of one per iteration past the bootstrap. */
  method SolveWithSampleCfr(t: CFRTree, iterations: nat, bootstrap: nat, bound: bool,
      planDraws: seq<map<int, real>>, draws: seq<seq<seq<int> -> real>>)
    returns (joint: CFRJointStrategy, completed: bool)
    requires t.Valid() && PlayersIn(t.root, t.numOfPlayers)
    requires |planDraws| == iterations + bootstrap && |draws| == iterations + bootstrap
    requires forall k, h :: 0 <= k < |planDraws| && h in t.informationSets.m ==>
      h in planDraws[k] && 0.0 <= planDraws[k][h] < 1.0
    requires forall k :: 0 <= k < |draws| ==> |draws[k]| == t.numOfPlayers
    requires forall k, p :: 0 <= k < |draws| && 0 <= p < t.numOfPlayers ==> DrawsHit(t.root, [], draws[k][p])
    modifies t
    ensures fresh(joint) && t.Valid() && joint.Valid()
    ensures joint.maxPlanCount == (if bound then 2 * t.numOfActions else -1)
    ensures iterations == 0 ==> completed && joint.plans == Empty()
    ensures !bound && completed ==> joint.frequencyCount == iterations as real
    ensures bound && t.numOfActions == 0 && iterations >= 1 ==> !completed
    ensures t.omega == old(t.omega) && t.marginalizedUtility == old(t.marginalizedUtility) && t.rootT == old(t.rootT)
  {
    joint := NewJoint(t, bound);
    completed := true;
    var i := 1;
    while i <= iterations + bootstrap
      invariant 1 <= i <= iterations + bootstrap + 1
      invariant t.Valid() && joint.Valid() && fresh(joint)
      invariant joint.maxPlanCount == (if bound then 2 * t.numOfActions else -1)
      invariant i <= bootstrap + 1 ==> joint.plans == Empty()
      invariant !bound ==> joint.frequencyCount == (if i <= bootstrap + 1 then 0 else i - 1 - bootstrap) as real
      invariant t.omega == old(t.omega) && t.marginalizedUtility == old(t.marginalizedUtility) && t.rootT == old(t.rootT)
      invariant bound && t.numOfActions == 0 ==> i <= bootstrap + 1
    {
      var plan, swept, reduced, added := SampleIteration(t, joint, i, bootstrap, planDraws[i - 1], draws[i - 1]);
      if i > bootstrap && (reduced.None? || !added) {
        return joint, false;
      }
      if bound && t.numOfActions == 0 && i > bootstrap {
        NoRoomFails(reduced.value);
      }
      i := i + 1;
    }
  }
}
