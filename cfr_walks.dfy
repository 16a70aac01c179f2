/** The recursive walks of `CFRNode`: the leaves under a plan, the utility a plan reaches,
    the expected utility of the average strategies, and the walks that write leaf fields (the
    realization form and the marginalized utilities). */
module CfrWalks {
  import opened Wrappers
  import opened RealSeq
  import opened GameTree
  import opened CfrTrees

  // ---------------------------------------------------------------------------------------
  // `terminalsUnderPlan`.

  /** Whether the plan is followed at `n`: every node when the target is `None`, otherwise the
      nodes of the target player. */
  predicate Planned(n: Node, target: Option<int>)
  {
    target.None? || PlayerOf(n) == target.value
  }

  /** `terminalsUnderPlan(target, plan)` from `n` at `path`: at a planned node only the child
      the plan names, elsewhere every child in order. A planned chance node has no
      information set, a missing label is a key error, a plan action out of range an index
      error. */
  function Terminals(n: Node, path: seq<int>, target: Option<int>, plan: map<int, int>): Result<seq<seq<int>>>
    decreases n, |ChildrenOf(n)| + 1
  {
    match n
    case Leaf(_) => Success([path])
    case Chance(_, cs) =>
      if Planned(n, target) then Failure("AttributeError") else TerminalsFrom(n, path, target, plan, |cs|)
    case Decision(_, h, cs) =>
      if !Planned(n, target) then TerminalsFrom(n, path, target, plan, |cs|)
      else if h !in plan then Failure("KeyError")
      else
        var i := PyIndex(|cs|, plan[h]);
        if 0 <= i < |cs| then Terminals(cs[i], path + [i], target, plan) else Failure("IndexError")
  }

  /** The terminals under children `0 .. k - 1` of `n`, concatenated in order. */
  function TerminalsFrom(n: Node, path: seq<int>, target: Option<int>, plan: map<int, int>, k: nat): Result<seq<seq<int>>>
    requires !n.Leaf? && k <= |n.children|
    decreases n, k
  {
    if k == 0 then Success([])
    else
      var before :- TerminalsFrom(n, path, target, plan, k - 1);
      var last :- Terminals(n.children[k - 1], path + [k - 1], target, plan);
      Success(before + last)
  }

  /** `q` agrees with the plan at every planned node it passes. */
  ghost predicate Follows(n: Node, q: seq<int>, target: Option<int>, plan: map<int, int>)
    requires ValidPath(n, q)
    decreases |q|
  {
    q == [] ||
    ((Planned(n, target) ==> n.Decision? && n.infoset in plan && PyIndex(|n.children|, plan[n.infoset]) == q[0]) &&
     Follows(ChildrenOf(n)[q[0]], q[1..], target, plan))
  }

  lemma {:induction false} FollowsStep(n: Node, i: int, q: seq<int>, target: Option<int>, plan: map<int, int>)
    requires !n.Leaf? && 0 <= i < |n.children| && ValidPath(n.children[i], q)
    ensures ValidPath(n, [i] + q) && At(n, [i] + q) == At(n.children[i], q)
    ensures Follows(n, [i] + q, target, plan) <==>
      (Planned(n, target) ==> n.Decision? && n.infoset in plan && PyIndex(|n.children|, plan[n.infoset]) == i) &&
      Follows(n.children[i], q, target, plan)
  {
    assert ([i] + q)[0] == i && ([i] + q)[1..] == q;
  }

  lemma {:induction false} TerminalsFromHas(n: Node, path: seq<int>, target: Option<int>, plan: map<int, int>, k: nat, x: seq<int>)
    returns (i: nat, ts: seq<seq<int>>)
    requires !n.Leaf? && k <= |n.children|
    requires TerminalsFrom(n, path, target, plan, k).Success? && x in TerminalsFrom(n, path, target, plan, k).value
    ensures i < k && Terminals(n.children[i], path + [i], target, plan) == Success(ts) && x in ts
    decreases k
  {
    var before := TerminalsFrom(n, path, target, plan, k - 1);
    var last := Terminals(n.children[k - 1], path + [k - 1], target, plan);
    if x in last.value {
      i, ts := k - 1, last.value;
    } else {
      i, ts := TerminalsFromHas(n, path, target, plan, k - 1, x);
    }
  }

  lemma {:induction false} TerminalsFromGets(n: Node, path: seq<int>, target: Option<int>, plan: map<int, int>, k: nat, i: nat, x: seq<int>)
    requires !n.Leaf? && i < k <= |n.children|
    requires TerminalsFrom(n, path, target, plan, k).Success?
    requires Terminals(n.children[i], path + [i], target, plan).Success? && x in Terminals(n.children[i], path + [i], target, plan).value
    ensures x in TerminalsFrom(n, path, target, plan, k).value
    decreases k
  {
    if i < k - 1 {
      TerminalsFromGets(n, path, target, plan, k - 1, i, x);
    }
  }

  lemma {:induction false} TerminalsFromChild(n: Node, path: seq<int>, target: Option<int>, plan: map<int, int>, k: nat, i: nat)
    requires !n.Leaf? && i < k <= |n.children|
    requires TerminalsFrom(n, path, target, plan, k).Success?
    ensures Terminals(n.children[i], path + [i], target, plan).Success?
    decreases k
  {
    if i < k - 1 {
      TerminalsFromChild(n, path, target, plan, k - 1, i);
    }
  }

  /** Every terminal found is a leaf below `n` on a path that follows the plan. */
  lemma {:induction false} TerminalWitness(n: Node, path: seq<int>, target: Option<int>, plan: map<int, int>, x: seq<int>)
    returns (q: seq<int>)
    requires Terminals(n, path, target, plan).Success? && x in Terminals(n, path, target, plan).value
    ensures ValidPath(n, q) && At(n, q).Leaf? && Follows(n, q, target, plan) && x == path + q
    decreases n
  {
    if n.Leaf? {
      q := [];
      assert x == path + q;
    } else {
      var i: nat;
      if Planned(n, target) {
        i := PyIndex(|n.children|, plan[n.infoset]);
      } else {
        var ts;
        i, ts := TerminalsFromHas(n, path, target, plan, |n.children|, x);
      }
      var r := TerminalWitness(n.children[i], path + [i], target, plan, x);
      FollowsStep(n, i, r, target, plan);
      q := [i] + r;
      assert path + [i] + r == path + q;
    }
  }

  /** Every leaf on a path that follows the plan is found. */
  lemma {:induction false} TerminalReached(n: Node, path: seq<int>, target: Option<int>, plan: map<int, int>, q: seq<int>)
    requires Terminals(n, path, target, plan).Success?
    requires ValidPath(n, q) && At(n, q).Leaf? && Follows(n, q, target, plan)
    ensures path + q in Terminals(n, path, target, plan).value
    decreases |q|
  {
    if q == [] {
      assert path + q == path;
    } else {
      var i := q[0];
      FollowsStep(n, i, q[1..], target, plan);
      assert [i] + q[1..] == q;
      assert path + [i] + q[1..] == path + q;
      if !Planned(n, target) {
        TerminalsFromChild(n, path, target, plan, |n.children|, i);
      }
      TerminalReached(n.children[i], path + [i], target, plan, q[1..]);
      if !Planned(n, target) {
        TerminalsFromGets(n, path, target, plan, |n.children|, i, path + q);
      }
    }
  }

  /** `terminalsUnderPlan` returns exactly the leaves whose path follows the plan at the
      planned nodes, whatever happens elsewhere. */
  lemma TerminalsAre(n: Node, path: seq<int>, target: Option<int>, plan: map<int, int>, x: seq<int>)
    requires Terminals(n, path, target, plan).Success?
    ensures x in Terminals(n, path, target, plan).value <==>
      exists q :: ValidPath(n, q) && At(n, q).Leaf? && Follows(n, q, target, plan) && x == path + q
  {
    if x in Terminals(n, path, target, plan).value {
      var q := TerminalWitness(n, path, target, plan, x);
    }
    forall q | ValidPath(n, q) && At(n, q).Leaf? && Follows(n, q, target, plan) && x == path + q
      ensures x in Terminals(n, path, target, plan).value
    {
      TerminalReached(n, path, target, plan, q);
    }
  }

  // ---------------------------------------------------------------------------------------
  // `utilityFromActionPlan`.

  /** `u[p] += c[p] * w` for every index of `c`: an index error when `c` is longer than `u`. */
  function AddInto(u: seq<real>, c: seq<real>, w: real): Result<seq<real>>
  {
    if |c| > |u| then Failure("IndexError")
    else Success(seq(|u|, p requires 0 <= p < |u| => if p < |c| then u[p] + c[p] * w else u[p]))
  }

  /** `utilityFromActionPlan(plan, default)`: a leaf's utility; at a decision node missing from
      the plan the default; at a chance node the running combination of the children weighted
      by the distribution, which restarts from the scaled child whenever the running value
      equals the default. */
  function PlanUtility(n: Node, plan: map<int, int>, default: seq<real>): Result<seq<real>>
    decreases n, |ChildrenOf(n)| + 1
  {
    match n
    case Leaf(u) => Success(u)
    case Decision(_, h, cs) =>
      if h !in plan then Success(default)
      else
        var i := PyIndex(|cs|, plan[h]);
        if 0 <= i < |cs| then PlanUtility(cs[i], plan, default) else Failure("IndexError")
    case Chance(_, cs) => ChanceUtility(n, plan, default, |cs|)
  }

  /** The chance node's running value after children `0 .. k - 1`. */
  function ChanceUtility(n: Node, plan: map<int, int>, default: seq<real>, k: nat): Result<seq<real>>
    requires n.Chance? && k <= |n.children|
    decreases n, k
  {
    if k == 0 then Success(default)
    else
      var u :- ChanceUtility(n, plan, default, k - 1);
      var c :- PlanUtility(n.children[k - 1], plan, default);
      if k - 1 >= |n.distribution| then Failure("IndexError")
      else if u == default then Success(Scale(c, n.distribution[k - 1]))
      else AddInto(u, c, n.distribution[k - 1])
  }

  /** Every action the plan names below `n` is a child index. */
  ghost predicate PlanInRange(n: Node, plan: map<int, int>)
  {
    match n
    case Leaf(_) => true
    case Decision(_, h, cs) =>
      (h in plan ==> 0 <= PyIndex(|cs|, plan[h]) < |cs|) && forall i :: 0 <= i < |cs| ==> PlanInRange(cs[i], plan)
    case Chance(_, cs) => forall i :: 0 <= i < |cs| ==> PlanInRange(cs[i], plan)
  }

  /** The value a plan secures, as a reference: a leaf's utility, zero where the plan stops,
      the planned child, and the distribution-weighted sum of the children at chance. */
  function PlanValue(n: Node, plan: map<int, int>, m: nat): (r: seq<real>)
    requires LeafWidth(n, m) && PlanInRange(n, plan) && ChanceAligned(n)
    ensures |r| == m
    decreases n, |ChildrenOf(n)| + 1
  {
    match n
    case Leaf(u) => u
    case Decision(_, h, cs) =>
      if h !in plan then Zeros(m) else PlanValue(cs[PyIndex(|cs|, plan[h])], plan, m)
    case Chance(_, cs) => WeightedValue(n, plan, m, |cs|)
  }

  function WeightedValue(n: Node, plan: map<int, int>, m: nat, k: nat): (r: seq<real>)
    requires n.Chance? && k <= |n.children|
    requires LeafWidth(n, m) && PlanInRange(n, plan) && ChanceAligned(n)
    ensures |r| == m
    decreases n, k
  {
    if k == 0 then Zeros(m)
    else Add(WeightedValue(n, plan, m, k - 1), Scale(PlanValue(n.children[k - 1], plan, m), n.distribution[k - 1]))
  }

  /** With the zero default of `getUtility`, the restart on a running value equal to the
      default never changes the result: the utility of a plan is its reference value. */
  lemma {:induction false} PlanUtilityIsValue(n: Node, plan: map<int, int>, m: nat)
    requires LeafWidth(n, m) && PlanInRange(n, plan) && ChanceAligned(n)
    ensures PlanUtility(n, plan, Zeros(m)) == Success(PlanValue(n, plan, m))
    decreases n, |ChildrenOf(n)| + 1
  {
    match n
    case Leaf(_) =>
    case Decision(_, h, cs) =>
      if h in plan {
        PlanUtilityIsValue(cs[PyIndex(|cs|, plan[h])], plan, m);
      }
    case Chance(_, cs) =>
      ChanceUtilityIsValue(n, plan, m, |cs|);
  }

  lemma {:induction false} ChanceUtilityIsValue(n: Node, plan: map<int, int>, m: nat, k: nat)
    requires n.Chance? && k <= |n.children|
    requires LeafWidth(n, m) && PlanInRange(n, plan) && ChanceAligned(n)
    ensures ChanceUtility(n, plan, Zeros(m), k) == Success(WeightedValue(n, plan, m, k))
    decreases n, k
  {
    if k > 0 {
      ChanceUtilityIsValue(n, plan, m, k - 1);
      PlanUtilityIsValue(n.children[k - 1], plan, m);
      var u := WeightedValue(n, plan, m, k - 1);
      var c := PlanValue(n.children[k - 1], plan, m);
      var w := n.distribution[k - 1];
      if u == Zeros(m) {
        assert Scale(c, w) == Add(u, Scale(c, w));
      } else {
        assert AddInto(u, c, w).value == Add(u, Scale(c, w));
      }
    }
  }

  // ---------------------------------------------------------------------------------------
  // `getExpectedUtility`.

  /** The strategies give every decision label below `n` a vector with one entry per child. */
  ghost predicate StrategiesFit(n: Node, strat: map<int, seq<real>>)
  {
    match n
    case Leaf(_) => true
    case Decision(_, h, cs) => h in strat && |strat[h]| == |cs| && forall i :: 0 <= i < |cs| ==> StrategiesFit(cs[i], strat)
    case Chance(_, cs) => forall i :: 0 <= i < |cs| ==> StrategiesFit(cs[i], strat)
  }

  ghost predicate WalkShape(n: Node, strat: map<int, seq<real>>, m: nat)
  {
    InnerHaveChildren(n) && ChanceAligned(n) && LeafWidth(n, m) && StrategiesFit(n, strat)
  }

  /** The weights a node puts on its children: its distribution, or its label's strategy. */
  function Weights(n: Node, strat: map<int, seq<real>>): (r: seq<real>)
    requires !n.Leaf? && ChanceAligned(n) && StrategiesFit(n, strat)
    ensures |r| == |n.children|
  {
    if n.Chance? then n.distribution else strat[n.infoset]
  }

  /** `getExpectedUtility` with `strat` standing for the average strategies: a leaf's utility,
      otherwise the first child's value scaled by its weight with each further child's
      weighted value added in. */
  function ExpectedUtility(n: Node, strat: map<int, seq<real>>, m: nat): (r: seq<real>)
    requires WalkShape(n, strat, m)
    ensures |r| == m
    decreases n, |ChildrenOf(n)| + 1
  {
    if n.Leaf? then n.utility else ExpectedFrom(n, strat, m, |n.children|)
  }

  function ExpectedFrom(n: Node, strat: map<int, seq<real>>, m: nat, k: nat): (r: seq<real>)
    requires !n.Leaf? && 1 <= k <= |n.children| && WalkShape(n, strat, m)
    ensures |r| == m
    decreases n, k
  {
    var w := Weights(n, strat);
    var c := ExpectedUtility(n.children[k - 1], strat, m);
    if k == 1 then Scale(c, w[0]) else Add(ExpectedFrom(n, strat, m, k - 1), Scale(c, w[k - 1]))
  }

  ghost predicate ZeroSumLeaves(n: Node)
  {
    match n
    case Leaf(u) => Sum(u) == 0.0
    case Decision(_, _, cs) => forall i :: 0 <= i < |cs| ==> ZeroSumLeaves(cs[i])
    case Chance(_, cs) => forall i :: 0 <= i < |cs| ==> ZeroSumLeaves(cs[i])
  }

  /** In a zero-sum game the expected utilities under any strategies add up to zero. */
  lemma {:induction false} ExpectedZeroSum(n: Node, strat: map<int, seq<real>>, m: nat)
    requires WalkShape(n, strat, m) && ZeroSumLeaves(n)
    ensures Sum(ExpectedUtility(n, strat, m)) == 0.0
    decreases n, |ChildrenOf(n)| + 1
  {
    if !n.Leaf? {
      ExpectedFromZeroSum(n, strat, m, |n.children|);
    }
  }

  lemma {:induction false} ExpectedFromZeroSum(n: Node, strat: map<int, seq<real>>, m: nat, k: nat)
    requires !n.Leaf? && 1 <= k <= |n.children| && WalkShape(n, strat, m) && ZeroSumLeaves(n)
    ensures Sum(ExpectedFrom(n, strat, m, k)) == 0.0
    decreases n, k
  {
    var w := Weights(n, strat);
    var c := ExpectedUtility(n.children[k - 1], strat, m);
    ExpectedZeroSum(n.children[k - 1], strat, m);
    SumScale(c, w[k - 1]);
    if k > 1 {
      ExpectedFromZeroSum(n, strat, m, k - 1);
      SumAdd(ExpectedFrom(n, strat, m, k - 1), Scale(c, w[k - 1]));
    }
  }

  // ---------------------------------------------------------------------------------------
  // The walks that write leaf fields: `buildRealizationForm`, `clearMarginalizedUtility`,
  // `marginalizePlayer` and `marginalizePlayerFromBehaviourals`.

  /** `x` is the path of a leaf below `n`, `n` being the node at `path`. */
  ghost predicate LeafUnder(n: Node, path: seq<int>, x: seq<int>)
  {
    |path| <= |x| && x[..|path|] == path && ValidPath(n, x[|path|..]) && At(n, x[|path|..]).Leaf?
  }

  lemma LeafUnderLeaf(n: Node, path: seq<int>, x: seq<int>)
    requires n.Leaf?
    ensures LeafUnder(n, path, x) <==> x == path
  {
    if |path| <= |x| && x[..|path|] == path && ValidPath(n, x[|path|..]) {
      assert x[|path|..] == [];
      assert x == x[..|path|] + x[|path|..];
    }
    if x == path {
      assert x[|path|..] == [];
    }
  }

  /** The leaves below an inner node are those below its children, each under one child. */
  lemma LeafUnderChild(n: Node, path: seq<int>, x: seq<int>, i: int)
    requires !n.Leaf? && 0 <= i < |n.children|
    ensures LeafUnder(n, path, x) ==> |path| < |x| && 0 <= x[|path|] < |n.children|
    ensures LeafUnder(n.children[i], path + [i], x) <==> LeafUnder(n, path, x) && |path| < |x| && x[|path|] == i
  {
    if |path| < |x| {
      var rel := x[|path|..];
      assert rel[0] == x[|path|] && rel[1..] == x[|path| + 1..];
      assert x[..|path| + 1] == x[..|path|] + [x[|path|]];
      assert (path + [i])[..|path|] == path;
    }
    if |path| == |x| {
      assert x[|path|..] == [];
    }
  }

  /** The three walks: the realization form of a target (or of everyone), the average
      behaviour of all players but `q`, and a pure plan of all players but `q`. */
  datatype Walk = Realization(target: Option<int>) | Behavioural(q: int) | PlanFrequency(plan: map<int, int>, q: int)

  /** Entry `a` of a vector, 0 outside it; the walks only read entries that exist. */
  function Entry(s: seq<real>, a: int): real
  {
    if 0 <= a < |s| then s[a] else 0.0
  }

  function Look(strat: map<int, seq<real>>, h: int, a: int): real
  {
    if h in strat then Entry(strat[h], a) else 0.0
  }

  /** The factor a walk multiplies by when it passes action `a` of `n`. */
  function StepWeight(w: Walk, n: Node, strat: map<int, seq<real>>, a: int): real
    requires !n.Leaf?
  {
    match w
    case Realization(target) =>
      if n.Decision? && Planned(n, target) then Look(strat, n.infoset, a) else 1.0
    case Behavioural(q) =>
      if n.Chance? then Entry(n.distribution, a)
      else if n.player == q then 1.0
      else Look(strat, n.infoset, a)
    case PlanFrequency(plan, q) =>
      if n.Chance? then Entry(n.distribution, a)
      else if n.player == q then 1.0
      else if n.infoset in plan && PyIndex(|n.children|, plan[n.infoset]) == a then 1.0
      else 0.0
  }

  /** The product of the step weights along `rel`. */
  function PathWeight(w: Walk, n: Node, strat: map<int, seq<real>>, rel: seq<int>): real
    requires ValidPath(n, rel)
    decreases |rel|
  {
    if rel == [] then 1.0 else StepWeight(w, n, strat, rel[0]) * PathWeight(w, ChildrenOf(n)[rel[0]], strat, rel[1..])
  }

  /** The weight the walk carries into the node at the end of `rel`, starting with `p`. */
  function Carried(w: Walk, n: Node, strat: map<int, seq<real>>, rel: seq<int>, p: real): real
    requires ValidPath(n, rel)
    decreases |rel|
  {
    if rel == [] then p else Carried(w, ChildrenOf(n)[rel[0]], strat, rel[1..], p * StepWeight(w, n, strat, rel[0]))
  }

  lemma CarriedUnfold(w: Walk, n: Node, strat: map<int, seq<real>>, rel: seq<int>, p: real)
    requires ValidPath(n, rel) && rel != []
    ensures Carried(w, n, strat, rel, p) == Carried(w, ChildrenOf(n)[rel[0]], strat, rel[1..], p * StepWeight(w, n, strat, rel[0]))
    ensures PathWeight(w, n, strat, rel) == StepWeight(w, n, strat, rel[0]) * PathWeight(w, ChildrenOf(n)[rel[0]], strat, rel[1..])
  {
  }

  /** What the walk carries is the starting weight times the product along the path. */
  lemma {:induction false} CarriedIsProduct(w: Walk, n: Node, strat: map<int, seq<real>>, rel: seq<int>, p: real)
    requires ValidPath(n, rel)
    ensures Carried(w, n, strat, rel, p) == p * PathWeight(w, n, strat, rel)
    decreases |rel|
  {
    if rel == [] {
      assert p * 1.0 == p;
    } else {
      CarriedUnfold(w, n, strat, rel, p);
      CarriedIsProduct(w, ChildrenOf(n)[rel[0]], strat, rel[1..], p * StepWeight(w, n, strat, rel[0]));
      MulAssoc(Carried(w, n, strat, rel, p), p, StepWeight(w, n, strat, rel[0]),
               PathWeight(w, ChildrenOf(n)[rel[0]], strat, rel[1..]), PathWeight(w, n, strat, rel));
    }
  }

  /** Passing from `n` to its child `i` multiplies the carried weight by the step weight. */
  lemma CarriedStep(w: Walk, n: Node, strat: map<int, seq<real>>, path: seq<int>, x: seq<int>, i: int, p: real)
    requires !n.Leaf? && 0 <= i < |n.children| && LeafUnder(n.children[i], path + [i], x)
    ensures LeafUnder(n, path, x)
    ensures Carried(w, n, strat, x[|path|..], p) == Carried(w, n.children[i], strat, x[|path + [i]|..], p * StepWeight(w, n, strat, i))
  {
    LeafUnderChild(n, path, x, i);
    var rel := x[|path|..];
    assert rel[0] == i && rel[1..] == x[|path| + 1..] == x[|path + [i]|..];
  }

  /** The current strategies, by information set. */
  function CurrentStrategies(t: CFRTree): map<int, seq<real>>
    reads t
  {
    map h | h in t.isetState :: t.isetState[h].currentStrategy
  }

  /** `getAverageStrategy` of every information set. */
  function AverageStrategies(t: CFRTree): map<int, seq<real>>
    requires t.rootT != 0
    reads t
  {
    map h | h in t.isetState :: Divide(t.isetState[h].muT, t.rootT as real)
  }

  /** Some decision node lies below `n`, reached through chance nodes only (every decision
      node has a topmost one above it, so this is "the tree has a decision node"). */
  predicate HasDecision(n: Node)
    decreases n
  {
    match n
    case Leaf(_) => false
    case Decision(_, _, _) => true
    case Chance(_, cs) => exists i :: 0 <= i < |cs| && HasDecision(cs[i])
  }

  /** A subtree without decision nodes reads no strategy. */
  lemma {:induction false} NoDecisionFits(n: Node, strat: map<int, seq<real>>)
    requires !HasDecision(n)
    ensures StrategiesFit(n, strat)
    decreases n
  {
    if n.Chance? {
      forall i | 0 <= i < |n.children| ensures StrategiesFit(n.children[i], strat) {
        NoDecisionFits(n.children[i], strat);
      }
    }
  }

  /** `root.getExpectedUtility()`, the value `SolveWithCFR` and `SolveWithICFR` return: a
      decision node asks `getAverageStrategy` for its weights before visiting its children,
      and a chance node visits every child, so the call raises `ZeroDivisionError` exactly
      when `root.T` is 0 and the tree has a decision node. Otherwise it is the expected
      utility under the average strategies, one entry per player. */
  function RootExpectedUtility(t: CFRTree): (r: Result<seq<real>>)
    requires t.Valid()
    reads t
    ensures r.Failure? <==> t.rootT == 0 && HasDecision(t.root)
    ensures r.Failure? ==> r.error == "ZeroDivisionError"
    ensures r.Success? ==> |r.value| == t.numOfPlayers
    ensures r.Success? && t.rootT != 0 ==>
      WalkShape(t.root, AverageStrategies(t), t.numOfPlayers) &&
      r.value == ExpectedUtility(t.root, AverageStrategies(t), t.numOfPlayers)
  {
    if t.rootT == 0 then
      if HasDecision(t.root) then Failure("ZeroDivisionError")
      else
        NoDecisionFits(t.root, map[]);
        Success(ExpectedUtility(t.root, map[], t.numOfPlayers))
    else
      StrategiesFitBelow(t, t.root, [], AverageStrategies(t));
      Success(ExpectedUtility(t.root, AverageStrategies(t), t.numOfPlayers))
  }

  /** In a zero-sum game the utility `getExpectedUtility` returns, when it returns one, adds
      up to 0. */
  lemma RootUtilityZeroSum(t: CFRTree)
    requires t.Valid() && ZeroSumLeaves(t.root) && RootExpectedUtility(t).Success?
    ensures Sum(RootExpectedUtility(t).value) == 0.0
  {
    if t.rootT == 0 {
      NoDecisionFits(t.root, map[]);
      ExpectedZeroSum(t.root, map[], t.numOfPlayers);
    } else {
      StrategiesFitBelow(t, t.root, [], AverageStrategies(t));
      ExpectedZeroSum(t.root, AverageStrategies(t), t.numOfPlayers);
    }
  }

  /** A decision node's information set has a state with one entry per child. */
  lemma DecisionState(t: CFRTree, path: seq<int>)
    requires t.Valid() && ValidPath(t.root, path) && At(t.root, path).Decision?
    ensures At(t.root, path).infoset in t.informationSets.m && At(t.root, path).infoset in t.isetState
    ensures |t.isetState[At(t.root, path).infoset].currentStrategy| == |At(t.root, path).children|
    ensures |t.isetState[At(t.root, path).infoset].muT| == |At(t.root, path).children|
  {
    var h := At(t.root, path).infoset;
    var s := t.informationSets.m[h];
    var i :| 0 <= i < |s.nodes| && s.nodes[i] == path;
  }

  /** Under a valid tree every decision node below `path` finds a strategy of the right
      length in `strat`, when `strat` has one per information set. */
  lemma {:induction false} StrategiesFitBelow(t: CFRTree, n: Node, path: seq<int>, strat: map<int, seq<real>>)
    requires t.Valid() && ValidPath(t.root, path) && At(t.root, path) == n
    requires forall h :: h in t.isetState ==> h in strat && |strat[h]| == |t.isetState[h].currentStrategy|
    ensures StrategiesFit(n, strat)
    decreases n
  {
    if !n.Leaf? {
      if n.Decision? {
        DecisionState(t, path);
      }
      forall i | 0 <= i < |n.children| ensures StrategiesFit(n.children[i], strat) {
        ValidPathSnoc(t.root, path, i);
        StrategiesFitBelow(t, n.children[i], path + [i], strat);
      }
    }
  }

  /** `r` is `omega` with every leaf below `n` (at `path`) set to `p` times its path weight. */
  ghost predicate Written(w: Walk, n: Node, path: seq<int>, strat: map<int, seq<real>>, p: real, omega: map<seq<int>, real>, r: map<seq<int>, real>)
  {
    r.Keys == omega.Keys &&
    forall x {:trigger r[x]} :: x in r ==>
      r[x] == if LeafUnder(n, path, x) then Carried(w, n, strat, x[|path|..], p) else omega[x]
  }

  /** The same for the leaves under the first `i` children of `n` only. */
  ghost predicate WrittenUpTo(w: Walk, n: Node, path: seq<int>, strat: map<int, seq<real>>, p: real, omega: map<seq<int>, real>, r: map<seq<int>, real>, i: int)
  {
    r.Keys == omega.Keys &&
    forall x {:trigger r[x]} :: x in r ==>
      r[x] == if LeafUnder(n, path, x) && |path| < |x| && x[|path|] < i then Carried(w, n, strat, x[|path|..], p) else omega[x]
  }

  lemma WrittenStep(w: Walk, n: Node, path: seq<int>, strat: map<int, seq<real>>, p: real, omega: map<seq<int>, real>, r: map<seq<int>, real>, r': map<seq<int>, real>, i: int, q: real)
    requires !n.Leaf? && 0 <= i < |n.children| && WrittenUpTo(w, n, path, strat, p, omega, r, i)
    requires q == p * StepWeight(w, n, strat, i) && Written(w, n.children[i], path + [i], strat, q, r, r')
    ensures WrittenUpTo(w, n, path, strat, p, omega, r', i + 1)
  {
    forall x | x in r'
      ensures r'[x] == if LeafUnder(n, path, x) && |path| < |x| && x[|path|] < i + 1 then Carried(w, n, strat, x[|path|..], p) else omega[x]
    {
      LeafUnderChild(n, path, x, i);
      if LeafUnder(n.children[i], path + [i], x) {
        CarriedStep(w, n, strat, path, x, i, p);
      }
    }
  }

  lemma WrittenAll(w: Walk, n: Node, path: seq<int>, strat: map<int, seq<real>>, p: real, omega: map<seq<int>, real>, r: map<seq<int>, real>)
    requires !n.Leaf? && WrittenUpTo(w, n, path, strat, p, omega, r, |n.children|)
    ensures Written(w, n, path, strat, p, omega, r)
  {
    forall x | x in r && LeafUnder(n, path, x) ensures |path| < |x| && x[|path|] < |n.children| {
      LeafUnderChild(n, path, x, 0);
    }
  }

  lemma WrittenLeaf(w: Walk, n: Node, path: seq<int>, strat: map<int, seq<real>>, p: real, omega: map<seq<int>, real>)
    requires n.Leaf? && path in omega
    ensures Written(w, n, path, strat, p, omega, omega[path := p])
  {
    forall x | x in omega[path := p]
      ensures omega[path := p][x] == if LeafUnder(n, path, x) then Carried(w, n, strat, x[|path|..], p) else omega[x]
    {
      LeafUnderLeaf(n, path, x);
      if x == path {
        assert x[|path|..] == [];
      }
    }
  }

  /** `m` has a key for every node below `n`, `n` being the node at `path`. */
  ghost predicate KeysBelow<V>(n: Node, path: seq<int>, m: map<seq<int>, V>)
  {
    forall q {:trigger ValidPath(n, q)} :: ValidPath(n, q) ==> path + q in m
  }

  lemma KeysBelowChild<V>(n: Node, path: seq<int>, m: map<seq<int>, V>, i: int)
    requires !n.Leaf? && 0 <= i < |n.children| && KeysBelow(n, path, m)
    ensures KeysBelow(n.children[i], path + [i], m)
  {
    forall q | ValidPath(n.children[i], q) ensures path + [i] + q in m {
      assert ([i] + q)[0] == i && ([i] + q)[1..] == q;
      assert ValidPath(n, [i] + q);
      assert path + [i] + q == path + ([i] + q);
    }
  }

  lemma KeysAtRoot<V>(root: Node, m: map<seq<int>, V>)
    requires Covers(root, m)
    ensures KeysBelow(root, [], m)
  {
    forall q | ValidPath(root, q) ensures [] + q in m {
      assert [] + q == q;
    }
  }

  /** `after` is `before` with every leaf set to `p` times the product of the step weights
      along the leaf's path from `root`. */
  ghost predicate LeafWeights(w: Walk, root: Node, strat: map<int, seq<real>>, p: real, before: map<seq<int>, real>, after: map<seq<int>, real>)
  {
    after.Keys == before.Keys &&
    forall x {:trigger after[x]} :: x in after ==>
      after[x] == if LeafUnder(root, [], x) then p * PathWeight(w, root, strat, x) else before[x]
  }

  /** From the root, what a writing walk leaves at a leaf is its starting weight times the
      product of the step weights along the leaf's path. */
  lemma WrittenFromRoot(w: Walk, root: Node, strat: map<int, seq<real>>, p: real, omega: map<seq<int>, real>, r: map<seq<int>, real>)
    requires Written(w, root, [], strat, p, omega, r)
    ensures LeafWeights(w, root, strat, p, omega, r)
  {
    forall x | x in r
      ensures r[x] == if LeafUnder(root, [], x) then p * PathWeight(w, root, strat, x) else omega[x]
    {
      assert x[0..] == x;
      if LeafUnder(root, [], x) {
        CarriedIsProduct(w, root, strat, x, p);
      }
    }
  }

  /** The recursion of `buildRealizationForm` from `n` at `path`, on the map of `omega`
      values: every leaf below gets `p` times its path weight, nothing else changes. */
  method RealizeFrom(n: Node, path: seq<int>, target: Option<int>, strat: map<int, seq<real>>, p: real, omega: map<seq<int>, real>)
    returns (r: map<seq<int>, real>)
    requires StrategiesFit(n, strat) && KeysBelow(n, path, omega)
    ensures Written(Realization(target), n, path, strat, p, omega, r)
    decreases n
  {
    if n.Leaf? {
      assert ValidPath(n, []) && path + [] == path;
      r := omega[path := p];
      WrittenLeaf(Realization(target), n, path, strat, p, omega);
      return;
    }
    r := omega;
    var i := 0;
    while i < |n.children|
      invariant 0 <= i <= |n.children| && WrittenUpTo(Realization(target), n, path, strat, p, omega, r, i)
    {
      var w := if n.Decision? && Planned(n, target) then p * strat[n.infoset][i] else p;
      assert w == p * StepWeight(Realization(target), n, strat, i);
      KeysBelowChild(n, path, r, i);
      var r' := RealizeFrom(n.children[i], path + [i], target, strat, w, r);
      WrittenStep(Realization(target), n, path, strat, p, omega, r, r', i, w);
      r := r';
      i := i + 1;
    }
    WrittenAll(Realization(target), n, path, strat, p, omega, r);
  }

  /** `buildRealizationForm(target, p)` from the root: every leaf's `omega` becomes `p` times
      the current-strategy probabilities of the actions on its path taken at decision nodes
      of the target (of every player when there is no target); chance nodes contribute
      nothing. No other field changes. */
  method BuildRealizationForm(t: CFRTree, target: Option<int>, p: real)
    requires t.Valid()
    modifies t
    ensures t.Valid()
    ensures LeafWeights(Realization(target), t.root, CurrentStrategies(t), p, old(t.omega), t.omega)
    ensures t.isetState == old(t.isetState) && t.visits == old(t.visits) &&
      t.marginalizedUtility == old(t.marginalizedUtility) && t.rootT == old(t.rootT)
  {
    var strat := CurrentStrategies(t);
    StrategiesFitBelow(t, t.root, [], strat);
    KeysAtRoot(t.root, t.omega);
    var r := RealizeFrom(t.root, [], target, strat, p, t.omega);
    WrittenFromRoot(Realization(target), t.root, strat, p, t.omega, r);
    t.omega := r;
    assert strat == CurrentStrategies(t);
  }

  // `clearMarginalizedUtility`.

  /** `r` is `m` with every leaf below `n` (at `path`) set to 0. */
  ghost predicate Cleared(n: Node, path: seq<int>, m: map<seq<int>, real>, r: map<seq<int>, real>)
  {
    r.Keys == m.Keys &&
    forall x {:trigger r[x]} :: x in r ==> r[x] == if LeafUnder(n, path, x) then 0.0 else m[x]
  }

  ghost predicate ClearedUpTo(n: Node, path: seq<int>, m: map<seq<int>, real>, r: map<seq<int>, real>, i: int)
  {
    r.Keys == m.Keys &&
    forall x {:trigger r[x]} :: x in r ==> r[x] == if LeafUnder(n, path, x) && |path| < |x| && x[|path|] < i then 0.0 else m[x]
  }

  lemma ClearedStep(n: Node, path: seq<int>, m: map<seq<int>, real>, r: map<seq<int>, real>, r': map<seq<int>, real>, i: int)
    requires !n.Leaf? && 0 <= i < |n.children| && ClearedUpTo(n, path, m, r, i)
    requires Cleared(n.children[i], path + [i], r, r')
    ensures ClearedUpTo(n, path, m, r', i + 1)
  {
    forall x | x in r'
      ensures r'[x] == if LeafUnder(n, path, x) && |path| < |x| && x[|path|] < i + 1 then 0.0 else m[x]
    {
      LeafUnderChild(n, path, x, i);
    }
  }

  lemma ClearedAll(n: Node, path: seq<int>, m: map<seq<int>, real>, r: map<seq<int>, real>)
    requires !n.Leaf? && ClearedUpTo(n, path, m, r, |n.children|)
    ensures Cleared(n, path, m, r)
  {
    forall x | x in r && LeafUnder(n, path, x) ensures |path| < |x| && x[|path|] < |n.children| {
      LeafUnderChild(n, path, x, 0);
    }
  }

  /** The recursion of `clearMarginalizedUtility` from `n` at `path`. */
  method ClearFrom(n: Node, path: seq<int>, m: map<seq<int>, real>) returns (r: map<seq<int>, real>)
    requires KeysBelow(n, path, m)
    ensures Cleared(n, path, m, r)
    decreases n
  {
    if n.Leaf? {
      assert ValidPath(n, []) && path + [] == path;
      r := m[path := 0.0];
      forall x | x in r ensures r[x] == if LeafUnder(n, path, x) then 0.0 else m[x] {
        LeafUnderLeaf(n, path, x);
      }
      return;
    }
    r := m;
    var i := 0;
    while i < |n.children|
      invariant 0 <= i <= |n.children| && ClearedUpTo(n, path, m, r, i)
    {
      KeysBelowChild(n, path, r, i);
      var r' := ClearFrom(n.children[i], path + [i], r);
      ClearedStep(n, path, m, r, r', i);
      r := r';
      i := i + 1;
    }
    ClearedAll(n, path, m, r);
  }

  /** `clearMarginalizedUtility` from the root: every leaf's marginalized utility becomes 0;
      nothing else changes. */
  method ClearMarginalizedUtility(t: CFRTree)
    requires t.Valid()
    modifies t
    ensures t.Valid()
    ensures Cleared(t.root, [], old(t.marginalizedUtility), t.marginalizedUtility)
    ensures t.isetState == old(t.isetState) && t.visits == old(t.visits) && t.omega == old(t.omega) && t.rootT == old(t.rootT)
  {
    KeysAtRoot(t.root, t.marginalizedUtility);
    var r := ClearFrom(t.root, [], t.marginalizedUtility);
    t.marginalizedUtility := r;
  }

  // `marginalizePlayer` and `marginalizePlayerFromBehaviourals`.

  /** `r` is `m` with `p` times the path weight times the utility of player `q` added at
      every leaf below `n` (at `path`). */
  ghost predicate Added(w: Walk, n: Node, path: seq<int>, strat: map<int, seq<real>>, p: real, q: int, m: map<seq<int>, real>, r: map<seq<int>, real>)
  {
    r.Keys == m.Keys &&
    forall x {:trigger r[x]} :: x in r ==>
      r[x] == if LeafUnder(n, path, x) then m[x] + Gain(w, n, strat, x[|path|..], p, q) else m[x]
  }

  ghost predicate AddedUpTo(w: Walk, n: Node, path: seq<int>, strat: map<int, seq<real>>, p: real, q: int, m: map<seq<int>, real>, r: map<seq<int>, real>, i: int)
  {
    r.Keys == m.Keys &&
    forall x {:trigger r[x]} :: x in r ==>
      r[x] == if LeafUnder(n, path, x) && |path| < |x| && x[|path|] < i
        then m[x] + Gain(w, n, strat, x[|path|..], p, q) else m[x]
  }

  /** What a leaf at the end of `rel` gains: the carried weight times its utility for `q`. */
  ghost function Gain(w: Walk, n: Node, strat: map<int, seq<real>>, rel: seq<int>, p: real, q: int): real
    requires ValidPath(n, rel) && At(n, rel).Leaf?
  {
    Carried(w, n, strat, rel, p) * Entry(At(n, rel).utility, q)
  }

  lemma GainStep(w: Walk, n: Node, strat: map<int, seq<real>>, path: seq<int>, x: seq<int>, i: int, p: real, q: int)
    requires !n.Leaf? && 0 <= i < |n.children| && LeafUnder(n.children[i], path + [i], x)
    ensures LeafUnder(n, path, x)
    ensures Gain(w, n, strat, x[|path|..], p, q) == Gain(w, n.children[i], strat, x[|path + [i]|..], p * StepWeight(w, n, strat, i), q)
  {
    CarriedStep(w, n, strat, path, x, i, p);
    var rel := x[|path|..];
    assert rel[0] == i && rel[1..] == x[|path| + 1..] == x[|path + [i]|..];
    assert At(n, rel) == At(n.children[i], x[|path + [i]|..]);
  }

  lemma AddedStep(w: Walk, n: Node, path: seq<int>, strat: map<int, seq<real>>, p: real, q: int, m: map<seq<int>, real>, r: map<seq<int>, real>, r': map<seq<int>, real>, i: int, pc: real)
    requires !n.Leaf? && 0 <= i < |n.children| && AddedUpTo(w, n, path, strat, p, q, m, r, i)
    requires pc == p * StepWeight(w, n, strat, i) && Added(w, n.children[i], path + [i], strat, pc, q, r, r')
    ensures AddedUpTo(w, n, path, strat, p, q, m, r', i + 1)
  {
    forall x | x in r'
      ensures r'[x] == if LeafUnder(n, path, x) && |path| < |x| && x[|path|] < i + 1
        then m[x] + Gain(w, n, strat, x[|path|..], p, q) else m[x]
    {
      LeafUnderChild(n, path, x, i);
      if LeafUnder(n.children[i], path + [i], x) {
        GainStep(w, n, strat, path, x, i, p, q);
      }
    }
  }

  /** A walk that carries 0 carries 0 all the way down. */
  lemma {:induction false} CarriedFromZero(w: Walk, n: Node, strat: map<int, seq<real>>, rel: seq<int>)
    requires ValidPath(n, rel)
    ensures Carried(w, n, strat, rel, 0.0) == 0.0
    decreases |rel|
  {
    if rel != [] {
      assert 0.0 * StepWeight(w, n, strat, rel[0]) == 0.0;
      CarriedFromZero(w, ChildrenOf(n)[rel[0]], strat, rel[1..]);
    }
  }

  /** A child whose step weight is 0 receives nothing: skipping it is the same as visiting it. */
  lemma AddedSkip(w: Walk, n: Node, path: seq<int>, strat: map<int, seq<real>>, p: real, q: int, m: map<seq<int>, real>, r: map<seq<int>, real>, i: int)
    requires !n.Leaf? && 0 <= i < |n.children| && AddedUpTo(w, n, path, strat, p, q, m, r, i)
    requires StepWeight(w, n, strat, i) == 0.0
    ensures AddedUpTo(w, n, path, strat, p, q, m, r, i + 1)
  {
    forall x | x in r
      ensures r[x] == if LeafUnder(n, path, x) && |path| < |x| && x[|path|] < i + 1
        then m[x] + Gain(w, n, strat, x[|path|..], p, q) else m[x]
    {
      LeafUnderChild(n, path, x, i);
      if LeafUnder(n.children[i], path + [i], x) {
        GainStep(w, n, strat, path, x, i, p, q);
        assert p * StepWeight(w, n, strat, i) == 0.0;
        CarriedFromZero(w, n.children[i], strat, x[|path + [i]|..]);
      }
    }
  }

  /** At a decision node of another player only the planned action `a` carries weight, so
      the walk below `a` is all that is added. */
  lemma {:induction false} AddedOnly(plan: map<int, int>, n: Node, path: seq<int>, f: real, q: int,
                                     m: map<seq<int>, real>, r': map<seq<int>, real>, a: int, i: int)
    requires n.Decision? && n.player != q && n.infoset in plan && a == PyIndex(|n.children|, plan[n.infoset])
    requires 0 <= a < |n.children| && 0 <= i <= |n.children|
    requires Added(PlanFrequency(plan, q), n.children[a], path + [a], map[], f, q, m, r')
    ensures AddedUpTo(PlanFrequency(plan, q), n, path, map[], f, q, m, if i <= a then m else r', i)
    decreases i
  {
    var w := PlanFrequency(plan, q);
    if i > 0 {
      AddedOnly(plan, n, path, f, q, m, r', a, i - 1);
      if i - 1 == a {
        assert f == f * StepWeight(w, n, map[], a);
        AddedStep(w, n, path, map[], f, q, m, m, r', a, f);
      } else {
        AddedSkip(w, n, path, map[], f, q, m, if i - 1 <= a then m else r', i - 1);
      }
    }
  }

  lemma AddedAll(w: Walk, n: Node, path: seq<int>, strat: map<int, seq<real>>, p: real, q: int, m: map<seq<int>, real>, r: map<seq<int>, real>)
    requires !n.Leaf? && AddedUpTo(w, n, path, strat, p, q, m, r, |n.children|)
    ensures Added(w, n, path, strat, p, q, m, r)
  {
    forall x | x in r && LeafUnder(n, path, x) ensures |path| < |x| && x[|path|] < |n.children| {
      LeafUnderChild(n, path, x, 0);
    }
  }

  lemma AddedLeaf(w: Walk, n: Node, path: seq<int>, strat: map<int, seq<real>>, p: real, q: int, m: map<seq<int>, real>)
    requires n.Leaf? && path in m
    ensures Added(w, n, path, strat, p, q, m, m[path := m[path] + p * Entry(n.utility, q)])
  {
    var r := m[path := m[path] + p * Entry(n.utility, q)];
    assert ValidPath(n, []) && Gain(w, n, strat, [], p, q) == p * Entry(n.utility, q);
    forall x | x in r
      ensures r[x] == if LeafUnder(n, path, x) then m[x] + Gain(w, n, strat, x[|path|..], p, q) else m[x]
    {
      LeafUnderLeaf(n, path, x);
      if x == path {
        assert x[|path|..] == [];
      }
    }
  }

  /** The nodes `marginalizePlayer` visits below `n` name an information set of the plan and
      an action in range wherever the walk follows the plan (at decision nodes of players
      other than `q`). */
  ghost predicate MarginalCovers(n: Node, plan: map<int, int>, q: int)
  {
    match n
    case Leaf(_) => true
    case Chance(_, cs) => forall i :: 0 <= i < |cs| ==> MarginalCovers(cs[i], plan, q)
    case Decision(player, h, cs) =>
      if player == q then forall i :: 0 <= i < |cs| ==> MarginalCovers(cs[i], plan, q)
      else h in plan && 0 <= PyIndex(|cs|, plan[h]) < |cs| && MarginalCovers(cs[PyIndex(|cs|, plan[h])], plan, q)
  }

  /** The recursion of `marginalizePlayer(plan, f, q)` from `n` at `path`: fails (the key or
      index error of the source) exactly when the plan does not cover the nodes it reaches;
      otherwise each leaf below gains `f` times the chance probabilities on its path times
      its utility for `q`, where the others' actions follow the plan, and nothing
      elsewhere. */
  method MarginalFrom(n: Node, path: seq<int>, plan: map<int, int>, f: real, q: int, m: map<seq<int>, real>)
    returns (ok: bool, r: map<seq<int>, real>)
    requires ChanceAligned(n) && KeysBelow(n, path, m)
    ensures r.Keys == m.Keys
    ensures ok <==> MarginalCovers(n, plan, q)
    ensures ok ==> Added(PlanFrequency(plan, q), n, path, map[], f, q, m, r)
    decreases n
  {
    var w := PlanFrequency(plan, q);
    if n.Leaf? {
      assert ValidPath(n, []) && path + [] == path;
      r := m[path := m[path] + f * Entry(n.utility, q)];
      AddedLeaf(w, n, path, map[], f, q, m);
      return true, r;
    }
    r := m;
    if n.Decision? && n.player != q {
      if n.infoset !in plan {
        return false, r;
      }
      var a := PyIndex(|n.children|, plan[n.infoset]);
      if !(0 <= a < |n.children|) {
        return false, r;
      }
      KeysBelowChild(n, path, r, a);
      assert f == f * StepWeight(w, n, map[], a);
      var r';
      ok, r' := MarginalFrom(n.children[a], path + [a], plan, f, q, r);
      if ok {
        AddedOnly(plan, n, path, f, q, m, r', a, |n.children|);
        AddedAll(w, n, path, map[], f, q, m, r');
      }
      r := r';
      return;
    }
    var i := 0;
    ok := true;
    while i < |n.children|
      invariant 0 <= i <= |n.children| && r.Keys == m.Keys
      invariant ok <==> forall j :: 0 <= j < i ==> MarginalCovers(n.children[j], plan, q)
      invariant ok ==> AddedUpTo(w, n, path, map[], f, q, m, r, i)
    {
      var g := if n.Chance? then f * n.distribution[i] else f;
      assert g == f * StepWeight(w, n, map[], i);
      KeysBelowChild(n, path, r, i);
      var okc, r' := MarginalFrom(n.children[i], path + [i], plan, g, q, r);
      if !okc {
        return false, r';
      }
      AddedStep(w, n, path, map[], f, q, m, r, r', i, g);
      r := r';
      i := i + 1;
    }
    AddedAll(w, n, path, map[], f, q, m, r);
  }

  /** The recursion of `marginalizePlayerFromBehaviourals(p, q)` from `n` at `path`: each leaf
      below gains `p` times the probabilities, on its path, of the chance moves and of the
      other players' actions under `strat`, times its utility for `q`. */
  method BehaviouralFrom(n: Node, path: seq<int>, strat: map<int, seq<real>>, p: real, q: int, m: map<seq<int>, real>)
    returns (r: map<seq<int>, real>)
    requires ChanceAligned(n) && StrategiesFit(n, strat) && KeysBelow(n, path, m)
    ensures Added(Behavioural(q), n, path, strat, p, q, m, r)
    decreases n
  {
    var w := Behavioural(q);
    if n.Leaf? {
      assert ValidPath(n, []) && path + [] == path;
      r := m[path := m[path] + p * Entry(n.utility, q)];
      AddedLeaf(w, n, path, strat, p, q, m);
      return;
    }
    r := m;
    var i := 0;
    while i < |n.children|
      invariant 0 <= i <= |n.children| && AddedUpTo(w, n, path, strat, p, q, m, r, i)
    {
      var g;
      if n.Decision? && n.player == q {
        g := p;
      } else {
        var s := if n.Chance? then n.distribution else strat[n.infoset];
        g := p * s[i];
      }
      assert g == p * StepWeight(w, n, strat, i);
      KeysBelowChild(n, path, r, i);
      var r' := BehaviouralFrom(n.children[i], path + [i], strat, g, q, r);
      AddedStep(w, n, path, strat, p, q, m, r, r', i, g);
      r := r';
      i := i + 1;
    }
    AddedAll(w, n, path, strat, p, q, m, r);
  }

  /** `after` is `before` with every leaf gaining `p` times the product of the step weights
      along its path from `root` times its utility for `q`. */
  ghost predicate LeafGains(w: Walk, root: Node, strat: map<int, seq<real>>, p: real, q: int, before: map<seq<int>, real>, after: map<seq<int>, real>)
  {
    after.Keys == before.Keys &&
    forall x {:trigger after[x]} :: x in after ==>
      after[x] == if LeafUnder(root, [], x) then before[x] + p * PathWeight(w, root, strat, x) * Entry(At(root, x).utility, q) else before[x]
  }

  lemma AddedFromRoot(w: Walk, root: Node, strat: map<int, seq<real>>, p: real, q: int, m: map<seq<int>, real>, r: map<seq<int>, real>)
    requires Added(w, root, [], strat, p, q, m, r)
    ensures LeafGains(w, root, strat, p, q, m, r)
  {
    forall x | x in r
      ensures r[x] == if LeafUnder(root, [], x) then m[x] + p * PathWeight(w, root, strat, x) * Entry(At(root, x).utility, q) else m[x]
    {
      assert x[0..] == x;
      if LeafUnder(root, [], x) {
        GainAtRoot(w, root, strat, x, p, q);
      }
    }
  }

  lemma GainAtRoot(w: Walk, root: Node, strat: map<int, seq<real>>, x: seq<int>, p: real, q: int)
    requires ValidPath(root, x) && At(root, x).Leaf?
    ensures Gain(w, root, strat, x, p, q) == p * PathWeight(w, root, strat, x) * Entry(At(root, x).utility, q)
  {
    calc {
      Gain(w, root, strat, x, p, q);
      Carried(w, root, strat, x, p) * Entry(At(root, x).utility, q);
      { CarriedIsProduct(w, root, strat, x, p); }
      p * PathWeight(w, root, strat, x) * Entry(At(root, x).utility, q);
    }
  }

  /** `marginalizePlayer(plan, f, q)` from the root: fails (a key or index error) exactly when
      the plan misses a node the walk must follow; otherwise every leaf's marginalized
      utility gains `f` times the chance probability of its path times its utility for `q`,
      for the leaves whose path follows the plan at the other players' nodes (a path weight
      of 0 elsewhere). Nothing else changes. */
  method MarginalizePlayer(t: CFRTree, plan: map<int, int>, f: real, q: int) returns (ok: bool)
    requires t.Valid()
    modifies t
    ensures t.Valid() && t.marginalizedUtility.Keys == old(t.marginalizedUtility).Keys
    ensures ok <==> MarginalCovers(t.root, plan, q)
    ensures ok ==> LeafGains(PlanFrequency(plan, q), t.root, map[], f, q, old(t.marginalizedUtility), t.marginalizedUtility)
    ensures t.isetState == old(t.isetState) && t.visits == old(t.visits) && t.omega == old(t.omega) && t.rootT == old(t.rootT)
  {
    KeysAtRoot(t.root, t.marginalizedUtility);
    var r;
    ok, r := MarginalFrom(t.root, [], plan, f, q, t.marginalizedUtility);
    if ok {
      AddedFromRoot(PlanFrequency(plan, q), t.root, map[], f, q, t.marginalizedUtility, r);
    }
    t.marginalizedUtility := r;
  }

  /** `marginalizePlayerFromBehaviourals(p, q)` from the root, with the average strategies
      (so `root.T` must not be 0): every leaf's marginalized utility gains `p` times the
      probability of its path under chance and the other players' average strategies times
      its utility for `q`. Nothing else changes. */
  method MarginalizeFromBehaviourals(t: CFRTree, p: real, q: int)
    requires t.Valid() && t.rootT != 0
    modifies t
    ensures t.Valid()
    ensures t.isetState == old(t.isetState) && t.visits == old(t.visits) && t.omega == old(t.omega) && t.rootT == old(t.rootT)
    ensures LeafGains(Behavioural(q), t.root, AverageStrategies(t), p, q, old(t.marginalizedUtility), t.marginalizedUtility)
  {
    var strat := AverageStrategies(t);
    StrategiesFitBelow(t, t.root, [], strat);
    KeysAtRoot(t.root, t.marginalizedUtility);
    var r := BehaviouralFrom(t.root, [], strat, p, q, t.marginalizedUtility);
    AddedFromRoot(Behavioural(q), t.root, strat, p, q, t.marginalizedUtility, r);
    t.marginalizedUtility := r;
    assert strat == AverageStrategies(t);
  }

  /** The behaviour strategy that plays the plan's action with probability 1 at every
      information set the plan names (vectors as long as those of `strat`). */
  function PureStrategies(plan: map<int, int>, strat: map<int, seq<real>>): map<int, seq<real>>
  {
    map h | h in plan && h in strat ::
      seq(|strat[h]|, a requires 0 <= a < |strat[h]| => if a == PyIndex(|strat[h]|, plan[h]) then 1.0 else 0.0)
  }

  /** Marginalizing a plan is marginalizing the behaviour strategy that plays it with
      certainty: both walks weigh every path alike. */
  lemma {:induction false} PlanIsPureBehaviour(n: Node, rel: seq<int>, plan: map<int, int>, q: int, strat: map<int, seq<real>>)
    requires ValidPath(n, rel) && StrategiesFit(n, strat)
    ensures PathWeight(PlanFrequency(plan, q), n, map[], rel) == PathWeight(Behavioural(q), n, PureStrategies(plan, strat), rel)
    decreases |rel|
  {
    if rel != [] {
      var a := rel[0];
      assert StepWeight(PlanFrequency(plan, q), n, map[], a) == StepWeight(Behavioural(q), n, PureStrategies(plan, strat), a);
      PlanIsPureBehaviour(ChildrenOf(n)[a], rel[1..], plan, q, strat);
    }
  }
}
