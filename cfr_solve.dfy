/** One iteration of `SolveWithCFR`: a CFR traversal from the root for every player in turn,
    each with the reach vector all ones, followed by the regret-matching update of every
    information set's current strategy. */
module CfrSolve {
  import opened Wrappers
  import opened RealSeq
  import opened GameTree
  import opened CfrTrees
  import opened CfrWalks
  import opened Cfr

  /** `[1] * m`. */
  function Ones(m: nat): (r: seq<real>)
    ensures |r| == m && forall i :: 0 <= i < m ==> r[i] == 1.0
  {
    seq(m, i => 1.0)
  }

  lemma {:induction false} ProdOnes(m: nat)
    ensures Prod(Ones(m)) == 1.0
  {
    if m > 0 {
      ProdOnes(m - 1);
      assert Ones(m)[1..] == Ones(m - 1);
    }
  }

  /** What a traversal from the root needs, whoever the traversing player is. */
  ghost predicate RootReady(root: Node, m: nat, acc: Acc)
  {
    LeafWidth(root, m) && PlayersIn(root, m) && ChanceAligned(root) && Fit(root, acc.st) && Counted(root, [], acc.visits.Keys)
  }

  lemma RootReadyKept(root: Node, m: nat, a: Acc, b: Acc)
    requires RootReady(root, m, a) && Kept(a, b)
    ensures RootReady(root, m, b)
  {
    FitKept(root, a, b);
  }

  /** The state after `CFR(root, p, [1] * m, plus)` for the players `p`, `p + 1`, …, `m - 1`
      in turn, the values being dropped. */
  function Sweep(root: Node, m: nat, plus: bool, acc: Acc, p: nat): (r: Acc)
    requires p <= m && RootReady(root, m, acc)
    ensures Kept(acc, r)
    decreases m - p
  {
    if p == m then acc
    else
      var next := Cfr.Walk(root, [], p, Ones(m), plus, acc).1;
      RootReadyKept(root, m, acc, next);
      var r := Sweep(root, m, plus, next, p + 1);
      KeptTrans(acc, next, r);
      r
  }

  /** The current strategy of every information set recomputed by regret matching. */
  function Refreshed(st: map<int, IsetState>): (r: map<int, IsetState>)
    ensures r.Keys == st.Keys
  {
    map h | h in st :: st[h].(currentStrategy := RegretMatch(st[h].cumulativeRegret))
  }

  lemma RefreshedIs(st0: map<int, IsetState>, st: map<int, IsetState>)
    requires st.Keys == st0.Keys
    requires forall h :: h in st ==> st[h] == st0[h].(currentStrategy := RegretMatch(st0[h].cumulativeRegret))
    ensures st == Refreshed(st0)
  {
    var r := Refreshed(st0);
    forall h | h in st ensures st[h] == r[h] {
      assert r[h] == st0[h].(currentStrategy := RegretMatch(st0[h].cumulativeRegret));
    }
    assert st.Keys == r.Keys;
  }

  /** Every traversal of the sweep sees the current strategies the iteration started with:
      only the regret and strategy sums and the visit counts change. */
  lemma SweepKeepsStrategies(root: Node, m: nat, plus: bool, acc: Acc, p: nat)
    requires p <= m && RootReady(root, m, acc)
    ensures CurrentOf(Sweep(root, m, plus, acc, p).st) == CurrentOf(acc.st)
    ensures Sweep(root, m, plus, acc, p).visits.Keys == acc.visits.Keys
  {
    CurrentKept(acc, Sweep(root, m, plus, acc, p));
  }

  /** The root is visited once per remaining player, each time with reach 1. */
  lemma {:induction false} SweepRootVisits(root: Node, m: nat, plus: bool, acc: Acc, p: nat)
    requires p <= m && RootReady(root, m, acc)
    ensures [] in acc.visits
    ensures Sweep(root, m, plus, acc, p).visits[[]] == acc.visits[[]] + (m - p) as real
    decreases m - p
  {
    assert [] in acc.visits;
    if p < m {
      WalkFrame(root, [], p, Ones(m), plus, acc);
      ProdOnes(m);
      var next := Cfr.Walk(root, [], p, Ones(m), plus, acc).1;
      RootReadyKept(root, m, acc, next);
      SweepRootVisits(root, m, plus, next, p + 1);
    }
  }

  /** The information sets of no player in `[p, m)` keep their sums through the sweep. */
  lemma {:induction false} SweepFrame(root: Node, m: nat, plus: bool, acc: Acc, p: nat, h: int)
    requires p <= m && RootReady(root, m, acc) && h in acc.st
    requires forall q :: p <= q < m ==> h !in OwnLabels(root, q)
    ensures Sweep(root, m, plus, acc, p).st[h] == acc.st[h]
    decreases m - p
  {
    if p < m {
      WalkFrame(root, [], p, Ones(m), plus, acc);
      var next := Cfr.Walk(root, [], p, Ones(m), plus, acc).1;
      RootReadyKept(root, m, acc, next);
      SweepFrame(root, m, plus, next, p + 1, h);
    }
  }

  /** A valid tree whose acting players index the reach vector is ready for the sweep. */
  lemma {:induction false} TreeFit(t: CFRTree, n: Node, path: seq<int>)
    requires t.Valid() && ValidPath(t.root, path) && At(t.root, path) == n
    ensures Fit(n, t.isetState)
    decreases n
  {
    if !n.Leaf? {
      if n.Decision? {
        DecisionState(t, path);
      }
      forall i | 0 <= i < |n.children| ensures Fit(n.children[i], t.isetState) {
        ValidPathSnoc(t.root, path, i);
        TreeFit(t, n.children[i], path + [i]);
      }
    }
  }

  lemma TreeReady(t: CFRTree)
    requires t.Valid() && PlayersIn(t.root, t.numOfPlayers)
    ensures RootReady(t.root, t.numOfPlayers, Acc(t.isetState, t.visits))
  {
    assert ValidPath(t.root, []);
    TreeFit(t, t.root, []);
    KeysAtRoot(t.root, t.visits);
    CountedFromKeys(t.root, [], t.visits);
  }

  /** `CFR(root, p, [1] * m, plus)`, the value dropped. */
  method CfrFromRoot(root: Node, m: nat, p: nat, plus: bool, acc: Acc) returns (next: Acc)
    requires p < m && RootReady(root, m, acc)
    ensures next == Cfr.Walk(root, [], p, Ones(m), plus, acc).1
  {
    var pi := new real[m](i => 1.0);
    assert pi[..] == Ones(m);
    var v;
    v, next := CfrFrom(root, [], p, pi, plus, acc);
  }

  /** The traversals from the root for the players `0`, …, `m - 1`, each with a fresh reach
      array of ones. */
  method SweepAll(root: Node, m: nat, plus: bool, acc: Acc) returns (out: Acc)
    requires RootReady(root, m, acc)
    ensures out == Sweep(root, m, plus, acc, 0)
  {
    out := acc;
    var p := 0;
    while p < m
      invariant 0 <= p <= m && RootReady(root, m, out)
      invariant Sweep(root, m, plus, acc, 0) == Sweep(root, m, plus, out, p)
    {
      var next := CfrFromRoot(root, m, p, plus, out);
      RootReadyKept(root, m, out, next);
      out := next;
      p := p + 1;
    }
  }

  /** A state kept by the sweep still fits the tree's information sets and nodes. */
  lemma KeptFits(t: CFRTree, acc: Acc)
    requires t.Valid() && Kept(Acc(t.isetState, t.visits), acc)
    ensures StateFits(t.informationSets, acc.st) && Covers(t.root, acc.visits)
    ensures forall h :: h in acc.st ==> IsDistribution(acc.st[h].currentStrategy)
  {
    forall h | h in acc.st ensures acc.st[h].currentStrategy == t.isetState[h].currentStrategy &&
      |acc.st[h].cumulativeRegret| == |t.isetState[h].cumulativeRegret| &&
      |acc.st[h].cumulativeStrategy| == |t.isetState[h].cumulativeStrategy| && acc.st[h].muT == t.isetState[h].muT
    {
      assert SumsOnly(t.isetState[h], acc.st[h]);
    }
  }

  /** One iteration of `SolveWithCFR`: the traversals of the sweep, then `updateCurrentStrategy`
      on every information set. */
  method CfrIteration(t: CFRTree, plus: bool)
    requires t.Valid() && PlayersIn(t.root, t.numOfPlayers)
    modifies t
    ensures t.Valid()
    ensures RootReady(t.root, t.numOfPlayers, old(Acc(t.isetState, t.visits))) &&
      Acc(t.isetState, t.visits) == Next(t.root, t.numOfPlayers, plus, old(Acc(t.isetState, t.visits)))
    ensures t.omega == old(t.omega) && t.marginalizedUtility == old(t.marginalizedUtility) && t.rootT == old(t.rootT)
  {
    TreeReady(t);
    var acc := SweepAll(t.root, t.numOfPlayers, plus, Acc(t.isetState, t.visits));
    KeptFits(t, acc);
    t.isetState, t.visits := acc.st, acc.visits;
    t.UpdateAllStrategies();
    RefreshedIs(acc.st, t.isetState);
  }

  /** Recomputing the current strategies keeps every length the traversal relies on. */
  lemma {:induction false} FitRefreshed(n: Node, st: map<int, IsetState>)
    requires Fit(n, st)
    ensures Fit(n, Refreshed(st))
    decreases n
  {
    if !n.Leaf? {
      forall i | 0 <= i < |n.children| ensures Fit(n.children[i], Refreshed(st)) {
        FitRefreshed(n.children[i], st);
      }
    }
  }

  /** The state after one iteration of `SolveWithCFR` from `acc`: the sweep, then the current
      strategies recomputed. */
  function Next(root: Node, m: nat, plus: bool, acc: Acc): (r: Acc)
    requires RootReady(root, m, acc)
    ensures RootReady(root, m, r)
    ensures r.st.Keys == acc.st.Keys && r.visits.Keys == acc.visits.Keys
  {
    var s := Sweep(root, m, plus, acc, 0);
    RootReadyKept(root, m, acc, s);
    FitRefreshed(root, s.st);
    Acc(Refreshed(s.st), s.visits)
  }

  /** The state after `k` iterations of `SolveWithCFR` from `acc`. */
  function Iterated(root: Node, m: nat, plus: bool, acc: Acc, k: nat): (r: Acc)
    requires RootReady(root, m, acc)
    ensures RootReady(root, m, r)
    ensures r.st.Keys == acc.st.Keys && r.visits.Keys == acc.visits.Keys
    decreases k
  {
    if k == 0 then acc else Next(root, m, plus, Iterated(root, m, plus, acc, k - 1))
  }

  /** `SolveWithCFR(cfr_tree, iterations, use_cfr_plus)`: `iterations` iterations in turn,
      then `root.getExpectedUtility()` as the returned utility. Plain CFR never sets
      `root.T`, so on a tree that starts with `root.T == 0`, as every new `CFRTree` does, the
      returned utility is `ZeroDivisionError` whenever the tree has a decision node. */
  method SolveWithCfr(t: CFRTree, iterations: nat, plus: bool) returns (utility: Result<seq<real>>)
    requires t.Valid() && PlayersIn(t.root, t.numOfPlayers)
    modifies t
    ensures t.Valid()
    ensures utility == RootExpectedUtility(t)
    ensures old(t.rootT) == 0 ==> (utility.Failure? <==> HasDecision(t.root))
    ensures RootReady(t.root, t.numOfPlayers, old(Acc(t.isetState, t.visits))) &&
      Acc(t.isetState, t.visits) == Iterated(t.root, t.numOfPlayers, plus, old(Acc(t.isetState, t.visits)), iterations)
    ensures t.omega == old(t.omega) && t.marginalizedUtility == old(t.marginalizedUtility) && t.rootT == old(t.rootT)
  {
    TreeReady(t);
    ghost var acc0 := Acc(t.isetState, t.visits);
    var i := 0;
    while i < iterations
      invariant 0 <= i <= iterations && t.Valid()
      invariant Acc(t.isetState, t.visits) == Iterated(t.root, t.numOfPlayers, plus, acc0, i)
      invariant t.omega == old(t.omega) && t.marginalizedUtility == old(t.marginalizedUtility) && t.rootT == old(t.rootT)
    {
      CfrIteration(t, plus);
      i := i + 1;
    }
    utility := RootExpectedUtility(t);
  }
}
