/** `buildJointFromMarginals`: each player's realization form over the leaves is decomposed,
    greedily, into a mixture of the player's pure plans (supporting plans of the leaves), and
    the players' mixtures are combined into a joint distribution by a cross product whose
    plans are then reduced to their reachable information sets. */
module CfrMarginals {
  import opened Wrappers
  import opened Dicts
  import opened RealSeq
  import opened GameTree
  import opened CfrTrees
  import opened CfrWalks
  import opened CfrIsets
  import opened CfrSupport

  /** A distribution over plans: each plan with its probability. */
  type PlanDistribution = seq<(Dict<int, int>, real)>

  // ---------------------------------------------------------------------------------------
  // The terminals under a plan are listed once each.

  /** Every path `Terminals` lists extends `path` and is listed once. */
  lemma {:induction false} TerminalsDistinct(n: Node, path: seq<int>, target: Option<int>, plan: map<int, int>)
    requires Terminals(n, path, target, plan).Success?
    ensures Distinct(Terminals(n, path, target, plan).value)
    decreases n, |ChildrenOf(n)| + 1
  {
    match n
    case Leaf(_) =>
    case Chance(_, cs) =>
      TerminalsFromDistinct(n, path, target, plan, |cs|);
    case Decision(_, h, cs) =>
      if !Planned(n, target) {
        TerminalsFromDistinct(n, path, target, plan, |cs|);
      } else {
        var i := PyIndex(|cs|, plan[h]);
        TerminalsDistinct(cs[i], path + [i], target, plan);
      }
  }

  /** The terminals under children `0 .. k - 1` are listed once each, and each has its child
      index, below `k`, right after `path`. */
  lemma {:induction false} TerminalsFromDistinct(n: Node, path: seq<int>, target: Option<int>, plan: map<int, int>, k: nat)
    requires !n.Leaf? && k <= |n.children|
    requires TerminalsFrom(n, path, target, plan, k).Success?
    ensures Distinct(TerminalsFrom(n, path, target, plan, k).value)
    ensures forall x :: x in TerminalsFrom(n, path, target, plan, k).value ==> |path| < |x| && x[|path|] < k
    decreases n, k
  {
    if k > 0 {
      TerminalsFromDistinct(n, path, target, plan, k - 1);
      var before := TerminalsFrom(n, path, target, plan, k - 1).value;
      var last := Terminals(n.children[k - 1], path + [k - 1], target, plan).value;
      TerminalsDistinct(n.children[k - 1], path + [k - 1], target, plan);
      forall x | x in last ensures |path| < |x| && x[|path|] == k - 1 {
        var q := TerminalWitness(n.children[k - 1], path + [k - 1], target, plan, x);
        assert x == path + [k - 1] + q;
      }
      assert Elems(before) !! Elems(last);
      DistinctConcat(before, last);
    }
  }

  /** A list without repetition holds each element once. */
  lemma {:induction false} DistinctOnce<K>(s: seq<K>, x: K)
    requires Distinct(s)
    ensures multiset(s)[x] == if x in s then 1 else 0
  {
    if s != [] {
      assert s == [s[0]] + s[1..];
      assert Distinct(s[1..]) by {
        forall i, j | 0 <= i < j < |s[1..]| ensures s[1..][i] != s[1..][j] {
          assert s[1..][i] == s[i + 1] && s[1..][j] == s[j + 1];
        }
      }
      DistinctOnce(s[1..], x);
      assert s[0] !in s[1..] by {
        forall i | 0 <= i < |s[1..]| ensures s[1..][i] != s[0] {
          assert s[1..][i] == s[i + 1];
        }
      }
      assert multiset(s) == multiset{s[0]} + multiset(s[1..]);
    }
  }

  // ---------------------------------------------------------------------------------------
  // The leaves and their weights.

  /** `order` lists every leaf of `root` once: the iteration order of the set of leaves
      `find_terminals` collects. */
  ghost predicate LeafOrder(root: Node, order: seq<seq<int>>)
  {
    Distinct(order) && LeavesOnly(root, order) &&
    forall x :: ValidPath(root, x) && At(root, x).Leaf? ==> x in order
  }

  /** Every path of `order` is a leaf of `root`. */
  ghost predicate LeavesOnly(root: Node, order: seq<seq<int>>)
  {
    forall i :: 0 <= i < |order| ==> ValidPath(root, order[i]) && At(root, order[i]).Leaf?
  }

  /** The number of leaves of `ls` whose weight is not zero. */
  function NonZero(ls: seq<seq<int>>, omega: map<seq<int>, real>): nat
    requires forall i :: 0 <= i < |ls| ==> ls[i] in omega
  {
    if ls == [] then 0 else (if omega[ls[0]] != 0.0 then 1 else 0) + NonZero(ls[1..], omega)
  }

  /** No leaf becomes non-zero, so there are no more non-zero leaves than before, and fewer
      when leaf `j` goes from non-zero to zero. */
  lemma {:induction false} FewerNonZero(ls: seq<seq<int>>, m: map<seq<int>, real>, m': map<seq<int>, real>, j: int)
    requires forall i :: 0 <= i < |ls| ==> ls[i] in m && ls[i] in m'
    requires forall i :: 0 <= i < |ls| && m'[ls[i]] != 0.0 ==> m[ls[i]] != 0.0
    ensures NonZero(ls, m') <= NonZero(ls, m)
    ensures 0 <= j < |ls| && m[ls[j]] != 0.0 && m'[ls[j]] == 0.0 ==> NonZero(ls, m') < NonZero(ls, m)
  {
    if ls != [] {
      FewerNonZero(ls[1..], m, m', j - 1);
    }
  }

  /** What a plan of the distribution contributes at leaf `l`: its probability when `l` is
      under the plan, nothing otherwise. */
  ghost function Share(root: Node, p: int, e: (Dict<int, int>, real), l: seq<int>): real
  {
    match Terminals(root, [], Some(p), e.0.m)
    case Success(ts) => if l in ts then e.1 else 0.0
    case Failure(_) => 0.0
  }

  /** The probability the distribution puts on the plans `l` is under. */
  ghost function Mass(root: Node, p: int, dist: PlanDistribution, l: seq<int>): real
  {
    if dist == [] then 0.0 else Mass(root, p, dist[..|dist| - 1], l) + Share(root, p, dist[|dist| - 1], l)
  }

  lemma MassSnoc(root: Node, p: int, dist: PlanDistribution, e: (Dict<int, int>, real), l: seq<int>)
    ensures Mass(root, p, dist + [e], l) == Mass(root, p, dist, l) + Share(root, p, e, l)
  {
    assert (dist + [e])[..|dist|] == dist;
  }

  /** One leaf in one round of the decomposition: its weight `b` becomes `a`, less `w` when it
      is under the plan, whose least weight is `w > 0`. */
  lemma RoundAt(root: Node, p: int, plan: Dict<int, int>, w: real, ts: seq<seq<int>>, before: map<seq<int>, real>,
                l: seq<int>, a: real)
    requires Terminals(root, [], Some(p), plan.m) == Success(ts)
    requires w > 0.0 && Least(w, before, ts) && l in before
    requires a == if l in ts then before[l] - w else before[l]
    ensures a == before[l] - Share(root, p, (plan, w), l)
    ensures a < 0.0 ==> before[l] < 0.0
    ensures a != 0.0 ==> before[l] != 0.0
  {
    if l in ts {
      var k :| 0 <= k < |ts| && ts[k] == l;
      assert w <= before[ts[k]];
    }
  }

  /** One round of the decomposition: `after` is `before` less `w` at every leaf of `ts`, the
      leaves under a plan whose least weight is `w > 0`. Every leaf's weight is then what the
      plan takes plus what is left, no weight becomes negative, and the leaf of least weight
      drops to zero. */
  lemma Round(root: Node, p: int, order: seq<seq<int>>, dist: PlanDistribution, plan: Dict<int, int>, w: real,
              ts: seq<seq<int>>, start: map<seq<int>, real>, before: map<seq<int>, real>, after: map<seq<int>, real>)
    requires Terminals(root, [], Some(p), plan.m) == Success(ts)
    requires forall i :: 0 <= i < |ts| ==> ts[i] in order
    requires forall i :: 0 <= i < |order| ==> order[i] in start && order[i] in before && order[i] in after
    requires forall i :: 0 <= i < |order| ==>
      start[order[i]] == Mass(root, p, dist, order[i]) + before[order[i]] && (before[order[i]] < 0.0 ==> start[order[i]] < 0.0)
    requires w > 0.0 && Least(w, before, ts)
    requires forall x :: x in before ==> x in after && after[x] == if x in ts then before[x] - w else before[x]
    ensures forall i :: 0 <= i < |order| ==>
      start[order[i]] == Mass(root, p, dist + [(plan, w)], order[i]) + after[order[i]] && (after[order[i]] < 0.0 ==> start[order[i]] < 0.0)
    ensures NonZero(order, after) < NonZero(order, before)
  {
    forall i | 0 <= i < |order|
      ensures start[order[i]] == Mass(root, p, dist + [(plan, w)], order[i]) + after[order[i]]
      ensures after[order[i]] < 0.0 ==> start[order[i]] < 0.0
      ensures after[order[i]] != 0.0 ==> before[order[i]] != 0.0
    {
      var l := order[i];
      assert l in before;
      var a := after[l];
      RoundAt(root, p, plan, w, ts, before, l, a);
      MassSnoc(root, p, dist, (plan, w), l);
    }
    var k :| 0 <= k < |ts| && ts[k] in before && w == before[ts[k]];
    var z := ts[k];
    assert z in before;
    var az := after[z];
    RoundAt(root, p, plan, w, ts, before, z, az);
    var j :| 0 <= j < |order| && order[j] == z;
    FewerNonZero(order, before, after, j);
  }

  // ---------------------------------------------------------------------------------------
  // One player's decomposition.

  /** The weights after `w` is taken from each leaf of `ts` in turn. */
  function Subtracted(m: map<seq<int>, real>, ts: seq<seq<int>>, w: real): map<seq<int>, real>
    requires forall i :: 0 <= i < |ts| ==> ts[i] in m
  {
    if ts == [] then m else Subtracted(m[ts[0] := m[ts[0]] - w], ts[1..], w)
  }

  /** Listed once each, every leaf of `ts` loses `w` and every other weight is kept. */
  lemma {:induction false} SubtractedOnce(m: map<seq<int>, real>, ts: seq<seq<int>>, w: real)
    requires forall i :: 0 <= i < |ts| ==> ts[i] in m
    requires Distinct(ts)
    ensures Subtracted(m, ts, w).Keys == m.Keys
    ensures forall x :: x in m ==> Subtracted(m, ts, w)[x] == if x in ts then m[x] - w else m[x]
  {
    if ts != [] {
      var m' := m[ts[0] := m[ts[0]] - w];
      assert Distinct(ts[1..]) by {
        forall i, j | 0 <= i < j < |ts[1..]| ensures ts[1..][i] != ts[1..][j] {
          assert ts[1..][i] == ts[i + 1] && ts[1..][j] == ts[j + 1];
        }
      }
      SubtractedOnce(m', ts[1..], w);
      forall x | x in m ensures Subtracted(m, ts, w)[x] == if x in ts then m[x] - w else m[x] {
        if x == ts[0] {
          assert x !in ts[1..] by {
            forall i | 0 <= i < |ts[1..]| ensures ts[1..][i] != x {
              assert ts[1..][i] == ts[i + 1];
            }
          }
        } else {
          assert x in ts <==> x in ts[1..] by {
            assert ts == [ts[0]] + ts[1..];
          }
        }
      }
    }
  }

  /** `for t in terminalsUnderPlan(p, plan): t.omega -= w`: `w` is taken from each listed
      leaf in turn. */
  method SubtractPlan(t: CFRTree, ts: seq<seq<int>>, w: real)
    requires forall i :: 0 <= i < |ts| ==> ts[i] in t.omega
    modifies t
    ensures t.omega == Subtracted(old(t.omega), ts, w)
    ensures t.isetState == old(t.isetState) && t.visits == old(t.visits) &&
      t.marginalizedUtility == old(t.marginalizedUtility) && t.rootT == old(t.rootT)
  {
    for i := 0 to |ts|
      invariant t.omega.Keys == old(t.omega).Keys
      invariant Subtracted(old(t.omega), ts, w) == Subtracted(t.omega, ts[i..], w)
      invariant t.isetState == old(t.isetState) && t.visits == old(t.visits) &&
        t.marginalizedUtility == old(t.marginalizedUtility) && t.rootT == old(t.rootT)
    {
      assert ts[i..][0] == ts[i] && ts[i..][1..] == ts[i + 1..];
      t.omega := t.omega[ts[i] := t.omega[ts[i]] - w];
    }
    assert ts[|ts|..] == [];
  }

  /** Whether some leaf of `order` still weighs more than 0.001. */
  method AnyAbove(order: seq<seq<int>>, omega: map<seq<int>, real>) returns (b: bool)
    requires forall i :: 0 <= i < |order| ==> order[i] in omega
    ensures b <==> exists i :: 0 <= i < |order| && omega[order[i]] > 0.001
  {
    for i := 0 to |order|
      invariant forall j :: 0 <= j < i ==> omega[order[j]] <= 0.001
    {
      if omega[order[i]] > 0.001 {
        return true;
      }
    }
    return false;
  }

  /** `(plan, w)` is what `builSupportingPlan(l, p)` returns: the supporting plan of leaf `l`
      and the least weight of the leaves under it. */
  ghost predicate Supports(t: CFRTree, p: int, l: seq<int>, e: (Dict<int, int>, real))
    reads t
  {
    SupportReady(t, t.omega) && ValidPath(t.root, l) && l in t.omega &&
    var plan := SupportMap(t, Preset(t, l, p), p);
    var terms := Terminals(t.root, [], Some(p), plan);
    Valid(e.0) && e.0.m == plan && terms.Success? && Least(e.1, t.omega, terms.value)
  }

  /** The supporting plan of leaf `l` is worth at most `v`. */
  ghost predicate Dominated(t: CFRTree, p: int, l: seq<int>, v: real)
    reads t
  {
    SupportReady(t, t.omega) && ValidPath(t.root, l) && l in t.omega &&
    var plan := SupportMap(t, Preset(t, l, p), p);
    var terms := Terminals(t.root, [], Some(p), plan);
    terms.Success? ==> forall w :: Least(w, t.omega, terms.value) ==> w <= v
  }

  lemma DominatedMore(t: CFRTree, p: int, l: seq<int>, v: real, v': real)
    requires Dominated(t, p, l, v) && v <= v'
    ensures Dominated(t, p, l, v')
  {
  }

  lemma LeastUnique(w: real, w': real, omega: map<seq<int>, real>, ts: seq<seq<int>>)
    requires Least(w, omega, ts) && Least(w', omega, ts)
    ensures w == w'
  {
  }

  /** `builSupportingPlan(l, p)`, seen from the scan: the supporting plan of `l` and its
      value, which is all the value it is worth. */
  method LeafPlan(t: CFRTree, p: int, l: seq<int>) returns (r: Result<(Dict<int, int>, real)>)
    requires t.Valid() && 0 <= p < t.numOfPlayers && ValidPath(t.root, l) && At(t.root, l).Leaf?
    ensures r.Success? ==> Supports(t, p, l, r.value) && Dominated(t, p, l, r.value.1)
  {
    r := BuildSupportingPlan(t, l, p);
    if r.Success? {
      assert Covers(t.root, t.omega);
      ghost var terms := Terminals(t.root, [], Some(p), SupportMap(t, Preset(t, l, p), p)).value;
      forall w | Least(w, t.omega, terms) ensures w <= r.value.1 {
        LeastUnique(w, r.value.1, t.omega, terms);
      }
    }
  }

  /** Every leaf of non-zero weight among the first `i` of `order` is worth at most `v`. */
  ghost predicate DominatedBefore(t: CFRTree, p: int, order: seq<seq<int>>, i: int, v: real)
    reads t
    requires forall j :: 0 <= j < |order| ==> order[j] in t.omega
  {
    forall j :: 0 <= j < i && j < |order| && t.omega[order[j]] != 0.0 ==> Dominated(t, p, order[j], v)
  }

  lemma DominatedStep(t: CFRTree, p: int, order: seq<seq<int>>, i: int, v: real)
    requires forall j :: 0 <= j < |order| ==> order[j] in t.omega
    requires 0 <= i < |order| && DominatedBefore(t, p, order, i, v)
    requires t.omega[order[i]] != 0.0 ==> Dominated(t, p, order[i], v)
    ensures DominatedBefore(t, p, order, i + 1, v)
  {
  }

  lemma DominatedBeforeMore(t: CFRTree, p: int, order: seq<seq<int>>, i: int, v: real, v': real)
    requires forall j :: 0 <= j < |order| ==> order[j] in t.omega
    requires DominatedBefore(t, p, order, i, v) && v <= v'
    ensures DominatedBefore(t, p, order, i, v')
  {
    forall j | 0 <= j < i && j < |order| && t.omega[order[j]] != 0.0 ensures Dominated(t, p, order[j], v') {
      DominatedMore(t, p, order[j], v, v');
    }
  }

  /** The scan of `buildJointFromMarginals` over the leaves: every leaf of non-zero weight
      gets its supporting plan, and the first plan of greatest positive value is kept; without
      `selectOptimal` the scan stops at the first plan of positive value. `None` when no plan
      has positive value; an error of `builSupportingPlan` is passed on. `at` is the index of
      the kept plan's leaf. */
  method BestPlan(t: CFRTree, p: int, order: seq<seq<int>>, selectOptimal: bool)
    returns (r: Result<Option<(Dict<int, int>, real)>>, ghost at: int)
    requires t.Valid() && 0 <= p < t.numOfPlayers && LeavesOnly(t.root, order)
    ensures r.Success? && r.value.Some? ==>
      0 <= at < |order| && t.omega[order[at]] != 0.0 && r.value.value.1 > 0.0 && Supports(t, p, order[at], r.value.value)
    ensures r.Success? && r.value.None? ==>
      forall i :: 0 <= i < |order| && t.omega[order[i]] != 0.0 ==> Dominated(t, p, order[i], 0.0)
    ensures r.Success? && r.value.Some? && selectOptimal ==>
      forall i :: 0 <= i < |order| && t.omega[order[i]] != 0.0 ==> Dominated(t, p, order[i], r.value.value.1)
    ensures r.Success? && r.value.Some? && !selectOptimal ==>
      forall i :: 0 <= i < at && t.omega[order[i]] != 0.0 ==> Dominated(t, p, order[i], 0.0)
  {
    assert Covers(t.root, t.omega);
    assert forall j :: 0 <= j < |order| ==> order[j] in t.omega;
    var best: Option<(Dict<int, int>, real)> := None;
    var bestValue := 0.0;
    at := -1;
    var i := 0;
    while i < |order|
      invariant 0 <= i <= |order|
      invariant best.None? ==> bestValue == 0.0
      invariant best.Some? ==>
        best.value.1 == bestValue > 0.0 && 0 <= at < i && t.omega[order[at]] != 0.0 && Supports(t, p, order[at], best.value)
      invariant !selectOptimal ==> best.None?
      invariant DominatedBefore(t, p, order, i, bestValue)
    {
      var l := order[i];
      if t.omega[l] != 0.0 {
        var res := LeafPlan(t, p, l);
        if res.Failure? {
          return Failure(res.error), at;
        }
        var (plan, value) := res.value;
        if value > bestValue {
          DominatedBeforeMore(t, p, order, i, bestValue, value);
          best := Some((plan, value));
          bestValue := value;
          at := i;
          if !selectOptimal {
            return Success(best), at;
          }
        } else {
          DominatedMore(t, p, l, value, bestValue);
        }
      }
      DominatedStep(t, p, order, i, bestValue);
      i := i + 1;
    }
    return Success(best), at;
  }


  /** What the plans of `dist` take from `start` is all but `omega`, and a weight of `omega`
      is negative only where it was in `start`. */
  ghost predicate Tracks(root: Node, p: int, order: seq<seq<int>>, start: map<seq<int>, real>, omega: map<seq<int>, real>, dist: PlanDistribution)
  {
    forall i :: 0 <= i < |order| ==>
      order[i] in start && order[i] in omega &&
      start[order[i]] == Mass(root, p, dist, order[i]) + omega[order[i]] &&
      (omega[order[i]] < 0.0 ==> start[order[i]] < 0.0)
  }

  /** One round's update: `w` is taken from every leaf under `plan`, whose least weight is
      `w > 0`. What the plans recorded so far take from `start`, with the new one, is still
      all but what is left, no weight turns negative, and fewer leaves weigh anything. */
  method TakePlan(t: CFRTree, p: int, order: seq<seq<int>>, ghost start: map<seq<int>, real>, ghost dist: PlanDistribution,
                  plan: Dict<int, int>, w: real)
    requires LeafOrder(t.root, order) && Covers(t.root, t.omega)
    requires Terminals(t.root, [], Some(p), plan.m).Success? && w > 0.0 && Least(w, t.omega, Terminals(t.root, [], Some(p), plan.m).value)
    requires Tracks(t.root, p, order, start, t.omega, dist)
    modifies t
    ensures t.omega.Keys == old(t.omega).Keys
    ensures t.isetState == old(t.isetState) && t.visits == old(t.visits) &&
      t.marginalizedUtility == old(t.marginalizedUtility) && t.rootT == old(t.rootT)
    ensures Tracks(t.root, p, order, start, t.omega, dist + [(plan, w)])
    ensures NonZero(order, t.omega) < NonZero(order, old(t.omega))
  {
    var ts := Terminals(t.root, [], Some(p), plan.m).value;
    TerminalsDistinct(t.root, [], Some(p), plan.m);
    forall i | 0 <= i < |ts| ensures ts[i] in order && ts[i] in t.omega {
      var q := TerminalWitness(t.root, [], Some(p), plan.m, ts[i]);
      assert ts[i] == q;
    }
    ghost var before := t.omega;
    SubtractPlan(t, ts, w);
    SubtractedOnce(before, ts, w);
    Round(t.root, p, order, dist, plan, w, ts, start, before, t.omega);
  }

  /** `dist` takes from `start` all but what is left in `rest`, which is at most 0.001 at
      every leaf and, at a leaf whose weight was not negative, not negative either. */
  ghost predicate Decomposes(root: Node, p: int, order: seq<seq<int>>, start: map<seq<int>, real>, rest: map<seq<int>, real>, dist: PlanDistribution)
  {
    forall i :: 0 <= i < |order| ==>
      order[i] in start && order[i] in rest &&
      start[order[i]] == Mass(root, p, dist, order[i]) + rest[order[i]] &&
      rest[order[i]] <= 0.001 && (start[order[i]] >= 0.0 ==> rest[order[i]] >= 0.0)
  }

  /** Every plan of `dist` has positive probability and gives an action to exactly the
      information sets of player `p`. */
  ghost predicate PlansOf(isets: Dict<int, InfoSet>, p: int, dist: PlanDistribution)
  {
    forall k :: 0 <= k < |dist| ==>
      dist[k].1 > 0.0 && Valid(dist[k].0) &&
      forall h :: h in dist[k].0.m <==> h in isets.m && isets.m[h].player == p
  }

  /** The `while nonZeroLeaf` loop of `buildJointFromMarginals` for player `p`, from the
      player's realization form in `omega`: each round takes the best supporting plan (see
      `BestPlan`), subtracts its value from every leaf under it and records it; the loop goes
      on while some leaf weighs more than 0.001. No supporting plan of positive value is the
      source's `Exception("ERROR")`. Each round brings one more leaf to zero, so the loop
      ends. */
  method Decompose(t: CFRTree, p: int, order: seq<seq<int>>, selectOptimal: bool) returns (r: Result<PlanDistribution>)
    requires t.Valid() && 0 <= p < t.numOfPlayers && LeafOrder(t.root, order)
    modifies t
    ensures t.Valid() && t.omega.Keys == old(t.omega).Keys
    ensures t.isetState == old(t.isetState) && t.visits == old(t.visits) &&
      t.marginalizedUtility == old(t.marginalizedUtility) && t.rootT == old(t.rootT)
    ensures r.Success? ==> Decomposes(t.root, p, order, old(t.omega), t.omega, r.value)
    ensures r.Success? ==> PlansOf(t.informationSets, p, r.value)
  {
    ghost var start := t.omega;
    assert Covers(t.root, t.omega);
    var dist: PlanDistribution := [];
    var nonZero := true;
    while nonZero
      invariant t.Valid() && t.omega.Keys == start.Keys
      invariant t.isetState == old(t.isetState) && t.visits == old(t.visits) &&
        t.marginalizedUtility == old(t.marginalizedUtility) && t.rootT == old(t.rootT)
      invariant Tracks(t.root, p, order, start, t.omega, dist)
      invariant !nonZero ==> forall i :: 0 <= i < |order| ==> t.omega[order[i]] <= 0.001
      invariant PlansOf(t.informationSets, p, dist)
      decreases if nonZero then NonZero(order, t.omega) + 1 else 0
    {
      var step := DecomposeRound(t, p, order, selectOptimal, start, dist);
      if step.Failure? {
        return Failure(step.error);
      }
      dist := dist + [step.value];
      nonZero := AnyAbove(order, t.omega);
    }
    return Success(dist);
  }

  /** One round of the loop: the best supporting plan is found, taken from the leaves under
      it and returned. */
  method DecomposeRound(t: CFRTree, p: int, order: seq<seq<int>>, selectOptimal: bool,
                        ghost start: map<seq<int>, real>, ghost dist: PlanDistribution)
    returns (r: Result<(Dict<int, int>, real)>)
    requires t.Valid() && 0 <= p < t.numOfPlayers && LeafOrder(t.root, order)
    requires Tracks(t.root, p, order, start, t.omega, dist) && PlansOf(t.informationSets, p, dist)
    modifies t
    ensures t.Valid() && t.omega.Keys == old(t.omega).Keys
    ensures t.isetState == old(t.isetState) && t.visits == old(t.visits) &&
      t.marginalizedUtility == old(t.marginalizedUtility) && t.rootT == old(t.rootT)
    ensures r.Success? ==>
      Tracks(t.root, p, order, start, t.omega, dist + [r.value]) && PlansOf(t.informationSets, p, dist + [r.value]) &&
      NonZero(order, t.omega) < NonZero(order, old(t.omega))
    ensures r.Failure? ==> t.omega == old(t.omega)
  {
    var best, at := BestPlan(t, p, order, selectOptimal);
    if best.Failure? {
      return Failure(best.error);
    }
    if best.value.None? {
      return Failure("ERROR");
    }
    var (plan, w) := best.value.value;
    assert Supports(t, p, order[at], (plan, w));
    PlansOfSnoc(t.informationSets, p, dist, (plan, w));
    TakePlan(t, p, order, start, dist, plan, w);
    r := Success((plan, w));
  }

  lemma PlansOfSnoc(isets: Dict<int, InfoSet>, p: int, dist: PlanDistribution, e: (Dict<int, int>, real))
    requires PlansOf(isets, p, dist) && e.1 > 0.0 && Valid(e.0)
    requires forall h :: h in e.0.m <==> h in isets.m && isets.m[h].player == p
    ensures PlansOf(isets, p, dist + [e])
  {
  }

  // ---------------------------------------------------------------------------------------
  // The cross product of the players' distributions.

  ghost predicate PlansValid(d: PlanDistribution)
  {
    forall k :: 0 <= k < |d| ==> Valid(d[k].0)
  }

  /** `{**d2, **d1}`: the keys of `d2` in their order, then the new keys of `d1`; `d1` wins
      on shared keys. */
  function Merge(d2: Dict<int, int>, d1: Dict<int, int>): Dict<int, int>
  {
    Dict(d2.keys + Fresh(d1.keys, d2.m.Keys), d2.m + d1.m)
  }

  /** On dictionaries the merge is `d2.update(d1)`. */
  lemma MergeIsUpdate(d2: Dict<int, int>, d1: Dict<int, int>)
    requires Valid(d2) && Valid(d1)
    ensures Merge(d2, d1) == Update(d2, d1)
  {
  }

  /** One entry of the cross product: the merged plan with the product probability. */
  function Pair(j: (Dict<int, int>, real), d: (Dict<int, int>, real)): (Dict<int, int>, real)
  {
    (Merge(j.0, d.0), j.1 * d.1)
  }

  /** `j` combined with each plan of `b` in order. */
  function Row(j: (Dict<int, int>, real), b: PlanDistribution): (r: PlanDistribution)
    ensures |r| == |b|
  {
    seq(|b|, i requires 0 <= i < |b| => Pair(j, b[i]))
  }

  /** The cross product with the plans of `a` outermost. */
  function Cross(a: PlanDistribution, b: PlanDistribution): PlanDistribution
  {
    if a == [] then [] else Cross(a[..|a| - 1], b) + Row(a[|a| - 1], b)
  }

  lemma {:induction false} CrossLength(a: PlanDistribution, b: PlanDistribution)
    ensures |Cross(a, b)| == |a| * |b|
    decreases |a|
  {
    if a != [] {
      CrossLength(a[..|a| - 1], b);
      assert |Cross(a, b)| == (|a| - 1) * |b| + |b|;
    }
  }

  /** The joint distribution: the first player's, crossed with each further player's in
      turn. */
  function JointOf(ds: seq<PlanDistribution>): (r: PlanDistribution)
    requires |ds| > 0
  {
    if |ds| == 1 then ds[0] else Cross(JointOf(ds[..|ds| - 1]), ds[|ds| - 1])
  }

  /** Entry `i * |b| + k` of the cross product combines plan `i` of `a` with plan `k` of `b`. */
  lemma {:induction false} CrossAt(a: PlanDistribution, b: PlanDistribution, i: nat, k: nat)
    requires i < |a| && k < |b|
    ensures i * |b| + k < |Cross(a, b)|
    ensures Cross(a, b)[i * |b| + k] == Pair(a[i], b[k])
  {
    var front := a[..|a| - 1];
    CrossLength(a, b);
    CrossLength(front, b);
    if i < |a| - 1 {
      assert a[i] == front[i];
      CrossAt(front, b, i, k);
      assert i * |b| + k < (|a| - 1) * |b| by {
        assert (i + 1) * |b| <= (|a| - 1) * |b|;
      }
    } else {
      assert i * |b| == |Cross(front, b)|;
      assert Cross(a, b) == Cross(front, b) + Row(a[i], b);
      assert Cross(a, b)[i * |b| + k] == Row(a[i], b)[k];
    }
  }

  /** Every plan of the cross product is the merge of two valid plans, so valid. */
  lemma {:induction false} CrossValid(a: PlanDistribution, b: PlanDistribution)
    requires PlansValid(a) && PlansValid(b)
    ensures PlansValid(Cross(a, b))
    decreases |a|
  {
    if a != [] {
      var front := a[..|a| - 1];
      var last := a[|a| - 1];
      CrossValid(front, b);
      var row := Row(last, b);
      forall k | 0 <= k < |row| ensures Valid(row[k].0) {
        MergeIsUpdate(last.0, b[k].0);
      }
      var c := Cross(front, b);
      forall n | 0 <= n < |c + row| ensures Valid((c + row)[n].0) {
        if n < |c| {
          assert (c + row)[n] == c[n];
        } else {
          assert (c + row)[n] == row[n - |c|];
        }
      }
    }
  }

  lemma {:induction false} JointValid(ds: seq<PlanDistribution>)
    requires |ds| > 0 && forall p :: 0 <= p < |ds| ==> PlansValid(ds[p])
    ensures PlansValid(JointOf(ds))
    decreases |ds|
  {
    if |ds| > 1 {
      JointValid(ds[..|ds| - 1]);
      CrossValid(JointOf(ds[..|ds| - 1]), ds[|ds| - 1]);
    }
  }

  lemma RowSnoc(j: (Dict<int, int>, real), b: PlanDistribution, y: nat)
    requires y < |b|
    ensures Row(j, b[..y + 1]) == Row(j, b[..y]) + [Pair(j, b[y])]
  {
    var lhs := Row(j, b[..y + 1]);
    var rhs := Row(j, b[..y]) + [Pair(j, b[y])];
    forall i | 0 <= i < |lhs| ensures lhs[i] == rhs[i] {
      assert b[..y + 1][i] == b[i];
      if i < y {
        assert b[..y][i] == b[i];
      }
    }
  }
  /** The nested loops of the cross product. */
  method CrossProduct(a: PlanDistribution, b: PlanDistribution) returns (r: PlanDistribution)
    ensures r == Cross(a, b)
  {
    r := [];
    for x := 0 to |a|
      invariant r == Cross(a[..x], b)
    {
      assert a[..x + 1][..x] == a[..x] && a[..x + 1][x] == a[x];
      for y := 0 to |b|
        invariant r == Cross(a[..x], b) + Row(a[x], b[..y])
      {
        RowSnoc(a[x], b, y);
        r := r + [Pair(a[x], b[y])];
      }
      assert b[..|b|] == b;
    }
    assert a[..|a|] == a;
  }

  /** The merging loop: the first distribution crossed with each further one in turn. */
  method JointDistribution(ds: seq<PlanDistribution>) returns (joint: PlanDistribution)
    requires |ds| > 0
    ensures joint == JointOf(ds)
  {
    joint := ds[0];
    assert ds[..1] == [ds[0]];
    for p := 1 to |ds|
      invariant joint == JointOf(ds[..p])
    {
      assert ds[..p + 1][..p] == ds[..p];
      joint := CrossProduct(joint, ds[p]);
    }
    assert ds[..|ds|] == ds;
  }

  // ---------------------------------------------------------------------------------------
  // Reduction and the whole method.

  /** `d` is `reduceActionPlan(plan)`: the plan's actions on the information sets reachable
      from the root sets under the plan, in creation order. */
  ghost predicate IsReduction(t: CFRTree, plan: map<int, int>, d: Dict<int, int>)
  {
    Layered(t) && (forall x :: x in Roots(t) ==> x in t.informationSets.m && -1 < Depth(t, x)) &&
    ReachAll(t, plan, Roots(t), -1).Success? &&
    var kept := ReachAll(t, plan, Roots(t), -1).value;
    (forall g :: g in kept ==> g in plan) &&
    Valid(d) && d.keys == KeepIn(t.informationSets.keys, kept) && d.m == (map g | g in kept :: plan[g])
  }

  /** The last loop of `buildJointFromMarginals`: every joint plan reduced, its probability
      kept. A plan `reduceActionPlan` fails on fails the whole. */
  method ReduceAll(t: CFRTree, joint: PlanDistribution) returns (r: Result<PlanDistribution>)
    requires Layered(t) && Dicts.Valid(t.informationSets) && t.isetState.Keys == t.informationSets.m.Keys
    modifies t
    ensures t.isetState.Keys == old(t.isetState).Keys
    ensures forall g :: g in t.isetState ==>
      t.isetState[g] == old(t.isetState)[g].(reachability := t.isetState[g].reachability)
    ensures t.visits == old(t.visits) && t.omega == old(t.omega)
    ensures t.marginalizedUtility == old(t.marginalizedUtility) && t.rootT == old(t.rootT)
    ensures r.Success? ==>
      |r.value| == |joint| &&
      forall k :: 0 <= k < |joint| ==> r.value[k].1 == joint[k].1 && IsReduction(t, joint[k].0.m, r.value[k].0)
    ensures r.Failure? ==> exists k :: 0 <= k < |joint| && ReachAll(t, joint[k].0.m, Roots(t), -1).Failure?
  {
    RootsReachable(t);
    var reduced: PlanDistribution := [];
    for k := 0 to |joint|
      invariant t.isetState.Keys == old(t.isetState).Keys
      invariant forall g :: g in t.isetState ==>
        t.isetState[g] == old(t.isetState)[g].(reachability := t.isetState[g].reachability)
      invariant t.visits == old(t.visits) && t.omega == old(t.omega)
      invariant t.marginalizedUtility == old(t.marginalizedUtility) && t.rootT == old(t.rootT)
      invariant |reduced| == k
      invariant forall i :: 0 <= i < k ==> reduced[i].1 == joint[i].1 && IsReduction(t, joint[i].0.m, reduced[i].0)
    {
      var plan := ReduceActionPlan(joint[k].0.m, t);
      if plan.None? {
        return Failure("KeyError or IndexError");
      }
      reduced := reduced + [(plan.value, joint[k].1)];
    }
    return Success(reduced);
  }

  /** The realization form of player `p` under `strat`, decomposed by `dist`: at every leaf
      the plans covering it carry the leaf's realization weight, less at most 0.001, and no
      more than that weight when it is not negative. */
  ghost predicate Realizes(root: Node, p: int, order: seq<seq<int>>, strat: map<int, seq<real>>, dist: PlanDistribution)
  {
    forall i :: 0 <= i < |order| ==>
      ValidPath(root, order[i]) &&
      var v := PathWeight(Realization(Some(p)), root, strat, order[i]);
      v - 0.001 <= Mass(root, p, dist, order[i]) && (v >= 0.0 ==> Mass(root, p, dist, order[i]) <= v)
  }

  /** One pass of the player loop: `buildRealizationForm(p, 1)`, then the decomposition. */
  method PlayerDistribution(t: CFRTree, p: int, order: seq<seq<int>>, selectOptimal: bool) returns (r: Result<PlanDistribution>)
    requires t.Valid() && 0 <= p < t.numOfPlayers && LeafOrder(t.root, order)
    modifies t
    ensures t.Valid() && t.isetState == old(t.isetState) && t.visits == old(t.visits) &&
      t.marginalizedUtility == old(t.marginalizedUtility) && t.rootT == old(t.rootT)
    ensures r.Success? ==>
      Realizes(t.root, p, order, CurrentStrategies(t), r.value) && PlansOf(t.informationSets, p, r.value)
  {
    BuildRealizationForm(t, Some(p), 1.0);
    ghost var start := t.omega;
    ghost var strat := CurrentStrategies(t);
    r := Decompose(t, p, order, selectOptimal);
    if r.Success? {
      forall i | 0 <= i < |order|
        ensures ValidPath(t.root, order[i]) &&
          var v := PathWeight(Realization(Some(p)), t.root, strat, order[i]);
          v - 0.001 <= Mass(t.root, p, r.value, order[i]) && (v >= 0.0 ==> Mass(t.root, p, r.value, order[i]) <= v)
      {
        var l := order[i];
        assert l[0..] == l;
        assert LeafUnder(t.root, [], l);
        assert start[l] == 1.0 * PathWeight(Realization(Some(p)), t.root, strat, l);
      }
    }
  }

  /** `buildJointFromMarginals(select_optimal_plan)`: each player's realization form is
      decomposed into a distribution over the player's pure plans (`dists`), the
      distributions are crossed in player order, and each joint plan is reduced. With no
      player the source's `all_players_plan_distributions[0]` is an index error. */
  method BuildJointFromMarginals(t: CFRTree, order: seq<seq<int>>, selectOptimal: bool)
    returns (r: Result<PlanDistribution>, ghost dists: seq<PlanDistribution>)
    requires t.Valid() && LeafOrder(t.root, order)
    modifies t
    ensures t.numOfPlayers == 0 ==> r == Failure("IndexError")
    ensures r.Success? ==>
      |dists| == t.numOfPlayers > 0 &&
      (forall p :: 0 <= p < |dists| ==>
        Realizes(t.root, p, order, old(CurrentStrategies(t)), dists[p]) && PlansOf(t.informationSets, p, dists[p])) &&
      var joint := JointOf(dists);
      |r.value| == |joint| &&
      forall k :: 0 <= k < |joint| ==> r.value[k].1 == joint[k].1 && IsReduction(t, joint[k].0.m, r.value[k].0)
  {
    ghost var strat := CurrentStrategies(t);
    var all: seq<PlanDistribution> := [];
    for p := 0 to t.numOfPlayers
      invariant t.Valid() && t.isetState == old(t.isetState)
      invariant |all| == p
      invariant forall q :: 0 <= q < p ==>
        Realizes(t.root, q, order, strat, all[q]) && PlansOf(t.informationSets, q, all[q])
    {
      var d := PlayerDistribution(t, p, order, selectOptimal);
      if d.Failure? {
        return Failure(d.error), all;
      }
      all := all + [d.value];
    }
    dists := all;
    if t.numOfPlayers == 0 {
      return Failure("IndexError"), dists;
    }
    var joint := JointDistribution(all);
    ShapeLayered(t);
    r := ReduceAll(t, joint);
  }
}
