// `CFRTree.getUtility`: the utility of a joint strategy, and its zero-sum property.
module CfrUtility {
  import opened Wrappers
  import opened Dicts
  import opened RealSeq
  import opened GameTree
  import opened CfrTrees
  import opened CfrWalks
  import opened CfrJoint

  /** `u[i] += c[i] * f` for every index of `u`: an index error when `c` is shorter. */
  function Accumulate(u: seq<real>, c: seq<real>, f: real): (r: Result<seq<real>>)
  {
    if |c| < |u| then Failure("IndexError")
    else Success(seq(|u|, i requires 0 <= i < |u| => u[i] + c[i] * f))
  }

  /** `getUtility` over the plans `keys` from the running utility `u`: each plan string is
      parsed, its weight divided by the total (`ZeroDivisionError` when the total is 0), and
      its utility under the zero default added in with that frequency. */
  function JointUtility(root: Node, n: nat, keys: seq<string>, m: map<string, real>, total: real, u: seq<real>): Result<seq<real>>
    requires forall i :: 0 <= i < |keys| ==> keys[i] in m
  {
    if keys == [] then Success(u)
    else
      var plan :- PlanOfString(keys[0]);
      if total == 0.0 then Failure("ZeroDivisionError")
      else
        var c :- PlanUtility(root, plan.m, Zeros(n));
        var u' :- Accumulate(u, c, m[keys[0]] / total);
        JointUtility(root, n, keys[1..], m, total, u')
  }

  /** The inner loop of `getUtility`: `utility[i] += c[i] * f` for every index. */
  method AccumulateInto(u: seq<real>, c: seq<real>, f: real) returns (r: seq<real>)
    requires |u| <= |c|
    ensures Accumulate(u, c, f) == Success(r)
  {
    r := u;
    for i := 0 to |u|
      invariant |r| == |u|
      invariant forall j :: 0 <= j < |u| ==> r[j] == if j < i then u[j] + c[j] * f else u[j]
    {
      r := r[i := r[i] + c[i] * f];
    }
    ghost var expected := seq(|u|, i requires 0 <= i < |u| => u[i] + c[i] * f);
    assert forall j :: 0 <= j < |u| ==> r[j] == expected[j];
    assert r == expected;
  }

  /** `CFRTree.getUtility(joint)`: the frequency-weighted utility of the stored plans, one
      entry per player. */
  method GetUtility(t: CFRTree, joint: CFRJointStrategy) returns (r: Result<seq<real>>)
    requires joint.Valid()
    ensures joint.plans.m.Keys == Elems(joint.plans.keys)
    ensures r == JointUtility(t.root, t.numOfPlayers, joint.plans.keys, joint.plans.m, joint.frequencyCount, Zeros(t.numOfPlayers))
  {
    var n := t.numOfPlayers;
    var keys := joint.plans.keys;
    var m := joint.plans.m;
    assert forall i :: 0 <= i < |keys| ==> keys[i] in Elems(keys);
    var utility := Zeros(n);
    for k := 0 to |keys|
      invariant |utility| == n
      invariant JointUtility(t.root, n, keys, m, joint.frequencyCount, Zeros(n)) ==
                JointUtility(t.root, n, keys[k..], m, joint.frequencyCount, utility)
    {
      assert keys[k..][0] == keys[k] && keys[k..][1..] == keys[k + 1..];
      var plan := StringToActionPlan(keys[k]);
      if plan.Failure? {
        return Failure(plan.error);
      }
      if joint.frequencyCount == 0.0 {
        return Failure("ZeroDivisionError");
      }
      var frequency := m[keys[k]] / joint.frequencyCount;
      var leafUtility := PlanUtility(t.root, plan.value.m, Zeros(n));
      if leafUtility.Failure? {
        return Failure(leafUtility.error);
      }
      var c := leafUtility.value;
      if |c| < n {
        return Failure("IndexError");
      }
      utility := AccumulateInto(utility, c, frequency);
    }
    assert keys[|keys|..] == [];
    return Success(utility);
  }

  /** Under the zero default a plan's utility has one entry per player and, in a zero-sum
      game, entries adding up to zero. */
  lemma {:induction false} PlanUtilityZeroSum(n: Node, plan: map<int, int>, m: nat)
    requires LeafWidth(n, m) && ZeroSumLeaves(n)
    ensures PlanUtility(n, plan, Zeros(m)).Success? ==>
      |PlanUtility(n, plan, Zeros(m)).value| == m && Sum(PlanUtility(n, plan, Zeros(m)).value) == 0.0
    decreases n, |ChildrenOf(n)| + 1
  {
    match n
    case Leaf(_) =>
    case Decision(_, h, cs) =>
      if h !in plan {
        SumConst(m, 0.0);
      } else {
        var i := PyIndex(|cs|, plan[h]);
        if 0 <= i < |cs| {
          PlanUtilityZeroSum(cs[i], plan, m);
        }
      }
    case Chance(_, cs) =>
      ChanceUtilityZeroSum(n, plan, m, |cs|);
  }

  lemma {:induction false} ChanceUtilityZeroSum(n: Node, plan: map<int, int>, m: nat, k: nat)
    requires n.Chance? && k <= |n.children| && LeafWidth(n, m) && ZeroSumLeaves(n)
    ensures ChanceUtility(n, plan, Zeros(m), k).Success? ==>
      |ChanceUtility(n, plan, Zeros(m), k).value| == m && Sum(ChanceUtility(n, plan, Zeros(m), k).value) == 0.0
    decreases n, k
  {
    if k == 0 {
      SumConst(m, 0.0);
    } else {
      ChanceUtilityZeroSum(n, plan, m, k - 1);
      PlanUtilityZeroSum(n.children[k - 1], plan, m);
      var ru := ChanceUtility(n, plan, Zeros(m), k - 1);
      var rc := PlanUtility(n.children[k - 1], plan, Zeros(m));
      if ru.Success? && rc.Success? && k - 1 < |n.distribution| {
        var u := ru.value;
        var c := rc.value;
        var w := n.distribution[k - 1];
        SumScale(c, w);
        if u != Zeros(m) {
          assert AddInto(u, c, w).value == Add(u, Scale(c, w));
          SumAdd(u, Scale(c, w));
        }
      }
    }
  }

  /** In a zero-sum game whose leaves carry one utility per player, the utility of a joint
      strategy adds up to zero over the players. */
  lemma {:induction false} JointUtilityZeroSum(root: Node, n: nat, keys: seq<string>, m: map<string, real>, total: real, u: seq<real>)
    requires forall i :: 0 <= i < |keys| ==> keys[i] in m
    requires LeafWidth(root, n) && ZeroSumLeaves(root) && |u| == n && Sum(u) == 0.0
    ensures JointUtility(root, n, keys, m, total, u).Success? ==> Sum(JointUtility(root, n, keys, m, total, u).value) == 0.0
  {
    if keys != [] {
      var plan := PlanOfString(keys[0]);
      if plan.Success? && total != 0.0 {
        PlanUtilityZeroSum(root, plan.value.m, n);
        var c := PlanUtility(root, plan.value.m, Zeros(n));
        if c.Success? {
          var f := m[keys[0]] / total;
          var u' := Accumulate(u, c.value, f).value;
          assert u' == Add(u, Scale(c.value, f));
          SumAdd(u, Scale(c.value, f));
          SumScale(c.value, f);
          JointUtilityZeroSum(root, n, keys[1..], m, total, u');
        }
      }
    }
  }
}
