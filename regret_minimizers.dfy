/** The regret minimisers of the ICFR solvers: an external minimiser over `n` actions and an
    internal (swap) minimiser over an `n`-by-`n` regret matrix. Random draws are parameters. */
module RegretMinimizers {
  import opened RealSeq
  import opened Wrappers

  /** Python's `x[i]` for `-len(x) <= i < len(x)`. */
  function PyIndex(n: nat, i: int): int
  {
    if i < 0 then n + i else i
  }

  /** The index scanned for by the binary search: the least `k < |s|` whose running sum
      `Sum(s[..k])` reaches `r`, or `|s|` when none does. */
  function FirstReaching(s: seq<real>, r: real, k: nat): (j: nat)
    requires k <= |s|
    ensures k <= j <= |s|
    decreases |s| - k
  {
    if k == |s| then |s| else if Sum(s[..k]) >= r then k else FirstReaching(s, r, k + 1)
  }

  /** The action picked for the draw `r` from the strategy `s` (a linear scan). */
  function PickedAction(s: seq<real>, r: real): int
  {
    FirstReaching(s, r, 0) - 1
  }

  lemma {:induction false} FirstReachingIs(s: seq<real>, r: real, m: nat, k: nat)
    requires m <= k <= |s|
    requires forall j :: 0 <= j < k ==> Sum(s[..j]) < r
    requires k < |s| ==> Sum(s[..k]) >= r
    ensures FirstReaching(s, r, m) == k
    decreases k - m
  {
    if m < k {
      FirstReachingIs(s, r, m + 1, k);
    }
  }

  /** A positive draw never picks an action before the first one, and a non-negative strategy
      always yields an action in range. */
  lemma PickedActionRange(s: seq<real>, r: real)
    ensures -1 <= PickedAction(s, r) < |s|
    ensures r > 0.0 && |s| > 0 ==> PickedAction(s, r) >= 0
  {
    if r > 0.0 && |s| > 0 {
      assert s[..0] == [];
    }
  }

  /** `RegretMinimizer.getAction`: running sums with `pre[0] = 0`, then a binary search for
      the first running sum that reaches the draw `r`. */
  method GetAction(s: seq<real>, r: real) returns (action: int)
    ensures -1 <= action < |s|
    ensures NonNegative(s) ==> action == PickedAction(s, r)
    ensures r > 0.0 && |s| > 0 ==> action >= 0
  {
    var n := |s|;
    var pre := new real[n + 1];
    pre[0] := 0.0;
    assert s[..0] == [];
    var i := 1;
    while i < n + 1
      invariant 1 <= i <= n + 1
      invariant forall j :: 0 <= j < i ==> pre[j] == Sum(s[..j])
    {
      PrefixSumStep(s, i - 1);
      pre[i] := pre[i - 1] + s[i - 1];
      i := i + 1;
    }
    var left, right := 0, n;
    while left < right
      invariant 0 <= left <= right <= n
      invariant right < n ==> pre[right] >= r
      invariant left > 0 ==> pre[left - 1] < r
      invariant NonNegative(s) ==> forall j :: 0 <= j < left ==> pre[j] < r
    {
      var mid := (left + right) / 2;
      if pre[mid] >= r {
        right := mid;
      } else {
        if NonNegative(s) {
          forall j | 0 <= j <= mid ensures pre[j] < r {
            PrefixSumMonotone(s, j, mid);
          }
        }
        left := mid + 1;
      }
    }
    if NonNegative(s) {
      FirstReachingIs(s, r, 0, right);
    }
    action := right - 1;
  }

  /** The external regret minimiser (`ExternalRM`). */
  class ExternalRM {
    var actionNumbers: nat
    var regretSum: seq<real>
    var strategySum: seq<real>
    var utility: seq<real>
    var recommendedAction: int

    ghost predicate Valid()
      reads this
    {
      |regretSum| == actionNumbers && |strategySum| == actionNumbers && |utility| == actionNumbers
      && -1 <= recommendedAction < actionNumbers
    }

    constructor (actionCount: nat)
      ensures Valid() && actionNumbers == actionCount
      ensures regretSum == Zeros(actionCount) && strategySum == Zeros(actionCount)
      ensures utility == Zeros(actionCount) && recommendedAction == -1
    {
      actionNumbers := actionCount;
      regretSum := Zeros(actionCount);
      strategySum := Zeros(actionCount);
      utility := Zeros(actionCount);
      recommendedAction := -1;
    }

    /** `getStrategy`: regret matching on `regretSum`; the result is also added to
        `strategySum`. */
    method GetStrategy() returns (strategy: seq<real>)
      requires Valid()
      modifies this`strategySum
      ensures Valid()
      ensures strategy == RegretMatch(regretSum)
      ensures actionNumbers > 0 ==> IsDistribution(strategy)
      ensures strategySum == Add(old(strategySum), strategy)
    {
      strategy := RegretMatch(regretSum);
      if actionNumbers > 0 {
        RegretMatchIsDistribution(regretSum);
      }
      strategySum := Add(strategySum, strategy);
    }

    /** `recommend`: draws an action from the current strategy and remembers it. */
    method Recommend(r: real) returns (action: int)
      requires Valid()
      modifies this`strategySum, this`recommendedAction
      ensures Valid()
      ensures action == recommendedAction
      ensures action == PickedAction(RegretMatch(regretSum), r)
      ensures strategySum == Add(old(strategySum), RegretMatch(regretSum))
      ensures r > 0.0 && actionNumbers > 0 ==> 0 <= action
    {
      var strategy := GetStrategy();
      if actionNumbers > 0 {
        RegretMatchIsDistribution(regretSum);
      } else {
        assert NonNegative(strategy);
      }
      action := GetAction(strategy, r);
      recommendedAction := action;
    }

    /** `observe`: each action's regret grows by how much better it would have done than the
        recommended one (Python's `u[-1]` when nothing was recommended yet). With no actions
        the lookup `utility[recommended_action]` raises an IndexError (`ok` false) after the
        utility is stored, and the regrets stay as they were. */
    method Observe(u: seq<real>) returns (ok: bool)
      requires Valid() && |u| == actionNumbers
      modifies this`utility, this`regretSum
      ensures Valid() && utility == u
      ensures ok <==> actionNumbers > 0
      ensures !ok ==> regretSum == old(regretSum)
      ensures ok ==> forall a :: 0 <= a < actionNumbers ==>
        regretSum[a] == old(regretSum[a]) + (u[a] - u[PyIndex(actionNumbers, recommendedAction)])
    {
      utility := u;
      ok := actionNumbers > 0;
      if ok {
        var n, base, regrets := actionNumbers, u[PyIndex(actionNumbers, recommendedAction)], regretSum;
        regretSum := seq(n, a requires 0 <= a < n => regrets[a] + (u[a] - base));
      }
    }

    /** `getAverageStrategy`: `strategySum` normalised, uniform when it sums to at most 0. */
    function GetAverageStrategy(): (avg: seq<real>)
      reads this
      requires Valid()
      ensures avg == Normalize(strategySum)
      ensures |avg| == actionNumbers
    {
      var total := Sum(strategySum);
      if total > 0.0 then Divide(strategySum, total) else Uniform(actionNumbers)
    }
  }

  /** The matrix `m` with every row regret-matched. */
  function RegretMatchRows(m: seq<seq<real>>): (r: seq<seq<real>>)
    ensures |r| == |m|
    ensures forall i :: 0 <= i < |m| ==> r[i] == RegretMatch(m[i])
  {
    seq(|m|, i requires 0 <= i < |m| => RegretMatch(m[i]))
  }

  function AddRows(a: seq<seq<real>>, b: seq<seq<real>>): (r: seq<seq<real>>)
    requires |a| == |b| && forall i :: 0 <= i < |a| ==> |a[i]| == |b[i]|
    ensures |r| == |a|
    ensures forall i :: 0 <= i < |a| ==> r[i] == Add(a[i], b[i])
  {
    seq(|a|, i requires 0 <= i < |a| => Add(a[i], b[i]))
  }

  ghost predicate Square(m: seq<seq<real>>, n: nat)
  {
    |m| == n && forall i :: 0 <= i < n ==> |m[i]| == n
  }

  /** What `getAverageStrategy` returns for the internal minimiser: the normalised matrix, or
      the uniform vector (not a matrix) when the matrix sums to at most 0. */
  datatype Average = Matrix(rows: seq<seq<real>>) | Vector(entries: seq<real>)

  function SumRows(m: seq<seq<real>>): real
  {
    if m == [] then 0.0 else Sum(m[0]) + SumRows(m[1..])
  }

  /** One row of the internal minimiser's regret update: `row + w * u - w * u[rc]`. */
  function ObservedRow(row: seq<real>, u: seq<real>, w: real, rc: int): (r: seq<real>)
    requires |row| == |u| && 0 <= rc < |u|
    ensures |r| == |row|
    ensures forall a :: 0 <= a < |row| ==> r[a] == row[a] + (w * u[a] - w * u[rc])
    ensures r[rc] == row[rc]
  {
    seq(|row|, a requires 0 <= a < |row| => row[a] + (w * u[a] - w * u[rc]))
  }

  /** The internal (swap) regret minimiser (`InternalRM`). */
  class InternalRM {
    var actionNumbers: nat
    var regretSum: seq<seq<real>>
    var strategySum: seq<seq<real>>
    var utility: seq<seq<real>>
    var recommendedAction: int
    var rcmdAction: seq<int>
    /** The stationary distribution of the last strategy matrix, `None` before the first
        `getStrategy`. */
    var p: Option<seq<real>>

    ghost predicate Valid()
      reads this
    {
      Square(regretSum, actionNumbers) && Square(strategySum, actionNumbers)
      && Square(utility, actionNumbers)
      && |rcmdAction| == actionNumbers
      && (forall i :: 0 <= i < actionNumbers ==> -1 <= rcmdAction[i] < actionNumbers)
      && -1 <= recommendedAction < actionNumbers
      && (p.Some? ==> |p.value| == actionNumbers)
    }

    /** `InternalRM()`: the default of two actions is the only one the solvers use. */
    constructor (actionCount: nat)
      ensures Valid() && actionNumbers == actionCount
      ensures regretSum == seq(actionCount, _ => Zeros(actionCount))
      ensures strategySum == seq(actionCount, _ => Zeros(actionCount))
      ensures rcmdAction == seq(actionCount, _ => 0)
      ensures recommendedAction == -1 && p == None
    {
      actionNumbers := actionCount;
      regretSum := seq(actionCount, _ => Zeros(actionCount));
      strategySum := seq(actionCount, _ => Zeros(actionCount));
      utility := seq(actionCount, _ => Zeros(actionCount));
      rcmdAction := seq(actionCount, _ => 0);
      recommendedAction := -1;
      p := None;
    }

    /** `getStrategy` up to the stationary distribution: each row of the regret matrix is
        regret-matched, row `i` draws `rcmdAction[i]` with `draws[i]`, and the matrix is added
        to `strategySum`. The stationary distribution `stationary` of the matrix is given. */
    method GetStrategy(draws: seq<real>, stationary: seq<real>) returns (res: seq<real>)
      requires Valid() && |draws| == actionNumbers && |stationary| == actionNumbers
      modifies this`rcmdAction, this`strategySum, this`p
      ensures Valid() && res == stationary && p == Some(stationary)
      ensures strategySum == AddRows(old(strategySum), RegretMatchRows(regretSum))
      ensures forall i :: 0 <= i < actionNumbers ==>
        rcmdAction[i] == PickedAction(RegretMatch(regretSum[i]), draws[i])
    {
      var rows := RegretMatchRows(regretSum);
      var i := 0;
      while i < actionNumbers
        invariant 0 <= i <= actionNumbers
        invariant strategySum == old(strategySum) && |rcmdAction| == actionNumbers
        invariant forall k :: 0 <= k < actionNumbers ==> -1 <= rcmdAction[k] < actionNumbers
        invariant forall k :: 0 <= k < i ==> rcmdAction[k] == PickedAction(rows[k], draws[k])
      {
        RegretMatchIsDistribution(regretSum[i]);
        var a := GetAction(rows[i], draws[i]);
        rcmdAction := rcmdAction[i := a];
        i := i + 1;
      }
      assert forall k :: 0 <= k < actionNumbers ==> |rows[k]| == |strategySum[k]|;
      strategySum := AddRows(strategySum, rows);
      p := Some(stationary);
      res := stationary;
    }

    /** `recommend`: draws the recommended action from the stationary distribution. */
    method Recommend(draws: seq<real>, stationary: seq<real>, r: real) returns (action: int)
      requires Valid() && |draws| == actionNumbers && |stationary| == actionNumbers
      modifies this`rcmdAction, this`strategySum, this`p, this`recommendedAction
      ensures Valid() && action == recommendedAction && p == Some(stationary)
      ensures NonNegative(stationary) ==> action == PickedAction(stationary, r)
      ensures strategySum == AddRows(old(strategySum), RegretMatchRows(regretSum))
      ensures forall i :: 0 <= i < actionNumbers ==>
        rcmdAction[i] == PickedAction(RegretMatch(regretSum[i]), draws[i])
    {
      var s := GetStrategy(draws, stationary);
      action := GetAction(s, r);
      recommendedAction := action;
    }

    /** `observe`: row `i` of the regret matrix grows by `p[i] * u` minus `p[i]` times the
        utility of the action row `i` recommended, so that entry stays as it was. */
    method Observe(u: seq<real>)
      requires Valid() && |u| == actionNumbers && p.Some?
      modifies this`utility, this`regretSum
      ensures Valid()
      ensures forall i :: 0 <= i < actionNumbers ==> utility[i] == Scale(u, p.value[i])
      ensures forall i :: 0 <= i < actionNumbers ==>
        regretSum[i] == ObservedRow(old(regretSum[i]), u, p.value[i], PyIndex(actionNumbers, rcmdAction[i]))
    {
      var n := actionNumbers;
      var pv := p.value;
      var i := 0;
      while i < n
        invariant 0 <= i <= n
        invariant Square(utility, n) && |regretSum| == n
        invariant forall k :: 0 <= k < i ==> utility[k] == Scale(u, pv[k])
        invariant forall k :: 0 <= k < i ==>
          regretSum[k] == ObservedRow(old(regretSum[k]), u, pv[k], PyIndex(n, rcmdAction[k]))
        invariant forall k :: i <= k < n ==> regretSum[k] == old(regretSum[k])
      {
        var row := Scale(u, pv[i]);
        utility := utility[i := row];
        regretSum := regretSum[i := ObservedRow(regretSum[i], u, pv[i], PyIndex(n, rcmdAction[i]))];
        i := i + 1;
      }
    }

    /** `getAverageStrategy` on the matrix. */
    function GetAverageStrategy(): (avg: Average)
      reads this
      requires Valid()
      ensures SumRows(strategySum) > 0.0 ==>
        avg.Matrix? && |avg.rows| == actionNumbers
        && forall i :: 0 <= i < actionNumbers ==> avg.rows[i] == Divide(strategySum[i], SumRows(strategySum))
      ensures SumRows(strategySum) <= 0.0 ==> avg == Vector(Uniform(actionNumbers))
    {
      var total := SumRows(strategySum);
      if total > 0.0 then
        var n, m := actionNumbers, strategySum;
        Matrix(seq(n, i requires 0 <= i < n => Divide(m[i], total)))
      else Vector(Uniform(actionNumbers))
    }
  }
}
