/** Real-valued vectors: sums, products, positive parts and the normalisations used by
    regret matching and by the average strategies. */
module RealSeq {

  function Sum(s: seq<real>): real
  {
    if s == [] then 0.0 else s[0] + Sum(s[1..])
  }

  function Prod(s: seq<real>): real
  {
    if s == [] then 1.0 else s[0] * Prod(s[1..])
  }

  /** Product of every entry except entry `i` (the reach of the other players). */
  function ProdExcept(s: seq<real>, i: int): real
  {
    if s == [] then 1.0
    else (if i == 0 then 1.0 else s[0]) * ProdExcept(s[1..], i - 1)
  }

  function Pos(x: real): real
  {
    if x > 0.0 then x else 0.0
  }

  /** `np.maximum(s, 0)`. */
  function PosPart(s: seq<real>): (r: seq<real>)
    ensures |r| == |s|
    ensures forall i :: 0 <= i < |s| ==> r[i] == Pos(s[i])
  {
    seq(|s|, i requires 0 <= i < |s| => Pos(s[i]))
  }

  /** `[1 / n] * n`. */
  function Uniform(n: nat): (r: seq<real>)
    ensures |r| == n
    ensures forall i :: 0 <= i < n ==> r[i] == 1.0 / n as real
  {
    seq(n, i requires 0 <= i < n => 1.0 / n as real)
  }

  /** `s / c`, entry by entry. */
  function Divide(s: seq<real>, c: real): (r: seq<real>)
    requires c != 0.0
    ensures |r| == |s|
    ensures forall i :: 0 <= i < |s| ==> r[i] == s[i] / c
  {
    seq(|s|, i requires 0 <= i < |s| => s[i] / c)
  }

  /** `s / sum(s)` when the sum is positive, the uniform vector otherwise. */
  function Normalize(s: seq<real>): (r: seq<real>)
    ensures |r| == |s|
  {
    var total := Sum(s);
    if total > 0.0 then Divide(s, total) else Uniform(|s|)
  }

  /** Regret matching: the positive parts of the regrets, normalised, or uniform when no regret
      is positive. */
  function RegretMatch(regrets: seq<real>): (r: seq<real>)
    ensures |r| == |regrets|
  {
    Normalize(PosPart(regrets))
  }

  ghost predicate NonNegative(s: seq<real>)
  {
    forall i :: 0 <= i < |s| ==> s[i] >= 0.0
  }

  ghost predicate IsDistribution(s: seq<real>)
  {
    NonNegative(s) && Sum(s) == 1.0
  }

  function Scale(s: seq<real>, c: real): (r: seq<real>)
    ensures |r| == |s|
    ensures forall i :: 0 <= i < |s| ==> r[i] == s[i] * c
  {
    seq(|s|, i requires 0 <= i < |s| => s[i] * c)
  }

  function Add(a: seq<real>, b: seq<real>): (r: seq<real>)
    requires |a| == |b|
    ensures |r| == |a|
    ensures forall i :: 0 <= i < |a| ==> r[i] == a[i] + b[i]
  {
    seq(|a|, i requires 0 <= i < |a| => a[i] + b[i])
  }

  function Zeros(n: nat): (r: seq<real>)
    ensures |r| == n
    ensures forall i :: 0 <= i < n ==> r[i] == 0.0
  {
    seq(n, i requires 0 <= i < n => 0.0)
  }

  lemma {:induction false} SumScale(s: seq<real>, c: real)
    ensures Sum(Scale(s, c)) == Sum(s) * c
  {
    if s != [] {
      SumScale(s[1..], c);
      ScaleTail(s, c);
      Distributes(s[0], Sum(s[1..]), c);
    }
  }

  lemma ScaleTail(s: seq<real>, c: real)
    requires s != []
    ensures Sum(Scale(s, c)) == s[0] * c + Sum(Scale(s[1..], c))
  {
    var t := Scale(s, c);
    assert t[1..] == Scale(s[1..], c) by {
      forall i | 0 <= i < |s| - 1 ensures t[1..][i] == Scale(s[1..], c)[i] {
        assert s[1..][i] == s[i + 1];
      }
    }
  }

  lemma Distributes(x: real, y: real, c: real)
    ensures (x + y) * c == x * c + y * c
  {
  }

  lemma {:induction false} SumAppend(a: seq<real>, b: seq<real>)
    ensures Sum(a + b) == Sum(a) + Sum(b)
  {
    if a != [] {
      assert (a + b)[0] == a[0];
      assert (a + b)[1..] == a[1..] + b;
      SumAppend(a[1..], b);
      assert Sum(a + b) == (a + b)[0] + Sum((a + b)[1..]);
    } else {
      assert a + b == b;
    }
  }

  /** The running sum over `s[..k]` grows by `s[k]`. */
  lemma {:induction false} SumAdd(a: seq<real>, b: seq<real>)
    requires |a| == |b|
    ensures Sum(Add(a, b)) == Sum(a) + Sum(b)
  {
    if a != [] {
      assert Add(a, b)[1..] == Add(a[1..], b[1..]);
      SumAdd(a[1..], b[1..]);
    }
  }

  lemma PrefixSumStep(s: seq<real>, k: nat)
    requires k < |s|
    ensures Sum(s[..k + 1]) == Sum(s[..k]) + s[k]
  {
    assert s[..k + 1] == s[..k] + [s[k]];
    SumAppend(s[..k], [s[k]]);
  }

  /** With non-negative entries the running sums never decrease. */
  lemma {:induction false} PrefixSumMonotone(s: seq<real>, j: nat, k: nat)
    requires NonNegative(s) && j <= k <= |s|
    ensures Sum(s[..j]) <= Sum(s[..k])
  {
    if j < k {
      PrefixSumMonotone(s, j, k - 1);
      PrefixSumStep(s, k - 1);
    }
  }

  lemma {:induction false} SumConst(n: nat, c: real)
    ensures Sum(seq(n, i requires 0 <= i < n => c)) == n as real * c
  {
    if n > 0 {
      SumConst(n - 1, c);
      assert seq(n, i requires 0 <= i < n => c)[1..] == seq(n - 1, i requires 0 <= i < n - 1 => c);
    }
  }

  lemma {:induction false} SumNonNegative(s: seq<real>)
    requires NonNegative(s)
    ensures Sum(s) >= 0.0
  {
    if s != [] {
      SumNonNegative(s[1..]);
    }
  }

  lemma UniformIsDistribution(n: nat)
    requires n > 0
    ensures IsDistribution(Uniform(n))
  {
    SumConst(n, 1.0 / n as real);
    assert Uniform(n) == seq(n, i requires 0 <= i < n => 1.0 / n as real);
  }

  lemma DivIsMulInverse(x: real, y: real)
    requires y > 0.0
    ensures x / y == x * (1.0 / y)
  {
  }

  lemma DivideIsScale(s: seq<real>, c: real)
    requires c > 0.0
    ensures Divide(s, c) == Scale(s, 1.0 / c)
  {
    forall i | 0 <= i < |s| ensures Divide(s, c)[i] == Scale(s, 1.0 / c)[i] {
      DivIsMulInverse(s[i], c);
    }
  }

  /** Dividing non-negative weights with a positive total by that total gives a probability
      vector. */
  lemma ScaledIsDistribution(s: seq<real>, total: real)
    requires NonNegative(s) && total > 0.0 && Sum(s) == total
    ensures IsDistribution(Scale(s, 1.0 / total))
  {
    var inv := 1.0 / total;
    SumScale(s, inv);
    assert total * inv == 1.0;
    forall i | 0 <= i < |s| ensures Scale(s, inv)[i] >= 0.0 {
      assert s[i] >= 0.0 && inv > 0.0;
    }
  }

  /** Normalising non-negative weights gives a probability vector; when the weights sum to a
      positive value each entry is its weight's share, otherwise the vector is uniform. */
  lemma NormalizeIsDistribution(s: seq<real>)
    requires |s| > 0 && NonNegative(s)
    ensures IsDistribution(Normalize(s))
    ensures Sum(s) > 0.0 ==> forall i :: 0 <= i < |s| ==> Normalize(s)[i] == s[i] / Sum(s)
    ensures Sum(s) <= 0.0 ==> Normalize(s) == Uniform(|s|)
  {
    var total := Sum(s);
    if total > 0.0 {
      DivideIsScale(s, total);
      ScaledIsDistribution(s, total);
    } else {
      UniformIsDistribution(|s|);
    }
  }

  /** Regret matching yields a probability vector proportional to the positive regrets, and the
      uniform vector when no regret is positive. */
  lemma RegretMatchIsDistribution(regrets: seq<real>)
    requires |regrets| > 0
    ensures IsDistribution(RegretMatch(regrets))
    ensures Sum(PosPart(regrets)) > 0.0 ==>
      forall a :: 0 <= a < |regrets| ==> RegretMatch(regrets)[a] == Pos(regrets[a]) / Sum(PosPart(regrets))
    ensures Sum(PosPart(regrets)) <= 0.0 ==> RegretMatch(regrets) == Uniform(|regrets|)
  {
    NormalizeIsDistribution(PosPart(regrets));
  }

  /** With no positive regret the positive parts sum to 0, so regret matching is uniform
      exactly when every regret is at most 0. */
  lemma {:induction false} SumPosPartZero(s: seq<real>)
    ensures Sum(PosPart(s)) >= 0.0
    ensures Sum(PosPart(s)) == 0.0 <==> forall i :: 0 <= i < |s| ==> s[i] <= 0.0
  {
    if s != [] {
      SumPosPartZero(s[1..]);
      assert PosPart(s)[1..] == PosPart(s[1..]);
      if Sum(PosPart(s)) == 0.0 {
        forall i | 0 <= i < |s| ensures s[i] <= 0.0 {
          if i > 0 { assert s[i] == s[1..][i - 1]; }
        }
      }
      if forall i :: 0 <= i < |s| ==> s[i] <= 0.0 {
        forall i | 0 <= i < |s[1..]| ensures s[1..][i] <= 0.0 { assert s[1..][i] == s[i + 1]; }
      }
    }
  }

  /** Regrouping a product of three, with the factors named so that no product has to be
      matched up to rewriting. */
  lemma MulAssoc(x: real, a: real, b: real, c: real, bc: real)
    requires x == (a * b) * c && bc == b * c
    ensures x == a * bc
  {
  }
}
