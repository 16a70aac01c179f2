/** The helpers shared by the game generators: every ordering of a list, the Cantor pairing
    function and its inverse, and the conversion of nested lists into nested tuples. */
module GameUtilities {

  /** `p` is a reordering of `items`: the same elements, each as often. */
  ghost predicate IsReordering(p: seq<int>, items: seq<int>)
  {
    multiset(p) == multiset(items)
  }

  /** `items` without the entry at position `i`. */
  function Without(items: seq<int>, i: nat): (r: seq<int>)
    requires i < |items|
    ensures |r| == |items| - 1
    ensures multiset(r) + multiset{items[i]} == multiset(items)
  {
    assert items == items[..i] + [items[i]] + items[i + 1..];
    items[..i] + items[i + 1..]
  }

  /** A non-empty sequence is its prefix followed by its last element. */
  lemma LastSplit(p: seq<int>)
    requires p != []
    ensures p == p[..|p| - 1] + [p[|p| - 1]]
    ensures multiset(p) == multiset(p[..|p| - 1]) + multiset{p[|p| - 1]}
  {
    assert p == p[..|p| - 1] + [p[|p| - 1]];
  }

  /** `all_permutations(items)`: for each position `i`, every ordering of the other items
      followed by `items[i]`; duplicates are then dropped. The result holds every reordering
      of `items` exactly once, and nothing else. */
  method AllPermutations(items: seq<int>) returns (r: seq<seq<int>>)
    ensures items == [] ==> r == [[]]
    ensures forall p :: p in r ==> IsReordering(p, items)
    ensures forall p :: IsReordering(p, items) ==> p in r
    ensures forall i, j :: 0 <= i < j < |r| ==> r[i] != r[j]
    decreases |items|
  {
    if |items| == 0 {
      forall p | IsReordering(p, items) ensures p in [[]] {
        assert |multiset(p)| == 0;
      }
      return [[]];
    }
    var all: seq<seq<int>> := [];
    for i := 0 to |items|
      invariant forall p :: p in all ==> IsReordering(p, items)
      invariant forall p :: IsReordering(p, items) && p != [] && p[|p| - 1] in items[..i] ==> p in all
    {
      all := AppendOrderings(items, i, all);
      assert items[..i + 1] == items[..i] + [items[i]];
    }
    forall p | IsReordering(p, items) ensures p in all {
      assert |p| == |multiset(items)| == |items| > 0;
      assert p[|p| - 1] in multiset(p);
      assert items[..|items|] == items;
    }
    r := Dedup(all);
  }

  /** The body of the outer loop for position `i`: every ordering of the other items,
      followed by `items[i]`, appended to `all`. */
  method AppendOrderings(items: seq<int>, i: nat, all: seq<seq<int>>) returns (all': seq<seq<int>>)
    requires i < |items|
    requires forall p :: p in all ==> IsReordering(p, items)
    ensures forall p :: p in all ==> p in all'
    ensures forall p :: p in all' ==> IsReordering(p, items)
    ensures forall p :: IsReordering(p, items) && p != [] && p[|p| - 1] == items[i] ==> p in all'
    decreases |items|, 0
  {
    var item := items[i];
    var others := Without(items, i);
    var sub := AllPermutations(others);
    all' := AppendEach(all, sub, item, items, others);
    forall p | IsReordering(p, items) && p != [] && p[|p| - 1] == item ensures p in all' {
      FrontIsOrdering(p, items, others);
      var m :| 0 <= m < |sub| && sub[m] == p[..|p| - 1];
      assert sub[m] + [item] in all';
    }
  }

  /** The inner loop: each ordering of the other items, followed by `item`, appended. */
  method AppendEach(all: seq<seq<int>>, sub: seq<seq<int>>, item: int, ghost items: seq<int>, ghost others: seq<int>)
    returns (all': seq<seq<int>>)
    requires forall p :: p in all ==> IsReordering(p, items)
    requires forall q :: q in sub ==> IsReordering(q, others)
    requires multiset(others) + multiset{item} == multiset(items)
    ensures forall p :: p in all ==> p in all'
    ensures forall p :: p in all' ==> IsReordering(p, items)
    ensures forall m :: 0 <= m < |sub| ==> sub[m] + [item] in all'
  {
    all' := all;
    for k := 0 to |sub|
      invariant forall p :: p in all ==> p in all'
      invariant forall p :: p in all' ==> IsReordering(p, items)
      invariant forall m :: 0 <= m < k ==> sub[m] + [item] in all'
    {
      assert sub[k] in sub;
      assert multiset(sub[k] + [item]) == multiset(sub[k]) + multiset{item};
      all' := all' + [sub[k] + [item]];
    }
  }

  /** A reordering of `items` ending in `p[|p| - 1]` is a reordering of the other items
      followed by that entry. */
  lemma FrontIsOrdering(p: seq<int>, items: seq<int>, others: seq<int>)
    requires IsReordering(p, items) && p != []
    requires multiset(others) + multiset{p[|p| - 1]} == multiset(items)
    ensures IsReordering(p[..|p| - 1], others) && p == p[..|p| - 1] + [p[|p| - 1]]
  {
    LastSplit(p);
    assert multiset(p[..|p| - 1]) == multiset(items) - multiset{p[|p| - 1]};
  }

  /** `list(set(...))`: one copy of each entry, first occurrences kept in order. */
  method Dedup(all: seq<seq<int>>) returns (r: seq<seq<int>>)
    ensures forall p :: p in r <==> p in all
    ensures forall i, j :: 0 <= i < j < |r| ==> r[i] != r[j]
  {
    r := [];
    for k := 0 to |all|
      invariant forall p :: p in r <==> p in all[..k]
      invariant forall i, j :: 0 <= i < j < |r| ==> r[i] != r[j]
    {
      assert all[..k + 1] == all[..k] + [all[k]];
      if all[k] !in r {
        r := r + [all[k]];
      }
    }
    assert all[..|all|] == all;
  }

  // ---------------------------------------------------------------------------------------
  // The Cantor pairing.

  /** The triangular number `0 + 1 + ... + n`. */
  function Triangle(n: nat): nat
  {
    if n == 0 then 0 else Triangle(n - 1) + n
  }

  /** `2 T(n) = n (n + 1)` and `8 T(n) + 1 = (2n + 1)^2`. */
  lemma {:induction false} TriangleClosed(n: nat)
    ensures 2 * Triangle(n) == n * (n + 1)
    ensures 8 * Triangle(n) + 1 == (2 * n + 1) * (2 * n + 1)
  {
    if n > 0 {
      TriangleClosed(n - 1);
      assert (n - 1) * n + 2 * n == n * (n + 1);
    }
    assert (2 * n + 1) * (2 * n + 1) == 4 * (n * (n + 1)) + 1;
  }

  /** `pair_to_number(x, y)`: `(x + y + 1) (x + y) / 2 + y`. */
  function PairToNumber(x: nat, y: nat): nat
  {
    (x + y + 1) * (x + y) / 2 + y
  }

  /** The integer square root: the largest `r` with `r * r <= n`. */
  function Isqrt(n: nat): (r: nat)
    ensures r * r <= n < (r + 1) * (r + 1)
  {
    if n < 2 then n
    else
      var k := Isqrt(n / 4);
      var s := 2 * k;
      IsqrtStep(n, k);
      if (s + 1) * (s + 1) <= n then s + 1 else s
  }

  lemma IsqrtStep(n: nat, k: nat)
    requires k * k <= n / 4 < (k + 1) * (k + 1)
    ensures (2 * k) * (2 * k) <= n < (2 * k + 2) * (2 * k + 2)
  {
    var q := n / 4;
    assert n == 4 * q + n % 4;
    assert (2 * k) * (2 * k) == 4 * (k * k);
    assert (2 * k + 2) * (2 * k + 2) == 4 * ((k + 1) * (k + 1));
    assert (k + 1) * (k + 1) >= q + 1;
  }

  /** `number_to_pair(z)`: with `w` the largest number whose triangle is at most `z`
      (computed from the square root of `8 z + 1`), `y = z - w (w + 1) / 2` and `x = w - y`. */
  function NumberToPair(z: nat): (int, int)
  {
    var w := (Isqrt(8 * z + 1) - 1) / 2;
    var t := (w * w + w) / 2;
    var y := z - t;
    (w - y, y)
  }

  lemma MulMono(a: nat, b: nat)
    requires a <= b
    ensures a * a <= b * b
  {
    assert a * a <= a * b <= b * b;
  }

  /** The root `r` of `8 z + 1` lies in `[2w + 1, 2w + 2]` for `w = (r - 1) / 2`, so
      `(2w + 1)^2 <= 8 z + 1`. */
  lemma RootLower(n: nat, r: nat, w: nat)
    requires n >= 1 && r == Isqrt(n) && w == (r - 1) / 2
    ensures (2 * w + 1) * (2 * w + 1) <= n
  {
    HalfBounds(r, w);
    MulMono(2 * w + 1, r);
  }

  /** ... and `8 z + 1 < (2w + 3)^2`. */
  lemma RootUpper(n: nat, r: nat, w: nat)
    requires n >= 1 && r == Isqrt(n) && w == (r - 1) / 2
    ensures n < (2 * w + 3) * (2 * w + 3)
  {
    HalfBounds(r, w);
    MulMono(r + 1, 2 * w + 3);
  }

  lemma IsqrtPositive(n: nat)
    requires n >= 1
    ensures Isqrt(n) >= 1
  {
  }

  lemma HalfBounds(r: int, w: int)
    requires r >= 1 && w == (r - 1) / 2
    ensures 2 * w + 1 <= r <= 2 * w + 2
  {
  }

  /** The `w` computed by `number_to_pair` is the number whose triangle is the largest one
      not above `z`. */
  lemma RootIsTriangleIndex(z: nat, w: nat)
    requires w == (Isqrt(8 * z + 1) - 1) / 2
    ensures Triangle(w) <= z < Triangle(w + 1)
    ensures (w * w + w) / 2 == Triangle(w)
  {
    var n := 8 * z + 1;
    var r := Isqrt(n);
    IsqrtPositive(n);
    RootLower(n, r, w);
    RootUpper(n, r, w);
    TriangleClosed(w);
    TriangleClosed(w + 1);
    SquarePlus(w);
  }

  lemma SquarePlus(w: int)
    ensures w * w + w == w * (w + 1)
  {
  }

  /** A triangle index is determined by the interval holding `z`. */
  lemma TriangleIndexUnique(z: nat, v: nat, w: nat)
    requires Triangle(v) <= z < Triangle(v + 1) && Triangle(w) <= z < Triangle(w + 1)
    ensures v == w
  {
    if v < w {
      TriangleMono(v + 1, w);
    } else if w < v {
      TriangleMono(w + 1, v);
    }
  }

  lemma {:induction false} TriangleMono(a: nat, b: nat)
    requires a <= b
    ensures Triangle(a) <= Triangle(b)
    decreases b - a
  {
    if a < b {
      TriangleMono(a, b - 1);
    }
  }

  /** `number_to_pair(z)` splits `z` as `T(w) + y` with `T(w)` the largest triangle not
      above `z`. */
  lemma NumberToPairIs(z: nat, w: nat)
    requires w == (Isqrt(8 * z + 1) - 1) / 2
    ensures Triangle(w) <= z < Triangle(w + 1)
    ensures NumberToPair(z).0 == w - (z - Triangle(w)) && NumberToPair(z).1 == z - Triangle(w)
  {
    RootIsTriangleIndex(z, w);
  }

  /** `pair_to_number(x, y)` is `T(x + y) + y`. */
  lemma PairIsTriangle(x: nat, y: nat)
    ensures PairToNumber(x, y) == Triangle(x + y) + y
  {
    TriangleClosed(x + y);
    assert (x + y + 1) * (x + y) == (x + y) * (x + y + 1);
  }

  /** `number_to_pair(pair_to_number(x, y)) == (x, y)`. */
  lemma UnpairPair(x: nat, y: nat)
    ensures NumberToPair(PairToNumber(x, y)).0 == x && NumberToPair(PairToNumber(x, y)).1 == y
  {
    var z := PairToNumber(x, y);
    PairIsTriangle(x, y);
    UnpairTriangle(z, x + y, y);
    assert x + y - y == x;
  }

  /** A number `T(s) + y` with `y <= s` splits back into `s - y` and `y`. */
  lemma UnpairTriangle(z: nat, s: nat, y: nat)
    requires y <= s && z == Triangle(s) + y
    ensures NumberToPair(z).0 == s - y && NumberToPair(z).1 == y
  {
    assert Triangle(s + 1) == Triangle(s) + s + 1;
    var w := (Isqrt(8 * z + 1) - 1) / 2;
    NumberToPairIs(z, w);
    TriangleIndexUnique(z, w, s);
  }

  /** `pair_to_number(*number_to_pair(z)) == z`, both halves being non-negative. */
  lemma PairUnpair(z: nat)
    ensures NumberToPair(z).0 >= 0 && NumberToPair(z).1 >= 0
    ensures PairToNumber(NumberToPair(z).0, NumberToPair(z).1) == z
  {
    var x, y := UnpairParts(z);
  }

  /** The two halves of `number_to_pair(z)`, with the pairing of them. */
  lemma UnpairParts(z: nat) returns (x: nat, y: nat)
    ensures NumberToPair(z).0 == x && NumberToPair(z).1 == y
    ensures PairToNumber(x, y) == z
  {
    var w := (Isqrt(8 * z + 1) - 1) / 2;
    NumberToPairIs(z, w);
    assert Triangle(w + 1) == Triangle(w) + w + 1;
    y := z - Triangle(w);
    x := w - y;
    PairIsTriangle(x, y);
  }

  // ---------------------------------------------------------------------------------------
  // Nested lists and tuples.

  /** A value as `list_to_tuple` sees it: a list, a tuple, or anything else. */
  datatype PyValue = Atom(v: int) | PyList(items: seq<PyValue>) | PyTuple(items: seq<PyValue>)

  /** No list anywhere inside the value. */
  predicate ListFree(v: PyValue)
  {
    match v
    case Atom(_) => true
    case PyList(_) => false
    case PyTuple(items) => forall i :: 0 <= i < |items| ==> ListFree(items[i])
  }

  /** `list_to_tuple(l)`: every list and tuple, at any depth, becomes a tuple of the same
      entries converted in turn; other values are returned as they are. */
  function ListToTuple(v: PyValue): (r: PyValue)
    ensures v.Atom? ==> r == v
    ensures !v.Atom? ==> r.PyTuple? && |r.items| == |v.items|
    ensures ListFree(r)
    decreases v
  {
    match v
    case Atom(_) => v
    case PyList(items) => PyTuple(seq(|items|, i requires 0 <= i < |items| => ListToTuple(items[i])))
    case PyTuple(items) => PyTuple(seq(|items|, i requires 0 <= i < |items| => ListToTuple(items[i])))
  }

  /** Converting a value that holds no list changes nothing, so the conversion is idempotent. */
  lemma {:induction false} ListFreeFixed(v: PyValue)
    requires ListFree(v)
    ensures ListToTuple(v) == v
    decreases v
  {
    if v.PyTuple? {
      forall i | 0 <= i < |v.items| ensures ListToTuple(v.items[i]) == v.items[i] {
        ListFreeFixed(v.items[i]);
      }
    }
  }

  lemma ListToTupleIdempotent(v: PyValue)
    ensures ListToTuple(ListToTuple(v)) == ListToTuple(v)
  {
    ListFreeFixed(ListToTuple(v));
  }
}
