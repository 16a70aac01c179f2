/** Vanilla CFR and CFR+: the recursive value computation over the CFR tree, with the reach
    vector mutated before each child call and restored after it, the per-node visit counts, and
    the regret and strategy accumulation at the information sets of the traversing player. */
module Cfr {
  import opened Dicts
  import opened RealSeq
  import opened GameTree
  import opened CfrTrees
  import opened CfrWalks

  /** What a traversal updates: the information-set fields and the per-node visit counts. */
  datatype Acc = Acc(st: map<int, IsetState>, visits: map<seq<int>, real>)

  /** Every decision node below `n` belongs to a player in `[0, m)`. */
  ghost predicate PlayersIn(n: Node, m: nat)
  {
    match n
    case Leaf(_) => true
    case Decision(q, _, cs) => 0 <= q < m && forall i :: 0 <= i < |cs| ==> PlayersIn(cs[i], m)
    case Chance(_, cs) => forall i :: 0 <= i < |cs| ==> PlayersIn(cs[i], m)
  }

  /** Every decision label below `n` has a state whose regrets, strategy sums and current
      strategy have one entry per child. */
  ghost predicate Fit(n: Node, st: map<int, IsetState>)
  {
    match n
    case Leaf(_) => true
    case Decision(_, h, cs) =>
      h in st && |st[h].cumulativeRegret| == |cs| && |st[h].cumulativeStrategy| == |cs| &&
      |st[h].currentStrategy| == |cs| && forall i :: 0 <= i < |cs| ==> Fit(cs[i], st)
    case Chance(_, cs) => forall i :: 0 <= i < |cs| ==> Fit(cs[i], st)
  }

  /** `y` differs from `x` at most in its regret and strategy sums, which keep their lengths. */
  ghost predicate SumsOnly(x: IsetState, y: IsetState)
  {
    y == x.(cumulativeRegret := y.cumulativeRegret, cumulativeStrategy := y.cumulativeStrategy) &&
    |y.cumulativeRegret| == |x.cumulativeRegret| && |y.cumulativeStrategy| == |x.cumulativeStrategy|
  }

  /** A traversal keeps every key and every current strategy. */
  ghost predicate Kept(a: Acc, b: Acc)
  {
    b.visits.Keys == a.visits.Keys && b.st.Keys == a.st.Keys &&
    forall h :: h in a.st ==> SumsOnly(a.st[h], b.st[h])
  }

  lemma KeptTrans(a: Acc, b: Acc, c: Acc)
    requires Kept(a, b) && Kept(b, c)
    ensures Kept(a, c)
  {
  }

  lemma {:induction false} FitKept(n: Node, a: Acc, b: Acc)
    requires Fit(n, a.st) && Kept(a, b)
    ensures Fit(n, b.st)
    decreases n
  {
    if !n.Leaf? {
      forall i | 0 <= i < |n.children| ensures Fit(n.children[i], b.st) {
        FitKept(n.children[i], a, b);
      }
    }
  }

  /** The node at `path` and every node below it have a key in `keys`. */
  ghost predicate Counted(n: Node, path: seq<int>, keys: set<seq<int>>)
  {
    path in keys &&
    match n
    case Leaf(_) => true
    case Decision(_, _, cs) => forall i :: 0 <= i < |cs| ==> Counted(cs[i], path + [i], keys)
    case Chance(_, cs) => forall i :: 0 <= i < |cs| ==> Counted(cs[i], path + [i], keys)
  }

  lemma {:induction false} CountedFromKeys<V>(n: Node, path: seq<int>, m: map<seq<int>, V>)
    requires KeysBelow(n, path, m)
    ensures Counted(n, path, m.Keys)
    decreases n
  {
    assert ValidPath(n, []) && path + [] == path;
    if !n.Leaf? {
      forall i | 0 <= i < |n.children| ensures Counted(n.children[i], path + [i], m.Keys) {
        KeysBelowChild(n, path, m, i);
        CountedFromKeys(n.children[i], path + [i], m);
      }
    }
  }

  /** What a traversal of the node `n` at `path` needs: the traversing player and every
      acting player index the reach vector, leaves have a utility per player, chance nodes a
      probability per child, the states fit and every node below has a visit count. */
  ghost predicate Ready(n: Node, path: seq<int>, player: int, pi: seq<real>, acc: Acc)
  {
    0 <= player < |pi| && LeafWidth(n, |pi|) && PlayersIn(n, |pi|) && ChanceAligned(n) &&
    Fit(n, acc.st) && Counted(n, path, acc.visits.Keys)
  }

  lemma ReadyChild(n: Node, path: seq<int>, player: int, pi: seq<real>, acc: Acc, i: int, pi': seq<real>)
    requires Ready(n, path, player, pi, acc) && !n.Leaf? && 0 <= i < |n.children| && |pi'| == |pi|
    ensures Ready(n.children[i], path + [i], player, pi', acc)
  {
  }

  lemma ReadyKept(n: Node, path: seq<int>, player: int, pi: seq<real>, a: Acc, b: Acc)
    requires Ready(n, path, player, pi, a) && Kept(a, b)
    ensures Ready(n, path, player, pi, b)
  {
    FitKept(n, a, b);
  }

  /** `res` plus the value `x` weighted by the probability `p`. */
  function Weighted(res: real, x: real, p: real): real
  {
    res + x * p
  }

  /** The sum of `vs[a] * w[a]`, accumulated from the first action to the last. */
  function Dot(vs: seq<real>, w: seq<real>): real
    requires |vs| <= |w|
  {
    if vs == [] then 0.0 else Weighted(Dot(vs[..|vs| - 1], w), vs[|vs| - 1], w[|vs| - 1])
  }

  function Max0(x: real): real
  {
    if x > 0.0 then x else 0.0
  }

  /** The regrets after one update with the action values `vs`, the node value `v` and the
      other players' reach `piOther`; CFR+ clamps each updated regret at 0. */
  function UpdatedRegrets(reg: seq<real>, vs: seq<real>, v: real, piOther: real, plus: bool): (r: seq<real>)
    requires |vs| == |reg|
    ensures |r| == |reg|
  {
    seq(|reg|, a requires 0 <= a < |reg| =>
      if plus then Max0(reg[a] + piOther * (vs[a] - v)) else reg[a] + piOther * (vs[a] - v))
  }

  /** The strategy sums after adding the current strategy weighted by the player's reach. */
  function UpdatedStrategySums(sums: seq<real>, sigma: seq<real>, reach: real): (r: seq<real>)
    requires |sigma| == |sums|
    ensures |r| == |sums|
  {
    seq(|sums|, a requires 0 <= a < |sums| => sums[a] + reach * sigma[a])
  }

  /** The state with the visit count of the node at `path` grown by `w`. */
  function Visited(acc: Acc, path: seq<int>, w: real): Acc
    requires path in acc.visits
  {
    acc.(visits := acc.visits[path := acc.visits[path] + w])
  }

  lemma PathVisited(n: Node, path: seq<int>, player: int, pi: seq<real>, acc: Acc)
    requires Ready(n, path, player, pi, acc)
    ensures path in acc.visits
  {
  }

  lemma VisitedReady(n: Node, path: seq<int>, player: int, pi: seq<real>, acc: Acc)
    requires Ready(n, path, player, pi, acc)
    ensures path in acc.visits
    ensures forall w :: Kept(acc, Visited(acc, path, w)) && Ready(n, path, player, pi, Visited(acc, path, w))
  {
    forall w ensures Kept(acc, Visited(acc, path, w)) && Ready(n, path, player, pi, Visited(acc, path, w)) {
      ReadyKept(n, path, player, pi, acc, Visited(acc, path, w));
    }
  }

  /** `CFR(node, player, pi, use_cfr_plus)` as a function of the traversal state: the value of
      the node for `player` and the state after the call. The node's visit count first grows by
      the product of `pi`; a leaf gives its utility for `player`, a chance node the
      distribution-weighted sum of its children's values (forwarding the CFR+ flag), and a
      decision node the strategy-weighted sum of its children's values, computed with the
      actor's reach scaled by each action's probability and without the CFR+ flag, followed by
      the regret and strategy update when the actor is `player`. */
  function Walk(n: Node, path: seq<int>, player: int, pi: seq<real>, plus: bool, acc: Acc): (r: (real, Acc))
    requires Ready(n, path, player, pi, acc)
    ensures Kept(acc, r.1)
    decreases n, |ChildrenOf(n)| + 1
  {
    VisitedReady(n, path, player, pi, acc);
    var acc1 := Visited(acc, path, Prod(pi));
    match n
    case Leaf(u) => (u[player], acc1)
    case Chance(_, _) => ChanceSum(n, path, player, pi, plus, acc1, 0, 0.0)
    case Decision(q, h, cs) =>
      var alt := Alternatives(n, path, player, pi, acc.st[h].currentStrategy, acc1, 0);
      var vs := alt.0;
      var acc2 := alt.1;
      FitKept(n, acc1, acc2);
      var v := Dot(vs, acc.st[h].currentStrategy);
      if q != player then (v, acc2)
      else
        var s := acc2.st[h];
        var s' := s.(cumulativeRegret := UpdatedRegrets(s.cumulativeRegret, vs, v, ProdExcept(pi, player), plus),
                     cumulativeStrategy := UpdatedStrategySums(s.cumulativeStrategy, s.currentStrategy, pi[player]));
        (v, acc2.(st := acc2.st[h := s']))
  }

  /** The loop over the children of a chance node from child `i` on, `res` holding the
      weighted sum so far. */
  function ChanceSum(n: Node, path: seq<int>, player: int, pi: seq<real>, plus: bool, acc: Acc, i: nat, res: real): (r: (real, Acc))
    requires n.Chance? && i <= |n.children| && Ready(n, path, player, pi, acc)
    ensures Kept(acc, r.1)
    decreases n, |n.children| - i
  {
    if i == |n.children| then (res, acc)
    else
      ReadyChild(n, path, player, pi, acc, i, pi);
      var c := Walk(n.children[i], path + [i], player, pi, plus, acc);
      ReadyKept(n, path, player, pi, acc, c.1);
      var r := ChanceSum(n, path, player, pi, plus, c.1, i + 1, Weighted(res, c.0, n.distribution[i]));
      KeptTrans(acc, c.1, r.1);
      r
  }

  /** `pi` with the reach of player `q` multiplied by `x`. */
  function ScaleAt(pi: seq<real>, q: int, x: real): (r: seq<real>)
    requires 0 <= q < |pi|
    ensures |r| == |pi|
  {
    pi[q := pi[q] * x]
  }

  lemma ScaleAtUpdate(pi: seq<real>, q: int, x: real, y: real)
    requires 0 <= q < |pi| && y == pi[q]
    ensures ScaleAt(pi, q, x) == pi[q := y * x]
  {
    var z := y * x;
    assert pi[q] * x == z;
    assert pi[q := z][q] == z;
  }

  /** The loop over the actions of a decision node from action `i` on: the value of each
      child computed with the actor's reach multiplied by the action's probability, without
      the CFR+ flag. */
  function Alternatives(n: Node, path: seq<int>, player: int, pi: seq<real>, sigma: seq<real>, acc: Acc, i: nat): (r: (seq<real>, Acc))
    requires n.Decision? && i <= |n.children| == |sigma| && Ready(n, path, player, pi, acc)
    ensures |r.0| == |n.children| - i && Kept(acc, r.1)
    decreases n, |n.children| - i
  {
    if i == |n.children| then ([], acc)
    else
      var pi' := ScaleAt(pi, n.player, sigma[i]);
      ReadyChild(n, path, player, pi, acc, i, pi');
      var c := Walk(n.children[i], path + [i], player, pi', false, acc);
      ReadyKept(n, path, player, pi, acc, c.1);
      var rest := Alternatives(n, path, player, pi, sigma, c.1, i + 1);
      KeptTrans(acc, c.1, rest.1);
      ([c.0] + rest.0, rest.1)
  }

  /** One step of the action loop: the child's traversal `c` and the rest of the loop. */
  lemma AlternativesStep(n: Node, path: seq<int>, player: int, pi: seq<real>, sigma: seq<real>, acc: Acc, i: nat)
      returns (c: (real, Acc))
    requires n.Decision? && i < |n.children| == |sigma| && Ready(n, path, player, pi, acc)
    ensures Ready(n.children[i], path + [i], player, ScaleAt(pi, n.player, sigma[i]), acc)
    ensures c == Walk(n.children[i], path + [i], player, ScaleAt(pi, n.player, sigma[i]), false, acc)
    ensures Ready(n, path, player, pi, c.1)
    ensures Alternatives(n, path, player, pi, sigma, acc, i).0 == [c.0] + Alternatives(n, path, player, pi, sigma, c.1, i + 1).0
    ensures Alternatives(n, path, player, pi, sigma, acc, i).1 == Alternatives(n, path, player, pi, sigma, c.1, i + 1).1
  {
    var pi' := ScaleAt(pi, n.player, sigma[i]);
    ReadyChild(n, path, player, pi, acc, i, pi');
    c := Walk(n.children[i], path + [i], player, pi', false, acc);
    ReadyKept(n, path, player, pi, acc, c.1);
    assert i != |n.children|;
    var l := Alternatives(n, path, player, pi, sigma, acc, i);
    var r := Alternatives(n, path, player, pi, sigma, c.1, i + 1);
    assert l.1 == r.1;
    assert l.0 == [c.0] + r.0;
  }

  /** One step of the chance loop: the child's traversal `c` and the rest of the loop. */
  lemma ChanceSumStep(n: Node, path: seq<int>, player: int, pi: seq<real>, plus: bool, acc: Acc, i: nat, res: real)
      returns (c: (real, Acc))
    requires n.Chance? && i < |n.children| && Ready(n, path, player, pi, acc)
    ensures Ready(n.children[i], path + [i], player, pi, acc)
    ensures c == Walk(n.children[i], path + [i], player, pi, plus, acc)
    ensures Ready(n, path, player, pi, c.1)
    ensures ChanceSum(n, path, player, pi, plus, acc, i, res) ==
      ChanceSum(n, path, player, pi, plus, c.1, i + 1, Weighted(res, c.0, n.distribution[i]))
  {
    ReadyChild(n, path, player, pi, acc, i, pi);
    c := Walk(n.children[i], path + [i], player, pi, plus, acc);
    ReadyKept(n, path, player, pi, acc, c.1);
    assert i != |n.children|;
  }

  // ---------------------------------------------------------------------------------------
  // The traversal with the reach vector in an array.

  lemma DotSnoc(vs: seq<real>, w: seq<real>, x: real)
    requires |vs| < |w|
    ensures Dot(vs + [x], w) == Weighted(Dot(vs, w), x, w[|vs|])
  {
    assert (vs + [x])[..|vs|] == vs;
  }

  lemma {:induction false} ProdExceptSnoc(s: seq<real>, x: real, k: int)
    ensures ProdExcept(s + [x], k) == ProdExcept(s, k) * (if k == |s| then 1.0 else x)
    decreases |s|
  {
    if s == [] {
      assert [x][1..] == [];
    } else {
      assert (s + [x])[1..] == s[1..] + [x];
      ProdExceptSnoc(s[1..], x, k - 1);
    }
  }

  lemma {:induction false} ProdSnoc(s: seq<real>, x: real)
    ensures Prod(s + [x]) == Prod(s) * x
    decreases |s|
  {
    if s == [] {
      assert [x][1..] == [];
    } else {
      assert (s + [x])[1..] == s[1..] + [x];
      ProdSnoc(s[1..], x);
    }
  }

  /** The product of the reach vector, `reduce(mul, pi, 1)`. */
  method ReachProduct(pi: array<real>) returns (r: real)
    ensures r == Prod(pi[..])
  {
    r := 1.0;
    var i := 0;
    while i < pi.Length
      invariant 0 <= i <= pi.Length && r == Prod(pi[..i])
    {
      assert pi[..i + 1] == pi[..i] + [pi[i]];
      ProdSnoc(pi[..i], pi[i]);
      r := r * pi[i];
      i := i + 1;
    }
    assert pi[..i] == pi[..];
  }

  /** The reach of every player but `player`. */
  method OthersReach(pi: array<real>, player: int) returns (r: real)
    ensures r == ProdExcept(pi[..], player)
  {
    r := 1.0;
    var i := 0;
    while i < pi.Length
      invariant 0 <= i <= pi.Length && r == ProdExcept(pi[..i], player)
    {
      assert pi[..i + 1] == pi[..i] + [pi[i]];
      ProdExceptSnoc(pi[..i], pi[i], player);
      if i != player {
        r := r * pi[i];
      }
      i := i + 1;
    }
    assert pi[..i] == pi[..];
  }

  /** The update loop at a decision node of `player`. */
  method UpdateSums(s: IsetState, vs: seq<real>, v: real, piOther: real, reach: real, plus: bool) returns (s': IsetState)
    requires |vs| == |s.cumulativeRegret| == |s.cumulativeStrategy| == |s.currentStrategy|
    ensures s' == s.(cumulativeRegret := UpdatedRegrets(s.cumulativeRegret, vs, v, piOther, plus),
                     cumulativeStrategy := UpdatedStrategySums(s.cumulativeStrategy, s.currentStrategy, reach))
  {
    ghost var regrets := UpdatedRegrets(s.cumulativeRegret, vs, v, piOther, plus);
    ghost var strategySums := UpdatedStrategySums(s.cumulativeStrategy, s.currentStrategy, reach);
    var reg := s.cumulativeRegret;
    var sums := s.cumulativeStrategy;
    var a := 0;
    while a < |vs|
      invariant 0 <= a <= |vs| && |reg| == |sums| == |vs|
      invariant forall j :: 0 <= j < |vs| ==> reg[j] == if j < a then regrets[j] else s.cumulativeRegret[j]
      invariant forall j :: 0 <= j < |vs| ==> sums[j] == if j < a then strategySums[j] else s.cumulativeStrategy[j]
    {
      var r := reg[a] + piOther * (vs[a] - v);
      if plus {
        r := Max0(r);
      }
      assert r == regrets[a];
      var w := sums[a] + reach * s.currentStrategy[a];
      assert w == strategySums[a];
      reg, sums := reg[a := r], sums[a := w];
      a := a + 1;
    }
    assert reg == regrets && sums == strategySums;
    s' := s.(cumulativeRegret := reg, cumulativeStrategy := sums);
  }

  /** `CFR(node, player, pi, use_cfr_plus)` on the node `n` at `path`: the shared reach array
      is scaled before each child call and restored after it, so it is as it was on return,
      and the value and new state are those of `Walk`. */
  method CfrFrom(n: Node, path: seq<int>, player: int, pi: array<real>, plus: bool, acc: Acc) returns (v: real, out: Acc)
    requires Ready(n, path, player, pi[..], acc)
    modifies pi
    ensures pi[..] == old(pi[..])
    ensures (v, out) == Walk(n, path, player, old(pi[..]), plus, acc)
    decreases n, 2
  {
    ghost var pi0 := pi[..];
    VisitedReady(n, path, player, pi0, acc);
    var visits := ReachProduct(pi);
    var acc1 := Visited(acc, path, visits);
    if n.Chance? {
      WalkChance(n, path, player, pi0, plus, acc);
      v, out := ChanceChildren(n, path, player, pi, plus, acc1);
      return;
    }
    if n.Leaf? {
      return n.utility[player], acc1;
    }
    var q, h := n.player, n.infoset;
    assert h in acc.st && acc1.st == acc.st;
    var vs, cur;
    vs, v, cur := DecisionChildren(n, path, player, pi, acc.st[h].currentStrategy, acc1);
    WalkDecision(n, path, player, pi0, plus, acc);
    if q != player {
      return v, cur;
    }
    FitKept(n, acc1, cur);
    var piOther := OthersReach(pi, player);
    var s' := UpdateSums(cur.st[h], vs, v, piOther, pi[player], plus);
    out := cur.(st := cur.st[h := s']);
  }

  /** The loop over the children of a chance node: the distribution-weighted sum of their
      values, with the CFR+ flag forwarded. */
  method ChanceChildren(n: Node, path: seq<int>, player: int, pi: array<real>, plus: bool, acc: Acc) returns (res: real, out: Acc)
    requires n.Chance? && Ready(n, path, player, pi[..], acc)
    modifies pi
    ensures pi[..] == old(pi[..])
    ensures (res, out) == ChanceSum(n, path, player, old(pi[..]), plus, acc, 0, 0.0)
    decreases n, 1
  {
    ghost var pi0 := pi[..];
    res := 0.0;
    out := acc;
    var i := 0;
    while i < |n.children|
      invariant 0 <= i <= |n.children| && pi[..] == pi0
      invariant Ready(n, path, player, pi0, out)
      invariant ChanceSum(n, path, player, pi0, plus, acc, 0, 0.0) == ChanceSum(n, path, player, pi0, plus, out, i, res)
    {
      ghost var c := ChanceSumStep(n, path, player, pi0, plus, out, i, res);
      var x, next := CfrFrom(n.children[i], path + [i], player, pi, plus, out);
      res := Weighted(res, x, n.distribution[i]);
      out := next;
      i := i + 1;
    }
  }

  /** The loop over the actions of a decision node whose current strategy is `sigma`: the
      reach of the actor is scaled by each action's probability around the child's call,
      without the CFR+ flag, and `v` accumulates the strategy-weighted values. */
  method DecisionChildren(n: Node, path: seq<int>, player: int, pi: array<real>, sigma: seq<real>, acc: Acc)
      returns (vs: seq<real>, v: real, out: Acc)
    requires n.Decision? && |sigma| == |n.children| && Ready(n, path, player, pi[..], acc)
    modifies pi
    ensures pi[..] == old(pi[..])
    ensures (vs, out) == Alternatives(n, path, player, old(pi[..]), sigma, acc, 0)
    ensures v == Dot(vs, sigma)
    decreases n, 1
  {
    ghost var pi0 := pi[..];
    var q := n.player;
    vs := [];
    v := 0.0;
    out := acc;
    var a := 0;
    ghost var alt0 := Alternatives(n, path, player, pi0, sigma, acc, 0);
    assert [] + alt0.0 == alt0.0;
    while a < |n.children|
      invariant 0 <= a <= |n.children| && |vs| == a && pi[..] == pi0
      invariant Ready(n, path, player, pi0, out)
      invariant alt0.0 == vs + Alternatives(n, path, player, pi0, sigma, out, a).0
      invariant alt0.1 == Alternatives(n, path, player, pi0, sigma, out, a).1
      invariant v == Dot(vs, sigma)
    {
      ghost var c := AlternativesAdvance(n, path, player, pi0, sigma, out, a, vs, alt0);
      var x, next := DecisionChild(n, path, player, pi, sigma, out, a);
      v := Weighted(v, x, sigma[a]);
      vs := vs + [x];
      out := next;
      a := a + 1;
    }
    assert vs + [] == vs;
  }

  /** A step of the action loop as the loop sees it: with `vs` the values so far, the
      child's traversal `c` extends them and their weighted sum, and leaves the rest. */
  lemma AlternativesAdvance(n: Node, path: seq<int>, player: int, pi: seq<real>, sigma: seq<real>, acc: Acc,
      a: nat, vs: seq<real>, whole: (seq<real>, Acc)) returns (c: (real, Acc))
    requires n.Decision? && a < |n.children| == |sigma| && Ready(n, path, player, pi, acc) && |vs| == a
    requires whole.0 == vs + Alternatives(n, path, player, pi, sigma, acc, a).0
    requires whole.1 == Alternatives(n, path, player, pi, sigma, acc, a).1
    ensures c == Walk(n.children[a], path + [a], player, ScaleAt(pi, n.player, sigma[a]), false, acc)
    ensures Ready(n, path, player, pi, c.1)
    ensures whole.0 == (vs + [c.0]) + Alternatives(n, path, player, pi, sigma, c.1, a + 1).0
    ensures whole.1 == Alternatives(n, path, player, pi, sigma, c.1, a + 1).1
    ensures Dot(vs + [c.0], sigma) == Weighted(Dot(vs, sigma), c.0, sigma[a])
  {
    c := AlternativesStep(n, path, player, pi, sigma, acc, a);
    Associative(vs, [c.0], Alternatives(n, path, player, pi, sigma, c.1, a + 1).0);
    DotSnoc(vs, sigma, c.0);
  }

  /** One action of the loop: the actor's reach scaled by the action's probability around
      the child's call, without the CFR+ flag. */
  method DecisionChild(n: Node, path: seq<int>, player: int, pi: array<real>, sigma: seq<real>, acc: Acc, a: nat)
      returns (x: real, next: Acc)
    requires n.Decision? && a < |n.children| == |sigma| && Ready(n, path, player, pi[..], acc)
    modifies pi
    ensures pi[..] == old(pi[..])
    ensures (x, next) == Walk(n.children[a], path + [a], player, ScaleAt(old(pi[..]), n.player, sigma[a]), false, acc)
    decreases n, 0
  {
    ReadyChild(n, path, player, pi[..], acc, a, ScaleAt(pi[..], n.player, sigma[a]));
    var oldPi := ScaleReach(pi, n.player, sigma[a]);
    x, next := CfrFrom(n.children[a], path + [a], player, pi, false, acc);
    RestoreReach(pi, n.player, oldPi);
  }

  /** `pi[q] *= x`, returning the old entry. */
  method ScaleReach(pi: array<real>, q: int, x: real) returns (oldPi: real)
    requires 0 <= q < pi.Length
    modifies pi
    ensures oldPi == old(pi[q]) && pi[..] == ScaleAt(old(pi[..]), q, x)
  {
    ghost var p0 := pi[..];
    oldPi := pi[q];
    pi[q] := oldPi * x;
    ScaleAtUpdate(p0, q, x, oldPi);
  }

  /** `pi[q] = oldPi`, undoing `ScaleReach`. */
  method RestoreReach(pi: array<real>, q: int, oldPi: real)
    requires 0 <= q < pi.Length
    modifies pi
    ensures pi[..] == old(pi[..])[q := oldPi]
  {
    pi[q] := oldPi;
  }

  lemma Associative(a: seq<real>, b: seq<real>, c: seq<real>)
    ensures a + (b + c) == (a + b) + c
  {
  }

  /** A decision node's step: the children's values from `Alternatives`, their
      strategy-weighted sum, and the update when the actor is `player`. */
  lemma WalkDecision(n: Node, path: seq<int>, player: int, pi: seq<real>, plus: bool, acc: Acc)
    requires Ready(n, path, player, pi, acc) && n.Decision?
    ensures path in acc.visits && Ready(n, path, player, pi, Visited(acc, path, Prod(pi)))
    ensures var alt := Alternatives(n, path, player, pi, acc.st[n.infoset].currentStrategy, Visited(acc, path, Prod(pi)), 0);
      var h := n.infoset;
      var v := Dot(alt.0, acc.st[h].currentStrategy);
      h in alt.1.st && |alt.1.st[h].cumulativeRegret| == |alt.1.st[h].cumulativeStrategy| == |alt.1.st[h].currentStrategy| == |alt.0| &&
      Walk(n, path, player, pi, plus, acc) ==
        if n.player != player then (v, alt.1)
        else
          var s := alt.1.st[h];
          (v, alt.1.(st := alt.1.st[h := s.(
            cumulativeRegret := UpdatedRegrets(s.cumulativeRegret, alt.0, v, ProdExcept(pi, player), plus),
            cumulativeStrategy := UpdatedStrategySums(s.cumulativeStrategy, s.currentStrategy, pi[player]))]))
  {
    VisitedReady(n, path, player, pi, acc);
    var acc1 := Visited(acc, path, Prod(pi));
    var alt := Alternatives(n, path, player, pi, acc.st[n.infoset].currentStrategy, acc1, 0);
    FitKept(n, acc1, alt.1);
  }

  /** A decision node's value: the current-strategy-weighted sum of its children's values. */
  lemma WalkDecisionValue(n: Node, path: seq<int>, player: int, pi: seq<real>, plus: bool, acc: Acc)
    requires Ready(n, path, player, pi, acc) && n.Decision?
    ensures path in acc.visits && Ready(n, path, player, pi, Visited(acc, path, Prod(pi)))
    ensures Walk(n, path, player, pi, plus, acc).0 ==
      Dot(Alternatives(n, path, player, pi, acc.st[n.infoset].currentStrategy, Visited(acc, path, Prod(pi)), 0).0, acc.st[n.infoset].currentStrategy)
  {
    WalkDecision(n, path, player, pi, plus, acc);
  }

  lemma WalkChance(n: Node, path: seq<int>, player: int, pi: seq<real>, plus: bool, acc: Acc)
    requires Ready(n, path, player, pi, acc) && n.Chance?
    ensures path in acc.visits && Ready(n, path, player, pi, Visited(acc, path, Prod(pi)))
    ensures Walk(n, path, player, pi, plus, acc) == ChanceSum(n, path, player, pi, plus, Visited(acc, path, Prod(pi)), 0, 0.0)
  {
    VisitedReady(n, path, player, pi, acc);
  }

  /** The CFR+ flag is not forwarded below a decision node, so at a node of another player
      it changes nothing. */
  lemma PlusIgnoredElsewhere(n: Node, path: seq<int>, player: int, pi: seq<real>, acc: Acc)
    requires Ready(n, path, player, pi, acc) && n.Decision? && n.player != player
    ensures Walk(n, path, player, pi, true, acc) == Walk(n, path, player, pi, false, acc)
  {
    WalkDecision(n, path, player, pi, true, acc);
    WalkDecision(n, path, player, pi, false, acc);
  }

  /** At a decision node of `player`, CFR+ yields the value and the visit counts of vanilla
      CFR and the same sums everywhere, except that the node's own regrets are clamped at 0. */
  lemma PlusClampsOwnNode(n: Node, path: seq<int>, player: int, pi: seq<real>, acc: Acc)
    requires Ready(n, path, player, pi, acc) && n.Decision? && n.player == player
    ensures var plus, vanilla := Walk(n, path, player, pi, true, acc), Walk(n, path, player, pi, false, acc);
      plus.0 == vanilla.0 && plus.1.visits == vanilla.1.visits && plus.1.st.Keys == vanilla.1.st.Keys &&
      (forall h :: h in plus.1.st && h != n.infoset ==> plus.1.st[h] == vanilla.1.st[h]) &&
      plus.1.st[n.infoset] == vanilla.1.st[n.infoset].(cumulativeRegret := PosPart(vanilla.1.st[n.infoset].cumulativeRegret))
  {
    WalkDecision(n, path, player, pi, true, acc);
    WalkDecision(n, path, player, pi, false, acc);
    VisitedReady(n, path, player, pi, acc);
    var acc1 := Visited(acc, path, Prod(pi));
    var h := n.infoset;
    var alt := Alternatives(n, path, player, pi, acc.st[h].currentStrategy, acc1, 0);
    var s := alt.1.st[h];
    ClampIsPosPart(s.cumulativeRegret, alt.0, Dot(alt.0, acc.st[h].currentStrategy), ProdExcept(pi, player));
  }

  lemma ClampIsPosPart(reg: seq<real>, vs: seq<real>, v: real, piOther: real)
    requires |vs| == |reg|
    ensures UpdatedRegrets(reg, vs, v, piOther, true) == PosPart(UpdatedRegrets(reg, vs, v, piOther, false))
  {
    forall i | 0 <= i < |reg|
      ensures UpdatedRegrets(reg, vs, v, piOther, true)[i] == Max0(UpdatedRegrets(reg, vs, v, piOther, false)[i])
    {
    }
  }

  // ---------------------------------------------------------------------------------------
  // What the traversal computes.

  /** The current strategies of a state map. */
  function CurrentOf(st: map<int, IsetState>): map<int, seq<real>>
  {
    map h | h in st :: st[h].currentStrategy
  }

  lemma {:induction false} FitStrategies(n: Node, st: map<int, IsetState>)
    requires Fit(n, st)
    ensures StrategiesFit(n, CurrentOf(st))
    decreases n
  {
    if !n.Leaf? {
      forall i | 0 <= i < |n.children| ensures StrategiesFit(n.children[i], CurrentOf(st)) {
        FitStrategies(n.children[i], st);
      }
    }
  }

  lemma CurrentKept(a: Acc, b: Acc)
    requires Kept(a, b)
    ensures CurrentOf(a.st) == CurrentOf(b.st)
  {
    forall h | h in a.st ensures a.st[h].currentStrategy == b.st[h].currentStrategy {
      assert SumsOnly(a.st[h], b.st[h]);
    }
  }

  /** The weighted sum of the first `k` children's expected utilities for `player`. */
  function Part(n: Node, strat: map<int, seq<real>>, m: nat, player: int, k: nat): real
    requires !n.Leaf? && k <= |n.children| && WalkShape(n, strat, m) && 0 <= player < m
  {
    if k == 0 then 0.0 else ExpectedFrom(n, strat, m, k)[player]
  }

  lemma PartStep(n: Node, strat: map<int, seq<real>>, m: nat, player: int, k: nat)
    requires !n.Leaf? && k < |n.children| && WalkShape(n, strat, m) && 0 <= player < m
    ensures Part(n, strat, m, player, k + 1) ==
      Weighted(Part(n, strat, m, player, k), ExpectedUtility(n.children[k], strat, m)[player], Weights(n, strat)[k])
  {
  }

  /** The value `CFR` returns does not depend on the reach vector, the CFR+ flag or the sums:
      it is the expected utility of `player` below `n` under the current strategies. */
  lemma {:induction false} WalkValue(n: Node, path: seq<int>, player: int, pi: seq<real>, plus: bool, acc: Acc)
    requires Ready(n, path, player, pi, acc) && InnerHaveChildren(n)
    ensures WalkShape(n, CurrentOf(acc.st), |pi|)
    ensures Walk(n, path, player, pi, plus, acc).0 == ExpectedUtility(n, CurrentOf(acc.st), |pi|)[player]
    decreases n, |ChildrenOf(n)| + 1
  {
    FitStrategies(n, acc.st);
    VisitedReady(n, path, player, pi, acc);
    var acc1 := Visited(acc, path, Prod(pi));
    CurrentKept(acc, acc1);
    var strat := CurrentOf(acc.st);
    if n.Chance? {
      WalkChance(n, path, player, pi, plus, acc);
      ChanceSumValue(n, path, player, pi, plus, acc1, 0, 0.0, strat);
      ChanceFromParts(n, strat, |pi|, player, 0, 0.0);
    } else if n.Decision? {
      WalkDecisionValue(n, path, player, pi, plus, acc);
      var sigma := acc.st[n.infoset].currentStrategy;
      AlternativesValue(n, path, player, pi, sigma, acc1, 0, strat);
      DotChildValues(n, strat, |pi|, player);
    }
  }

  lemma {:induction false} ChanceSumValue(n: Node, path: seq<int>, player: int, pi: seq<real>, plus: bool, acc: Acc, i: nat, res: real,
      strat: map<int, seq<real>>)
    requires n.Chance? && i <= |n.children| && Ready(n, path, player, pi, acc) && InnerHaveChildren(n)
    requires strat == CurrentOf(acc.st)
    ensures WalkShape(n, strat, |pi|)
    ensures ChanceSum(n, path, player, pi, plus, acc, i, res).0 == ChanceFrom(n, strat, |pi|, player, i, res)
    decreases n, |n.children| - i
  {
    FitStrategies(n, acc.st);
    if i < |n.children| {
      var c := ChanceSumStep(n, path, player, pi, plus, acc, i, res);
      WalkValue(n.children[i], path + [i], player, pi, plus, acc);
      CurrentKept(acc, c.1);
      assert CurrentOf(c.1.st) == strat;
      ChanceSumValue(n, path, player, pi, plus, c.1, i + 1, Weighted(res, c.0, n.distribution[i]), strat);
    }
  }

  /** The chance loop's sum from child `i` on, with the children's expected utilities. */
  function ChanceFrom(n: Node, strat: map<int, seq<real>>, m: nat, player: int, i: nat, res: real): real
    requires n.Chance? && i <= |n.children| && WalkShape(n, strat, m) && 0 <= player < m
    decreases |n.children| - i
  {
    if i == |n.children| then res
    else ChanceFrom(n, strat, m, player, i + 1, Weighted(res, ExpectedUtility(n.children[i], strat, m)[player], n.distribution[i]))
  }

  lemma {:induction false} ChanceFromParts(n: Node, strat: map<int, seq<real>>, m: nat, player: int, i: nat, res: real)
    requires n.Chance? && i <= |n.children| && WalkShape(n, strat, m) && 0 <= player < m
    ensures ChanceFrom(n, strat, m, player, i, res) == res + Part(n, strat, m, player, |n.children|) - Part(n, strat, m, player, i)
    decreases |n.children| - i
  {
    if i < |n.children| {
      var e := ExpectedUtility(n.children[i], strat, m)[player];
      var res' := Weighted(res, e, n.distribution[i]);
      ChanceFromParts(n, strat, m, player, i + 1, res');
      PartStep(n, strat, m, player, i);
      assert Weights(n, strat)[i] == n.distribution[i];
      ChanceStepArith(res, e, n.distribution[i], e, Weights(n, strat)[i],
        Part(n, strat, m, player, i), Part(n, strat, m, player, i + 1), Part(n, strat, m, player, |n.children|),
        ChanceFrom(n, strat, m, player, i, res));
    }
  }

  lemma ChanceStepArith(res: real, x: real, p: real, e: real, w: real, partI: real, partNext: real, partEnd: real, v: real)
    requires x == e && p == w && partNext == Weighted(partI, e, w) && v == Weighted(res, x, p) + partEnd - partNext
    ensures v == res + partEnd - partI
  {
  }

  /** The expected utilities for `player` of the children `i`, `i + 1`, … of `n`. */
  function ChildValues(n: Node, strat: map<int, seq<real>>, m: nat, player: int, i: nat): (r: seq<real>)
    requires !n.Leaf? && i <= |n.children| && WalkShape(n, strat, m) && 0 <= player < m
    ensures |r| == |n.children| - i
    decreases |n.children| - i
  {
    if i == |n.children| then [] else [ExpectedUtility(n.children[i], strat, m)[player]] + ChildValues(n, strat, m, player, i + 1)
  }

  lemma {:induction false} ChildValuesAt(n: Node, strat: map<int, seq<real>>, m: nat, player: int, i: nat)
    requires !n.Leaf? && i <= |n.children| && WalkShape(n, strat, m) && 0 <= player < m
    ensures forall j :: 0 <= j < |n.children| - i ==>
      ChildValues(n, strat, m, player, i)[j] == ExpectedUtility(n.children[i + j], strat, m)[player]
    decreases |n.children| - i
  {
    if i < |n.children| {
      ChildValuesAt(n, strat, m, player, i + 1);
      forall j | 0 <= j < |n.children| - i
        ensures ChildValues(n, strat, m, player, i)[j] == ExpectedUtility(n.children[i + j], strat, m)[player]
      {
        if j > 0 {
          assert ChildValues(n, strat, m, player, i)[j] == ChildValues(n, strat, m, player, i + 1)[j - 1];
          assert i + 1 + (j - 1) == i + j;
        }
      }
    }
  }

  lemma {:induction false} AlternativesValue(n: Node, path: seq<int>, player: int, pi: seq<real>, sigma: seq<real>, acc: Acc, i: nat,
      strat: map<int, seq<real>>)
    requires n.Decision? && i <= |n.children| == |sigma| && Ready(n, path, player, pi, acc) && InnerHaveChildren(n)
    requires strat == CurrentOf(acc.st)
    ensures WalkShape(n, strat, |pi|)
    ensures Alternatives(n, path, player, pi, sigma, acc, i).0 == ChildValues(n, strat, |pi|, player, i)
    decreases n, |n.children| - i
  {
    FitStrategies(n, acc.st);
    if i < |n.children| {
      var pi' := ScaleAt(pi, n.player, sigma[i]);
      var c := AlternativesStep(n, path, player, pi, sigma, acc, i);
      WalkValue(n.children[i], path + [i], player, pi', false, acc);
      CurrentKept(acc, c.1);
      assert CurrentOf(c.1.st) == strat;
      AlternativesValue(n, path, player, pi, sigma, c.1, i + 1, strat);
    }
  }

  lemma {:induction false} DotParts(n: Node, strat: map<int, seq<real>>, m: nat, player: int, vs: seq<real>, k: nat)
    requires n.Decision? && WalkShape(n, strat, m) && 0 <= player < m && k <= |vs| == |n.children|
    requires forall j :: 0 <= j < |vs| ==> vs[j] == ExpectedUtility(n.children[j], strat, m)[player]
    ensures Dot(vs[..k], strat[n.infoset]) == Part(n, strat, m, player, k)
  {
    if k > 0 {
      DotParts(n, strat, m, player, vs, k - 1);
      assert vs[..k][..k - 1] == vs[..k - 1];
      PartStep(n, strat, m, player, k - 1);
    }
  }

  /** The strategy-weighted sum of the children's expected utilities is the node's. */
  lemma DotChildValues(n: Node, strat: map<int, seq<real>>, m: nat, player: int)
    requires n.Decision? && WalkShape(n, strat, m) && 0 <= player < m
    ensures Dot(ChildValues(n, strat, m, player, 0), strat[n.infoset]) == ExpectedUtility(n, strat, m)[player]
  {
    var vs := ChildValues(n, strat, m, player, 0);
    ChildValuesAt(n, strat, m, player, 0);
    DotParts(n, strat, m, player, vs, |vs|);
    assert vs[..|vs|] == vs;
  }

  /** `b` is `a` with the regret and strategy sums and the visit counts of the traversed
      subtree changed at most: the sums of labels outside `labels`, and the visit count of
      every node not below `path`, are unchanged. */
  ghost predicate Framed(a: Acc, b: Acc, labels: set<int>, path: seq<int>)
  {
    b.st.Keys == a.st.Keys && b.visits.Keys == a.visits.Keys &&
    (forall h :: h in a.st && h !in labels ==> b.st[h] == a.st[h]) &&
    (forall x :: x in a.visits && !Below(path, x) ==> b.visits[x] == a.visits[x])
  }

  /** The node at `x` is the node at `path` or below it. */
  predicate Below(path: seq<int>, x: seq<int>)
  {
    |path| <= |x| && x[..|path|] == path
  }

  /** The labels of the decision nodes of `player` below `n`. */
  function OwnLabels(n: Node, player: int): set<int>
    decreases n, |ChildrenOf(n)| + 1
  {
    match n
    case Leaf(_) => {}
    case Decision(q, h, cs) => (if q == player then {h} else {}) + LabelsFrom(n, player, 0)
    case Chance(_, cs) => LabelsFrom(n, player, 0)
  }

  /** The labels of the decision nodes of `player` below the children `i`, `i + 1`, … of `n`. */
  function LabelsFrom(n: Node, player: int, i: nat): set<int>
    requires !n.Leaf? && i <= |n.children|
    decreases n, |n.children| - i
  {
    if i == |n.children| then {} else OwnLabels(n.children[i], player) + LabelsFrom(n, player, i + 1)
  }

  lemma PrefixTrans(x: seq<int>, p': seq<int>, p: seq<int>)
    requires |p| <= |p'| && p'[..|p|] == p
    ensures (|p'| <= |x| && x[..|p'|] == p') ==> (|p| <= |x| && x[..|p|] == p)
  {
    if |p'| <= |x| && x[..|p'|] == p' {
      assert x[..|p|] == x[..|p'|][..|p|];
    }
  }

  lemma FramedTrans(a: Acc, b: Acc, c: Acc, labels: set<int>, path: seq<int>, path': seq<int>, labels': set<int>)
    requires Framed(a, b, labels', path') && Framed(b, c, labels, path)
    requires labels' <= labels && |path| <= |path'| && path'[..|path|] == path
    ensures Framed(a, c, labels, path)
  {
    forall x | x in a.visits && !(|path| <= |x| && x[..|path|] == path) ensures c.visits[x] == a.visits[x] {
      PrefixTrans(x, path', path);
    }
  }

  lemma FramedMore(a: Acc, b: Acc, labels: set<int>, labels': set<int>, path: seq<int>)
    requires Framed(a, b, labels, path) && labels <= labels'
    ensures Framed(a, b, labels', path)
  {
  }

  /** Only the information sets of `player` below `n` have their sums changed, only the
      nodes below `n` have their visit counts changed, and the visit count of `n` itself grows
      by the product of the reach vector. */
  lemma {:induction false} WalkFrame(n: Node, path: seq<int>, player: int, pi: seq<real>, plus: bool, acc: Acc)
    requires Ready(n, path, player, pi, acc)
    ensures Framed(acc, Walk(n, path, player, pi, plus, acc).1, OwnLabels(n, player), path)
    ensures path in acc.visits && Walk(n, path, player, pi, plus, acc).1.visits[path] == acc.visits[path] + Prod(pi)
    decreases n, |ChildrenOf(n)| + 1
  {
    VisitedReady(n, path, player, pi, acc);
    var acc1 := Visited(acc, path, Prod(pi));
    assert Framed(acc, acc1, {}, path);
    if n.Chance? {
      WalkChance(n, path, player, pi, plus, acc);
      ChanceSumFrame(n, path, player, pi, plus, acc1, 0, 0.0);
      FramedTrans(acc, acc1, Walk(n, path, player, pi, plus, acc).1, OwnLabels(n, player), path, path, {});
    } else if n.Decision? {
      WalkDecision(n, path, player, pi, plus, acc);
      var sigma := acc.st[n.infoset].currentStrategy;
      AlternativesFrame(n, path, player, pi, sigma, acc1, 0);
      var alt := Alternatives(n, path, player, pi, sigma, acc1, 0);
      FramedMore(acc1, alt.1, LabelsFrom(n, player, 0), OwnLabels(n, player), path);
      FramedTrans(acc, acc1, alt.1, OwnLabels(n, player), path, path, {});
    }
  }

  /** A child's frame followed by the frame of the remaining children. */
  lemma FramedStep(a: Acc, b: Acc, c: Acc, path: seq<int>, i: int, own: set<int>, rest: set<int>)
    requires Framed(a, b, own, path + [i]) && Framed(b, c, rest, path)
    requires path in a.visits && c.visits[path] == b.visits[path]
    ensures Framed(a, c, own + rest, path) && c.visits[path] == a.visits[path]
  {
    FramedMore(a, b, own, own + rest, path + [i]);
    FramedMore(b, c, rest, own + rest, path);
    assert (path + [i])[..|path|] == path;
    FramedTrans(a, b, c, own + rest, path, path + [i], own + rest);
    assert |path + [i]| > |path|;
  }

  lemma {:induction false} ChanceSumFrame(n: Node, path: seq<int>, player: int, pi: seq<real>, plus: bool, acc: Acc, i: nat, res: real)
    requires n.Chance? && i <= |n.children| && Ready(n, path, player, pi, acc)
    ensures path in acc.visits
    ensures var r := ChanceSum(n, path, player, pi, plus, acc, i, res).1;
      Framed(acc, r, LabelsFrom(n, player, i), path) && r.visits[path] == acc.visits[path]
    decreases n, |n.children| - i
  {
    PathVisited(n, path, player, pi, acc);
    if i < |n.children| {
      var c := ChanceSumStep(n, path, player, pi, plus, acc, i, res);
      WalkFrame(n.children[i], path + [i], player, pi, plus, acc);
      var res' := Weighted(res, c.0, n.distribution[i]);
      ChanceSumFrame(n, path, player, pi, plus, c.1, i + 1, res');
      assert LabelsFrom(n, player, i) == OwnLabels(n.children[i], player) + LabelsFrom(n, player, i + 1);
      var r := ChanceSum(n, path, player, pi, plus, c.1, i + 1, res').1;
      FramedStep(acc, c.1, r, path, i, OwnLabels(n.children[i], player), LabelsFrom(n, player, i + 1));
      assert Framed(acc, r, LabelsFrom(n, player, i), path);
      assert r.visits[path] == acc.visits[path];
      assert ChanceSum(n, path, player, pi, plus, acc, i, res).1 == r;
    }
  }

  lemma {:induction false} AlternativesFrame(n: Node, path: seq<int>, player: int, pi: seq<real>, sigma: seq<real>, acc: Acc, i: nat)
    requires n.Decision? && i <= |n.children| == |sigma| && Ready(n, path, player, pi, acc)
    ensures path in acc.visits
    ensures var r := Alternatives(n, path, player, pi, sigma, acc, i).1;
      Framed(acc, r, LabelsFrom(n, player, i), path) && r.visits[path] == acc.visits[path]
    decreases n, |n.children| - i
  {
    PathVisited(n, path, player, pi, acc);
    if i < |n.children| {
      var pi' := ScaleAt(pi, n.player, sigma[i]);
      var c := AlternativesStep(n, path, player, pi, sigma, acc, i);
      WalkFrame(n.children[i], path + [i], player, pi', false, acc);
      AlternativesFrame(n, path, player, pi, sigma, c.1, i + 1);
      assert LabelsFrom(n, player, i) == OwnLabels(n.children[i], player) + LabelsFrom(n, player, i + 1);
      var r := Alternatives(n, path, player, pi, sigma, c.1, i + 1).1;
      FramedStep(acc, c.1, r, path, i, OwnLabels(n.children[i], player), LabelsFrom(n, player, i + 1));
      assert Alternatives(n, path, player, pi, sigma, acc, i).1 == r;
    }
  }
}
