/** Kuhn poker for any number of players: the payoff of a finished betting round, the
    enumeration of the deals and the merging of corresponding nodes of two deals into
    information sets for the players whose cards agree. */
module Kuhn {
  import opened Wrappers
  import opened GameTree
  import opened Strings
  import opened InfosetMerge

  /** The sum of an integer vector, added from the back. */
  function IntSum(s: seq<int>): int
  {
    if s == [] then 0 else IntSum(s[..|s| - 1]) + s[|s| - 1]
  }

  /** The number of entries of `s` equal to `c`, counted from the back. */
  function Count(s: seq<char>, c: char): nat
  {
    if s == [] then 0 else Count(s[..|s| - 1], c) + (if s[|s| - 1] == c then 1 else 0)
  }

  /** `[p for p in range(n) if moves[p] != 'f']`: the players still in at the showdown. */
  function Participants(moves: seq<char>, n: nat): (ps: seq<nat>)
    requires n <= |moves|
    ensures forall p :: p in ps <==> 0 <= p < n && moves[p] != 'f'
    ensures forall i :: 0 <= i < |ps| ==> ps[i] < n
  {
    if n == 0 then [] else Participants(moves, n - 1) + (if moves[n - 1] != 'f' then [n - 1] else [])
  }

  /** `max(participants, key = lambda p: hand[p])`: Python keeps the first of equal maxima. */
  function Winner(hand: seq<int>, ps: seq<nat>): (w: nat)
    requires |ps| > 0 && forall i :: 0 <= i < |ps| ==> ps[i] < |hand|
    ensures w in ps && forall p :: p in ps ==> hand[p] <= hand[w]
  {
    if |ps| == 1 then ps[0]
    else
      var rest := Winner(hand, ps[1..]);
      assert forall p :: p in ps[1..] ==> p in ps;
      assert forall p :: p in ps ==> p == ps[0] || p in ps[1..];
      if hand[ps[0]] >= hand[rest] then ps[0] else rest
  }

  /** The payoff of player `p`: the ante of 1 and a bet of 1 if `p` bet, and the whole pot for
      the winner. */
  function Share(moves: seq<char>, p: nat, w: nat, pot: int): int
    requires p < |moves|
  {
    -1 + (if p == w then pot else 0) - (if moves[p] == 'b' then 1 else 0)
  }

  /** `kuhn_utility(hand, moves)` as a value: the pot is one per player plus one per bet; the
      winner is the showdown participant with the highest card. Fewer moves than players is
      Python's IndexError; nobody left at the showdown is the ValueError of `max` on an empty
      list. */
  function KuhnPayoff(hand: seq<int>, moves: seq<char>): (r: Result<seq<int>>)
    ensures r.Success? <==> |hand| <= |moves| && exists p :: 0 <= p < |hand| && moves[p] != 'f'
    ensures r.Success? ==> |r.value| == |hand|
  {
    var n := |hand|;
    if |moves| < n then Failure("IndexError")
    else
      var ps := Participants(moves, n);
      if ps == [] then
        assert forall p :: 0 <= p < n ==> moves[p] == 'f' by {
          forall p | 0 <= p < n ensures moves[p] == 'f' {
            assert p !in ps;
          }
        }
        Failure("ValueError")
      else
        assert ps[0] in ps;
        var w := Winner(hand, ps);
        var pot := n + Count(moves, 'b');
        Success(seq(n, p requires 0 <= p < n => Share(moves, p, w, pot)))
  }

  /** `kuhn_utility(hand, moves)`: `[-1] * n`, then the pot to the winner and one more off
      every player who bet. */
  method KuhnUtility(hand: seq<int>, moves: seq<char>) returns (r: Result<seq<int>>)
    ensures r == KuhnPayoff(hand, moves)
  {
    var n := |hand|;
    if |moves| < n {
      return Failure("IndexError");
    }
    var pot := n + Count(moves, 'b');
    var ps := Participants(moves, n);
    if ps == [] {
      return Failure("ValueError");
    }
    var winner := Winner(hand, ps);
    var utility := seq(n, _ => -1);
    for p := 0 to n
      invariant |utility| == n
      invariant forall q :: 0 <= q < p ==> utility[q] == Share(moves, q, winner, pot)
      invariant forall q :: p <= q < n ==> utility[q] == -1
    {
      if p == winner {
        utility := utility[p := utility[p] + pot];
      }
      if moves[p] == 'b' {
        utility := utility[p := utility[p] - 1];
      }
    }
    assert utility == seq(n, p requires 0 <= p < n => Share(moves, p, winner, pot));
    r := Success(utility);
  }

  /** The sum of the shares of the first `k` players. */
  lemma {:induction false} SharesSum(moves: seq<char>, u: seq<int>, w: nat, pot: int, k: nat)
    requires k <= |u| <= |moves|
    requires forall p :: 0 <= p < |u| ==> u[p] == Share(moves, p, w, pot)
    ensures IntSum(u[..k]) == -(k as int) + (if w < k then pot else 0) - Count(moves[..k], 'b')
  {
    if k > 0 {
      SharesSum(moves, u, w, pot, k - 1);
      assert u[..k][..k - 1] == u[..k - 1];
      assert moves[..k][..k - 1] == moves[..k - 1];
    }
  }

  /** Kuhn poker is zero-sum: with one move per player the payoffs add up to 0. */
  lemma KuhnZeroSum(hand: seq<int>, moves: seq<char>)
    requires |moves| == |hand| && KuhnPayoff(hand, moves).Success?
    ensures IntSum(KuhnPayoff(hand, moves).value) == 0
  {
    var u := KuhnPayoff(hand, moves).value;
    var n := |hand|;
    var ps := Participants(moves, n);
    assert ps != [];
    assert ps[0] in ps;
    var w := Winner(hand, ps);
    SharesSum(moves, u, w, n + Count(moves, 'b'), n);
    assert u[..n] == u && moves[..n] == moves;
  }

  /** With at least two players the winner is the only player not to lose money: it gets the
      pot minus its own stake, everybody else loses 1, or 2 after a bet. */
  lemma KuhnOnlyWinnerGains(hand: seq<int>, moves: seq<char>)
    requires |moves| == |hand| >= 2 && KuhnPayoff(hand, moves).Success?
    ensures var u := KuhnPayoff(hand, moves).value;
      var ps := Participants(moves, |hand|);
      |ps| > 0 && (var w := Winner(hand, ps);
        (forall p :: 0 <= p < |hand| ==> (u[p] >= 0 <==> p == w))
        && (forall p :: 0 <= p < |hand| && p != w ==> u[p] == -1 || u[p] == -2))
  {
    var ps := Participants(moves, |hand|);
    assert ps[0] in ps;
  }

  /** No value occurs twice. */
  predicate NoDups<T(==)>(s: seq<T>)
  {
    forall i, j :: 0 <= i < j < |s| ==> s[i] != s[j]
  }

  /** `[r for r in ranks if r not in hand]`, in the order of `ranks`. */
  function Remaining(ranks: seq<int>, hand: seq<int>): (r: seq<int>)
    ensures forall x :: x in r <==> x in ranks && x !in hand
    ensures NoDups(ranks) ==> NoDups(r)
  {
    if ranks == [] then []
    else
      var rest := Remaining(ranks[1..], hand);
      assert forall x :: x in ranks <==> x == ranks[0] || x in ranks[1..];
      (if ranks[0] !in hand then [ranks[0]] else []) + rest
  }

  /** `hand + [r]` for each `r` of `rs`, in order. */
  function Extensions(hand: seq<int>, rs: seq<int>): seq<seq<int>>
  {
    if rs == [] then [] else Extensions(hand, rs[..|rs| - 1]) + [hand + [rs[|rs| - 1]]]
  }

  lemma ExtensionsSnoc(hand: seq<int>, rs: seq<int>, j: nat)
    requires j < |rs|
    ensures Extensions(hand, rs[..j + 1]) == Extensions(hand, rs[..j]) + [hand + [rs[j]]]
  {
    assert rs[..j + 1][..j] == rs[..j];
  }

  /** Every extension appends one of the ranks. */
  lemma {:induction false} ExtensionsOrigin(hand: seq<int>, rs: seq<int>, x: seq<int>) returns (r: int)
    requires x in Extensions(hand, rs)
    ensures r in rs && x == hand + [r]
    decreases |rs|
  {
    var init := rs[..|rs| - 1];
    if x in Extensions(hand, init) {
      r := ExtensionsOrigin(hand, init, x);
      var i :| 0 <= i < |init| && init[i] == r;
      assert rs[i] == r;
    } else {
      r := rs[|rs| - 1];
    }
  }

  /** Each rank gives an extension. */
  lemma {:induction false} ExtensionsHas(hand: seq<int>, rs: seq<int>, r: int)
    requires r in rs
    ensures hand + [r] in Extensions(hand, rs)
    decreases |rs|
  {
    var init := rs[..|rs| - 1];
    if r != rs[|rs| - 1] {
      var i :| 0 <= i < |rs| && rs[i] == r;
      assert init[i] == r;
      ExtensionsHas(hand, init, r);
    }
  }

  /** Distinct ranks give distinct extensions. */
  lemma {:induction false} ExtensionsNoDups(hand: seq<int>, rs: seq<int>)
    requires NoDups(rs)
    ensures NoDups(Extensions(hand, rs))
    decreases |rs|
  {
    if rs != [] {
      var init := rs[..|rs| - 1];
      var last := rs[|rs| - 1];
      NoDupsInit(rs);
      ExtensionsNoDups(hand, init);
      forall x | x in Extensions(hand, init) ensures x !in [hand + [last]] {
        var r := ExtensionsOrigin(hand, init, x);
        NoDupsLast(rs, r);
        assert x[|hand|] == r;
        assert (hand + [last])[|hand|] == last;
      }
      NoDupsAppend(Extensions(hand, init), [hand + [last]]);
    }
  }

  /** Dropping the last entry keeps a sequence free of repeats. */
  lemma NoDupsInit<T>(s: seq<T>)
    requires NoDups(s) && |s| > 0
    ensures NoDups(s[..|s| - 1])
  {
    var init := s[..|s| - 1];
    forall i, j | 0 <= i < j < |init| ensures init[i] != init[j] {
      assert init[i] == s[i] && init[j] == s[j];
    }
  }

  /** In a sequence without repeats, the last entry is not among the others. */
  lemma NoDupsLast<T>(s: seq<T>, x: T)
    requires NoDups(s) && |s| > 0 && x in s[..|s| - 1]
    ensures x != s[|s| - 1]
  {
    var i :| 0 <= i < |s| - 1 && s[..|s| - 1][i] == x;
    assert s[i] == x;
  }

  /** Every smaller hand extended by each rank it does not hold, hand after hand. */
  function ExtendAll(smaller: seq<seq<int>>, ranks: seq<int>): seq<seq<int>>
  {
    if smaller == [] then []
    else
      var last := smaller[|smaller| - 1];
      ExtendAll(smaller[..|smaller| - 1], ranks) + Extensions(last, Remaining(ranks, last))
  }

  /** The deals `build_all_possible_hands(n, ranks)` enumerates. */
  function Hands(n: int, ranks: seq<int>): seq<seq<int>>
    decreases if n <= 0 then 0 else n
  {
    if n <= 0 then [[]] else ExtendAll(Hands(n - 1, ranks), ranks)
  }

  /** `build_all_possible_hands(num_players, ranks)`: `[[]]` for no players; otherwise each
      hand for one player fewer, extended by each rank it does not hold yet. */
  method BuildAllPossibleHands(n: int, ranks: seq<int>) returns (hands: seq<seq<int>>)
    ensures hands == Hands(n, ranks)
    decreases if n <= 0 then 0 else n
  {
    if n <= 0 {
      return [[]];
    }
    var smaller := BuildAllPossibleHands(n - 1, ranks);
    hands := ExtendEach(smaller, ranks);
  }

  /** The outer loop: each smaller hand, extended by each rank it does not hold yet. */
  method ExtendEach(smaller: seq<seq<int>>, ranks: seq<int>) returns (hands: seq<seq<int>>)
    ensures hands == ExtendAll(smaller, ranks)
  {
    hands := [];
    for k := 0 to |smaller|
      invariant hands == ExtendAll(smaller[..k], ranks)
    {
      var hand := smaller[k];
      var rest := Remaining(ranks, hand);
      hands := AppendExtensions(hands, hand, rest);
      ExtendAllSnoc(smaller, k, ranks);
    }
    assert smaller[..|smaller|] == smaller;
  }

  /** The inner loop: `hands.append(hand + [r])` for each remaining rank `r`. */
  method AppendExtensions(hands: seq<seq<int>>, hand: seq<int>, rest: seq<int>) returns (out: seq<seq<int>>)
    ensures out == hands + Extensions(hand, rest)
  {
    out := hands;
    for j := 0 to |rest|
      invariant out == hands + Extensions(hand, rest[..j])
    {
      ExtensionsSnoc(hand, rest, j);
      out := out + [hand + [rest[j]]];
    }
    assert rest[..|rest|] == rest;
  }

  lemma ExtendAllSnoc(smaller: seq<seq<int>>, k: nat, ranks: seq<int>)
    requires k < |smaller|
    ensures ExtendAll(smaller[..k + 1], ranks) ==
      ExtendAll(smaller[..k], ranks) + Extensions(smaller[k], Remaining(ranks, smaller[k]))
  {
    assert smaller[..k + 1][..k] == smaller[..k];
  }

  /** Where a member of `ExtendAll` comes from. */
  lemma {:induction false} ExtendAllOrigin(smaller: seq<seq<int>>, ranks: seq<int>, h: seq<int>) returns (s: seq<int>, r: int)
    requires h in ExtendAll(smaller, ranks)
    ensures s in smaller && r in ranks && r !in s && h == s + [r]
    decreases |smaller|
  {
    var init := smaller[..|smaller| - 1];
    var last := smaller[|smaller| - 1];
    var ext := Extensions(last, Remaining(ranks, last));
    if h in ExtendAll(init, ranks) {
      s, r := ExtendAllOrigin(init, ranks, h);
      assert s in smaller by { var i :| 0 <= i < |init| && init[i] == s; assert smaller[i] == s; }
    } else {
      s := last;
      r := ExtensionsOrigin(last, Remaining(ranks, last), h);
    }
  }

  /** Every smaller hand extended by a rank it does not hold is a member of `ExtendAll`. */
  lemma {:induction false} ExtendAllHas(smaller: seq<seq<int>>, ranks: seq<int>, s: seq<int>, r: int)
    requires s in smaller && r in ranks && r !in s
    ensures s + [r] in ExtendAll(smaller, ranks)
    decreases |smaller|
  {
    var init := smaller[..|smaller| - 1];
    var last := smaller[|smaller| - 1];
    if s == last {
      ExtensionsHas(last, Remaining(ranks, last), r);
    } else {
      var i :| 0 <= i < |smaller| && smaller[i] == s;
      assert s == init[i];
      ExtendAllHas(init, ranks, s, r);
    }
  }

  /** A hand of `n` pairwise distinct ranks. */
  predicate Deal(h: seq<int>, n: int, ranks: seq<int>)
  {
    |h| == (if n <= 0 then 0 else n) && NoDups(h) && forall i :: 0 <= i < |h| ==> h[i] in ranks
  }

  /** Every enumerated hand deals `n` pairwise distinct ranks, and every such hand is
      enumerated. */
  lemma HandsAreDeals(n: int, ranks: seq<int>, h: seq<int>)
    ensures h in Hands(n, ranks) <==> Deal(h, n, ranks)
  {
    if h in Hands(n, ranks) {
      HandIsDeal(n, ranks, h);
    }
    if Deal(h, n, ranks) {
      DealIsHand(n, ranks, h);
    }
  }

  lemma {:induction false} HandIsDeal(n: int, ranks: seq<int>, h: seq<int>)
    requires h in Hands(n, ranks)
    ensures Deal(h, n, ranks)
  {
    HandsAreDealt(n, ranks);
  }

  lemma {:induction false} HandsAreDealt(n: int, ranks: seq<int>)
    ensures forall h :: h in Hands(n, ranks) ==> Deal(h, n, ranks)
    decreases if n <= 0 then 0 else n
  {
    if n > 0 {
      HandsAreDealt(n - 1, ranks);
      ExtendAllDeals(Hands(n - 1, ranks), ranks, n);
    }
  }

  /** Deals for one player fewer extend to deals. */
  lemma ExtendAllDeals(smaller: seq<seq<int>>, ranks: seq<int>, n: int)
    requires n > 0 && forall s :: s in smaller ==> Deal(s, n - 1, ranks)
    ensures forall h :: h in ExtendAll(smaller, ranks) ==> Deal(h, n, ranks)
  {
    forall h | h in ExtendAll(smaller, ranks) ensures Deal(h, n, ranks) {
      var s, r := ExtendAllOrigin(smaller, ranks, h);
      DealSnoc(s, r, n, ranks);
    }
  }

  /** A deal for one player fewer, extended by a rank it does not hold. */
  lemma DealSnoc(s: seq<int>, r: int, n: int, ranks: seq<int>)
    requires n > 0 && Deal(s, n - 1, ranks) && r in ranks && r !in s
    ensures Deal(s + [r], n, ranks)
  {
    var h := s + [r];
    forall i | 0 <= i < |s| ensures h[i] == s[i] && h[i] != r { }
  }

  lemma {:induction false} DealIsHand(n: int, ranks: seq<int>, h: seq<int>)
    requires Deal(h, n, ranks)
    ensures h in Hands(n, ranks)
  {
    DealsAreHands(n, ranks);
  }

  lemma {:induction false} DealsAreHands(n: int, ranks: seq<int>)
    ensures forall h :: Deal(h, n, ranks) ==> h in Hands(n, ranks)
    decreases if n <= 0 then 0 else n
  {
    if n <= 0 {
      forall h | Deal(h, n, ranks) ensures h in Hands(n, ranks) {
        assert h == [];
      }
    } else {
      DealsAreHands(n - 1, ranks);
      ExtendAllHasDeals(Hands(n - 1, ranks), ranks, n);
    }
  }

  /** When the smaller hands hold every deal for one player fewer, their extensions hold
      every deal. */
  lemma ExtendAllHasDeals(smaller: seq<seq<int>>, ranks: seq<int>, n: int)
    requires n > 0 && forall s :: Deal(s, n - 1, ranks) ==> s in smaller
    ensures forall h :: Deal(h, n, ranks) ==> h in ExtendAll(smaller, ranks)
  {
    forall h | Deal(h, n, ranks) ensures h in ExtendAll(smaller, ranks) {
      var s := h[..|h| - 1];
      var r := h[|h| - 1];
      DealInit(h, n, ranks);
      ExtendAllHas(smaller, ranks, s, r);
      Snoc(h);
    }
  }

  lemma Snoc(h: seq<int>)
    requires |h| > 0
    ensures h == h[..|h| - 1] + [h[|h| - 1]]
  {
  }

  /** Dropping the last card of a deal leaves a deal for one player fewer without that card. */
  lemma DealInit(h: seq<int>, n: int, ranks: seq<int>)
    requires n > 0 && Deal(h, n, ranks)
    ensures Deal(h[..|h| - 1], n - 1, ranks) && h[|h| - 1] in ranks && h[|h| - 1] !in h[..|h| - 1]
  {
    var s := h[..|h| - 1];
    forall i | 0 <= i < |s| ensures s[i] == h[i] && s[i] != h[|h| - 1] { }
  }

  /** Two enumerations without repeats, none of whose members are shared, concatenate to one
      without repeats. */
  lemma NoDupsAppend(a: seq<seq<int>>, b: seq<seq<int>>)
    requires NoDups(a) && NoDups(b) && forall x :: x in a ==> x !in b
    ensures NoDups(a + b)
  {
    forall i, j | 0 <= i < j < |a + b| ensures (a + b)[i] != (a + b)[j] {
      if i < |a| && j >= |a| {
        assert (a + b)[i] in a && (a + b)[j] == b[j - |a|];
      }
    }
  }

  lemma {:induction false} ExtendAllNoDups(smaller: seq<seq<int>>, ranks: seq<int>)
    requires NoDups(smaller) && NoDups(ranks)
    ensures NoDups(ExtendAll(smaller, ranks))
    decreases |smaller|
  {
    if smaller != [] {
      var init := smaller[..|smaller| - 1];
      var last := smaller[|smaller| - 1];
      var rest := Remaining(ranks, last);
      NoDupsInit(smaller);
      ExtendAllNoDups(init, ranks);
      ExtensionsNoDups(last, rest);
      forall x | x in ExtendAll(init, ranks) ensures x !in Extensions(last, rest) {
        LastApart(smaller, ranks, x);
      }
      NoDupsAppend(ExtendAll(init, ranks), Extensions(last, rest));
    }
  }

  /** What the earlier hands extend to differs from what the last hand extends to. */
  lemma LastApart(smaller: seq<seq<int>>, ranks: seq<int>, x: seq<int>)
    requires NoDups(smaller) && |smaller| > 0
    requires x in ExtendAll(smaller[..|smaller| - 1], ranks)
    ensures x !in Extensions(smaller[|smaller| - 1], Remaining(ranks, smaller[|smaller| - 1]))
  {
    var last := smaller[|smaller| - 1];
    var s, r := ExtendAllOrigin(smaller[..|smaller| - 1], ranks, x);
    NoDupsLast(smaller, s);
    assert x[..|x| - 1] == s;
    ExtensionsPrefix(last, Remaining(ranks, last));
  }

  /** Every extension of `hand` has `hand` as its prefix. */
  lemma ExtensionsPrefix(hand: seq<int>, rs: seq<int>)
    ensures forall y :: y in Extensions(hand, rs) ==> |y| > 0 && y[..|y| - 1] == hand
  {
    forall y | y in Extensions(hand, rs) ensures |y| > 0 && y[..|y| - 1] == hand {
      var r := ExtensionsOrigin(hand, rs, y);
      assert y[..|y| - 1] == hand;
    }
  }

  /** Distinct ranks give distinct hands. */
  lemma {:induction false} HandsNoDups(n: int, ranks: seq<int>)
    requires NoDups(ranks)
    ensures NoDups(Hands(n, ranks))
    decreases if n <= 0 then 0 else n
  {
    if n > 0 {
      HandsNoDups(n - 1, ranks);
      ExtendAllNoDups(Hands(n - 1, ranks), ranks);
      HandsStep(n, ranks);
    }
  }

  lemma HandsStep(n: int, ranks: seq<int>)
    requires n > 0
    ensures Hands(n, ranks) == ExtendAll(Hands(n - 1, ranks), ranks)
  {
  }

  /** `list(range(rank))`: the ranks of the deck. */
  function Ranks(rank: int): (r: seq<int>)
    ensures |r| == (if rank <= 0 then 0 else rank)
    ensures forall i :: 0 <= i < |r| ==> r[i] == i
    ensures NoDups(r)
  {
    seq(if rank <= 0 then 0 else rank, i => i)
  }

  /** The first loop of `build_kuhn_tree(num_players, rank)`: a tree for `n` players whose root
      is a chance node, with one decision node of player 0 per deal, each reached with
      probability `1 / len(hands)` by the action named after the deal, in the order
      `build_all_possible_hands` lists the deals. Without any deal (more players than ranks)
      the division fails. */
  method KuhnDeal(n: int, rank: int) returns (r: Result<Tree>, hands: seq<seq<int>>)
    ensures hands == Hands(n, Ranks(rank))
    ensures r.Failure? <==> |hands| == 0
    ensures r.Success? ==>
      var t := r.value;
      fresh(t) && t.Valid() && t.numOfPlayers == n && |t.nodes| == |hands| + 1
      && t.nodes[0].kind == ChanceKind
      && t.nodes[0].children == seq(|hands|, i => i + 1)
      && t.nodes[0].distribution == seq(|hands|, i => PNum(1.0 / |hands| as real))
      && t.nodes[0].actionNames == seq(|hands|, i requires 0 <= i < |hands| => ListToString(hands[i]))
      && forall i :: 1 <= i < |t.nodes| ==>
           t.nodes[i].kind == DecisionKind && t.nodes[i].player == 0 && t.nodes[i].infoset == i
  {
    var tree := new Tree(n, 0, Some(ChanceRoot));
    hands := BuildAllPossibleHands(n, Ranks(rank));
    if |hands| == 0 {
      return Failure("ZeroDivisionError"), hands;
    }
    var p := 1.0 / |hands| as real;
    for k := 0 to |hands|
      invariant tree.Valid() && tree.numOfPlayers == n && tree.infosetCount == k + 1
      invariant DealLayer(tree.nodes, k, hands, p)
    {
      AddDeal(tree, hands, k, p);
    }
    r := Success(tree);
  }

  /** The tree after the first `k` deals: a chance root whose children are nodes `1..k`, each
      a decision node of player 0 in its own information set, reached with probability `p` by
      the action named after its deal. */
  ghost predicate DealLayer(ns: seq<NodeRec>, k: nat, hands: seq<seq<int>>, p: real)
    requires k <= |hands|
  {
    |ns| == k + 1 && ns[0].kind == ChanceKind
    && ns[0].children == seq(k, i => i + 1)
    && ns[0].distribution == seq(k, i => PNum(p))
    && ns[0].actionNames == seq(k, i requires 0 <= i < k => ListToString(hands[i]))
    && forall i :: 1 <= i < |ns| ==> ns[i].kind == DecisionKind && ns[i].player == 0 && ns[i].infoset == i
  }

  /** The body of that loop: the node of the `k`-th deal. */
  method AddDeal(tree: Tree, hands: seq<seq<int>>, k: nat, p: real)
    requires k < |hands| && tree.Valid() && tree.infosetCount == k + 1 && DealLayer(tree.nodes, k, hands, p)
    modifies tree
    ensures tree.Valid() && tree.numOfPlayers == old(tree.numOfPlayers) && tree.infosetCount == k + 2
    ensures DealLayer(tree.nodes, k + 1, hands, p)
  {
    var id := tree.AddNode(0, -1, Some(0), PNum(p), Some(ListToString(hands[k])));
    DealLayerSnoc(hands, k, p);
  }

  lemma DealLayerSnoc(hands: seq<seq<int>>, k: nat, p: real)
    requires k < |hands|
    ensures seq(k + 1, i => i + 1) == seq(k, i => i + 1) + [k + 1]
    ensures seq(k + 1, i => PNum(p)) == seq(k, i => PNum(p)) + [PNum(p)]
    ensures seq(k + 1, i requires 0 <= i < k + 1 => ListToString(hands[i]))
      == seq(k, i requires 0 <= i < k => ListToString(hands[i])) + [ListToString(hands[k])]
  {
  }

  /** The players among the first `n` whose card is the same in both deals, in increasing
      order. */
  function Agreeing(h1: seq<int>, h2: seq<int>, n: nat): (ps: seq<int>)
    requires n <= |h1| && n <= |h2|
    ensures forall p :: p in ps <==> 0 <= p < n && h1[p] == h2[p]
    ensures forall i :: 0 <= i < |ps| ==> ps[i] < n
    ensures forall i, j :: 0 <= i < j < |ps| ==> ps[i] < ps[j]
  {
    if n == 0 then [] else Agreeing(h1, h2, n - 1) + (if h1[n - 1] == h2[n - 1] then [n - 1] else [])
  }

  /** The players to merge for two deals: `p` for each player whose card is the same in both,
      in increasing order. */
  method PlayersToMerge(h1: seq<int>, h2: seq<int>, n: nat) returns (ps: seq<int>)
    requires n <= |h1| && n <= |h2|
    ensures ps == Agreeing(h1, h2, n)
  {
    ps := [];
    for p := 0 to n
      invariant ps == Agreeing(h1, h2, p)
    {
      if h1[p] == h2[p] {
        ps := ps + [p];
      }
    }
  }

  /** The test of `create_information_sets`: the first node belongs to one of `players`. */
  function MergesPlayers(players: seq<int>): (NodeRec, NodeRec) -> bool
  {
    (a: NodeRec, b: NodeRec) => a.player in players
  }

  /** `create_information_sets(node1, node2, players_to_merge)`: the walk over corresponding
      nodes that merges the labels of the players in `players`. */
  method CreateInformationSets(tree: Tree, n1: nat, n2: nat, players: seq<int>) returns (ok: bool)
    requires tree.Valid() && n1 < |tree.nodes| && n2 < |tree.nodes|
    modifies tree
    ensures tree.Valid()
    ensures tree.nodeCount == old(tree.nodeCount) && tree.infosetCount == old(tree.infosetCount)
    ensures tree.maxInfoset == old(tree.maxInfoset) && tree.numOfPlayers == old(tree.numOfPlayers)
    ensures tree.maxDepth == old(tree.maxDepth)
    ensures Relabelled(old(tree.nodes), tree.nodes)
    ensures ok == Fits(old(tree.nodes), n1, n2)
    ensures forall j :: 0 <= j < |tree.nodes| && tree.nodes[j].infoset != old(tree.nodes[j].infoset) ==>
      Below(old(tree.nodes), j, n1) || Below(old(tree.nodes), j, n2)
    ensures old(tree.nodes[n1].kind) != LeafKind && Apart(old(tree.nodes), n1, n2) ==>
      var r1, r2 := old(tree.nodes[n1]), old(tree.nodes[n2]);
      var h := Min(r1.infoset, r2.infoset);
      (r1.player in players ==> tree.nodes[n1].infoset == h && tree.nodes[n2].infoset == h)
      && (r1.player !in players ==> tree.nodes[n1].infoset == r1.infoset && tree.nodes[n2].infoset == r2.infoset)
    ensures ok && Apart(old(tree.nodes), n1, n2) ==> DoneBelow(old(tree.nodes), tree.nodes, n1, n2, MergesPlayers(players))
  {
    ok := MergeCorresponding(tree, n1, n2, MergesPlayers(players));
  }

  /** Every subtree in `cs` after the `i`-th fits the `i`-th, up to index `m`. */
  ghost predicate RowFits(ns: seq<NodeRec>, cs: seq<nat>, i: nat, m: nat)
    requires Linked(ns) && i < |cs| && m <= |cs| && forall k :: 0 <= k < |cs| ==> cs[k] < |ns|
  {
    forall j :: i < j < m ==> Fits(ns, cs[i], cs[j])
  }

  /** Node `j` lies in the subtree of one of the first `m` nodes of `cs`. */
  ghost predicate UnderOne(ns: seq<NodeRec>, cs: seq<nat>, m: nat, j: int)
    requires m <= |cs|
  {
    exists i :: 0 <= i < m && Below(ns, j, cs[i])
  }

  /** The second loop of `build_kuhn_tree`: for each pair of deals `i < j`, the subtrees of
      the `i`-th and `j`-th children of the root are merged for the players whose cards
      agree. `ok` is false where Python raises an IndexError: exactly when some pair of those
      subtrees does not fit. Only labels change, none rises, and only within those subtrees. */
  method MergeHands(tree: Tree, hands: seq<seq<int>>, n: nat) returns (ok: bool)
    requires tree.Valid() && |hands| <= |tree.nodes[0].children|
    requires forall i :: 0 <= i < |hands| ==> n <= |hands[i]|
    modifies tree
    ensures tree.Valid()
    ensures tree.nodeCount == old(tree.nodeCount) && tree.infosetCount == old(tree.infosetCount)
    ensures tree.maxInfoset == old(tree.maxInfoset) && tree.numOfPlayers == old(tree.numOfPlayers)
    ensures tree.maxDepth == old(tree.maxDepth)
    ensures Relabelled(old(tree.nodes), tree.nodes)
    ensures WellLinked(old(tree.nodes), 0)
    ensures ok == forall i :: 0 <= i < |hands| ==> RowFits(old(tree.nodes), old(tree.nodes[0].children), i, |hands|)
    ensures forall j :: 0 <= j < |tree.nodes| && tree.nodes[j].infoset != old(tree.nodes[j].infoset) ==>
      UnderOne(old(tree.nodes), old(tree.nodes[0].children), |hands|, j)
  {
    ghost var start := tree.nodes;
    assert WellLinked(start, 0);
    var cs := tree.nodes[0].children;
    for i := 0 to |hands|
      invariant tree.Valid() && |tree.nodes| == |start| && tree.nodes[0].children == cs
      invariant tree.nodeCount == old(tree.nodeCount) && tree.infosetCount == old(tree.infosetCount)
      invariant tree.maxInfoset == old(tree.maxInfoset) && tree.numOfPlayers == old(tree.numOfPlayers)
      invariant tree.maxDepth == old(tree.maxDepth)
      invariant Relabelled(start, tree.nodes)
      invariant forall k :: 0 <= k < i ==> RowFits(start, cs, k, |hands|)
      invariant forall j :: 0 <= j < |tree.nodes| && tree.nodes[j].infoset != start[j].infoset ==>
        UnderOne(start, cs, |hands|, j)
    {
      ok := MergeRow(tree, hands, n, i, start);
      if !ok {
        return false;
      }
    }
    ok := true;
  }

  /** One round of that loop: the `i`-th deal against each later one. */
  method MergeRow(tree: Tree, hands: seq<seq<int>>, n: nat, i: nat, ghost start: seq<NodeRec>) returns (ok: bool)
    requires tree.Valid() && Linked(start) && Relabelled(start, tree.nodes) && WellLinked(start, 0)
    requires i < |hands| <= |start[0].children|
    requires forall i :: 0 <= i < |hands| ==> n <= |hands[i]|
    requires forall j :: 0 <= j < |tree.nodes| && tree.nodes[j].infoset != start[j].infoset ==>
      UnderOne(start, start[0].children, |hands|, j)
    modifies tree
    ensures tree.Valid()
    ensures tree.nodeCount == old(tree.nodeCount) && tree.infosetCount == old(tree.infosetCount)
    ensures tree.maxInfoset == old(tree.maxInfoset) && tree.numOfPlayers == old(tree.numOfPlayers)
    ensures tree.maxDepth == old(tree.maxDepth)
    ensures Relabelled(start, tree.nodes)
    ensures ok == RowFits(start, start[0].children, i, |hands|)
    ensures forall j :: 0 <= j < |tree.nodes| && tree.nodes[j].infoset != start[j].infoset ==>
      UnderOne(start, start[0].children, |hands|, j)
  {
    var cs := tree.nodes[0].children;
    assert cs == start[0].children by {
      assert tree.nodes[0] == start[0].(infoset := tree.nodes[0].infoset);
    }
    for j := i + 1 to |hands|
      invariant tree.Valid() && |tree.nodes| == |start| && tree.nodes[0].children == cs
      invariant tree.nodeCount == old(tree.nodeCount) && tree.infosetCount == old(tree.infosetCount)
      invariant tree.maxInfoset == old(tree.maxInfoset) && tree.numOfPlayers == old(tree.numOfPlayers)
      invariant tree.maxDepth == old(tree.maxDepth)
      invariant Relabelled(start, tree.nodes)
      invariant RowFits(start, cs, i, j)
      invariant forall j :: 0 <= j < |tree.nodes| && tree.nodes[j].infoset != start[j].infoset ==>
        UnderOne(start, cs, |hands|, j)
    {
      ok := MergePair(tree, hands, n, i, j, start);
      if !ok {
        return false;
      }
    }
    ok := true;
  }

  /** The body of the inner loop: the players whose cards agree, and the walk from the two
      deals' nodes. */
  method MergePair(tree: Tree, hands: seq<seq<int>>, n: nat, i: nat, j: nat, ghost start: seq<NodeRec>)
    returns (ok: bool)
    requires tree.Valid() && Linked(start) && Relabelled(start, tree.nodes) && WellLinked(start, 0)
    requires i < j < |hands| <= |start[0].children|
    requires n <= |hands[i]| && n <= |hands[j]|
    requires RowFits(start, start[0].children, i, j)
    requires forall k :: 0 <= k < |tree.nodes| && tree.nodes[k].infoset != start[k].infoset ==>
      UnderOne(start, start[0].children, |hands|, k)
    modifies tree
    ensures tree.Valid() && |tree.nodes| == |start|
    ensures tree.nodeCount == old(tree.nodeCount) && tree.infosetCount == old(tree.infosetCount)
    ensures tree.maxInfoset == old(tree.maxInfoset) && tree.numOfPlayers == old(tree.numOfPlayers)
    ensures tree.maxDepth == old(tree.maxDepth)
    ensures Relabelled(start, tree.nodes) && tree.nodes[0].children == start[0].children
    ensures ok == Fits(start, start[0].children[i], start[0].children[j])
    ensures ok ==> RowFits(start, start[0].children, i, j + 1)
    ensures !ok ==> !RowFits(start, start[0].children, i, |hands|)
    ensures forall k :: 0 <= k < |tree.nodes| && tree.nodes[k].infoset != start[k].infoset ==>
      UnderOne(start, start[0].children, |hands|, k)
    ensures ok ==> DoneBelow(old(tree.nodes), tree.nodes, start[0].children[i], start[0].children[j],
      MergesPlayers(Agreeing(hands[i], hands[j], n)))
  {
    ghost var before := tree.nodes;
    var cs := tree.nodes[0].children;
    assert cs == start[0].children by {
      assert tree.nodes[0] == start[0].(infoset := tree.nodes[0].infoset);
    }
    var ps := PlayersToMerge(hands[i], hands[j], n);
    SiblingNodesApart(before, 0, i, j);
    ok := CreateInformationSets(tree, cs[i], cs[j], ps);
    RelabelledTrans(start, before, tree.nodes);
    FitsKept(start, before, cs[i], cs[j]);
    assert tree.nodes[0] == start[0].(infoset := tree.nodes[0].infoset);
    forall k | 0 <= k < |tree.nodes| && tree.nodes[k].infoset != start[k].infoset
      ensures UnderOne(start, cs, |hands|, k)
    {
      if tree.nodes[k].infoset != before[k].infoset {
        BelowKept(start, before, k, cs[i]);
        BelowKept(start, before, k, cs[j]);
      }
    }
  }
}
