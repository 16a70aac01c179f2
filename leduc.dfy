/** Leduc poker for any number of players: a private card each and one public card, two
    betting rounds with their own bet sizes; the payoff of a finished hand, the enumeration of
    the deals from a deck with repeated ranks, and the merging of corresponding nodes that
    belong to the same player and show it the same cards. */
module Leduc {
  import opened Wrappers
  import opened GameTree
  import opened InfosetMerge
  import opened RealSeq
  import Kuhn

  /** `[p for p in range(n) if keep(p)]`. */
  function Filter(n: nat, keep: nat -> bool): (r: seq<nat>)
    ensures forall p: nat :: p in r <==> p < n && keep(p)
    ensures |r| <= n
  {
    if n == 0 then [] else Filter(n - 1, keep) + (if keep(n - 1) then [n - 1] else [])
  }

  /** Player `p` folded in neither round (Python reads the second-round move only when the
      first is not a fold). */
  predicate InShowdown(m0: seq<char>, m1: seq<char>, p: nat)
  {
    p < |m0| && m0[p] != 'f' && p < |m1| && m1[p] != 'f'
  }

  /** `max([hand[i] for i in ps])`. */
  function MaxCard(hand: seq<int>, ps: seq<nat>): (m: int)
    requires |ps| > 0 && forall i :: 0 <= i < |ps| ==> ps[i] < |hand|
    ensures exists i :: 0 <= i < |ps| && hand[ps[i]] == m
    ensures forall p :: p in ps ==> hand[p] <= m
  {
    if |ps| == 1 then hand[ps[0]]
    else
      var rest := MaxCard(hand, ps[1..]);
      assert forall p :: p in ps ==> p == ps[0] || p in ps[1..];
      if hand[ps[0]] >= rest then hand[ps[0]] else rest
  }

  /** The card that wins the showdown among the players of `ps`: the public card when one of
      them holds it, otherwise the highest card among them. */
  function WinningCard(hand: seq<int>, ps: seq<nat>, public: int): (c: int)
    requires |ps| > 0 && forall i :: 0 <= i < |ps| ==> ps[i] < |hand|
    ensures exists p :: p in ps && hand[p] == c
    ensures (exists p :: p in ps && hand[p] == public) ==> c == public
    ensures (forall p :: p in ps ==> hand[p] != public) ==> forall p :: p in ps ==> hand[p] <= c
  {
    if exists p :: p in ps && hand[p] == public then public
    else
      var m := MaxCard(hand, ps);
      var i :| 0 <= i < |ps| && hand[ps[i]] == m;
      assert ps[i] in ps;
      m
  }

  /** The payoff of player `p`: the ante of 1 and the bet of each round in which `p` bet are
      lost, and a winner gets its part of the pot. */
  function Share(m0: seq<char>, m1: seq<char>, bp: seq<real>, p: nat, wins: bool, part: real): real
    requires p < |m0| && p < |m1| && |bp| >= 2
  {
    -1.0 - (if m0[p] == 'b' then bp[0] else 0.0) - (if m1[p] == 'b' then bp[1] else 0.0)
      + (if wins then part else 0.0)
  }

  /** The pot: one per player and, for each round, the round's bet times the number of bets. */
  function Pot(n: nat, m0: seq<char>, m1: seq<char>, bp: seq<real>): real
    requires |bp| >= 2
  {
    n as real + Kuhn.Count(m0, 'b') as real * bp[0] + Kuhn.Count(m1, 'b') as real * bp[1]
  }

  /** Where the first round's moves are too short, or a player who did not fold in the first
      round has no second-round move, when the participants are listed. */
  predicate ShortMoves(m0: seq<char>, m1: seq<char>, n: nat)
  {
    |m0| < n || exists p :: 0 <= p < n && m0[p] != 'f' && p >= |m1|
  }

  /** The payoffs of players `0 .. k-1`, the winners being `winners` and each getting `part`. */
  function Payoffs(m0: seq<char>, m1: seq<char>, bp: seq<real>, k: nat, winners: seq<nat>, part: real): (u: seq<real>)
    requires k <= |m0| && k <= |m1| && |bp| >= 2
    ensures |u| == k
    ensures forall p :: 0 <= p < k ==> u[p] == Share(m0, m1, bp, p, p in winners, part)
  {
    if k == 0 then []
    else Payoffs(m0, m1, bp, k - 1, winners, part) + [Share(m0, m1, bp, k - 1, (k - 1) in winners, part)]
  }

  /** `showdown_participants`: the players who folded in neither round, in order. */
  function Participants(m0: seq<char>, m1: seq<char>, n: nat): (ps: seq<nat>)
  {
    Filter(n, (p: nat) => InShowdown(m0, m1, p))
  }

  /** Whether player `p` is in the showdown holding card `c`. */
  function WinnerTest(hand: seq<int>, m0: seq<char>, m1: seq<char>, c: int): nat -> bool
  {
    (p: nat) => InShowdown(m0, m1, p) && p < |hand| && hand[p] == c
  }

  /** Somebody is left at the showdown. */
  predicate Contested(hand: seq<int>, m0: seq<char>, m1: seq<char>)
  {
    exists p: nat :: p + 1 < |hand| && InShowdown(m0, m1, p)
  }

  /** The participants of a contested showdown are players of the hand. */
  lemma ParticipantsBelow(hand: seq<int>, m0: seq<char>, m1: seq<char>)
    requires Contested(hand, m0, m1)
    ensures var ps := Participants(m0, m1, |hand| - 1);
      |ps| > 0 && forall i :: 0 <= i < |ps| ==> ps[i] + 1 < |hand|
  {
    var ps := Participants(m0, m1, |hand| - 1);
    var p: nat :| p + 1 < |hand| && InShowdown(m0, m1, p);
    assert p in ps;
    assert forall i :: 0 <= i < |ps| ==> ps[i] in ps;
  }

  /** `winners`: the participants holding the public card or, when none does, the highest
      card among them, in order. */
  function ShowdownWinners(hand: seq<int>, m0: seq<char>, m1: seq<char>): (w: seq<nat>)
    requires Contested(hand, m0, m1)
  {
    ParticipantsBelow(hand, m0, m1);
    var n := |hand| - 1;
    Filter(n, WinnerTest(hand, m0, m1, WinningCard(hand, Participants(m0, m1, n), hand[n])))
  }

  /** A contested showdown has a winner. */
  lemma WinnersExist(hand: seq<int>, m0: seq<char>, m1: seq<char>)
    requires Contested(hand, m0, m1)
    ensures |ShowdownWinners(hand, m0, m1)| > 0
  {
    ParticipantsBelow(hand, m0, m1);
    var n := |hand| - 1;
    var ps := Participants(m0, m1, n);
    var c := WinningCard(hand, ps, hand[n]);
    var p :| p in ps && hand[p] == c;
    assert p in ShowdownWinners(hand, m0, m1);
  }

  /** `leduc_utility(hand, previous_moves, betting_parameters)` as a value. The last card of
      `hand` is the public one and the others are the players'. An empty hand, fewer than two
      rounds of moves or of bet sizes, or moves too short for the players are Python's
      IndexError; nobody left at the showdown is the ValueError of `max` on an empty list. */
  function LeducPayoff(hand: seq<int>, moves: seq<seq<char>>, bp: seq<real>): (r: Result<seq<real>>)
    ensures r.Success? <==>
      |hand| > 0 && |moves| >= 2 && |bp| >= 2 && |moves[0]| >= |hand| - 1 && |moves[1]| >= |hand| - 1
      && Contested(hand, moves[0], moves[1])
    ensures r.Success? ==> |r.value| == |hand| - 1
  {
    if |hand| == 0 || |moves| < 2 || |bp| < 2 then Failure("IndexError")
    else
      var n := |hand| - 1;
      var m0, m1 := moves[0], moves[1];
      if ShortMoves(m0, m1, n) then Failure("IndexError")
      else if Participants(m0, m1, n) == [] then
        assert !Contested(hand, m0, m1) by {
          if Contested(hand, m0, m1) {
            ParticipantsBelow(hand, m0, m1);
          }
        }
        Failure("ValueError")
      else if |m1| < n then
        assert Participants(m0, m1, n)[0] in Participants(m0, m1, n);
        Failure("IndexError")
      else
        assert Participants(m0, m1, n)[0] in Participants(m0, m1, n);
        var w := ShowdownWinners(hand, m0, m1);
        WinnersExist(hand, m0, m1);
        Success(Payoffs(m0, m1, bp, n, w, Pot(n, m0, m1, bp) / |w| as real))
  }

  /** `leduc_utility(hand, previous_moves, betting_parameters)`: `[-1] * n`, then, player by
      player, the bets taken off and the winners' part of the pot added. */
  method LeducUtility(hand: seq<int>, moves: seq<seq<char>>, bp: seq<real>) returns (r: Result<seq<real>>)
    ensures r == LeducPayoff(hand, moves, bp)
  {
    if |hand| == 0 || |moves| < 2 || |bp| < 2 {
      return Failure("IndexError");
    }
    var n := |hand| - 1;
    var m0, m1 := moves[0], moves[1];
    if ShortMoves(m0, m1, n) {
      return Failure("IndexError");
    }
    var pot := Pot(n, m0, m1, bp);
    var ps := Participants(m0, m1, n);
    if ps == [] {
      return Failure("ValueError");
    }
    assert ps[0] in ps;
    if |m1| < n {
      return Failure("IndexError");
    }
    var winners := ShowdownWinners(hand, m0, m1);
    WinnersExist(hand, m0, m1);
    var utility := SettlePayoffs(m0, m1, bp, n, winners, pot / |winners| as real);
    r := Success(utility);
  }

  /** The loop of `leduc_utility`: from `[-1] * n`, each player's bets are taken off and each
      winner's part of the pot added. */
  method SettlePayoffs(m0: seq<char>, m1: seq<char>, bp: seq<real>, n: nat, winners: seq<nat>, part: real) returns (utility: seq<real>)
    requires n <= |m0| && n <= |m1| && |bp| >= 2
    ensures utility == Payoffs(m0, m1, bp, n, winners, part)
  {
    utility := seq(n, _ => -1.0);
    for p := 0 to n
      invariant |utility| == n
      invariant forall q :: 0 <= q < p ==> utility[q] == Share(m0, m1, bp, q, q in winners, part)
      invariant forall q :: p <= q < n ==> utility[q] == -1.0
    {
      if m0[p] == 'b' {
        utility := utility[p := utility[p] - bp[0]];
      }
      if m1[p] == 'b' {
        utility := utility[p := utility[p] - bp[1]];
      }
      if p in winners {
        utility := utility[p := utility[p] + part];
      }
    }
  }

  /** What players `0 .. k-1` staked: the ante and their bets. */
  function Staked(m0: seq<char>, m1: seq<char>, bp: seq<real>, k: nat): real
    requires k <= |m0| && k <= |m1| && |bp| >= 2
  {
    if k == 0 then 0.0
    else Staked(m0, m1, bp, k - 1) + 1.0 + (if m0[k - 1] == 'b' then bp[0] else 0.0) + (if m1[k - 1] == 'b' then bp[1] else 0.0)
  }

  /** What players `0 .. k-1` win: `part` for each of them in `winners`. */
  function Gains(winners: seq<nat>, k: nat, part: real): real
  {
    if k == 0 then 0.0 else Gains(winners, k - 1, part) + (if (k - 1) in winners then part else 0.0)
  }

  /** `part` added up `m` times. */
  function Times(m: nat, part: real): real
  {
    if m == 0 then 0.0 else Times(m - 1, part) + part
  }

  lemma {:induction false} TimesIsProduct(m: nat, part: real)
    ensures Times(m, part) == m as real * part
  {
    if m > 0 {
      TimesIsProduct(m - 1, part);
      assert (m - 1) as real * part + part == m as real * part;
    }
  }

  /** The first `k` payoffs add up to what the first `k` players win minus what they staked. */
  lemma {:induction false} PayoffsSum(m0: seq<char>, m1: seq<char>, bp: seq<real>, k: nat, winners: seq<nat>, part: real)
    requires k <= |m0| && k <= |m1| && |bp| >= 2
    ensures Sum(Payoffs(m0, m1, bp, k, winners, part)) == Gains(winners, k, part) - Staked(m0, m1, bp, k)
  {
    if k > 0 {
      var prev := Payoffs(m0, m1, bp, k - 1, winners, part);
      var x := Share(m0, m1, bp, k - 1, (k - 1) in winners, part);
      PayoffsSum(m0, m1, bp, k - 1, winners, part);
      assert Payoffs(m0, m1, bp, k, winners, part) == prev + [x];
      SumAppend(prev, [x]);
      assert Sum([x]) == x;
    }
  }

  /** The stakes of all players add up to the pot. */
  lemma {:induction false} StakedIsPot(m0: seq<char>, m1: seq<char>, bp: seq<real>, k: nat)
    requires k <= |m0| && k <= |m1| && |bp| >= 2
    ensures Staked(m0, m1, bp, k) == Pot(k, m0[..k], m1[..k], bp)
  {
    if k > 0 {
      StakedIsPot(m0, m1, bp, k - 1);
      assert m0[..k][..k - 1] == m0[..k - 1] && m0[..k][k - 1] == m0[k - 1];
      assert m1[..k][..k - 1] == m1[..k - 1] && m1[..k][k - 1] == m1[k - 1];
      BetsStep(m0[..k], m1[..k], bp, k);
    } else {
      assert Kuhn.Count(m0[..0], 'b') == 0 && Kuhn.Count(m1[..0], 'b') == 0;
    }
  }

  lemma {:induction false} GainsTimes(winners: seq<nat>, keep: nat -> bool, n: nat, k: nat, part: real)
    requires winners == Filter(n, keep) && k <= n
    ensures Gains(winners, k, part) == Times(|Filter(k, keep)|, part)
  {
    if k > 0 {
      GainsTimes(winners, keep, n, k - 1, part);
    }
  }

  /** `m` equal parts of `x` make up `x`. */
  lemma TimesDiv(m: nat, x: real)
    requires m > 0
    ensures Times(m, x / m as real) == x
  {
    TimesIsProduct(m, x / m as real);
  }

  /** One more player adds the ante and its bets to the pot. */
  lemma BetsStep(m0: seq<char>, m1: seq<char>, bp: seq<real>, k: nat)
    requires 0 < k == |m0| == |m1| && |bp| >= 2
    ensures Pot(k, m0, m1, bp) == Pot(k - 1, m0[..k - 1], m1[..k - 1], bp)
      + 1.0 + (if m0[k - 1] == 'b' then bp[0] else 0.0) + (if m1[k - 1] == 'b' then bp[1] else 0.0)
  {
    var c0, c1 := Kuhn.Count(m0[..k - 1], 'b') as real, Kuhn.Count(m1[..k - 1], 'b') as real;
    if m0[k - 1] == 'b' {
      assert (c0 + 1.0) * bp[0] == c0 * bp[0] + bp[0];
    }
    if m1[k - 1] == 'b' {
      assert (c1 + 1.0) * bp[1] == c1 * bp[1] + bp[1];
    }
  }

  /** Leduc poker is zero-sum: with one move per player in each round and somebody left at
      the showdown, the payoffs add up to 0. */
  lemma LeducZeroSum(hand: seq<int>, moves: seq<seq<char>>, bp: seq<real>)
    requires |hand| > 0 && |moves| >= 2 && |moves[0]| == |moves[1]| == |hand| - 1
    requires LeducPayoff(hand, moves, bp).Success?
    ensures Sum(LeducPayoff(hand, moves, bp).value) == 0.0
  {
    var n := |hand| - 1;
    var m0, m1 := moves[0], moves[1];
    ParticipantsBelow(hand, m0, m1);
    assert !ShortMoves(m0, m1, n);
    var w := ShowdownWinners(hand, m0, m1);
    WinnersExist(hand, m0, m1);
    assert m0[..n] == m0 && m1[..n] == m1;
    assert LeducPayoff(hand, moves, bp).value == Payoffs(m0, m1, bp, n, w, Pot(n, m0[..n], m1[..n], bp) / |w| as real);
    StakedIsPot(m0, m1, bp, n);
    SettledZeroSum(m0, m1, bp, n, w, WinnerTest(hand, m0, m1, WinningCard(hand, Participants(m0, m1, n), hand[n])),
      Pot(n, m0[..n], m1[..n], bp));
  }

  /** Settling a pot made of the stakes among winners listed once each leaves nothing over:
      the payoffs add up to 0. */
  lemma SettledZeroSum(m0: seq<char>, m1: seq<char>, bp: seq<real>, n: nat, w: seq<nat>, keep: nat -> bool, pot: real)
    requires n <= |m0| && n <= |m1| && |bp| >= 2 && w == Filter(n, keep) && |w| > 0
    requires pot == Staked(m0, m1, bp, n)
    ensures Sum(Payoffs(m0, m1, bp, n, w, pot / |w| as real)) == 0.0
  {
    var part := pot / |w| as real;
    var g := Gains(w, n, part);
    assert Sum(Payoffs(m0, m1, bp, n, w, part)) == g - pot by {
      PayoffsSum(m0, m1, bp, n, w, part);
    }
    assert g == pot by {
      GainsTimes(w, keep, n, n, part);
      TimesDiv(|w|, pot);
    }
  }

  /** Who wins the showdown: a participant holding the public card, or, when no participant
      holds it, a participant whose card no other participant's beats. */
  ghost predicate WinsShowdown(hand: seq<int>, m0: seq<char>, m1: seq<char>, p: nat)
  {
    var n := |hand| - 1;
    p < n && InShowdown(m0, m1, p)
    && (hand[p] == hand[n]
        || ((forall q: nat :: q < n && InShowdown(m0, m1, q) ==> hand[q] != hand[n])
            && forall q: nat :: q < n && InShowdown(m0, m1, q) ==> hand[q] <= hand[p]))
  }

  /** The winners of a contested showdown are exactly the participants who hold the public
      card, or, when nobody left holds it, the participants holding the best card left. */
  lemma LeducWinners(hand: seq<int>, m0: seq<char>, m1: seq<char>, p: nat)
    requires Contested(hand, m0, m1)
    ensures p in ShowdownWinners(hand, m0, m1) <==> WinsShowdown(hand, m0, m1, p)
  {
    ParticipantsBelow(hand, m0, m1);
    var n := |hand| - 1;
    var ps := Participants(m0, m1, n);
    var c := WinningCard(hand, ps, hand[n]);
    assert p in ShowdownWinners(hand, m0, m1) <==> p < n && InShowdown(m0, m1, p) && hand[p] == c;
    assert forall q: nat :: q in ps <==> q < n && InShowdown(m0, m1, q);
    if exists q :: q in ps && hand[q] == hand[n] {
      var q :| q in ps && hand[q] == hand[n];
      assert c == hand[n];
    } else {
      var q :| q in ps && hand[q] == c;
      if WinsShowdown(hand, m0, m1, p) {
        assert hand[q] <= hand[p];
      }
    }
  }

  /** The payoff of each player: the ante and its bets lost, and for the winners an equal part
      of the pot, the pot being one per player plus every bet of both rounds. */
  lemma LeducShares(hand: seq<int>, moves: seq<seq<char>>, bp: seq<real>, p: nat)
    requires LeducPayoff(hand, moves, bp).Success? && p + 1 < |hand|
    ensures var m0, m1 := moves[0], moves[1];
      var winners := ShowdownWinners(hand, m0, m1);
      |winners| > 0
      && LeducPayoff(hand, moves, bp).value[p]
        == -1.0 - (if m0[p] == 'b' then bp[0] else 0.0) - (if m1[p] == 'b' then bp[1] else 0.0)
           + (if WinsShowdown(hand, m0, m1, p) then Pot(|hand| - 1, m0, m1, bp) / |winners| as real else 0.0)
  {
    var n := |hand| - 1;
    var m0, m1 := moves[0], moves[1];
    ParticipantsBelow(hand, m0, m1);
    WinnersExist(hand, m0, m1);
    LeducWinners(hand, m0, m1, p);
  }

  // Deals

  /** Strictly increasing. */
  predicate Ascending(s: seq<int>)
  {
    forall i, j :: 0 <= i < j < |s| ==> s[i] < s[j]
  }

  /** `x` put into its place in an increasing list, unless it is there already. */
  function Insert(r: seq<int>, x: int): (t: seq<int>)
    requires Ascending(r)
    ensures Ascending(t) && forall y :: y in t <==> y in r || y == x
  {
    if r == [] then [x]
    else if x < r[0] then [x] + r
    else if x == r[0] then r
    else
      var t := Insert(r[1..], x);
      assert forall y :: y in r <==> y == r[0] || y in r[1..] by {
        assert r == [r[0]] + r[1..];
      }
      ConsAscending(r[0], r[1..], x, t);
      [r[0]] + t
  }

  /** A value below every member of an increasing list, put in front of it. */
  lemma ConsAscending(h: int, r: seq<int>, x: int, t: seq<int>)
    requires Ascending([h] + r) && h < x && Ascending(t) && forall y :: y in t <==> y in r || y == x
    ensures Ascending([h] + t)
  {
    forall k | 0 <= k < |r| ensures h < r[k] {
      assert ([h] + r)[0] == h && ([h] + r)[k + 1] == r[k];
    }
    assert forall k :: 0 <= k < |t| ==> t[k] in t;
  }

  /** `list(set(cards))`. A set of small non-negative integers, such as the card values of a
      Leduc deck, lists its members in increasing order in CPython; the model takes that
      order. */
  function Unique(cards: seq<int>): (r: seq<int>)
    ensures Ascending(r) && forall x :: x in r <==> x in cards
  {
    if cards == [] then []
    else
      assert forall x :: x in cards <==> x in cards[..|cards| - 1] || x == cards[|cards| - 1] by {
        assert cards == cards[..|cards| - 1] + [cards[|cards| - 1]];
      }
      Insert(Unique(cards[..|cards| - 1]), cards[|cards| - 1])
  }

  /** An increasing list is determined by its members. */
  lemma {:induction false} AscendingSame(a: seq<int>, b: seq<int>)
    requires Ascending(a) && Ascending(b) && forall x :: x in a <==> x in b
    ensures a == b
    decreases |a|
  {
    if a == [] {
      if b != [] {
        HeadIn(b);
        assert false;
      }
    } else {
      assert a[0] in a;
      assert a[0] in b;
      assert |b| > 0 && b[0] in b;
      var i :| 0 <= i < |b| && b[i] == a[0];
      var j :| 0 <= j < |a| && a[j] == b[0];
      assert a[0] <= a[j] && b[0] <= b[i];
      forall x ensures x in a[1..] <==> x in b[1..] {
        assert x in a[1..] <==> x in a && x != a[0];
        assert x in b[1..] <==> x in b && x != b[0];
      }
      AscendingSame(a[1..], b[1..]);
      assert a == [a[0]] + a[1..] && b == [b[0]] + b[1..];
    }
  }

  lemma HeadIn(s: seq<int>)
    requires s != []
    ensures s[0] in s
  {
  }

  /** Lists with the same members give the same `list(set(...))`. */
  lemma UniqueSame(a: seq<int>, b: seq<int>)
    requires forall x :: x in a <==> x in b
    ensures Unique(a) == Unique(b)
  {
    AscendingSame(Unique(a), Unique(b));
  }

  /** An increasing list has no repeats. */
  lemma AscendingNoDups(s: seq<int>)
    requires Ascending(s)
    ensures Kuhn.NoDups(s)
  {
  }

  /** `cards.remove(x)`: the first occurrence of `x` taken out. */
  function RemoveFirst(cards: seq<int>, x: int): (r: seq<int>)
    requires x in cards
    ensures multiset(r) == multiset(cards) - multiset{x}
  {
    if cards[0] == x then
      assert cards == [x] + cards[1..];
      cards[1..]
    else
      assert cards == [cards[0]] + cards[1..];
      [cards[0]] + RemoveFirst(cards[1..], x)
  }

  /** The cards of `cs` of which `deck` holds more than `hand` does, in the order of `cs`:
      with `deck` the cards of `cs`, those still in the deck once `hand` is dealt. */
  function Over(cs: seq<int>, deck: multiset<int>, hand: seq<int>): (r: seq<int>)
    ensures forall x :: x in r <==> x in cs && multiset(hand)[x] < deck[x]
  {
    if cs == [] then []
    else
      var x := cs[|cs| - 1];
      assert forall y :: y in cs <==> y in cs[..|cs| - 1] || y == x by {
        assert cs == cs[..|cs| - 1] + [x];
      }
      Over(cs[..|cs| - 1], deck, hand) + (if multiset(hand)[x] < deck[x] then [x] else [])
  }

  /** The distinct cards still in the deck once `hand` is dealt from `cards`, increasing. */
  function Avail(cards: seq<int>, hand: seq<int>): (r: seq<int>)
    ensures Ascending(r) && forall x :: x in r <==> multiset(hand)[x] < multiset(cards)[x]
  {
    Unique(Over(cards, multiset(cards), hand))
  }

  /** The last element of the list taken separately. */
  function Last(s: seq<int>): int
    requires |s| > 0
  {
    s[|s| - 1]
  }

  /** Every hand of `smaller`, extended by each card still in the deck once it is dealt. */
  function LExtendAll(smaller: seq<seq<int>>, cards: seq<int>): seq<seq<int>>
  {
    if smaller == [] then []
    else
      var last := smaller[|smaller| - 1];
      LExtendAll(smaller[..|smaller| - 1], cards) + Kuhn.Extensions(last, Avail(cards, last))
  }

  /** The deals `build_all_possible_hands(n, cards)` enumerates: one card each for players
      `0 .. n-1` and the public card last. */
  function LHands(n: int, cards: seq<int>): seq<seq<int>>
    decreases if n <= 0 then 0 else n
  {
    if n <= 0 then Kuhn.Extensions([], Unique(cards)) else LExtendAll(LHands(n - 1, cards), cards)
  }

  /** Two decks holding the same cards leave the same cards once a hand is dealt. */
  lemma AvailSame(a: seq<int>, b: seq<int>, hand: seq<int>)
    requires multiset(a) == multiset(b)
    ensures Avail(a, hand) == Avail(b, hand)
  {
    AscendingSame(Avail(a, hand), Avail(b, hand));
  }

  /** `build_all_possible_hands(num_players, cards)`: for no players one hand per distinct
      card; otherwise each hand for one player fewer, extended by each distinct card still in
      the deck once that hand is dealt. The `cards` list is changed in place while the hands
      are built and holds the same cards, perhaps in another order, afterwards; `after` is
      that list. */
  method BuildAllPossibleHands(n: int, cards: seq<int>) returns (hands: seq<seq<int>>, after: seq<int>)
    ensures multiset(after) == multiset(cards)
    ensures hands == LHands(n, cards)
    decreases if n <= 0 then 0 else n
  {
    var unique := Unique(cards);
    if n <= 0 {
      hands := Kuhn.AppendExtensions([], [], unique);
      return hands, cards;
    }
    var smaller;
    smaller, after := BuildAllPossibleHands(n - 1, cards);
    HandsFit(n - 1, cards);
    hands := [];
    for k := 0 to |smaller|
      invariant multiset(after) == multiset(cards)
      invariant hands == LExtendAll(smaller[..k], cards)
    {
      assert smaller[k] in smaller;
      ghost var before := after;
      hands, after := DealFrom(hands, smaller[k], after);
      AvailSame(before, cards, smaller[k]);
      LExtendAllSnoc(smaller, k, cards);
    }
    assert smaller[..|smaller|] == smaller;
    LHandsStep(n, cards);
  }

  /** The body of the outer loop for one smaller hand: its cards taken out of the deck one by
      one, each distinct card left appended to it, and its cards put back at the end. */
  method DealFrom(hands: seq<seq<int>>, hand: seq<int>, cards: seq<int>) returns (out: seq<seq<int>>, after: seq<int>)
    requires multiset(hand) <= multiset(cards)
    ensures multiset(after) == multiset(cards)
    ensures out == hands + Kuhn.Extensions(hand, Avail(cards, hand))
  {
    var rest := TakeOut(cards, hand);
    var remaining := Unique(rest);
    AscendingSame(remaining, Avail(cards, hand));
    out := Kuhn.AppendExtensions(hands, hand, remaining);
    after := PutBack(rest, hand);
  }

  /** `for card in hand: cards.remove(card)`. */
  method TakeOut(cards: seq<int>, hand: seq<int>) returns (rest: seq<int>)
    requires multiset(hand) <= multiset(cards)
    ensures multiset(rest) == multiset(cards) - multiset(hand)
  {
    rest := cards;
    for j := 0 to |hand|
      invariant multiset(rest) == multiset(cards) - multiset(hand[..j])
      invariant multiset(hand[..j]) <= multiset(cards)
    {
      TakeOutStep(multiset(cards), hand, j);
      rest := RemoveFirst(rest, hand[j]);
    }
    assert hand[..|hand|] == hand;
  }

  lemma TakeOutStep(deck: multiset<int>, hand: seq<int>, j: nat)
    requires j < |hand| && multiset(hand) <= deck
    ensures multiset(hand[..j + 1]) <= deck && hand[j] in deck - multiset(hand[..j])
    ensures deck - multiset(hand[..j + 1]) == (deck - multiset(hand[..j])) - multiset{hand[j]}
  {
    assert hand[..j + 1] == hand[..j] + [hand[j]];
    assert hand == hand[..j + 1] + hand[j + 1..];
  }

  /** `for card in hand: cards.append(card)`. */
  method PutBack(rest: seq<int>, hand: seq<int>) returns (after: seq<int>)
    ensures after == rest + hand
  {
    after := rest;
    for j := 0 to |hand|
      invariant after == rest + hand[..j]
    {
      assert hand[..j + 1] == hand[..j] + [hand[j]];
      after := after + [hand[j]];
    }
    assert hand[..|hand|] == hand;
  }

  lemma LExtendAllSnoc(smaller: seq<seq<int>>, k: nat, cards: seq<int>)
    requires k < |smaller|
    ensures LExtendAll(smaller[..k + 1], cards) ==
      LExtendAll(smaller[..k], cards) + Kuhn.Extensions(smaller[k], Avail(cards, smaller[k]))
  {
    assert smaller[..k + 1][..k] == smaller[..k];
  }

  lemma LHandsStep(n: int, cards: seq<int>)
    requires n > 0
    ensures LHands(n, cards) == LExtendAll(LHands(n - 1, cards), cards)
  {
  }

  /** Where a member of `LExtendAll` comes from. */
  lemma {:induction false} LExtendAllOrigin(smaller: seq<seq<int>>, cards: seq<int>, h: seq<int>) returns (s: seq<int>, c: int)
    requires h in LExtendAll(smaller, cards)
    ensures s in smaller && multiset(s)[c] < multiset(cards)[c] && h == s + [c]
    decreases |smaller|
  {
    var init := smaller[..|smaller| - 1];
    var last := smaller[|smaller| - 1];
    if h in LExtendAll(init, cards) {
      s, c := LExtendAllOrigin(init, cards, h);
      assert s in smaller by { var i :| 0 <= i < |init| && init[i] == s; assert smaller[i] == s; }
    } else {
      s := last;
      c := Kuhn.ExtensionsOrigin(last, Avail(cards, last), h);
    }
  }

  /** Every smaller hand extended by a card still in the deck is a member of `LExtendAll`. */
  lemma {:induction false} LExtendAllHas(smaller: seq<seq<int>>, cards: seq<int>, s: seq<int>, c: int)
    requires s in smaller && multiset(s)[c] < multiset(cards)[c]
    ensures s + [c] in LExtendAll(smaller, cards)
    decreases |smaller|
  {
    var init := smaller[..|smaller| - 1];
    var last := smaller[|smaller| - 1];
    if s == last {
      Kuhn.ExtensionsHas(last, Avail(cards, last), c);
    } else {
      var i :| 0 <= i < |smaller| && smaller[i] == s;
      assert s == init[i];
      LExtendAllHas(init, cards, s, c);
    }
  }

  /** A deal for `n` players: one card each and the public card, dealt from `cards`. */
  predicate Dealt(h: seq<int>, n: int, cards: seq<int>)
  {
    |h| == (if n <= 0 then 0 else n) + 1 && multiset(h) <= multiset(cards)
  }

  /** The enumerated hands are exactly the deals: one card per player plus the public card,
      none of them more often than the deck holds it. */
  lemma LeducHandsAreDeals(n: int, cards: seq<int>, h: seq<int>)
    ensures h in LHands(n, cards) <==> Dealt(h, n, cards)
  {
    HandsFit(n, cards);
    FitsAreHands(n, cards);
  }

  lemma {:induction false} HandsFit(n: int, cards: seq<int>)
    ensures forall h :: h in LHands(n, cards) ==> Dealt(h, n, cards)
    decreases if n <= 0 then 0 else n
  {
    if n <= 0 {
      forall h | h in LHands(n, cards) ensures Dealt(h, n, cards) {
        var c := Kuhn.ExtensionsOrigin([], Unique(cards), h);
        assert h == [c];
      }
    } else {
      HandsFit(n - 1, cards);
      LHandsStep(n, cards);
      LExtendAllFits(LHands(n - 1, cards), cards, n);
    }
  }

  /** Deals for one player fewer extend to deals. */
  lemma LExtendAllFits(smaller: seq<seq<int>>, cards: seq<int>, n: int)
    requires n > 0 && forall s :: s in smaller ==> Dealt(s, n - 1, cards)
    ensures forall h :: h in LExtendAll(smaller, cards) ==> Dealt(h, n, cards)
  {
    forall h | h in LExtendAll(smaller, cards) ensures Dealt(h, n, cards) {
      var s, c := LExtendAllOrigin(smaller, cards, h);
      assert multiset(h) == multiset(s) + multiset{c};
    }
  }

  lemma {:induction false} FitsAreHands(n: int, cards: seq<int>)
    ensures forall h :: Dealt(h, n, cards) ==> h in LHands(n, cards)
    decreases if n <= 0 then 0 else n
  {
    if n <= 0 {
      forall h | Dealt(h, n, cards) ensures h in LHands(n, cards) {
        assert h[0] in multiset(h);
        Kuhn.ExtensionsHas([], Unique(cards), h[0]);
        assert h == [] + [h[0]];
      }
    } else {
      FitsAreHands(n - 1, cards);
      LHandsStep(n, cards);
      LExtendAllHasFits(LHands(n - 1, cards), cards, n);
    }
  }

  /** Every deal is an extension of a deal for one player fewer. */
  lemma LExtendAllHasFits(smaller: seq<seq<int>>, cards: seq<int>, n: int)
    requires n > 0 && forall s :: Dealt(s, n - 1, cards) ==> s in smaller
    ensures forall h :: Dealt(h, n, cards) ==> h in LExtendAll(smaller, cards)
  {
    forall h | Dealt(h, n, cards) ensures h in LExtendAll(smaller, cards) {
      var s := h[..|h| - 1];
      var c := h[|h| - 1];
      assert h == s + [c];
      assert multiset(h) == multiset(s) + multiset{c};
      assert Dealt(s, n - 1, cards);
      LExtendAllHas(smaller, cards, s, c);
    }
  }

  /** The enumeration lists no deal twice. */
  lemma {:induction false} LeducHandsNoDups(n: int, cards: seq<int>)
    ensures Kuhn.NoDups(LHands(n, cards))
    decreases if n <= 0 then 0 else n
  {
    if n <= 0 {
      AscendingNoDups(Unique(cards));
      Kuhn.ExtensionsNoDups([], Unique(cards));
    } else {
      LeducHandsNoDups(n - 1, cards);
      LExtendAllNoDups(LHands(n - 1, cards), cards);
      LHandsStep(n, cards);
    }
  }

  lemma {:induction false} LExtendAllNoDups(smaller: seq<seq<int>>, cards: seq<int>)
    requires Kuhn.NoDups(smaller)
    ensures Kuhn.NoDups(LExtendAll(smaller, cards))
    decreases |smaller|
  {
    if smaller != [] {
      var init := smaller[..|smaller| - 1];
      var last := smaller[|smaller| - 1];
      var rest := Avail(cards, last);
      Kuhn.NoDupsInit(smaller);
      LExtendAllNoDups(init, cards);
      AscendingNoDups(rest);
      Kuhn.ExtensionsNoDups(last, rest);
      forall x | x in LExtendAll(init, cards) ensures x !in Kuhn.Extensions(last, rest) {
        LLastApart(smaller, cards, x);
      }
      Kuhn.NoDupsAppend(LExtendAll(init, cards), Kuhn.Extensions(last, rest));
    }
  }

  /** What the earlier hands extend to differs from what the last hand extends to. */
  lemma LLastApart(smaller: seq<seq<int>>, cards: seq<int>, x: seq<int>)
    requires Kuhn.NoDups(smaller) && |smaller| > 0
    requires x in LExtendAll(smaller[..|smaller| - 1], cards)
    ensures x !in Kuhn.Extensions(smaller[|smaller| - 1], Avail(cards, smaller[|smaller| - 1]))
  {
    var last := smaller[|smaller| - 1];
    var s, c := LExtendAllOrigin(smaller[..|smaller| - 1], cards, x);
    Kuhn.NoDupsLast(smaller, s);
    assert x[..|x| - 1] == s;
    Kuhn.ExtensionsPrefix(last, Avail(cards, last));
  }

  // Information sets

  /** `create_information_sets(node1, node2)`: the walk over corresponding nodes that gives
      both nodes of a pair the smaller of their two labels when they belong to the same player
      and show it the same cards. `known` gives the `known_information` of each node id (the
      player's card and the public card, or -1 before the public card is dealt), which the
      tree builder sets on every decision node. `ok` is false where the two subtrees differ in
      shape, which Python reports as an IndexError. */
  method LeducCreateInformationSets(tree: Tree, n1: nat, n2: nat, known: int -> (int, int)) returns (ok: bool)
    requires tree.Valid() && n1 < |tree.nodes| && n2 < |tree.nodes|
    modifies tree
    ensures tree.Valid()
    ensures tree.nodeCount == old(tree.nodeCount) && tree.infosetCount == old(tree.infosetCount)
    ensures tree.maxInfoset == old(tree.maxInfoset) && tree.numOfPlayers == old(tree.numOfPlayers)
    ensures tree.maxDepth == old(tree.maxDepth)
    ensures Relabelled(old(tree.nodes), tree.nodes)
    ensures ok == Fits(old(tree.nodes), n1, n2)
    ensures forall j :: 0 <= j < |tree.nodes| && tree.nodes[j].infoset != old(tree.nodes[j].infoset) ==>
      Below(old(tree.nodes), j, n1) || Below(old(tree.nodes), j, n2)
    ensures old(tree.nodes[n1].kind) != LeafKind && Apart(old(tree.nodes), n1, n2) ==>
      var r1, r2 := old(tree.nodes[n1]), old(tree.nodes[n2]);
      var h := Min(r1.infoset, r2.infoset);
      var same := r1.player == r2.player && known(r1.id) == known(r2.id);
      (same ==> tree.nodes[n1].infoset == h && tree.nodes[n2].infoset == h)
      && (!same ==> tree.nodes[n1].infoset == r1.infoset && tree.nodes[n2].infoset == r2.infoset)
    ensures ok && Apart(old(tree.nodes), n1, n2) ==> DoneBelow(old(tree.nodes), tree.nodes, n1, n2, SameView(known))
  {
    ok := MergeCorresponding(tree, n1, n2, SameView(known));
  }

  /** The test of `create_information_sets`: the two nodes belong to the same player and carry
      the same `known_information`. */
  function SameView(known: int -> (int, int)): (NodeRec, NodeRec) -> bool
  {
    (a: NodeRec, b: NodeRec) => a.player == b.player && known(a.id) == known(b.id)
  }
}
