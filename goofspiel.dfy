/** Goofspiel: in each round every player bids one card of a hand of ranks; the prize of the
    round goes to the player whose bid nobody else matched and is highest, with five rules
    for the rounds such a player does not decide, and the enumeration of the hands. */
module Goofspiel {
  import opened Wrappers
  import Kuhn
  import opened Coordination
  import Leduc
  import GameUtilities

  /** `TieSolver`: what happens to a round without a clear winner. */
  datatype TieSolver = Accumulate | DiscardIfAll | DiscardIfHigh | DiscardAlways | CyclicUtility

  // ---------------------------------------------------------------------------------------
  // The winner of a round.

  /** Player `p` played a card that nobody else played. */
  ghost predicate Single(moves: seq<int>, p: int)
  {
    0 <= p < |moves| && forall q :: 0 <= q < |moves| && q != p ==> moves[q] != moves[p]
  }

  /** Some card was played by two players. */
  ghost predicate Shared(moves: seq<int>)
  {
    exists p, q :: 0 <= p < q < |moves| && moves[p] == moves[q]
  }

  /** Player `p` played the highest of the cards nobody else played. */
  ghost predicate HighestSingle(moves: seq<int>, p: int)
  {
    Single(moves, p) && forall q :: Single(moves, q) ==> moves[q] <= moves[p]
  }

  /** `moves_dict[c]`: the players who played `c`, in increasing order. */
  function Players(moves: seq<int>, c: int): (ps: seq<nat>)
    ensures forall j :: 0 <= j < |ps| ==> ps[j] < |moves| && moves[ps[j]] == c
    ensures forall p :: 0 <= p < |moves| && moves[p] == c ==> p in ps
    ensures forall i, j :: 0 <= i < j < |ps| ==> ps[i] < ps[j]
  {
    if moves == [] then []
    else
      var init := moves[..|moves| - 1];
      Players(init, c) + (if moves[|moves| - 1] == c then [|moves| - 1] else [])
  }

  /** The keys of `moves_dict`: each card played, in the order of its first play. */
  function Played(moves: seq<int>): (cs: seq<int>)
    ensures forall c :: c in cs <==> c in moves
    ensures Kuhn.NoDups(cs) && |cs| <= |moves|
  {
    if moves == [] then []
    else
      var init := moves[..|moves| - 1];
      var last := moves[|moves| - 1];
      assert forall c :: c in moves <==> c in init || c == last by {
        assert moves == init + [last];
      }
      if last in init then Played(init) else Played(init) + [last]
  }

  /** `single_moves`: the entries `(c, players)` of `moves_dict` for the cards `cs` that
      exactly one player played, in the order of `cs`. */
  function SingleMoves(cs: seq<int>, moves: seq<int>): (r: seq<(int, seq<nat>)>)
    ensures |r| <= |cs|
    ensures forall e :: e in r ==> e.0 in cs && e.1 == Players(moves, e.0) && |e.1| == 1
    ensures forall c :: c in cs && |Players(moves, c)| == 1 ==> (c, Players(moves, c)) in r
  {
    if cs == [] then []
    else
      var c := cs[|cs| - 1];
      var init := cs[..|cs| - 1];
      assert forall d :: d in cs <==> d in init || d == c by {
        assert cs == init + [c];
      }
      SingleMoves(init, moves) + (if |Players(moves, c)| == 1 then [(c, Players(moves, c))] else [])
  }

  /** `max(single_moves, key = lambda el: el[0])`: the entry with the highest card, the first
      of equal ones as Python's `max` keeps it. */
  function Best(s: seq<(int, seq<nat>)>): (b: (int, seq<nat>))
    requires |s| > 0
    ensures b in s && forall e :: e in s ==> e.0 <= b.0
  {
    if |s| == 1 then s[0]
    else
      var init := s[..|s| - 1];
      var last := s[|s| - 1];
      assert forall e :: e in s <==> e in init || e == last by {
        assert s == init + [last];
      }
      var b := Best(init);
      if last.0 > b.0 then last else b
  }

  /** `winner_player(round_moves, tie_solver)` as a value. */
  function Winner(moves: seq<int>, tie: TieSolver): (w: int)
    ensures -1 <= w < |moves|
  {
    var singles := SingleMoves(Played(moves), moves);
    if |singles| == 0 then -1
    else if |singles| < |moves| && tie == DiscardAlways then -1
    else
      var b := Best(singles);
      var winner := b.1[0];
      if moves[winner] != MaxOf(moves) && tie == DiscardIfHigh then -1 else winner
  }

  /** `winner_player`: fills `moves_dict` with the players of each card, keeps the cards one
      player played, and takes the highest of them, subject to the tie rule. */
  method WinnerPlayer(moves: seq<int>, tie: TieSolver) returns (w: int)
    ensures w == Winner(moves, tie)
  {
    var keys, dict := MovesDict(moves);
    var singles := Singles(keys, dict, moves);
    if |singles| == 0 {
      return -1;
    }
    if |singles| < |moves| && tie == DiscardAlways {
      return -1;
    }
    var best := MaxSingle(singles);
    w := best.1[0];
    var high := MaxOf(moves);
    if moves[w] != high && tie == DiscardIfHigh {
      return -1;
    }
  }

  /** `keys` and `dict` are `moves_dict` after the moves `moves`: its keys in insertion order,
      each mapped to the players of that card. */
  ghost predicate DictOf(moves: seq<int>, keys: seq<int>, dict: map<int, seq<nat>>)
  {
    keys == Played(moves)
    && (forall c :: c in dict <==> c in keys)
    && forall c :: c in dict ==> dict[c] == Players(moves, c)
  }

  /** The loop that fills `moves_dict`: each card maps to the players who played it, and the
      keys come in the order of their first play. */
  method MovesDict(moves: seq<int>) returns (keys: seq<int>, dict: map<int, seq<nat>>)
    ensures DictOf(moves, keys, dict)
  {
    keys := [];
    dict := map[];
    for p := 0 to |moves|
      invariant DictOf(moves[..p], keys, dict)
    {
      var move := moves[p];
      if move in dict {
        DictStepSeen(moves, p, keys, dict);
        dict := dict[move := dict[move] + [p]];
      } else {
        DictStepNew(moves, p, keys, dict);
        dict := dict[move := [p]];
        keys := keys + [move];
      }
    }
    assert moves[..|moves|] == moves;
  }

  /** The body of that loop for player `p` whose card is already a key. */
  lemma DictStepSeen(moves: seq<int>, p: nat, keys: seq<int>, dict: map<int, seq<nat>>)
    requires p < |moves| && DictOf(moves[..p], keys, dict) && moves[p] in dict
    ensures DictOf(moves[..p + 1], keys, dict[moves[p] := dict[moves[p]] + [p]])
  {
    var dict' := dict[moves[p] := dict[moves[p]] + [p]];
    PlayedStep(moves, p);
    forall c | c in dict' ensures dict'[c] == Players(moves[..p + 1], c) {
      PlayersStep(moves, p, c);
    }
  }

  /** The body of that loop for player `p` whose card is new. */
  lemma DictStepNew(moves: seq<int>, p: nat, keys: seq<int>, dict: map<int, seq<nat>>)
    requires p < |moves| && DictOf(moves[..p], keys, dict) && moves[p] !in dict
    ensures DictOf(moves[..p + 1], keys + [moves[p]], dict[moves[p] := [p]])
  {
    var move := moves[p];
    var dict' := dict[move := [p]];
    var keys' := keys + [move];
    PlayedStep(moves, p);
    assert move !in moves[..p] by {
      assert move !in keys;
    }
    assert keys' == Played(moves[..p + 1]);
    forall c ensures c in dict' <==> c in keys' {
    }
    forall c | c in dict' ensures dict'[c] == Players(moves[..p + 1], c) {
      PlayersStep(moves, p, c);
      if c == move {
        PlayersAbsent(moves[..p], move);
      }
    }
  }

  /** Nobody played a card that does not occur. */
  lemma PlayersAbsent(moves: seq<int>, c: int)
    requires c !in moves
    ensures Players(moves, c) == []
  {
    if moves != [] {
      var init := moves[..|moves| - 1];
      assert moves == init + [moves[|moves| - 1]];
      PlayersAbsent(init, c);
    }
  }

  /** One more move adds its player to the players of its card only. */
  lemma PlayersStep(moves: seq<int>, p: nat, c: int)
    requires p < |moves|
    ensures Players(moves[..p + 1], c) == Players(moves[..p], c) + (if moves[p] == c then [p] else [])
  {
    assert moves[..p + 1][..p] == moves[..p];
  }

  /** One more move adds its card to the keys when it is new. */
  lemma PlayedStep(moves: seq<int>, p: nat)
    requires p < |moves|
    ensures Played(moves[..p + 1]) == if moves[p] in moves[..p] then Played(moves[..p]) else Played(moves[..p]) + [moves[p]]
  {
    assert moves[..p + 1][..p] == moves[..p];
  }

  /** Python's `max` over the entries, by card. */
  method MaxSingle(singles: seq<(int, seq<nat>)>) returns (best: (int, seq<nat>))
    requires |singles| > 0
    ensures best == Best(singles)
  {
    best := singles[0];
    for j := 1 to |singles|
      invariant best == Best(singles[..j])
    {
      assert singles[..j + 1][..j] == singles[..j];
      if singles[j].0 > best.0 {
        best := singles[j];
      }
    }
    assert singles[..|singles|] == singles;
  }

  /** The filter over `moves_dict.items()`, in the dictionary's insertion order. */
  method Singles(keys: seq<int>, dict: map<int, seq<nat>>, moves: seq<int>) returns (singles: seq<(int, seq<nat>)>)
    requires DictOf(moves, keys, dict)
    ensures singles == SingleMoves(keys, moves)
  {
    singles := [];
    for k := 0 to |keys|
      invariant singles == SingleMoves(keys[..k], moves)
    {
      assert keys[..k + 1][..k] == keys[..k];
      var c := keys[k];
      if |dict[c]| == 1 {
        singles := singles + [(c, dict[c])];
      }
    }
    assert keys[..|keys|] == keys;
  }

  // ---------------------------------------------------------------------------------------
  // What the winner of a round is.

  /** A player's card is theirs alone exactly when `moves_dict` lists one player for it. */
  lemma SingleIff(moves: seq<int>, p: int)
    requires 0 <= p < |moves|
    ensures Single(moves, p) <==> Players(moves, moves[p]) == [p]
  {
    var ps := Players(moves, moves[p]);
    assert p in ps;
    if Single(moves, p) {
      forall j | 0 <= j < |ps| ensures ps[j] == p {
      }
      if |ps| > 1 {
        FirstTwo(ps);
        assert false;
      }
    }
  }

  /** The first two entries of an increasing sequence differ. */
  lemma FirstTwo(ps: seq<nat>)
    ensures (forall i, j :: 0 <= i < j < |ps| ==> ps[i] < ps[j]) && |ps| > 1 ==> ps[0] != ps[1]
  {
  }

  /** The entries of `single_moves` are the cards nobody else played, with their player. */
  lemma SinglesAre(moves: seq<int>, e: (int, seq<nat>))
    ensures e in SingleMoves(Played(moves), moves) <==> exists p :: Single(moves, p) && e == (moves[p], [p])
  {
    var singles := SingleMoves(Played(moves), moves);
    if e in singles {
      var p := e.1[0];
      assert moves[p] == e.0;
      SingleIff(moves, p);
    }
    if exists p :: Single(moves, p) && e == (moves[p], [p]) {
      var p :| Single(moves, p) && e == (moves[p], [p]);
      SingleIff(moves, p);
    }
  }

  /** Every card played more than once makes the keys fewer than the moves. */
  lemma {:induction false} PlayedShort(moves: seq<int>)
    requires Shared(moves)
    ensures |Played(moves)| < |moves|
  {
    var init := moves[..|moves| - 1];
    var last := moves[|moves| - 1];
    if last !in init {
      var p, q :| 0 <= p < q < |moves| && moves[p] == moves[q];
      assert init[p] in init;
      assert init[p] == init[q];
      PlayedShort(init);
    }
  }

  /** Without a shared card every card is a key of its own. */
  lemma {:induction false} PlayedAll(moves: seq<int>)
    requires !Shared(moves)
    ensures Played(moves) == moves
  {
    if moves != [] {
      var init := moves[..|moves| - 1];
      var last := moves[|moves| - 1];
      assert !Shared(init) by {
        forall p, q | 0 <= p < q < |init| ensures init[p] != init[q] {
          assert moves[p] != moves[q];
        }
      }
      PlayedAll(init);
      forall i | 0 <= i < |init| ensures init[i] != last {
        assert moves[i] != moves[|moves| - 1];
      }
      assert moves == init + [last];
    }
  }

  /** When every card of `cs` was played by one player only, every card is an entry. */
  lemma {:induction false} SingleMovesAll(cs: seq<int>, moves: seq<int>)
    requires forall c :: c in cs ==> |Players(moves, c)| == 1
    ensures |SingleMoves(cs, moves)| == |cs|
  {
    if cs != [] {
      var init := cs[..|cs| - 1];
      assert forall c :: c in init ==> c in cs;
      SingleMovesAll(init, moves);
      assert cs[|cs| - 1] in cs;
    }
  }

  /** A card was shared exactly when `single_moves` is shorter than the moves. */
  lemma SharedIff(moves: seq<int>)
    ensures Shared(moves) <==> |SingleMoves(Played(moves), moves)| < |moves|
  {
    if Shared(moves) {
      PlayedShort(moves);
    } else {
      PlayedAll(moves);
      forall c | c in moves ensures |Players(moves, c)| == 1 {
        var p :| 0 <= p < |moves| && moves[p] == c;
        SingleIff(moves, p);
      }
      SingleMovesAll(moves, moves);
    }
  }

  /** `winner_player` returns -1 when no card was played by exactly one player; otherwise
      some player played the highest such card. */
  lemma WinnerNoSingle(moves: seq<int>, tie: TieSolver)
    ensures (forall p :: !Single(moves, p)) ==> Winner(moves, tie) == -1
    ensures (exists p :: Single(moves, p)) ==> exists p :: HighestSingle(moves, p)
  {
    var singles := SingleMoves(Played(moves), moves);
    if |singles| > 0 {
      SinglesAre(moves, singles[0]);
      var b := Best(singles);
      SinglesAre(moves, b);
      var p :| Single(moves, p) && b == (moves[p], [p]);
      forall q | Single(moves, q) ensures moves[q] <= moves[p] {
        SinglesAre(moves, (moves[q], [q]));
      }
      assert HighestSingle(moves, p);
    } else {
      forall p | Single(moves, p) ensures false {
        SinglesAre(moves, (moves[p], [p]));
      }
    }
  }

  /** With `p` the player of the highest card nobody else played, `winner_player` returns
      `p`, except under `DiscardAlways` when any card was played twice and under
      `DiscardIfHigh` when `p`'s card is not the highest card played: then -1. */
  lemma WinnerRule(moves: seq<int>, tie: TieSolver, p: int)
    requires HighestSingle(moves, p)
    ensures Winner(moves, tie) ==
      if tie == DiscardAlways && Shared(moves) then -1
      else if tie == DiscardIfHigh && moves[p] != MaxOf(moves) then -1
      else p
  {
    var singles := SingleMoves(Played(moves), moves);
    SinglesAre(moves, (moves[p], [p]));
    SharedIff(moves);
    var b := Best(singles);
    SinglesAre(moves, b);
    var q :| Single(moves, q) && b == (moves[q], [q]);
    assert moves[p] <= moves[q];
    assert q == p;
  }

  // ---------------------------------------------------------------------------------------
  // The utility of a finished game.

  /** Every player made at least `k` moves. */
  predicate Covers(moves: seq<seq<int>>, k: nat)
  {
    forall p :: 0 <= p < |moves| ==> k <= |moves[p]|
  }

  /** `[moves[p][i] for p in range(num_players)]`: the cards of round `i`. */
  function RoundMoves(moves: seq<seq<int>>, i: nat): (r: seq<int>)
    requires Covers(moves, i + 1)
    ensures |r| == |moves| && forall p :: 0 <= p < |moves| ==> r[p] == moves[p][i]
  {
    seq(|moves|, p requires 0 <= p < |moves| => moves[p][i])
  }

  /** The winners of the first `k` rounds, -1 for a round nobody won. */
  function Winners(moves: seq<seq<int>>, tie: TieSolver, k: nat): (ws: seq<int>)
    requires Covers(moves, k)
    ensures |ws| == k && Seats(ws, |moves|)
    ensures forall i :: 0 <= i < k ==> ws[i] == Winner(RoundMoves(moves, i), tie)
  {
    seq(k, i requires 0 <= i < k => Winner(RoundMoves(moves, i), tie))
  }

  /** Every winner is -1 or a player. */
  predicate Seats(ws: seq<int>, n: nat)
  {
    forall i :: 0 <= i < |ws| ==> -1 <= ws[i] < n
  }

  /** `(u, additional_utility)` once the rounds won by `ws` are played: a round without a
      winner adds its prize to `additional_utility` under `Accumulate` and `CyclicUtility`
      and is lost otherwise; a winner receives the prize and what was carried, which is then
      reset. */
  function Outcome(hand: seq<int>, ws: seq<int>, n: nat, tie: TieSolver): (st: (seq<int>, int))
    requires |ws| <= |hand| && Seats(ws, n)
    ensures |st.0| == n
  {
    if ws == [] then (seq(n, p => 0), 0)
    else
      var st := Outcome(hand, ws[..|ws| - 1], n, tie);
      Settle(st.0, st.1, hand[|ws| - 1], ws[|ws| - 1], tie)
  }

  /** `(u, additional_utility)` after the first `k` rounds. */
  function Rounds(hand: seq<int>, moves: seq<seq<int>>, tie: TieSolver, k: nat): (st: (seq<int>, int))
    requires k <= |hand| && Covers(moves, k)
    ensures |st.0| == |moves|
  {
    Outcome(hand, Winners(moves, tie, k), |moves|, tie)
  }

  /** One round for the prize `prize` won by `w`, -1 for nobody. */
  function Settle(u: seq<int>, additional: int, prize: int, w: int, tie: TieSolver): (st: (seq<int>, int))
    requires -1 <= w < |u|
    ensures |st.0| == |u|
  {
    if w == -1 then
      (u, if tie == Accumulate || tie == CyclicUtility then additional + prize else additional)
    else
      (u[w := u[w] + (prize + additional)], 0)
  }

  /** `Σ u[i] * (i + 1)`, added from the back. */
  function Weighted(u: seq<int>): int
  {
    if u == [] then 0 else Weighted(u[..|u| - 1]) + u[|u| - 1] * |u|
  }

  /** The cyclic utility: 2 (or 1 when the first cards differ) to player `tot % n`, 0 to the
      others. */
  function Cyclic(u: seq<int>, firstEqual: bool): (c: seq<int>)
    requires |u| > 0
    ensures |c| == |u|
  {
    var winner := Weighted(u) % |u|;
    seq(|u|, i => if i == winner then (if firstEqual then 2 else 1) else 0)
  }

  /** `goofspiel_utility(hand, moves, tie_solver)` as a value. A player with fewer moves than
      the hand has cards is Python's IndexError; under `CyclicUtility` so is a player without
      a first move, and no players or an empty hand is the ValueError of `max` on an empty
      list. */
  function GoofspielPayoff(hand: seq<int>, moves: seq<seq<int>>, tie: TieSolver): (r: Result<seq<int>>)
    ensures r.Success? <==> Covers(moves, |hand|) && (tie == CyclicUtility ==> |moves| > 0 && |hand| > 0)
    ensures r.Success? ==> |r.value| == |moves|
  {
    if !Covers(moves, |hand|) then Failure("IndexError")
    else
      var u := Rounds(hand, moves, tie, |hand|).0;
      if tie != CyclicUtility then Success(u)
      else if !Covers(moves, 1) then Failure("IndexError")
      else if |moves| == 0 || |hand| == 0 then Failure("ValueError")
      else
        var first := RoundMoves(moves, 0);
        Success(Cyclic(u, MaxOf(first) == MinOf(first)))
  }

  /** `goofspiel_utility`: one pass over the rounds updating `u` and `additional_utility`,
      then the cyclic rewrite. */
  method GoofspielUtility(hand: seq<int>, moves: seq<seq<int>>, tie: TieSolver) returns (r: Result<seq<int>>)
    ensures r == GoofspielPayoff(hand, moves, tie)
  {
    var n := |moves|;
    var played := PlayRounds(hand, moves, tie);
    if played.None? {
      return Failure("IndexError");
    }
    var u := played.value.0;
    if tie == CyclicUtility {
      if !Covers(moves, 1) {
        return Failure("IndexError");
      }
      if n == 0 || |hand| == 0 {
        return Failure("ValueError");
      }
      var first := RoundMoves(moves, 0);
      var firstEqual := MaxOf(first) == MinOf(first);
      u := CyclicRewrite(u, firstEqual);
    }
    r := Success(u);
  }

  /** The loop over the rounds; `None` is the IndexError of a player short of moves. */
  method PlayRounds(hand: seq<int>, moves: seq<seq<int>>, tie: TieSolver) returns (r: Option<(seq<int>, int)>)
    ensures r.Some? <==> Covers(moves, |hand|)
    ensures r.Some? ==> r.value == Rounds(hand, moves, tie, |hand|)
  {
    var u: seq<int> := seq(|moves|, p => 0);
    var additional := 0;
    for i := 0 to |hand|
      invariant Covers(moves, i)
      invariant (u, additional) == Rounds(hand, moves, tie, i)
    {
      if !Covers(moves, i + 1) {
        return None;
      }
      u, additional := PlayRound(hand, moves, tie, i, u, additional);
    }
    r := Some((u, additional));
  }

  /** The body of that loop for round `i`. */
  method PlayRound(hand: seq<int>, moves: seq<seq<int>>, tie: TieSolver, i: nat, u: seq<int>, additional: int)
    returns (u': seq<int>, additional': int)
    requires i < |hand| && Covers(moves, i + 1)
    requires (u, additional) == Rounds(hand, moves, tie, i)
    ensures (u', additional') == Rounds(hand, moves, tie, i + 1)
  {
    var winner := WinnerPlayer(RoundMoves(moves, i), tie);
    ghost var ws := Winners(moves, tie, i + 1);
    assert ws[..i] == Winners(moves, tie, i);
    assert Rounds(hand, moves, tie, i + 1) == Settle(u, additional, hand[i], winner, tie);
    u', additional' := Award(u, additional, hand[i], winner, tie);
  }

  /** The branch on the winner: a prize without a winner is carried or dropped, and a winner
      receives it with what was carried. */
  method Award(u: seq<int>, additional: int, prize: int, winner: int, tie: TieSolver) returns (u': seq<int>, additional': int)
    requires -1 <= winner < |u|
    ensures (u', additional') == Settle(u, additional, prize, winner, tie)
  {
    u', additional' := u, additional;
    if winner == -1 {
      if tie == Accumulate || tie == CyclicUtility {
        additional' := additional + prize;
      }
    } else {
      u' := u[winner := u[winner] + prize + additional];
      additional' := 0;
    }
  }

  /** The cyclic rewrite of `u`. */
  method CyclicRewrite(u: seq<int>, firstEqual: bool) returns (c: seq<int>)
    requires |u| > 0
    ensures c == Cyclic(u, firstEqual)
  {
    var tot := WeightedSum(u);
    c := seq(|u|, p => 0);
    c := c[tot % |u| := if firstEqual then 2 else 1];
  }

  /** The loop `for (i, uval) in enumerate(u): tot += uval * (i + 1)`. */
  method WeightedSum(u: seq<int>) returns (tot: int)
    ensures tot == Weighted(u)
  {
    tot := 0;
    for i := 0 to |u|
      invariant tot == Weighted(u[..i])
    {
      assert u[..i + 1][..i] == u[..i];
      tot := tot + u[i] * (i + 1);
    }
    assert u[..|u|] == u;
  }

  // ---------------------------------------------------------------------------------------
  // What the utility pays out.

  /** The prizes of the rounds nobody won. */
  function Unwon(hand: seq<int>, ws: seq<int>): int
    requires |ws| <= |hand|
  {
    if ws == [] then 0
    else Unwon(hand, ws[..|ws| - 1]) + (if ws[|ws| - 1] == -1 then hand[|ws| - 1] else 0)
  }

  /** Adding `d` to one entry adds `d` to the sum. */
  lemma {:induction false} IntSumUpdate(u: seq<int>, w: nat, d: int)
    requires w < |u|
    ensures Kuhn.IntSum(u[w := u[w] + d]) == Kuhn.IntSum(u) + d
  {
    var v := u[w := u[w] + d];
    var last := |u| - 1;
    assert v[..last] == if w < last then u[..last][w := u[w] + d] else u[..last];
    if w < last {
      IntSumUpdate(u[..last], w, d);
    }
  }

  /** A vector of zeros sums to zero. */
  lemma {:induction false} IntSumZeros(n: nat)
    ensures Kuhn.IntSum(seq(n, p => 0)) == 0
  {
    if n > 0 {
      assert seq(n, p => 0)[..n - 1] == seq(n - 1, p => 0);
      IntSumZeros(n - 1);
    }
  }

  /** Under `Accumulate` and `CyclicUtility` a prize nobody won is carried to the next
      winner: what the rounds paid and what they still carry add up to their prizes. */
  lemma {:induction false} OutcomeCarried(hand: seq<int>, ws: seq<int>, n: nat, tie: TieSolver)
    requires |ws| <= |hand| && Seats(ws, n) && (tie == Accumulate || tie == CyclicUtility)
    ensures var st := Outcome(hand, ws, n, tie); Kuhn.IntSum(st.0) + st.1 == Kuhn.IntSum(hand[..|ws|])
  {
    if ws == [] {
      IntSumZeros(n);
    } else {
      var k := |ws|;
      var init := ws[..k - 1];
      OutcomeCarried(hand, init, n, tie);
      assert hand[..k][..k - 1] == hand[..k - 1];
      var st := Outcome(hand, init, n, tie);
      SettleCarried(st.0, st.1, hand[k - 1], ws[k - 1], tie);
    }
  }

  /** One round under `Accumulate` or `CyclicUtility` pays or carries its whole prize. */
  lemma SettleCarried(u: seq<int>, additional: int, prize: int, w: int, tie: TieSolver)
    requires -1 <= w < |u| && (tie == Accumulate || tie == CyclicUtility)
    ensures var st := Settle(u, additional, prize, w, tie); Kuhn.IntSum(st.0) + st.1 == Kuhn.IntSum(u) + additional + prize
  {
    if w != -1 {
      IntSumUpdate(u, w, prize + additional);
      assert Settle(u, additional, prize, w, tie) == (u[w := u[w] + (prize + additional)], 0);
    } else {
      assert Settle(u, additional, prize, w, tie) == (u, additional + prize);
    }
  }

  /** One round under the other rules pays its prize or drops it, and carries nothing. */
  lemma SettleDropped(u: seq<int>, prize: int, w: int, tie: TieSolver)
    requires -1 <= w < |u| && tie != Accumulate && tie != CyclicUtility
    ensures var st := Settle(u, 0, prize, w, tie);
      st.1 == 0 && Kuhn.IntSum(st.0) + (if w == -1 then prize else 0) == Kuhn.IntSum(u) + prize
  {
    if w != -1 {
      IntSumUpdate(u, w, prize);
      assert Settle(u, 0, prize, w, tie) == (u[w := u[w] + prize], 0);
    } else {
      assert Settle(u, 0, prize, w, tie) == (u, 0);
    }
  }

  /** Under the other rules a prize nobody won is dropped and nothing is ever carried: what
      the rounds paid and what they dropped add up to their prizes. */
  lemma {:induction false} OutcomeDropped(hand: seq<int>, ws: seq<int>, n: nat, tie: TieSolver)
    requires |ws| <= |hand| && Seats(ws, n) && tie != Accumulate && tie != CyclicUtility
    ensures var st := Outcome(hand, ws, n, tie);
      st.1 == 0 && Kuhn.IntSum(st.0) + Unwon(hand, ws) == Kuhn.IntSum(hand[..|ws|])
  {
    if ws == [] {
      IntSumZeros(n);
    } else {
      var k := |ws|;
      var init := ws[..k - 1];
      OutcomeDropped(hand, init, n, tie);
      assert hand[..k][..k - 1] == hand[..k - 1];
      var st := Outcome(hand, init, n, tie);
      SettleDropped(st.0, hand[k - 1], ws[k - 1], tie);
    }
  }

  /** With prizes that are not negative, what is carried and what is dropped are not
      negative either. */
  lemma {:induction false} Unpaid(hand: seq<int>, ws: seq<int>, n: nat, tie: TieSolver)
    requires |ws| <= |hand| && Seats(ws, n)
    requires forall i :: 0 <= i < |hand| ==> hand[i] >= 0
    ensures Outcome(hand, ws, n, tie).1 >= 0 && Unwon(hand, ws) >= 0
  {
    if ws != [] {
      Unpaid(hand, ws[..|ws| - 1], n, tie);
    }
  }

  /** Under the non-cyclic rules the players receive the prizes of the hand less those
      dropped (`Discard*`) or still carried at the end (`Accumulate`): with prizes that are
      not negative, at most the sum of the hand. */
  lemma GoofspielTotal(hand: seq<int>, moves: seq<seq<int>>, tie: TieSolver)
    requires tie != CyclicUtility && GoofspielPayoff(hand, moves, tie).Success?
    ensures var u := GoofspielPayoff(hand, moves, tie).value;
      var ws := Winners(moves, tie, |hand|);
      (tie == Accumulate ==> Kuhn.IntSum(u) == Kuhn.IntSum(hand) - Rounds(hand, moves, tie, |hand|).1)
      && (tie != Accumulate ==> Kuhn.IntSum(u) == Kuhn.IntSum(hand) - Unwon(hand, ws))
      && ((forall i :: 0 <= i < |hand| ==> hand[i] >= 0) ==> Kuhn.IntSum(u) <= Kuhn.IntSum(hand))
  {
    var ws := Winners(moves, tie, |hand|);
    if tie == Accumulate {
      OutcomeCarried(hand, ws, |moves|, tie);
    } else {
      OutcomeDropped(hand, ws, |moves|, tie);
    }
    assert hand[..|hand|] == hand;
    if forall i :: 0 <= i < |hand| ==> hand[i] >= 0 {
      Unpaid(hand, ws, |moves|, tie);
    }
  }

  /** Under `CyclicUtility` exactly one player receives something: player
      `(Σ u[i] * (i + 1)) mod n` of the accumulated utilities `u`, who receives 2 when every
      player's first card is the same and 1 otherwise. */
  lemma CyclicSingleWinner(hand: seq<int>, moves: seq<seq<int>>)
    requires GoofspielPayoff(hand, moves, CyclicUtility).Success?
    ensures var c := GoofspielPayoff(hand, moves, CyclicUtility).value;
      var winner := Weighted(Rounds(hand, moves, CyclicUtility, |hand|).0) % |moves|;
      0 <= winner < |c|
      && (forall i :: 0 <= i < |c| ==> (c[i] != 0 <==> i == winner))
      && c[winner] == if AllEqual(RoundMoves(moves, 0)) then 2 else 1
  {
    MaxMinEqual(RoundMoves(moves, 0));
  }

  // ---------------------------------------------------------------------------------------
  // The hands.

  /** The ranks `1..ranks` as a list, `list(range(1, ranks + 1))`: empty when `ranks <= 0`. */
  function Ranks(ranks: int): (r: seq<int>)
    ensures |r| == (if ranks > 0 then ranks else 0)
    ensures forall i :: 0 <= i < |r| ==> r[i] == i + 1
  {
    seq(if ranks > 0 then ranks else 0, i => i + 1)
  }

  /** What `build_all_possible_hands(n, ranks)` lists: `n + 1` orderings of the ranks. */
  ghost predicate IsHand(h: seq<seq<int>>, n: nat, ranks: int)
  {
    |h| == n + 1 && forall i :: 0 <= i < |h| ==> GameUtilities.IsReordering(h[i], Ranks(ranks))
  }

  /** `build_all_possible_hands(num_players, ranks)` as written: the orderings are
      `all_permutations(range(1, ranks + 1))` of a bare `range`, and `all_permutations`
      concatenates two slices of its argument (`items[:i] + items[i+1:]`), which for a
      `range` raises `TypeError`. So every call with `ranks >= 1` fails, at whatever depth,
      before anything is listed; with `ranks <= 0` the range is empty, `all_permutations`
      returns `[[]]` without slicing, and the call lists what the intended enumeration lists.
      A negative `num_players` recurses without end when `ranks <= 0`. */
  method BuildAllPossibleHandsAsWritten(n: nat, ranks: int) returns (r: Result<seq<seq<seq<int>>>>)
    ensures r.Failure? <==> ranks >= 1
    ensures r.Failure? ==> r.error == "TypeError"
    ensures r.Success? ==> (forall h :: h in r.value <==> IsHand(h, n, ranks)) && Kuhn.NoDups(r.value)
  {
    if ranks >= 1 {
      // `range(1, ranks + 1)[:0] + range(1, ranks + 1)[1:]`
      return Failure("TypeError");
    }
    var hands := BuildAllPossibleHands(n, ranks);
    return Success(hands);
  }

  /** Where the code as written fails, the intended enumeration is not empty: the hand in
      which every player and the prize row take the ranks in increasing order is listed. */
  lemma HandsWhereTypeError(n: nat, ranks: int)
    requires ranks >= 1
    ensures IsHand(seq(n + 1, _ => Ranks(ranks)), n, ranks)
  {
  }

  /** `build_all_possible_hands(num_players, ranks)` with the list of ranks the evident
      intent asks for (`list(range(1, ranks + 1))`, as `build_goofspiel_tree` passes it):
      every ordering of the ranks for `num_players == 0`, and otherwise each shorter hand
      followed by each ordering. Every sequence of `num_players + 1` orderings of the ranks
      is listed, once. */
  method BuildAllPossibleHands(n: nat, ranks: int) returns (hands: seq<seq<seq<int>>>)
    ensures forall h :: h in hands <==> IsHand(h, n, ranks)
    ensures Kuhn.NoDups(hands)
    decreases n
  {
    var perm := GameUtilities.AllPermutations(Ranks(ranks));
    if n == 0 {
      hands := seq(|perm|, i requires 0 <= i < |perm| => [perm[i]]);
      forall h | IsHand(h, 0, ranks) ensures h in hands {
        var i :| 0 <= i < |perm| && perm[i] == h[0];
        assert hands[i] == h;
      }
      return;
    }
    var smaller := BuildAllPossibleHands(n - 1, ranks);
    hands := [];
    for k := 0 to |perm|
      invariant forall h :: h in hands <==> |h| == n + 1 && h[..n] in smaller && h[n] in perm[..k]
      invariant Kuhn.NoDups(hands)
    {
      assert perm[..k + 1] == perm[..k] + [perm[k]];
      assert perm[k] !in perm[..k];
      hands := AppendHands(hands, smaller, perm[k], n);
    }
    assert perm[..|perm|] == perm;
    forall h ensures h in hands <==> IsHand(h, n, ranks) {
      if |h| == n + 1 {
        IsHandSnoc(h, n, ranks);
      }
    }
  }

  /** A longer hand is a shorter hand followed by one more ordering. */
  lemma IsHandSnoc(h: seq<seq<int>>, n: nat, ranks: int)
    requires |h| == n + 1 && n > 0
    ensures IsHand(h, n, ranks) <==> IsHand(h[..n], n - 1, ranks) && GameUtilities.IsReordering(h[n], Ranks(ranks))
  {
    assert forall i :: 0 <= i < n ==> h[..n][i] == h[i];
  }

  /** `hand + [p]` for every shorter hand, in order. */
  function Attach(smaller: seq<seq<seq<int>>>, p: seq<int>): (r: seq<seq<seq<int>>>)
    ensures |r| == |smaller| && forall i :: 0 <= i < |smaller| ==> r[i] == smaller[i] + [p]
  {
    seq(|smaller|, i requires 0 <= i < |smaller| => smaller[i] + [p])
  }

  /** The inner loop: `hand + [p]` appended for every shorter hand. */
  method AppendHands(hands: seq<seq<seq<int>>>, smaller: seq<seq<seq<int>>>, p: seq<int>, ghost n: nat)
    returns (hands': seq<seq<seq<int>>>)
    requires forall h :: h in hands ==> |h| == n + 1 && h[n] != p
    requires forall h :: h in smaller ==> |h| == n
    requires Kuhn.NoDups(hands) && Kuhn.NoDups(smaller)
    ensures forall h :: h in hands' <==> h in hands || (|h| == n + 1 && h[..n] in smaller && h[n] == p)
    ensures Kuhn.NoDups(hands')
  {
    hands' := hands;
    for j := 0 to |smaller|
      invariant hands' == hands + Attach(smaller[..j], p)
    {
      assert Attach(smaller[..j + 1], p) == Attach(smaller[..j], p) + [smaller[j] + [p]];
      hands' := hands' + [smaller[j] + [p]];
    }
    assert smaller[..|smaller|] == smaller;
    AttachHas(smaller, p, n);
    AttachNoDups(smaller, p, n);
    JoinNoDups(hands, Attach(smaller, p));
  }

  /** The attached hands are the longer hands that end in `p` and begin with a shorter one. */
  lemma AttachHas(smaller: seq<seq<seq<int>>>, p: seq<int>, n: nat)
    requires forall h :: h in smaller ==> |h| == n
    ensures forall h :: h in Attach(smaller, p) <==> |h| == n + 1 && h[..n] in smaller && h[n] == p
  {
    var r := Attach(smaller, p);
    forall h ensures h in r <==> |h| == n + 1 && h[..n] in smaller && h[n] == p {
      if h in r {
        var i :| 0 <= i < |r| && r[i] == h;
        assert smaller[i] in smaller;
        assert h[..n] == smaller[i];
      }
      if |h| == n + 1 && h[..n] in smaller && h[n] == p {
        var i :| 0 <= i < |smaller| && smaller[i] == h[..n];
        assert h == smaller[i] + [p];
        assert r[i] == h;
      }
    }
  }

  /** Distinct shorter hands give distinct attached hands. */
  lemma AttachNoDups(smaller: seq<seq<seq<int>>>, p: seq<int>, n: nat)
    requires forall h :: h in smaller ==> |h| == n
    requires Kuhn.NoDups(smaller)
    ensures Kuhn.NoDups(Attach(smaller, p))
  {
    var r := Attach(smaller, p);
    forall i, j | 0 <= i < j < |r| ensures r[i] != r[j] {
      assert smaller[i] in smaller && smaller[j] in smaller;
      assert r[i][..n] == smaller[i] && r[j][..n] == smaller[j];
    }
  }

  /** Two lists without repetitions and without common entries join into one. */
  lemma JoinNoDups<T>(a: seq<T>, b: seq<T>)
    requires Kuhn.NoDups(a) && Kuhn.NoDups(b) && forall x :: x in a ==> x !in b
    ensures Kuhn.NoDups(a + b)
  {
    forall i, j | 0 <= i < j < |a + b| ensures (a + b)[i] != (a + b)[j] {
      if i < |a| && j >= |a| {
        assert (a + b)[i] in a && (a + b)[j] == b[j - |a|];
      }
    }
  }
}
