/** The Goofspiel tree builder: the nodes it adds below each hand, the play and take-back of
    a card around each branch on the lists it shares between its recursive calls, and the
    information sets it files each decision node's knowledge under. */
module GoofspielTree {
  import opened Wrappers
  import opened Goofspiel
  import Kuhn
  import Leduc
  import GameUtilities
  import Strings

  // ---------------------------------------------------------------------------------------
  // Playing a card and taking it back.

  /** Taking the first copy of `x` out of `s + [x]` gives back `s` when `x` is not in `s`. */
  lemma RemoveFirstAppended(s: seq<int>, x: int)
    requires x !in s
    ensures x in s + [x] && Leduc.RemoveFirst(s + [x], x) == s
  {
    if s != [] {
      assert (s + [x])[1..] == s[1..] + [x];
      RemoveFirstAppended(s[1..], x);
    }
  }

  /** The moves of the leaf for the `j`-th card `c[j]` of the current player `cp`, whose
      cards still in hand are `c`: the others' cards played and in hand, and for `cp` the
      cards played, then `c[j]`, then the other cards in hand in the order the earlier
      take-backs left them. */
  function LeafMoves(played: seq<seq<int>>, remaining: seq<seq<int>>, cp: nat, j: nat): (m: seq<seq<int>>)
    requires |remaining| == |played| && cp < |played| && j < |remaining[cp]|
    ensures |m| == |played|
  {
    var c := remaining[cp];
    seq(|played|, i requires 0 <= i < |played| =>
      if i == cp then played[cp] + [c[j]] + c[j + 1..] + c[..j] else played[i] + remaining[i])
  }

  /** A leaf's moves hold for `cp` the cards played, then the card of the leaf, then the
      rest of `cp`'s hand, and for every other player the cards played and in hand. */
  lemma LeafMovesShape(played: seq<seq<int>>, remaining: seq<seq<int>>, cp: nat, j: nat)
    requires |remaining| == |played| && cp < |played| && j < |remaining[cp]|
    ensures var m := LeafMoves(played, remaining, cp, j);
      m[cp][..|played[cp]| + 1] == played[cp] + [remaining[cp][j]]
      && multiset(m[cp]) == multiset(played[cp]) + multiset(remaining[cp])
      && forall i :: 0 <= i < |played| && i != cp ==> m[i] == played[i] + remaining[i]
  {
    var c := remaining[cp];
    var m := LeafMoves(played, remaining, cp, j);
    assert m[cp] == (played[cp] + [c[j]]) + (c[j + 1..] + c[..j]);
    assert c == c[..j] + [c[j]] + c[j + 1..];
  }

  /** The moves of the leaves for the first `k` cards of the current player `cp`. */
  function LeavesMoves(played: seq<seq<int>>, remaining: seq<seq<int>>, cp: nat, k: nat): (ms: seq<seq<seq<int>>>)
    requires |remaining| == |played| && cp < |played| && k <= |remaining[cp]|
    ensures |ms| == k && forall j :: 0 <= j < k ==> ms[j] == LeafMoves(played, remaining, cp, j)
  {
    seq(k, j requires 0 <= j < k => LeafMoves(played, remaining, cp, j))
  }

  /** `goofspiel_utility` of each game of `ms`. */
  function Values(hand: seq<int>, ms: seq<seq<seq<int>>>, tie: TieSolver): (vs: seq<Result<seq<int>>>)
    ensures |vs| == |ms|
  {
    if ms == [] then [] else Values(hand, ms[..|ms| - 1], tie) + [GoofspielPayoff(hand, ms[|ms| - 1], tie)]
  }

  /** Each game is valued on its own moves. */
  lemma {:induction false} ValueAt(hand: seq<int>, ms: seq<seq<seq<int>>>, tie: TieSolver, j: nat)
    requires j < |ms|
    ensures Values(hand, ms, tie)[j] == GoofspielPayoff(hand, ms[j], tie)
  {
    if j < |ms| - 1 {
      ValueAt(hand, ms[..|ms| - 1], tie, j);
    }
  }

  /** One more leaf's moves, one more value. */
  lemma LeavesStep(hand: seq<int>, played: seq<seq<int>>, remaining: seq<seq<int>>, cp: nat, tie: TieSolver, k: nat)
    requires |remaining| == |played| && cp < |played| && k < |remaining[cp]|
    ensures Values(hand, LeavesMoves(played, remaining, cp, k + 1), tie)
      == Values(hand, LeavesMoves(played, remaining, cp, k), tie) + [GoofspielPayoff(hand, LeafMoves(played, remaining, cp, k), tie)]
  {
    var ms := LeavesMoves(played, remaining, cp, k + 1);
    assert ms[..k] == LeavesMoves(played, remaining, cp, k);
  }

  // ---------------------------------------------------------------------------------------
  // The subtree of one hand: nodes, knowledge and information sets.

  /** `node_known_info`, what the player about to move knows: that player, the round, the
      prize cards turned so far and each player's bids of the finished rounds. */
  datatype Known = Known(player: nat, round: nat, shown: seq<int>, bids: seq<seq<int>>)

  /** What the tree builder adds under a node: a decision node with its player, its label,
      the knowledge it was filed under, its action name and what is added under it, or a
      leaf with its action name and the value of the finished game. */
  datatype Built =
    | Branch(player: nat, infoset: int, known: Known, name: string, kids: seq<Built>)
    | Ended(name: string, value: Result<seq<int>>)

  /** Python's `s[:k]` for `k >= 0`. */
  function Prefix(s: seq<int>, k: nat): seq<int>
  {
    if k <= |s| then s[..k] else s
  }

  /** What player `np` knows at round `nr` given the bids `played`: the prize cards
      `hand[:nr + 1]` and the first `nr` bids of every player. */
  function KnownAfter(hand: seq<int>, played: seq<seq<int>>, np: nat, nr: nat): Known
  {
    Known(np, nr, Prefix(hand, nr + 1), seq(|played|, i requires 0 <= i < |played| => Prefix(played[i], nr)))
  }

  /** The player who moves after `cp` among `n`, and the round they move in. */
  function NextPlayer(cp: nat, n: nat): nat
  {
    if cp + 1 == n then 0 else cp + 1
  }

  function NextRound(cp: nat, n: nat, cr: nat): nat
  {
    if cp + 1 == n then cr + 1 else cr
  }

  /** The action name of `card` played by player `p`. */
  function Name(p: nat, card: int): string
  {
    "p" + Strings.IntToString(p) + "c" + Strings.IntToString(card)
  }

  /** The labels and the knowledge of the decision nodes of `t` and of `ts`. */
  function Labels(t: Built): set<(int, Known)>
  {
    match t
    case Ended(_, _) => {}
    case Branch(_, h, k, _, kids) => {(h, k)} + LabelsOf(kids)
  }

  function LabelsOf(ts: seq<Built>): set<(int, Known)>
  {
    if ts == [] then {} else LabelsOf(ts[..|ts| - 1]) + Labels(ts[|ts| - 1])
  }

  /** Every decision node carries the label `isets` files its knowledge under. */
  ghost predicate Filed(ls: set<(int, Known)>, isets: map<Known, int>)
  {
    forall l :: l in ls ==> l.1 in isets && isets[l.1] == l.0
  }

  /** `information_sets` as the builder keeps it: the labels handed out lie in `[0, next)`,
      `next` being the tree's next label, and no two pieces of knowledge share one. */
  ghost predicate Fresh(isets: map<Known, int>, next: int)
  {
    0 <= next && (forall k :: k in isets ==> 0 <= isets[k] < next)
    && (forall k1, k2 :: k1 in isets && k2 in isets && isets[k1] == isets[k2] ==> k1 == k2)
  }

  /** `b` keeps every entry of `a`. */
  ghost predicate Extends(a: map<Known, int>, b: map<Known, int>)
  {
    forall k :: k in a ==> k in b && b[k] == a[k]
  }

  /** The lookup of `known` in `information_sets` (-1 when missing) and the `addNode` that
      follows: a missing entry gets the tree's next label `next`, which is filed. */
  function File(isets: map<Known, int>, next: int, known: Known): (r: (int, map<Known, int>, int))
    requires Fresh(isets, next)
    ensures Extends(isets, r.1) && Fresh(r.1, r.2) && next <= r.2
    ensures known in r.1 && r.1[known] == r.0
    ensures known in isets ==> r.0 == isets[known] && r.1 == isets && r.2 == next
    ensures known !in isets ==> r.0 == next && r.2 == next + 1
  {
    var found := if known in isets then isets[known] else -1;
    if found == -1 then (next, isets[known := next], next + 1) else (found, isets, next)
  }

  /** Two decision nodes filed in the same `information_sets` share a label exactly when they
      share the knowledge. */
  lemma SameLabelSameKnowledge(ls: set<(int, Known)>, isets: map<Known, int>, next: int, a: (int, Known), b: (int, Known))
    requires Filed(ls, isets) && Fresh(isets, next) && a in ls && b in ls
    ensures a.0 == b.0 <==> a.1 == b.1
  {
    assert a.1 in isets && b.1 in isets;
  }

  /** Knowledge filed in `a` stays filed as `b` extends it. */
  lemma FiledExtends(ls: set<(int, Known)>, a: map<Known, int>, b: map<Known, int>)
    requires Filed(ls, a) && Extends(a, b)
    ensures Filed(ls, b)
  {
  }

  /** One more node, its labels added. */
  lemma LabelsSnoc(ts: seq<Built>, t: Built)
    ensures LabelsOf(ts + [t]) == LabelsOf(ts) + Labels(t)
  {
    assert (ts + [t])[..|ts|] == ts;
  }

  /** The leaves for the cards `cards` of player `cp` with the values `vs`. */
  function Leaves(cp: nat, cards: seq<int>, vs: seq<Result<seq<int>>>): (ts: seq<Built>)
    requires |vs| == |cards|
    ensures |ts| == |cards|
  {
    seq(|cards|, j requires 0 <= j < |cards| => Ended(Name(cp, cards[j]), vs[j]))
  }

  /** Leaves carry no labels. */
  lemma {:induction false} LeavesUnlabelled(ts: seq<Built>)
    requires forall j :: 0 <= j < |ts| ==> ts[j].Ended?
    ensures LabelsOf(ts) == {}
  {
    if ts != [] {
      LeavesUnlabelled(ts[..|ts| - 1]);
    }
  }

  /** How many cards are still in the players' hands. */
  function Cards(rs: seq<seq<int>>): nat
  {
    if rs == [] then 0 else Cards(rs[..|rs| - 1]) + |rs[|rs| - 1]|
  }

  lemma {:induction false} CardsUpdate(rs: seq<seq<int>>, i: nat, s: seq<int>)
    requires i < |rs|
    ensures Cards(rs[i := s]) + |rs[i]| == Cards(rs) + |s|
    decreases |rs|
  {
    var k := |rs| - 1;
    assert rs[i := s][..k] == if i == k then rs[..k] else rs[..k][i := s];
    if i < k {
      CardsUpdate(rs[..k], i, s);
    }
  }

  /** Every player's cards in hand are distinct and none of them has been played by that
      player, as `build_goofspiel_tree` deals them. */
  ghost predicate Dealt(remaining: seq<seq<int>>, played: seq<seq<int>>)
  {
    |remaining| == |played| && forall i :: 0 <= i < |remaining| ==> Apart(remaining[i], played[i])
  }

  ghost predicate Apart(hand: seq<int>, played: seq<int>)
  {
    Kuhn.NoDups(hand) && forall c :: c in hand ==> c !in played
  }

  /** Playing `cards[j]` keeps the rest of the hand distinct and out of the cards played. */
  lemma PlayApart(cards: seq<int>, j: nat, played: seq<int>)
    requires Apart(cards, played) && j < |cards|
    ensures Apart(cards[j + 1..] + cards[..j], played + [cards[j]])
  {
    var r := cards[j + 1..] + cards[..j];
    forall a, b | 0 <= a < b < |r| ensures r[a] != r[b] {
      var x := if a < |cards| - j - 1 then a + j + 1 else a - (|cards| - j - 1);
      var y := if b < |cards| - j - 1 then b + j + 1 else b - (|cards| - j - 1);
      assert r[a] == cards[x] && r[b] == cards[y] && x != y;
    }
    forall c | c in r ensures c !in played + [cards[j]] {
      var a :| 0 <= a < |r| && r[a] == c;
      var x := if a < |cards| - j - 1 then a + j + 1 else a - (|cards| - j - 1);
      assert c == cards[x] && x != j;
    }
  }

  /** The deal after player `cp` plays `cards[j]` from the hand `cards[j..] + cards[..j]`. */
  lemma PlayDealt(remaining0: seq<seq<int>>, played0: seq<seq<int>>, cp: nat, cards: seq<int>, j: nat)
    requires Dealt(remaining0, played0) && cp < |remaining0| && cards == remaining0[cp] && j < |cards|
    ensures Dealt(remaining0[cp := cards[j + 1..] + cards[..j]], played0[cp := played0[cp] + [cards[j]]])
    ensures Cards(remaining0[cp := cards[j + 1..] + cards[..j]]) < Cards(remaining0)
  {
    assert Apart(remaining0[cp], played0[cp]);
    PlayApart(cards, j, played0[cp]);
    CardsUpdate(remaining0, cp, cards[j + 1..] + cards[..j]);
  }

  // ---------------------------------------------------------------------------------------
  // What the builder adds below a node, as a function of the cards in hand and played.

  /** What `build_goofspiel_hand_tree` adds below a node of player `cp` in round `cr`, with
      the cards in hand `remaining`, the cards played `played`, `information_sets` at `isets`
      and the tree's next label `next`: the nodes added, then `information_sets` and the next
      label after them. When `cp`'s bids end the game, one leaf per card valued on the
      finished bids; otherwise the branches of all of `cp`'s cards. */
  ghost function HandSpec(hand: seq<int>, cr: nat, cp: nat, tie: TieSolver, remaining: seq<seq<int>>,
                          played: seq<seq<int>>, isets: map<Known, int>, next: int): (r: (seq<Built>, map<Known, int>, int))
    requires Dealt(remaining, played) && cp < |remaining| && Fresh(isets, next)
    ensures Extends(isets, r.1) && next <= r.2 && Fresh(r.1, r.2)
    decreases Cards(remaining), 2, 0
  {
    if LastBids(remaining, cp) then
      (Leaves(cp, remaining[cp], Values(hand, LeavesMoves(played, remaining, cp, |remaining[cp]|), tie)), isets, next)
    else BranchesSpec(hand, cr, cp, tie, remaining, played, |remaining[cp]|, isets, next)
  }

  /** The branches of the first `k` cards `cp` holds, in hand order, each filed with the
      `information_sets` the earlier ones left. */
  ghost function BranchesSpec(hand: seq<int>, cr: nat, cp: nat, tie: TieSolver, remaining: seq<seq<int>>,
                              played: seq<seq<int>>, k: nat, isets: map<Known, int>, next: int): (r: (seq<Built>, map<Known, int>, int))
    requires Dealt(remaining, played) && cp < |remaining| && k <= |remaining[cp]| && Fresh(isets, next)
    ensures Extends(isets, r.1) && next <= r.2 && Fresh(r.1, r.2)
    decreases Cards(remaining), 1, k
  {
    if k == 0 then ([], isets, next)
    else
      var before := BranchesSpec(hand, cr, cp, tie, remaining, played, k - 1, isets, next);
      var b := BranchSpec(hand, cr, cp, tie, remaining, played, k - 1, before.1, before.2);
      (before.0 + [b.0], b.1, b.2)
  }

  /** The branch of the `j`-th card `cp` holds: a decision node of the next player, filed
      under what that player knows, and below it what the builder adds once `cp` has played
      the card, taken from the hand `remaining[cp][j..] + remaining[cp][..j]` that the earlier
      take-backs left. */
  ghost function BranchSpec(hand: seq<int>, cr: nat, cp: nat, tie: TieSolver, remaining: seq<seq<int>>,
                            played: seq<seq<int>>, j: nat, isets: map<Known, int>, next: int): (r: (Built, map<Known, int>, int))
    requires Dealt(remaining, played) && cp < |remaining| && j < |remaining[cp]| && Fresh(isets, next)
    ensures Extends(isets, r.1) && next <= r.2 && Fresh(r.1, r.2)
    decreases Cards(remaining), 0, 0
  {
    var cards := remaining[cp];
    var np, nr := NextPlayer(cp, |remaining|), NextRound(cp, |remaining|, cr);
    var known := KnownAfter(hand, played, np, nr);
    var filed := File(isets, next, known);
    PlayDealt(remaining, played, cp, cards, j);
    var sub := HandSpec(hand, nr, np, tie, remaining[cp := cards[j + 1..] + cards[..j]],
                        played[cp := played[cp] + [cards[j]]], filed.1, filed.2);
    (Branch(np, filed.0, known, Name(cp, cards[j]), sub.0), sub.1, sub.2)
  }

  /** `remaining_cards` and `played_cards`, the lists the tree builder shares between its
      recursive calls and changes in place. */
  class CardLists {
    var remaining: seq<seq<int>>
    var played: seq<seq<int>>

    constructor (remaining0: seq<seq<int>>, played0: seq<seq<int>>)
      ensures remaining == remaining0 && played == played0
    {
      remaining := remaining0;
      played := played0;
    }

    /** `remaining_cards[p].remove(card)` then `played_cards[p].append(card)`. */
    method Play(p: nat, card: int)
      requires p < |remaining| && p < |played| && card in remaining[p]
      modifies this
      ensures remaining == old(remaining)[p := Leduc.RemoveFirst(old(remaining[p]), card)]
      ensures played == old(played)[p := old(played[p]) + [card]]
    {
      remaining := remaining[p := Leduc.RemoveFirst(remaining[p], card)];
      played := played[p := played[p] + [card]];
    }

    /** `remaining_cards[p].append(card)` then `played_cards[p].remove(card)`. */
    method TakeBack(p: nat, card: int)
      requires p < |remaining| && p < |played| && card in played[p]
      modifies this
      ensures remaining == old(remaining)[p := old(remaining[p]) + [card]]
      ensures played == old(played)[p := Leduc.RemoveFirst(old(played[p]), card)]
    {
      remaining := remaining[p := remaining[p] + [card]];
      played := played[p := Leduc.RemoveFirst(played[p], card)];
    }

    /** `[played_cards[i] + remaining_cards[i] for i in range(len(played_cards))]`. */
    function FinalPlayed(): (f: seq<seq<int>>)
      reads this
      requires |remaining| == |played|
      ensures |f| == |played|
      ensures forall i :: 0 <= i < |f| ==> f[i] == played[i] + remaining[i]
    {
      var pl, rm := played, remaining;
      seq(|pl|, i requires 0 <= i < |pl| => pl[i] + rm[i])
    }

    /** The leaf loop of `build_goofspiel_hand_tree`: for each card the current player `cp`
        holds, play it, value the finished game, and take it back. Each take-back puts the
        card at the end of the hand, so after each branch the cards played are exactly as
        before and the hand holds the same cards, and after the whole loop the hand is back
        in its first order. The cards in hand are never among the cards played. */
    method LeafUtilities(hand: seq<int>, cp: nat, tie: TieSolver) returns (leaves: seq<Result<seq<int>>>)
      requires |remaining| == |played| && cp < |remaining|
      requires forall c :: c in remaining[cp] ==> c !in played[cp]
      modifies this
      ensures played == old(played) && remaining == old(remaining)
      ensures leaves == Values(hand, LeavesMoves(old(played), old(remaining), cp, |old(remaining[cp])|), tie)
    {
      var cards := remaining[cp];
      ghost var remaining0 := remaining;
      ghost var played0 := played;
      leaves := [];
      for j := 0 to |cards|
        invariant played == played0 && |remaining| == |remaining0|
        invariant forall i :: 0 <= i < |remaining| && i != cp ==> remaining[i] == remaining0[i]
        invariant remaining[cp] == cards[j..] + cards[..j]
        invariant leaves == Values(hand, LeavesMoves(played0, remaining0, cp, j), tie)
      {
        LeavesStep(hand, played0, remaining0, cp, tie, j);
        var leaf := Leaf(hand, cp, tie, cards, j, played0, remaining0);
        leaves := leaves + [leaf];
      }
      assert cards[|cards|..] + cards[..|cards|] == cards;
      assert remaining == remaining0;
    }

    /** The body of that loop for the `j`-th card: play it, value the leaf, take it back. */
    method Leaf(hand: seq<int>, cp: nat, tie: TieSolver, cards: seq<int>, j: nat,
                ghost played0: seq<seq<int>>, ghost remaining0: seq<seq<int>>) returns (leaf: Result<seq<int>>)
      requires |remaining0| == |played0| && cp < |remaining0| && cards == remaining0[cp] && j < |cards|
      requires forall c :: c in cards ==> c !in played0[cp]
      requires played == played0 && |remaining| == |remaining0|
      requires forall i :: 0 <= i < |remaining| && i != cp ==> remaining[i] == remaining0[i]
      requires remaining[cp] == cards[j..] + cards[..j]
      modifies this
      ensures played == played0 && |remaining| == |remaining0|
      ensures forall i :: 0 <= i < |remaining| && i != cp ==> remaining[i] == remaining0[i]
      ensures remaining[cp] == cards[j + 1..] + cards[..j + 1]
      ensures leaf == GoofspielPayoff(hand, LeafMoves(played0, remaining0, cp, j), tie)
    {
      var card := cards[j];
      RotatePlay(cards, j);
      Play(cp, card);
      var moves := FinalPlayed();
      LeafState(played0, remaining0, cp, j, played, remaining, moves);
      leaf := GoofspielUtility(hand, moves, tie);
      RotateBack(cards, j, played0[cp]);
      TakeBack(cp, card);
      assert played == played0;
    }

    /** `build_goofspiel_hand_tree` below a node of player `cp` in round `cr`: what it adds
        under that node, one node per card `cp` holds, in hand order. When `cp` holds two
        cards and the next player one, each card ends the game in a leaf valued on the
        finished bids. Otherwise each card leads to a decision node of the next player, filed
        under what that player knows, with its own subtree. The lists of cards in hand and
        played are as they were, `isets` only gains entries, and every decision node added
        carries the label the final `isets` files its knowledge under. All of it, subtrees
        included, is `HandSpec` of the lists and `isets` on entry. */
    method HandTree(hand: seq<int>, cr: nat, cp: nat, tie: TieSolver, isets: map<Known, int>, next: int)
      returns (kids: seq<Built>, isets': map<Known, int>, next': int)
      requires Dealt(remaining, played) && cp < |remaining| && Fresh(isets, next)
      modifies this
      decreases Cards(remaining), 2
      ensures remaining == old(remaining) && played == old(played)
      ensures Extends(isets, isets') && next <= next' && Fresh(isets', next')
      ensures Filed(LabelsOf(kids), isets')
      ensures LastBids(remaining, cp) ==>
        kids == Leaves(cp, remaining[cp], Values(hand, LeavesMoves(played, remaining, cp, |remaining[cp]|), tie))
      ensures !LastBids(remaining, cp) ==>
        Forked(kids, cp, remaining[cp], NextPlayer(cp, |remaining|), KnownAfter(hand, played, NextPlayer(cp, |remaining|), NextRound(cp, |remaining|, cr)))
      ensures (kids, isets', next') == HandSpec(hand, cr, cp, tie, old(remaining), old(played), isets, next)
    {
      var np := NextPlayer(cp, |remaining|);
      if |remaining[cp]| == 2 && |remaining[np]| == 1 {
        var cards := remaining[cp];
        assert Apart(remaining[cp], played[cp]);
        var leaves := LeafUtilities(hand, cp, tie);
        kids, isets', next' := Leaves(cp, cards, leaves), isets, next;
        LeavesUnlabelled(kids);
      } else {
        kids, isets', next' := Branches(hand, cr, cp, tie, isets, next);
      }
    }

    /** The branch loop of `build_goofspiel_hand_tree`: a decision node of the next player
        for each card of `cp`, all filed under the same knowledge, since the bids of the
        round under way are not part of it. The nodes and their subtrees are `BranchesSpec`
        of the lists and `isets` on entry, over all of `cp`'s cards. */
    method Branches(hand: seq<int>, cr: nat, cp: nat, tie: TieSolver, isets: map<Known, int>, next: int)
      returns (kids: seq<Built>, isets': map<Known, int>, next': int)
      requires Dealt(remaining, played) && cp < |remaining| && Fresh(isets, next)
      modifies this
      decreases Cards(remaining), 1
      ensures remaining == old(remaining) && played == old(played)
      ensures Extends(isets, isets') && next <= next' && Fresh(isets', next')
      ensures Filed(LabelsOf(kids), isets')
      ensures Forked(kids, cp, remaining[cp], NextPlayer(cp, |remaining|), KnownAfter(hand, played, NextPlayer(cp, |remaining|), NextRound(cp, |remaining|, cr)))
      ensures (kids, isets', next') == BranchesSpec(hand, cr, cp, tie, old(remaining), old(played), |old(remaining)[cp]|, isets, next)
    {
      var cards := remaining[cp];
      ghost var remaining0, played0 := remaining, played;
      ghost var known := KnownAfter(hand, played, NextPlayer(cp, |remaining|), NextRound(cp, |remaining|, cr));
      kids, isets', next' := [], isets, next;
      assert cards[0..] + cards[..0] == cards;
      assert remaining0[cp := cards] == remaining0;
      for j := 0 to |cards|
        invariant played == played0 && remaining == remaining0[cp := cards[j..] + cards[..j]]
        invariant Extends(isets, isets') && next <= next' && Fresh(isets', next')
        invariant Filed(LabelsOf(kids), isets')
        invariant Forked(kids, cp, cards[..j], NextPlayer(cp, |remaining0|), known)
        invariant (kids, isets', next') == BranchesSpec(hand, cr, cp, tie, remaining0, played0, j, isets, next)
      {
        CardsUpdate(remaining0, cp, cards[j..] + cards[..j]);
        ghost var before, nextBefore := isets', next';
        var kid;
        kid, isets', next' := BranchFor(hand, cr, cp, tie, cards, j, isets', next', played0, remaining0);
        assert BranchesSpec(hand, cr, cp, tie, remaining0, played0, j + 1, isets, next) == (kids + [kid], isets', next') by {
          assert (kid, isets', next') == BranchSpec(hand, cr, cp, tie, remaining0, played0, j, before, nextBefore);
        }
        FiledExtends(LabelsOf(kids), before, isets');
        LabelsSnoc(kids, kid);
        ForkedSnoc(kids, kid, cp, cards, j, NextPlayer(cp, |remaining0|), known);
        kids := kids + [kid];
      }
      assert cards[..|cards|] == cards;
      assert cards[|cards|..] + cards[..|cards|] == cards;
      assert remaining0[cp := cards] == remaining0;
    }

    /** The body of that loop for the `j`-th card: file the next player's knowledge, add
        the node, play the card, build below the node and take the card back. The node and
        what is built below it are `BranchSpec`: the subtree is what `HandTree` builds for
        the next player once the card is played. */
    method BranchFor(hand: seq<int>, cr: nat, cp: nat, tie: TieSolver, cards: seq<int>, j: nat,
                     isets: map<Known, int>, next: int, ghost played0: seq<seq<int>>, ghost remaining0: seq<seq<int>>)
      returns (kid: Built, isets': map<Known, int>, next': int)
      requires Dealt(remaining0, played0) && cp < |remaining0| && cards == remaining0[cp] && j < |cards|
      requires played == played0 && remaining == remaining0[cp := cards[j..] + cards[..j]]
      requires Fresh(isets, next)
      modifies this
      decreases Cards(remaining), 0
      ensures played == played0 && remaining == remaining0[cp := cards[j + 1..] + cards[..j + 1]]
      ensures Extends(isets, isets') && next <= next' && Fresh(isets', next')
      ensures Filed(Labels(kid), isets')
      ensures kid.Branch? && kid.name == Name(cp, cards[j]) && kid.player == NextPlayer(cp, |remaining0|)
        && kid.known == KnownAfter(hand, played0, NextPlayer(cp, |remaining0|), NextRound(cp, |remaining0|, cr))
      ensures (kid, isets', next') == BranchSpec(hand, cr, cp, tie, remaining0, played0, j, isets, next)
    {
      var n := |remaining|;
      var np, nr := NextPlayer(cp, n), NextRound(cp, n, cr);
      var card := cards[j];
      CardsUpdate(remaining0, cp, cards[j..] + cards[..j]);
      var known := KnownAfter(hand, played, np, nr);
      var filed := File(isets, next, known);
      var h := filed.0;
      RotatePlay(cards, j);
      Play(cp, card);
      assert remaining == remaining0[cp := cards[j + 1..] + cards[..j]];
      PlayDealt(remaining0, played0, cp, cards, j);
      var sub, isets2, next2 := HandTree(hand, nr, np, tie, filed.1, filed.2);
      isets', next' := isets2, next2;
      RotateBack(cards, j, played0[cp]);
      TakeBack(cp, card);
      TakenBack(remaining0, cp, cards, j);
      kid := Branch(np, h, known, Name(cp, card), sub);
      BranchFiled(np, h, known, Name(cp, card), sub, filed.1, isets');
    }
  }

  /** `kids` are decision nodes of player `np`, one per card of `cards` played by `cp`, all
      filed under the knowledge `known`. */
  ghost predicate Forked(kids: seq<Built>, cp: nat, cards: seq<int>, np: nat, known: Known)
  {
    |kids| == |cards| &&
    forall j :: 0 <= j < |kids| ==>
      kids[j].Branch? && kids[j].name == Name(cp, cards[j]) && kids[j].player == np && kids[j].known == known
  }

  lemma ForkedSnoc(kids: seq<Built>, kid: Built, cp: nat, cards: seq<int>, j: nat, np: nat, known: Known)
    requires j < |cards| && Forked(kids, cp, cards[..j], np, known)
    requires kid.Branch? && kid.name == Name(cp, cards[j]) && kid.player == np && kid.known == known
    ensures Forked(kids + [kid], cp, cards[..j + 1], np, known)
  {
  }

  /** A node filed under `known` with label `h` over a filed subtree is filed. */
  lemma BranchFiled(np: nat, h: int, known: Known, name: string, sub: seq<Built>, a: map<Known, int>, b: map<Known, int>)
    requires known in a && a[known] == h && Extends(a, b) && Filed(LabelsOf(sub), b)
    ensures Filed(Labels(Branch(np, h, known, name, sub)), b)
  {
  }

  /** Taking `cards[j]` back after the subtree turns the hand one step further. */
  lemma TakenBack(remaining0: seq<seq<int>>, cp: nat, cards: seq<int>, j: nat)
    requires cp < |remaining0| && j < |cards|
    ensures remaining0[cp := cards[j + 1..] + cards[..j]][cp := cards[j + 1..] + cards[..j] + [cards[j]]]
      == remaining0[cp := cards[j + 1..] + cards[..j + 1]]
  {
    assert cards[j + 1..] + cards[..j] + [cards[j]] == cards[j + 1..] + cards[..j + 1];
  }

  /** The next player holds a single card and `cp` two: `cp`'s bids end the game. */
  predicate LastBids(remaining: seq<seq<int>>, cp: nat)
    requires cp < |remaining|
  {
    |remaining[cp]| == 2 && |remaining[NextPlayer(cp, |remaining|)]| == 1
  }

  /** The hand `cards[j..] + cards[..j]` starts with `cards[j]`; playing it leaves the hand
      `cards[j + 1..] + cards[..j]`. */
  lemma RotatePlay(cards: seq<int>, j: nat)
    requires j < |cards|
    ensures cards[j] in cards[j..] + cards[..j]
    ensures Leduc.RemoveFirst(cards[j..] + cards[..j], cards[j]) == cards[j + 1..] + cards[..j]
  {
    assert cards[j..] + cards[..j] == [cards[j]] + (cards[j + 1..] + cards[..j]);
  }

  /** A hand turned round holds the same cards. */
  lemma Rotated(cards: seq<int>, j: nat)
    requires j <= |cards|
    ensures multiset(cards[j..] + cards[..j]) == multiset(cards)
  {
    assert cards == cards[..j] + cards[j..];
  }

  /** Taking `cards[j]` back puts it at the end of the hand and leaves the cards played as
      they were. */
  lemma RotateBack(cards: seq<int>, j: nat, played: seq<int>)
    requires j < |cards| && forall c :: c in cards ==> c !in played
    ensures cards[j + 1..] + cards[..j] + [cards[j]] == cards[j + 1..] + cards[..j + 1]
    ensures cards[j] in played + [cards[j]] && Leduc.RemoveFirst(played + [cards[j]], cards[j]) == played
  {
    assert cards[..j + 1] == cards[..j] + [cards[j]];
    assert cards[j] in cards;
    RemoveFirstAppended(played, cards[j]);
  }

  /** Once `cards[j]` is played, `final_played_cards` is the leaf's moves. */
  lemma LeafState(played0: seq<seq<int>>, remaining0: seq<seq<int>>, cp: nat, j: nat,
                  played: seq<seq<int>>, remaining: seq<seq<int>>, moves: seq<seq<int>>)
    requires |remaining0| == |played0| && cp < |played0| && j < |remaining0[cp]|
    requires played == played0[cp := played0[cp] + [remaining0[cp][j]]]
    requires |remaining| == |remaining0| && remaining[cp] == remaining0[cp][j + 1..] + remaining0[cp][..j]
    requires forall i :: 0 <= i < |remaining| && i != cp ==> remaining[i] == remaining0[i]
    requires |moves| == |played| && forall i :: 0 <= i < |moves| ==> moves[i] == played[i] + remaining[i]
    ensures moves == LeafMoves(played0, remaining0, cp, j)
  {
    var c := remaining0[cp];
    forall i | 0 <= i < |moves| ensures moves[i] == LeafMoves(played0, remaining0, cp, j)[i] {
      if i == cp {
        assert moves[i] == played0[cp] + [c[j]] + (c[j + 1..] + c[..j]);
      }
    }
  }

  // ---------------------------------------------------------------------------------------
  // The whole tree.

  /** `[[] for p in range(n)]`. */
  function Unplayed(n: nat): (r: seq<seq<int>>)
    ensures |r| == n && forall i :: 0 <= i < n ==> r[i] == []
  {
    seq(n, _ => [])
  }

  /** `[list(range(1, rank + 1)) for p in range(n)]`. */
  function Dealing(n: nat, rank: int): (r: seq<seq<int>>)
    ensures |r| == n && forall i :: 0 <= i < n ==> r[i] == Ranks(rank)
  {
    seq(n, _ => Ranks(rank))
  }

  /** A fresh deal: everyone holds the ranks and has bid nothing. */
  lemma DealingDealt(n: nat, rank: int)
    ensures Dealt(Dealing(n, rank), Unplayed(n))
  {
    var rs := Ranks(rank);
    forall i | 0 <= i < n ensures Apart(Dealing(n, rank)[i], Unplayed(n)[i]) {
      assert Dealing(n, rank)[i] == rs;
      forall a, b | 0 <= a < b < |rs| ensures rs[a] != rs[b] {
      }
    }
  }

  /** `forest` holds, for each hand `hands[i]`, the decision node of player 0 named after the
      hand and filed under its first prize card. */
  ghost predicate Rooted(forest: seq<Built>, hands: seq<seq<int>>, n: nat)
  {
    |forest| == |hands| &&
    forall i :: 0 <= i < |forest| ==>
      forest[i].Branch? && forest[i].player == 0 && forest[i].name == Strings.ListToString(hands[i])
      && forest[i].known == KnownAfter(hands[i], Unplayed(n), 0, 0)
  }

  lemma RootedSnoc(forest: seq<Built>, kid: Built, hands: seq<seq<int>>, k: nat, n: nat)
    requires k < |hands| && Rooted(forest, hands[..k], n)
    requires kid.Branch? && kid.player == 0 && kid.name == Strings.ListToString(hands[k])
      && kid.known == KnownAfter(hands[k], Unplayed(n), 0, 0)
    ensures Rooted(forest + [kid], hands[..k + 1], n)
  {
    assert hands[..k + 1] == hands[..k] + [hands[k]];
  }

  /** The node of hand `hand` with `information_sets` at `isets` and the next label `next`:
      player 0's decision node filed under the first prize card, with what `HandTree` builds
      below it on a fresh deal of `n` players; then `information_sets` and the next label. */
  ghost function HandNodeSpec(hand: seq<int>, n: nat, rank: int, tie: TieSolver, isets: map<Known, int>, next: int)
    : (r: (Built, map<Known, int>, int))
    requires n > 0 && Fresh(isets, next)
    ensures Extends(isets, r.1) && Fresh(r.1, r.2)
  {
    var known := KnownAfter(hand, Unplayed(n), 0, 0);
    var filed := File(isets, next, known);
    DealingDealt(n, rank);
    var sub := HandSpec(hand, 0, 0, tie, Dealing(n, rank), Unplayed(n), filed.1, filed.2);
    (Branch(0, filed.0, known, Strings.ListToString(hand), sub.0), sub.1, sub.2)
  }

  /** The nodes of the first `k` hands, labels handed out from 1 in hand order. */
  ghost function ForestSpec(hands: seq<seq<int>>, n: nat, rank: int, tie: TieSolver, k: nat)
    : (r: (seq<Built>, map<Known, int>, int))
    requires n > 0 && k <= |hands|
    ensures |r.0| == k && Fresh(r.1, r.2)
  {
    if k == 0 then ([], map[], 1)
    else
      var before := ForestSpec(hands, n, rank, tie, k - 1);
      var h := HandNodeSpec(hands[k - 1], n, rank, tie, before.1, before.2);
      (before.0 + [h.0], h.1, h.2)
  }

  /** `build_goofspiel_tree(n, rank, tie_solver)`: below the chance root, one decision node of
      player 0 per ordering of the ranks (the prize cards in turn order), filed under the first
      prize card, with that hand's subtree under it; the tree hands out labels from 1. Without
      players the first subtree indexes an empty list of hands (IndexError). Every decision
      node carries the label `information_sets` files its knowledge under, so two nodes share
      a label exactly when they share the knowledge (`SameLabelSameKnowledge`). The forest,
      subtrees included, and the final `information_sets` are `ForestSpec` of the hands. */
  method BuildGoofspielTree(n: nat, rank: int, tie: TieSolver)
    returns (r: Result<(seq<seq<int>>, seq<Built>)>, isets: map<Known, int>, next: int)
    ensures r.Success? <==> n > 0
    ensures r.Success? ==> var (hands, forest) := r.value;
      (forall h :: h in hands <==> GameUtilities.IsReordering(h, Ranks(rank)))
      && Kuhn.NoDups(hands) && Rooted(forest, hands, n)
      && Fresh(isets, next) && Filed(LabelsOf(forest), isets)
    ensures r.Success? ==> (r.value.1, isets, next) == ForestSpec(r.value.0, n, rank, tie, |r.value.0|)
  {
    var hands := GameUtilities.AllPermutations(Ranks(rank));
    if n == 0 {
      return Failure("IndexError"), map[], 1;
    }
    var forest;
    forest, isets, next := HandNodes(hands, n, rank, tie);
    r := Success((hands, forest));
  }

  /** One more hand's node extends the forest of the hands before it. */
  lemma ForestSnoc(hands: seq<seq<int>>, n: nat, rank: int, tie: TieSolver, k: nat, forest: seq<Built>,
                   isets: map<Known, int>, next: int, kid: Built, isets': map<Known, int>, next': int)
    requires n > 0 && k < |hands| && (forest, isets, next) == ForestSpec(hands, n, rank, tie, k)
    requires (kid, isets', next') == HandNodeSpec(hands[k], n, rank, tie, isets, next)
    ensures ForestSpec(hands, n, rank, tie, k + 1) == (forest + [kid], isets', next')
  {
  }

  /** The loop over the hands, the tree's labels starting at 1; after `k` hands the forest
      and `information_sets` are `ForestSpec` of the first `k`. */
  method HandNodes(hands: seq<seq<int>>, n: nat, rank: int, tie: TieSolver)
    returns (forest: seq<Built>, isets: map<Known, int>, next: int)
    requires n > 0
    ensures Rooted(forest, hands, n) && Fresh(isets, next) && Filed(LabelsOf(forest), isets)
    ensures (forest, isets, next) == ForestSpec(hands, n, rank, tie, |hands|)
  {
    forest, isets, next := [], map[], 1;
    for k := 0 to |hands|
      invariant Fresh(isets, next) && Filed(LabelsOf(forest), isets)
      invariant Rooted(forest, hands[..k], n)
      invariant (forest, isets, next) == ForestSpec(hands, n, rank, tie, k)
    {
      ghost var before, nextBefore := isets, next;
      var kid;
      kid, isets, next := HandNode(hands[k], n, rank, tie, isets, next);
      ForestSnoc(hands, n, rank, tie, k, forest, before, nextBefore, kid, isets, next);
      FiledExtends(LabelsOf(forest), before, isets);
      LabelsSnoc(forest, kid);
      RootedSnoc(forest, kid, hands, k, n);
      forest := forest + [kid];
    }
    assert hands[..|hands|] == hands;
  }

  /** The body of the loop over the hands: the hand's node and its subtree, built on fresh
      lists of cards in hand and played; `HandNodeSpec` says what it is. */
  method HandNode(hand: seq<int>, n: nat, rank: int, tie: TieSolver, isets: map<Known, int>, next: int)
    returns (kid: Built, isets': map<Known, int>, next': int)
    requires n > 0 && Fresh(isets, next)
    ensures Extends(isets, isets') && Fresh(isets', next') && Filed(Labels(kid), isets')
    ensures kid.Branch? && kid.player == 0 && kid.name == Strings.ListToString(hand)
      && kid.known == KnownAfter(hand, Unplayed(n), 0, 0)
    ensures (kid, isets', next') == HandNodeSpec(hand, n, rank, tie, isets, next)
  {
    var known := KnownAfter(hand, Unplayed(n), 0, 0);
    var filed := File(isets, next, known);
    var lists := new CardLists(Dealing(n, rank), Unplayed(n));
    DealingDealt(n, rank);
    var sub;
    sub, isets', next' := lists.HandTree(hand, 0, 0, tie, filed.1, filed.2);
    kid := Branch(0, filed.0, known, Strings.ListToString(hand), sub);
    BranchFiled(0, filed.0, known, Strings.ListToString(hand), sub, filed.1, isets');
  }
}
