# A verified model of the CFR equilibrium-finding core

This project models, in Dafny, the core of a research code base that computes approximate
Nash and correlated equilibria of multi-player extensive-form games with imperfect
information, using Counterfactual Regret Minimization (CFR), CFR+, externally sampled CFR
and two drafts of an internal-regret variant (ICFR). It proves properties of that model.

The model follows the program's own structure, one Dafny module per part:

- `GameTree` (`trees.dfy`): the raw game tree. It has an immutable `Node` datatype for the
  recursive walks (`getSequence`, `getActionLeadingToNode`, `getNodeFollowJointSequence`)
  and a `Tree` class, an arena of node records, for `addNode`/`addLeaf`/`addChild`.
- `RegretMinimizers`, with `RealSeq`: the external and internal regret minimisers. Regret
  matching, the binary-search `getAction`, `recommend`, `observe` and the average strategy.
- `CfrTrees`, `CfrIsets`, `CfrSupport`, `CfrWalks`, `CfrMarginals`, `CfrJoint` and
  `CfrUtility`: the solver tree.
  - `CfrTrees` holds the construction of information sets, with its perfect-recall check.
  - `CfrIsets` and `CfrSupport` hold the child information sets and leaves, reachability,
    the supporting plans and their updates.
  - `CfrWalks` and `CfrMarginals` hold the realization form, the marginal walks, terminals
    under a plan, expected utility and the reconstruction of a joint distribution from the
    marginals.
  - `CfrJoint` holds the joint strategy with its bounded plan table.
  - `CfrUtility` holds `getUtility`.
- `Cfr` and `CfrSolve`: the CFR/CFR+ recursion over a shared reach array, and the driver
  step of `SolveWithCFR`.
- `SampleCfr` and `SampleSolve`: the externally sampled CFR recursion and its driver.
- `Icfr`, `IcfrDraft` and `IcfrUtility`: the two ICFR drafts. `IcfrDraft` covers the tagging
  and reach-flag walks. `IcfrUtility` covers `get_imm_utility`, `get_cum_utility` and
  `get_utility`.
- `Kuhn`, `Leduc`, `Goofspiel`, `GoofspielTree`, `Hanabi`, `Permutation`, `Coordination`,
  `GameUtilities` and `InfosetMerge`: the game builders' utilities, hand enumerations and
  information-set merges.
- `Serialization` and `Colgen`: tree serialization and the column-generation data.
- `Wrappers`, `Strings` and `Dicts`: `Result`/`Option`, Python's `str`, `int` and `split`,
  and insertion-ordered dictionaries.

How the source's features are represented:

- Python dictionaries are a key list plus a map, so that iteration order is kept.
- Python's negative list indices are written out.
- Errors the source raises (`IndexError`, `KeyError`, `AttributeError`, `TypeError`,
  `ValueError`) are the `Failure` case of a `Result`.
- Floating-point numbers are `real`.
- Random draws, the stationary distribution of the internal minimiser and the
  recommendations of the ICFR minimisers are parameters.

Each operation is a method or a loop, proved equal to a specification function. The
specification functions in turn are tied to their partners by lemmas. These include:

- the walk value equal to the expected utility;
- zero-sum payoffs;
- the serialization round trip;
- the string round trip of action plans;
- the decomposition of a realization form into supporting plans;
- the exact effect of every ICFR walk on the information sets.

## Model

| member | source | states |
|---|---|---|
| Strings.DigitsOfNat | data_structures/cfr_trees.py:963-982 | reading back the decimal digits of a natural number gives the number |
| Strings.ParseIntOfIntToString | data_structures/cfr_trees.py:963-982 | `int(str(i)) == i` for every integer, negative ones included |
| Strings.Split | data_structures/cfr_trees.py:978-981 | `s.split(c)` gives at least one piece, and no piece holds `c` |
| Strings.JoinCons | data_structures/cfr_trees.py:963 | a piece joined in front of others adds the piece and one separator |
| Strings.SplitJoin | data_structures/cfr_trees.py:978-981 | joining the pieces of a split with the separator gives the string back |
| Strings.SplitAfterPiece | data_structures/cfr_trees.py:978-981 | splitting `x + c + y`, with no `c` in `x`, yields `x` followed by the pieces of `y` |
| Strings.SplitOfPiece | data_structures/cfr_trees.py:981 | a string without the separator splits to itself |
| Strings.JoinSplit | data_structures/cfr_trees.py:963-981 | splitting pieces joined by `c`, none holding `c`, gives the pieces back |
| RegretMinimizers.GetAction | data_structures/regret_minimizers.py:47-60 | the action lies in `[-1, n-1]`; for a non-negative strategy it is the first action whose running sum reaches the draw `r` (the linear-scan reference `PickedAction`); a positive draw never yields -1 |
| RegretMinimizers.PickedActionRange | data_structures/regret_minimizers.py:47-60 | the reference scan lies in `[-1, n-1]`, and a positive draw over a non-empty strategy picks an action |
| RegretMinimizers.FirstReachingIs | data_structures/regret_minimizers.py:54-60 | the index the search converges to is the first one whose running sum reaches the draw, whatever the starting point below it |
| RegretMinimizers.ExternalRM.constructor | data_structures/regret_minimizers.py:96-98 | `ExternalRM(n)`: zero regrets, strategy sums and utilities of length `n`, recommended action -1 (the base constructor, lines 15-20) |
| RegretMinimizers.ExternalRM.GetStrategy | data_structures/regret_minimizers.py:100-108 | the strategy is regret matching on the current regrets, a probability vector when there is an action, and it is added to the strategy sum |
| RegretMinimizers.ExternalRM.Recommend | data_structures/regret_minimizers.py:22-29 | the recommended action is the one drawn from the regret-matched strategy and is remembered; the strategy sum grows by that strategy |
| RegretMinimizers.ExternalRM.Observe | data_structures/regret_minimizers.py:31-34 | the utility is stored; with at least one action each regret grows by its utility minus the recommended action's (index -1 meaning the last); with no action the indexing fails (IndexError) and the regrets stay |
| RegretMinimizers.ExternalRM.GetAverageStrategy | data_structures/regret_minimizers.py:39-45 | the strategy sum normalised by its total, uniform when the total is not positive; one entry per action |
| RegretMinimizers.ObservedRow | data_structures/regret_minimizers.py:72-77 | one row of the internal update: each entry grows by `p[i]` times its utility minus `p[i]` times the recommended one's, so the recommended entry keeps its regret |
| RegretMinimizers.InternalRM.constructor | data_structures/regret_minimizers.py:63-70 | square zero matrices for regrets and strategy sums, recommended actions 0, no stationary distribution yet |
| RegretMinimizers.InternalRM.GetStrategy | data_structures/regret_minimizers.py:79-94 | every row is regret-matched and added to the strategy-sum matrix, each row's recommended action is drawn from its matched row, and the given stationary distribution is stored and returned |
| RegretMinimizers.InternalRM.Recommend | data_structures/regret_minimizers.py:22-29 | the action drawn from the stationary distribution is remembered, after the strategy update of `getStrategy` |
| RegretMinimizers.InternalRM.Observe | data_structures/regret_minimizers.py:72-77 | row `i` of the utility matrix is `p[i] * u`, and row `i` of the regrets grows by it minus its entry at that row's recommended action |
| RegretMinimizers.InternalRM.GetAverageStrategy | data_structures/regret_minimizers.py:39-45 | the strategy-sum matrix divided by its total when that is positive, the uniform vector otherwise |
| RealSeq.RegretMatchIsDistribution | data_structures/regret_minimizers.py:100-106 | regret matching yields a probability vector proportional to the positive regrets, and the uniform vector when no regret is positive |
| RealSeq.NormalizeIsDistribution | data_structures/regret_minimizers.py:39-45 | normalising non-negative weights yields a probability vector: each weight over the total, or uniform when the total is 0 |
| RealSeq.SumPosPartZero | data_structures/regret_minimizers.py:101-106 | the positive parts sum to 0 exactly when no regret is positive, which is when the strategy falls back to uniform |
| GameUtilities.AllPermutations | games/utilities.py:3-25 | `all_permutations(items)`: `[[]]` for no items; otherwise every listed entry is a reordering of the items, every reordering is listed, and none is listed twice |
| GameUtilities.AppendOrderings | games/utilities.py:13-19 | one pass of the outer loop keeps what was collected and adds every reordering that ends in `items[i]` |
| GameUtilities.AppendEach | games/utilities.py:17-19 | the inner loop appends each ordering of the other items followed by the item |
| GameUtilities.Dedup | games/utilities.py:21-23 | the tuple/set/list round trip keeps exactly the same permutations, each once |
| GameUtilities.PairIsTriangle | games/utilities.py:27-35 | `pair_to_number(x, y)` is the triangle number of `x + y` plus `y` |
| GameUtilities.NumberToPairIs | games/utilities.py:37-46 | `number_to_pair(z)` finds the `w` whose triangle interval holds `z` and splits `z` as that triangle plus `y` |
| GameUtilities.RootIsTriangleIndex | games/utilities.py:42-43 | the floored `(sqrt(8z + 1) - 1) / 2` is the index of the largest triangle number not above `z`, and `(w*w + w) / 2` is that triangle number |
| GameUtilities.UnpairPair | games/utilities.py:27-46 | `number_to_pair(pair_to_number(x, y)) == (x, y)` for every pair of naturals |
| GameUtilities.PairUnpair | games/utilities.py:27-46 | `pair_to_number(*number_to_pair(z)) == z`, both halves non-negative, for every natural `z` |
| GameUtilities.ListToTuple | games/utilities.py:48-52 | anything that is not a list or a tuple is returned as it is; a list or tuple becomes a tuple of the same length; the result holds no list at any depth |
| GameUtilities.ListToTupleIdempotent | games/utilities.py:48-52 | converting twice gives what converting once gives |
| GameUtilities.ListFreeFixed | games/utilities.py:48-52 | a value holding no list is left unchanged |
| Coordination.CoordinationUtility | games/coordination.py:22-29 | one entry per player: every entry is the drawn value `x` when all actions of the history agree (`max == min`), 0 otherwise |
| Coordination.MaxMinEqual | games/coordination.py:25 | `max(h) == min(h)` exactly when all entries of `h` agree |
| Coordination.BuildCoordinationSubtree | games/coordination.py:11-20 | the builder only adds nodes: `SubtreeSize` of them, every one a decision node of the right player and depth or a leaf carrying the coordination utility of its history |
| Coordination.AddLeaves | games/coordination.py:12-16 | after the last player, one leaf per action, each with the utility of the history extended by that action |
| Coordination.AddChildren | games/coordination.py:18-20 | for each action one decision node of the current player labelled with the player, and its subtree |
| Coordination.ChildWithSubtree | games/coordination.py:19-20 | the body of that loop for one action: one decision node and the subtree of the next player |
| GameTree.SequenceKeys | data_structures/trees.py:151-163 | `getSequence(p)` records a label exactly when some ancestor on the path counts for `p` and carries that label |
| GameTree.SequenceValue | data_structures/trees.py:151-163 | the action recorded for a label is the step the path takes at the deepest counting ancestor with that label |
| GameTree.SequenceStep | data_structures/trees.py:156-163 | one level of the recursion: the parent's move is written over the parent's own sequence when the parent counts, otherwise the parent's sequence is returned unchanged |
| GameTree.ActionLeadingToAncestor | data_structures/trees.py:171-180 | `getActionLeadingToNode` yields an action exactly when the source node is a proper ancestor of the target, and that action is the target path's next step below the source |
| GameTree.FollowJointSequence | data_structures/trees.py:182-199 | a success stops at a leaf or at a node whose label is missing from its player's sequence; a chance node with fewer than 42 players fails with IndexError (index -42) |
| GameTree.Tree.constructor | data_structures/trees.py:10-22 | the tree holds only its root (a decision node of `first_player` with label 0 when no root is given), one node, one label, maximum label and depth 0 |
| GameTree.Tree.AddNode | data_structures/trees.py:24-54 | the new decision node gets the next id, a fresh label when none is given (the label counter then grows), the maximum label is updated, it becomes the last child of its parent (the root by default), and nothing else changes |
| GameTree.Tree.AddLeaf | data_structures/trees.py:56-70 | a utility of the wrong length adds nothing and returns None; otherwise a leaf with the next id becomes the last child of the parent; under a chance parent the action name lands in the probability slot and the action gets the default name |
| GameTree.Tree.AddChanceNode | data_structures/trees.py:72-91 | always fails with TypeError, because `ChanceNode` is constructed with one argument more than its constructor takes (line 86 against line 224) |
| GameTree.AttachFacts | data_structures/trees.py:128-140 | `addChild`: the parent gains the child as its last child with the given or default action name (`"<label>.<k>"`, or `"c.<k>"` under a chance node, lines 231-244), and the child's incoming action is its position |
| GameTree.AttachKeepsLinked | data_structures/trees.py:128-140 | adding a child keeps every node linked with its parent and children: ids are positions and each child's incoming action is its place among its parent's children |
| Kuhn.KuhnPayoff | games/kuhn.py:92-110 | succeeds exactly when there is a move per player and some player did not fold (IndexError and the ValueError of `max` on no participant otherwise), with one payoff per player |
| Kuhn.KuhnUtility | games/kuhn.py:92-110 | the loop over the players computes exactly `KuhnPayoff`, errors included |
| Kuhn.KuhnZeroSum | games/kuhn.py:97-110 | with one move per player the payoffs add up to 0 |
| Kuhn.KuhnOnlyWinnerGains | games/kuhn.py:99-108 | with at least two players the winner (the first participant with the highest card) is the only player with a non-negative payoff; every other player gets -1, or -2 after a bet |
| Kuhn.BuildAllPossibleHands | games/kuhn.py:112-128 | the recursion and its two loops enumerate exactly `Hands(n, ranks)`: `[[]]` for `n <= 0`, else each smaller hand extended by each rank it lacks, in order |
| Kuhn.HandsAreDeals | games/kuhn.py:112-128 | a hand is enumerated exactly when it has `n` (0 for `n <= 0`) pairwise distinct cards from `ranks` |
| Kuhn.HandsNoDups | games/kuhn.py:123-126 | with distinct ranks no hand is enumerated twice |
| Kuhn.KuhnDeal | games/kuhn.py:9-18 | the chance root gets one child per hand, in enumeration order, each a decision node of player 0 with its own label, reached with probability `1 / len(hands)` by the action named `str(hand)`; no hand at all is the ZeroDivisionError |
| Kuhn.PlayersToMerge | games/kuhn.py:22-25 | the players whose cards agree in both deals, in increasing order, and no others |
| Kuhn.CreateInformationSets | games/kuhn.py:30-45 | the merge walk with "the first node's player is among those to merge" as its test (see `InfosetMerge.MergeCorresponding`) |
| Kuhn.MergePair | games/kuhn.py:21-26 | for deals `i < j`, every corresponding pair below the two root children whose player holds the same card in both deals ends with the smaller label, all other pairs keep theirs; `ok` is false exactly when the two subtrees do not fit |
| Kuhn.MergeHands | games/kuhn.py:20-26 | the pairs of deals are walked in order; `ok` is false exactly when some pair of root subtrees does not fit (Python's IndexError); only labels change, none rises, and only inside the merged subtrees |
| InfosetMerge.MergeCorresponding | games/kuhn.py:30-45 | nothing happens below a leaf; otherwise, when neither root lies below the other and the walk completes, at every pair of corresponding nodes reached from the two roots, both get the minimum of their two labels when the test holds and keep their own otherwise; `ok` is false exactly when the second subtree lacks children the first has; no other label changes and none rises |
| InfosetMerge.RoundDone | games/kuhn.py:44-45 | one round of the loop over the children keeps the pairs merged by earlier rounds and merges the pairs below its own children, since the subtrees of distinct children are disjoint |
| InfosetMerge.SiblingsApart | games/kuhn.py:44-45 | a node below one child is below no other child of the same parent, so the rounds of the walk touch disjoint subtrees |
| Leduc.LeducPayoff | games/leduc.py:222-248 | succeeds exactly when the hand is non-empty, there are two rounds of moves and of bet sizes, the moves cover the players and somebody is left at the showdown (IndexError, or the ValueError of `max`, otherwise), with one payoff per player |
| Leduc.LeducUtility | games/leduc.py:222-248 | the method, with its loop over the players, computes exactly `LeducPayoff`, errors included |
| Leduc.SettlePayoffs | games/leduc.py:239-246 | the loop from `[-1] * n` yields for every player the ante and its bets lost and, for a winner, its part of the pot |
| Leduc.LeducZeroSum | games/leduc.py:230-246 | with one move per player in each round and somebody at the showdown the payoffs add up to 0 |
| Leduc.LeducWinners | games/leduc.py:232-237 | a player is a winner exactly when it is at the showdown and holds the public card, or, when no participant holds it, holds the highest card among the participants |
| Leduc.LeducShares | games/leduc.py:239-246 | each payoff is -1 minus the player's bets of both rounds, plus the pot divided by the number of winners for a winner |
| Leduc.Unique | games/leduc.py:199 | `list(set(cards))`: exactly the cards of the list, each once, in increasing order |
| Leduc.BuildAllPossibleHands | games/leduc.py:193-220 | the enumeration is exactly `LHands(n, cards)` and the deck holds the same cards on return as on entry |
| Leduc.DealFrom | games/leduc.py:207-218 | one pass of the outer loop appends the hand extended by each distinct card still in the deck, and leaves the deck with the same cards |
| Leduc.TakeOut | games/leduc.py:209-210 | removing the hand's cards one by one leaves the deck's multiset minus the hand's |
| Leduc.PutBack | games/leduc.py:217-218 | the hand's cards are appended back in order |
| Leduc.LeducHandsAreDeals | games/leduc.py:193-220 | a hand is enumerated exactly when it has one card per player plus the public card and uses no card more often than the deck holds it |
| Leduc.LeducHandsNoDups | games/leduc.py:212-215 | no hand is enumerated twice |
| Leduc.LeducCreateInformationSets | games/leduc.py:176-191 | the merge walk with "same player and same `known_information`" as its test: those pairs end with the smaller label, all others keep theirs, `ok` is false exactly when the shapes differ |
| Goofspiel.WinnerPlayer | games/goofspiel.py:146-174 | the dictionary loop, the filter and `max` compute exactly `Winner(moves, tie)`, a player index or -1 |
| Goofspiel.MovesDict | games/goofspiel.py:151-157 | every card played maps to the players who played it, in order, and the keys come in order of first play |
| Goofspiel.Singles | games/goofspiel.py:159 | the entries of the dictionary with exactly one player, in insertion order |
| Goofspiel.MaxSingle | games/goofspiel.py:168 | Python's `max` by card over those entries, the first of equal maxima |
| Goofspiel.SingleIff | games/goofspiel.py:151-159 | a player's card is theirs alone exactly when the dictionary lists that player alone for it |
| Goofspiel.SharedIff | games/goofspiel.py:164 | some card was played twice exactly when there are fewer single entries than moves |
| Goofspiel.WinnerNoSingle | games/goofspiel.py:159-162 | when no card was played by exactly one player the winner is -1; otherwise some player played the highest such card |
| Goofspiel.WinnerRule | games/goofspiel.py:164-174 | the winner is the player of the highest card nobody else played, except -1 under `DiscardAlways` when a card was shared and under `DiscardIfHigh` when that card is not the highest card played |
| Goofspiel.GoofspielPayoff | games/goofspiel.py:114-144 | succeeds exactly when every player has a move for every round (and, under `CyclicUtility`, there are players and cards), with one entry per player; IndexError or ValueError otherwise |
| Goofspiel.GoofspielUtility | games/goofspiel.py:114-144 | the method with its loops computes exactly `GoofspielPayoff`, errors included |
| Goofspiel.PlayRounds | games/goofspiel.py:123-132 | the loop over the rounds succeeds exactly when the moves cover every round, and then yields the accumulated utilities and the carried prize |
| Goofspiel.Award | games/goofspiel.py:127-132 | without a winner the prize is carried under `Accumulate` and `CyclicUtility` and dropped otherwise; a winner receives the prize plus what was carried, and the carry is reset |
| Goofspiel.CyclicRewrite | games/goofspiel.py:139-142 | every entry becomes 0 but the one at the weighted sum modulo the player count, which becomes 2 or 1 |
| Goofspiel.WeightedSum | games/goofspiel.py:138-140 | the loop yields `Σ u[i] * (i + 1)` |
| Goofspiel.OutcomeCarried | games/goofspiel.py:127-132 | under `Accumulate` and `CyclicUtility` what the rounds paid plus what they still carry is exactly the sum of their prizes |
| Goofspiel.OutcomeDropped | games/goofspiel.py:127-132 | under the other rules nothing is carried, and what the rounds paid plus the prizes nobody won is the sum of their prizes |
| Goofspiel.GoofspielTotal | games/goofspiel.py:114-132 | under the non-cyclic rules the payoffs add up to the hand's sum less what is still carried (`Accumulate`) or less the unwon prizes (`Discard*`), so at most the hand's sum when prizes are not negative |
| Goofspiel.CyclicSingleWinner | games/goofspiel.py:134-144 | under `CyclicUtility` exactly one entry is non-zero, at `(Σ u[i] * (i + 1)) mod n`, and it is 2 when all first-round cards are equal and 1 otherwise |
| Goofspiel.BuildAllPossibleHandsAsWritten | games/goofspiel.py:95-100 | as written, `all_permutations` of a bare `range` fails with `TypeError` exactly when `ranks >= 1`; with no ranks it lists what the intended enumeration lists |
| Goofspiel.HandsWhereTypeError | games/goofspiel.py:100 | wherever the code as written fails, the intended enumeration lists a hand (every row in increasing order) |
| Goofspiel.BuildAllPossibleHands | games/goofspiel.py:95-112 | corrected (the ranks passed as a list): a hand is listed exactly when it is a sequence of `num_players + 1` orderings of `1..ranks`, and none is listed twice |
| Goofspiel.AppendHands | games/goofspiel.py:109-110 | the inner loop adds exactly the shorter hands followed by the ordering `p`, keeping the list free of repeats |
| GoofspielTree.CardLists.Play | games/goofspiel.py:88-89 | the card leaves the player's hand (its first occurrence) and is appended to their bids; nothing else changes |
| GoofspielTree.CardLists.TakeBack | games/goofspiel.py:92-93 | the card returns to the end of the player's hand and leaves their bids; nothing else changes |
| GoofspielTree.CardLists.FinalPlayed | games/goofspiel.py:67 | each player's bids followed by the cards still in hand |
| GoofspielTree.CardLists.LeafUtilities | games/goofspiel.py:62-72 | the leaf loop: one value per card of the current player, the payoff of the bids finished with that card, and both card lists exactly as they were |
| GoofspielTree.CardLists.Leaf | games/goofspiel.py:64-71 | one round of that loop: the leaf is valued on the bids with the `j`-th card played, and the card goes back to the end of the hand |
| GoofspielTree.CardLists.HandTree | games/goofspiel.py:44-93 | one child per card of the current player, in hand order: a leaf valued on the finished bids when that player holds two cards and the next one card, otherwise a decision node of the next player filed under what that player knows; both card lists are restored, `information_sets` only gains entries and labels stay fresh, and every node added carries the label its knowledge is filed under; the nodes, their subtrees and the new `information_sets` are `HandSpec` of the lists on entry |
| GoofspielTree.CardLists.Branches | games/goofspiel.py:74-93 | the branch loop: one decision node of the next player per card, named `p<player>c<card>`, filed under the next player's knowledge; hand and bids restored; the nodes with their subtrees are `BranchesSpec` over all the player's cards |
| GoofspielTree.CardLists.BranchFor | games/goofspiel.py:75-93 | one round: look the knowledge up (a missing entry takes the tree's next label), add the node, play the card, build below it, take the card back; the hand is rotated by one card and the bids are as before; the node is `BranchSpec`, whose subtree is `HandSpec` of the lists with the card played |
| GoofspielTree.File | games/goofspiel.py:77-86 | a known entry keeps its label and the map; a missing one gets the next label, which is filed; in both cases the map only gains entries and its labels stay distinct and below the next label |
| GoofspielTree.SameLabelSameKnowledge | games/goofspiel.py:77-86 | two decision nodes filed in the same map share a label exactly when they share the knowledge |
| GoofspielTree.BuildGoofspielTree | games/goofspiel.py:13-42 | fails (IndexError) exactly when there are no players; otherwise the hands are every ordering of `1..rank`, once each, each with a decision node of player 0 named `str(hand)` and filed under its first prize card, and every decision node carries the label its knowledge is filed under; the forest with its subtrees is `ForestSpec` of the hands |
| GoofspielTree.HandNodes | games/goofspiel.py:27-40 | the loop over the hands builds one rooted subtree per hand, in order, with the map's labels fresh and every label filed; forest and map are `ForestSpec` of the hands |
| GoofspielTree.HandNode | games/goofspiel.py:28-40 | one hand: its node of player 0 filed under `(0, 0, hand[:1], empty bids)`, and the subtree built on a fresh deal with nothing bid, as `HandNodeSpec` states |
| GoofspielTree.HandSpec | games/goofspiel.py:44-93 | what the builder adds below a node as a function of hand, bids and map: leaves valued on the finished bids at the last bids, otherwise the branches of every card; the map only gains entries and its labels stay fresh |
| GoofspielTree.BranchesSpec | games/goofspiel.py:74-93 | the branches of the first `k` cards in hand order, each filed with the map the earlier ones left; the map only gains entries and stays fresh |
| GoofspielTree.BranchSpec | games/goofspiel.py:75-93 | the branch of one card: the next player's node filed under their knowledge, with the subtree built once the card is played from the rotated hand; the map only gains entries and stays fresh |
| GoofspielTree.HandNodeSpec | games/goofspiel.py:28-40 | one hand's node filed under its first prize card with the subtree of a fresh deal; the map only gains entries and stays fresh |
| GoofspielTree.ForestSpec | games/goofspiel.py:27-40 | the nodes of the first `k` hands in order, labels from 1; one node per hand and the map stays fresh |
| Hanabi.PyIndex | games/hanabi.py:98 | a Python list index `i` into a list of length `n` is defined exactly when `-n <= i < n`, and then picks `i`, or `n + i` for a negative `i` |
| Hanabi.TakeDrop | games/hanabi.py:222-223 | `deck[:k]` followed by `deck[k:]` gives back the deck, for every `k` including negative ones |
| Hanabi.ParseSlotName | games/hanabi.py:42-43 | a play or discard name `p.<i>-P<player>` built by `getLegalActions` is read back by `getChildState` as the same play or discard of slot `i` by that player (one-digit player) |
| Hanabi.ParseClueName | games/hanabi.py:79-81 | a clue name `c<other>.<kind><value>-P<player>` is read back as that clue, with its target, kind and value (one-digit fields) |
| Hanabi.DigitName | games/hanabi.py:79-81 | a one-digit number prints as its one digit, which reads back as the number |
| Hanabi.NoDashInDigits | games/hanabi.py:42-43 | a printed number holds no `-` and no `.`, so the splits on those characters see only the separators of the name |
| Hanabi.PlayMisfit | games/hanabi.py:98-99 | playing a card whose pile is not at `number - 1` ends the game with the piles and history unchanged |
| Hanabi.PlayEffect | games/hanabi.py:107-129 | a play that continues raised the card's pile to the card's number, refilled the slot from the deck (or with an empty slot), cleared its clue marks, appended `p.<card>` to the history, gained a token only for a completed pile, and left the discards and clue history alone |
| Hanabi.DiscardEffect | games/hanabi.py:142-159 | a discard that continues appends the card to the discards, gains one token, refills the slot, clears its marks, appends `d.<card>`, and leaves the piles alone |
| Hanabi.ClueEffect | games/hanabi.py:170-194 | a clue that continues spends one token, leaves hands, deck and piles alone, marks the number (or colour) on exactly the target's cards that match it, leaves every other player's marks alone, and appends one history entry per slot of the target's hand |
| Hanabi.DeckEndTurns | games/hanabi.py:116-123 | after a play or discard, the turn counter is unchanged while the deck has cards; on an empty deck it starts at `players - 1`, and counts down afterwards |
| Hanabi.LastTurnEnds | games/hanabi.py:100-105 | with one turn left, every recognised action that succeeds ends the game |
| Hanabi.StepKeepsShape | games/hanabi.py:86-194 | on a well-shaped state, a discard of an existing slot always succeeds, a play of one succeeds exactly when the card's colour names a pile, and every successor state is well shaped with the same number of players and hand sizes |
| Hanabi.BelowTotal | games/hanabi.py:83 | the order `sorted` uses on action names is total |
| Hanabi.BelowTransitive | games/hanabi.py:83 | that order is transitive |
| Hanabi.BelowIrreflexive | games/hanabi.py:83 | that order is strict |
| Hanabi.AscendingDistinct | games/hanabi.py:83 | a strictly sorted list holds no name twice, as `sorted(list(set))` promises |
| Hanabi.Least | games/hanabi.py:83 | the least name of a non-empty set: it is in the set and below every other member |
| Hanabi.SortNames | games/hanabi.py:83 | `sorted(list(actions))`: strictly ascending, and holding exactly the members of the set |
| Hanabi.SlotNamesIff | games/hanabi.py:37-43 | a name is offered for the player's own hand exactly when some non-empty slot gives it as a play or a discard |
| Hanabi.SlotNamesOf | games/hanabi.py:37-43 | the loop over the player's own hand collects exactly those play and discard names |
| Hanabi.CardCluesIff | games/hanabi.py:68-81 | a card offers a clue name exactly when it is not an empty slot and the clue is among those its unmarked number or colour allows |
| Hanabi.HandCluesStep | games/hanabi.py:68-81 | one more card of the other player adds exactly that card's clue names |
| Hanabi.HandCluesIff | games/hanabi.py:68-81 | the clue names collected from a hand are exactly those some card of it offers |
| Hanabi.AllCluesIff | games/hanabi.py:64-81 | the clue names collected over the players are exactly those some other player's hand offers |
| Hanabi.LegalNamesIff | games/hanabi.py:34-84 | a name is legal exactly when the player's own hand offers it, or there is a token and another player's card offers it as a clue, number clues only when more than one number is left and colour clues only when more than one colour is left |
| Hanabi.DealKeepsDeck | games/hanabi.py:220-223 | dealing yields one hand per player, and the hands followed by the rest are the deck |
| Hanabi.FlattenSnoc | games/hanabi.py:220-223 | appending a hand appends its cards to the dealt cards |
| Hanabi.DealFull | games/hanabi.py:220-223 | when the deck covers every hand, each player gets `k` cards and the rest starts after `players * k` cards |
| Hanabi.FirstMax | games/hanabi.py:225 | `max(deck, key=number)`: a card with the greatest number, and the first such card |
| Hanabi.BaseShaped | games/hanabi.py:217-231 | when the deck covers every hand and leaves a card, the base state exists and is well shaped, each player holding `k` cards over the rest of the deck |
| Hanabi.OwnHandHidden | games/hanabi.py:27-32 | a player's view shows every other hand as it is and their own hand only as its clue marks |
| Hanabi.ViewIgnoresOwnCards | games/hanabi.py:27-32 | changing the player's own cards does not change what the player sees |
| Hanabi.UniformUtility | games/hanabi.py:313-314 | one share per player, each share times the number of players being the total of the piles |
| Hanabi.UniformSharesAll | games/hanabi.py:313-314 | the uniform shares add up to the total of the piles |
| Hanabi.FirstIndex | games/hanabi.py:323 | `list.index`: the first position holding the name, or none when the name is absent (ValueError) |
| Hanabi.CreditFailed | games/hanabi.py:316-326 | once a pile's play is missing from the history, the competitive split fails whatever piles follow |
| Hanabi.CreditTotal | games/hanabi.py:316-326 | a competitive split that succeeds hands out exactly the total of the piles |
| Hanabi.IntSumUpdate | games/hanabi.py:324 | raising one player's credit changes the total by that difference |
| Hanabi.CompetitiveUtility | games/hanabi.py:316-326 | the loop over the piles credits each non-empty pile to the player who first played its top card, and fails when that play is missing |
| Hanabi.BuildHanabiUtility | games/hanabi.py:312-326 | the uniform splitter gives the uniform shares; the competitive one fails exactly when the credit fails and otherwise gives the credits as reals |
| Hanabi.ClueOneMore | games/hanabi.py:173-192 | one round of the clue loop marks that slot, spends a turn when some are counted, and appends the clue once to the clue history and once to the history |
| Hanabi.HanabiState.constructor | games/hanabi.py:12-23 | the new state holds exactly the given fields |
| Hanabi.HanabiState.Copy | games/hanabi.py:210-215 | a fresh state with the same contents |
| Hanabi.HanabiState.LegalActions | games/hanabi.py:34-84 | fails exactly when the legal-name specification does; otherwise a strictly ascending list holding exactly the legal names |
| Hanabi.HanabiState.AllClueNames | games/hanabi.py:64-81 | defined exactly when every other player's marks can be read, and then the clue names of all other hands |
| Hanabi.HanabiState.ClueNamesOf | games/hanabi.py:68-81 | defined exactly when the other hand's marks can be read, and then that hand's clue names |
| Hanabi.HanabiState.GetChildState | games/hanabi.py:86-194 | leaves the state alone and agrees with the transition specification: the same error, the same final piles and history, or a fresh state equal to the successor |
| Hanabi.HanabiState.DrawInto | games/hanabi.py:116-125 | the slot takes the deck's first card (or an empty slot, counting down the turns after the deck end) |
| Hanabi.HanabiState.ResetMarks | games/hanabi.py:126 | succeeds exactly when the slot's marks exist, and then clears them |
| Hanabi.HanabiState.PlayChild | games/hanabi.py:91-129 | agrees with the play specification |
| Hanabi.HanabiState.DiscardChild | games/hanabi.py:132-159 | agrees with the discard specification |
| Hanabi.HanabiState.ClueChild | games/hanabi.py:162-194 | agrees with the clue specification |
| Hanabi.HanabiState.ClueCard | games/hanabi.py:179-192 | one slot of the clue loop: its mark updated, a counted turn spent, one entry appended to each history |
| Hanabi.HanabiState.CreateBaseState | games/hanabi.py:217-231 | succeeds exactly when the base-state specification does, and then is a fresh state equal to it |
| Permutation.IndexesPrefix | games/permutation.py:56-57 | a prefix of a history whose consecutive pairs index the utility matrix has the same property |
| Permutation.Covered | games/permutation.py:56-57 | when the matrix is at least `b` by `b`, every history of actions below `b` indexes it |
| Permutation.PermutationUtility | games/permutation.py:53-59 | one entry per player of the tree (`2n - 1`), each the sum of `params[a][a']` over the consecutive actions of the history |
| Permutation.GetPermutationUtility | games/permutation.py:53-59 | the loop over `zip(h, h[1:])` computes exactly that utility vector |
| Permutation.BuildUpperTree | games/permutation.py:28-38 | below `n >= 3` the upper tree adds `n·(1 + size(n-1))` nodes and returns `n·(n-1)···3` childless bottom nodes in creation order, each owned by the node's player plus `n - 2`; below `n < 3` it returns the node itself and adds nothing; nothing already in the tree but the node changes |
| Permutation.UpperChild | games/permutation.py:35-36 | one round of the upper loop: a child of the next player and its own bottom nodes |
| Permutation.BuildLowerTree | games/permutation.py:40-51 | adds exactly the counted number of nodes below the node, each a decision node of a player of the ordering labelled `last + player - n`, or a leaf paid the utility of a full history of actions below `b` |
| Permutation.LowerLeaves | games/permutation.py:42-45 | an exhausted ordering adds `b` leaves, each paid the utility of the history extended by its action (none when the vector does not fit the tree) |
| Permutation.LowerChildren | games/permutation.py:47-51 | the loop adds `b` decision nodes of the ordering's first player, each with its subtree |
| Permutation.LowerChild | games/permutation.py:48-51 | one round of that loop: one node and its subtree |
| Permutation.OrderingPlayers | games/permutation.py:8 | an ordering of `n-1, …, 2n-2` has `n` entries, all in that range |
| Permutation.OnlyOrdering | games/permutation.py:8 | a list of at most one item has only itself as ordering |
| Permutation.OnlyOrderings | games/permutation.py:8 | so with fewer than two players there is at most one ordering, and `ordering_permutations[2 * i + 1]` is out of range |
| Permutation.MaxLabel | games/permutation.py:9 | `max(bottom_nodes, key=information_set)`: the largest label among the bottom nodes, reached by one of them |
| Permutation.FallingPositive | games/permutation.py:28-38 | the upper tree always returns at least one bottom node |
| Permutation.UpperBottoms | games/permutation.py:7-9 | every bottom node returned is a childless decision node with a label |
| Permutation.AttachOrdering | games/permutation.py:14-18 | an empty ordering fails before anything is added; otherwise the bottom node gains one child, a decision node of the ordering's first player labelled `last + player - n`, above that ordering's lower tree |
| Permutation.WidenOrdering | games/permutation.py:14-18 | what was built for one ordering is built for the players `n-1, …, 2n-2` |
| Permutation.PairStep | games/permutation.py:11-24 | one round of the main loop: orderings `2i` and `2i + 1` must exist, and the bottom node gets exactly two such children |
| Permutation.PairAll | games/permutation.py:11-24 | succeeding, the loop gives every bottom node two lower children, each heading a lower tree |
| Permutation.BuildPermutationGameTree | games/permutation.py:4-26 | fails with fewer than two players; a tree that is built has `2n - 1` players, `n·(n-1)···3` bottom nodes in the upper part each with two lower children labelled from two more than the largest bottom label, and every lower node a decision node of a lower player or a leaf paid the matrix sum of its history |
| Serialization.KidShapes | utilities/serialization.py:168-169 | one written subtree per child of the node, in order |
| Serialization.Shown | utilities/serialization.py:155 | one printed number per utility entry |
| Serialization.DeserializeSubtree | utilities/serialization.py:180-208 | on a `Tree`, consumes and builds exactly what the reading specification does: the same error, or the same nodes and the same remaining lines |
| Serialization.DeserializeNode | utilities/serialization.py:188-199 | a node line adds a decision node under the parent with the line's player, label and probability text, then reads its children below it |
| Serialization.KidsStep | utilities/serialization.py:198-199 | reading `n > 0` children is reading one subtree, stopping at its error, then the other `n - 1` from the lines it left |
| Serialization.DeserializeChildren | utilities/serialization.py:198-206 | the loop reading `count` children builds exactly what the reading specification does |
| Serialization.DeserializeTree | utilities/serialization.py:210-235 | fails exactly as the reading specification does (header, root line, children); otherwise a fresh valid tree with the header's player count and exactly the nodes read |
| Serialization.InverseAt | utilities/serialization.py:155 | a number the printing and parsing functions agree on is written as one plain field and read back as itself |
| Serialization.KidNumbers | utilities/serialization.py:168-169 | a child's utilities are among its parent's |
| Serialization.ReadableTidy | utilities/serialization.py:160-164 | a subtree that reads back has every probability text on one field of one line |
| Serialization.NumberPlain | utilities/serialization.py:163-164 | a printed integer is one plain field |
| Serialization.JoinAvoids | utilities/serialization.py:155 | joining pieces that lack a character, with another separator, gives text that lacks it |
| Serialization.WithoutAppend | utilities/serialization.py:155 | `replace(c, '')` distributes over concatenation |
| Serialization.WithoutAbsent | utilities/serialization.py:155 | `replace(c, '')` leaves text without `c` alone |
| Serialization.ListedJoin | utilities/serialization.py:155 | `str(list)[1:-1]` with its commas removed is the items joined by spaces |
| Serialization.SwapAppend | utilities/serialization.py:186 | `replace(x, y)` distributes over concatenation |
| Serialization.SwapAbsent | utilities/serialization.py:186 | `replace(x, y)` leaves text without `x` alone |
| Serialization.SwapJoin | utilities/serialization.py:186 | replacing the spaces of space-joined pieces by commas gives the comma-joined pieces |
| Serialization.ReadShown | utilities/serialization.py:155-186 | the printed utilities, once parsed back, are the utilities |
| Serialization.LeafLineReads | utilities/serialization.py:155-187 | a written leaf line is one line, read back as a leaf with the same utility vector |
| Serialization.NodeLineJoin | utilities/serialization.py:163-164 | a decision line is its fields joined by spaces |
| Serialization.DecisionLineJoin | utilities/serialization.py:163-164 | `n <count> <player> <label>[ <probability>]` is those fields joined by spaces |
| Serialization.NodeLineSplits | utilities/serialization.py:163-183 | splitting a written decision line on spaces gives back its fields, and the line holds no newline |
| Serialization.NodeLineReads | utilities/serialization.py:188-196 | a written decision line reads back as its child count, player and label, with its probability text or -1 when it has none |
| Serialization.ChanceLineSplits | utilities/serialization.py:158-201 | a written chance line splits into `c` and its child count |
| Serialization.LinesFlat | utilities/serialization.py:152-173 | no written line of a tidy subtree holds a newline |
| Serialization.UnlinesJoin | utilities/serialization.py:166-210 | lines each ended by a newline are the lines joined by newlines with an empty last piece |
| Serialization.ShapeFrame | utilities/serialization.py:152-173 | the shape of a subtree depends only on its own records |
| Serialization.KidsKept | utilities/serialization.py:198-199 | adding below a node keeps the shapes of its earlier children |
| Serialization.AttachExtends | data_structures/trees.py:128-140 | attaching a child extends the parent's child list and changes no other record |
| Serialization.LastKid | utilities/serialization.py:198-199 | a node that gained one child has the earlier child shapes followed by the new one |
| Serialization.ReadsLeaf | utilities/serialization.py:185-187 | reading a written leaf adds that leaf under the parent and leaves the following lines |
| Serialization.ReadsNode | utilities/serialization.py:188-199 | reading a written decision node adds it and then reads its children from the lines written for them |
| Serialization.SubApply | utilities/serialization.py:181-183 | reading a subtree classifies its first line and acts on it |
| Serialization.SubParse | utilities/serialization.py:180-208 | a readable subtree's written lines read back as exactly that subtree, leaving what follows |
| Serialization.KidsParse | utilities/serialization.py:198-199 | the written lines of a node's children read back, in order, as those children |
| Serialization.SubShape | utilities/serialization.py:180-208 | the nodes read for a readable subtree hang below the parent with exactly that shape, after its earlier children |
| Serialization.KidsShape | utilities/serialization.py:198-206 | the nodes read for the remaining children hang below the node with exactly their shapes |
| Serialization.NodeAdded | data_structures/trees.py:24-54 | adding a labelled decision node appends one childless record one level below the parent and lists it as the parent's last child (with its probability under a chance parent) |
| Serialization.HeaderReads | utilities/serialization.py:175-215 | the written header line reads back as the player count and first player |
| Serialization.RootReads | utilities/serialization.py:163-227 | the written root line reads back as the root's child count and kind, with its player and label for a decision root |
| Serialization.TextLines | utilities/serialization.py:175-210 | splitting the written text on newlines gives the header, the root line, the children's lines, and an empty last piece |
| Serialization.ReadTreeSteps | utilities/serialization.py:210-233 | reading the header, root and children in turn is what reading the tree does |
| Serialization.RootKidsRead | utilities/serialization.py:229-233 | the root's written children read back below a new root, with the same shapes, leaving only the empty last piece |
| Serialization.RoundTrip | utilities/serialization.py:151-235 | for a tree with a decision or chance root and no chance node below the root, whose leaf utilities print as text the reader parses back, reading what was written succeeds with the same player count and exactly the same shape: kinds, players, labels, probability texts and leaf utilities |
| Colgen.Pairs | utilities/serialization.py:27 | `sequence.items()`: one `(label, action)` pair per key, in insertion order |
| Colgen.EntryPieces | utilities/serialization.py:27 | one `<label>.<action>` piece per key, in order |
| Colgen.NumberAvoids | utilities/serialization.py:27 | a printed integer holds no `a` and no `.`, so the separators of a sequence name are unambiguous |
| Colgen.AfterAJoin | utilities/serialization.py:27 | the reduce that prefixes every piece with `a` is the pieces joined by `a` after an empty first piece |
| Colgen.EntriesPieces | utilities/serialization.py:27 | the sequence text is those `a`-prefixed pieces |
| Colgen.PiecesRead | utilities/serialization.py:27 | the pieces parse back as the pairs |
| Colgen.EntriesRoundTrip | utilities/serialization.py:24-27 | the name of a non-empty sequence reads back as its pairs, in order |
| Colgen.FirstLetter | utilities/serialization.py:24-27 | the name starts with `e` (`empty_seq_<p>`) exactly for the empty sequence, otherwise with `a` |
| Colgen.PairsDetermine | utilities/serialization.py:27 | two sequences with the same pairs in the same order are the same dict |
| Colgen.SequenceTextInjective | utilities/serialization.py:23-30 | two sequences get the same uncompressed name exactly when they are the same sequence |
| Colgen.CompressedDistinct | utilities/serialization.py:32-38 | under an injective id table, two names get the same compressed id exactly when they are the same name |
| Colgen.NamesDistinct | utilities/serialization.py:23-38 | names given under one injective table, compressed or not, coincide exactly when the sequences coincide |
| Colgen.SequenceNames.constructor | utilities/serialization.py:20-21 | no ids handed out, next id 0 |
| Colgen.SequenceNames.Name | utilities/serialization.py:23-38 | uncompressed: the name itself, the table unchanged; compressed: the id already given to that name, or else the next id, which is recorded and the counter moves on; the table stays injective and only grows |
| Colgen.SequenceNames.NameAll | utilities/serialization.py:59-61 | one name per sequence of the list, two names equal exactly when their sequences are |
| Colgen.Texts | utilities/serialization.py:59-61 | one text per sequence, each that sequence's name |
| Colgen.AllNamedStep | utilities/serialization.py:60-61 | one more round of the naming loop names one more sequence, and the earlier names stay valid as the table grows |
| Colgen.IsetNodes | utilities/serialization.py:40 | the nodes of the information sets, in dict order, are valid nodes of the tree |
| Colgen.IsetNodesHas | utilities/serialization.py:40 | every node of every information set is listed |
| Colgen.LeavesBelow | utilities/serialization.py:41 | the leaf children of a node are leaves of the tree |
| Colgen.LeafChildren | utilities/serialization.py:41 | the leaf children of the listed nodes are valid nodes |
| Colgen.AllNodes | utilities/serialization.py:40-42 | the information-set nodes followed by their leaf children are valid nodes |
| Colgen.AllNodesHas | utilities/serialization.py:40-42 | every node of every information set is among them |
| Colgen.KeysAreSets | utilities/serialization.py:40 | every key of the information-set dict names a set of valid nodes |
| Colgen.RawSequences | utilities/serialization.py:51 | `Q_raw`: every non-empty sequence of `p` at a listed node is in the list, and the list holds only such sequences |
| Colgen.Dedup | utilities/serialization.py:54 | the set-based de-duplication keeps the same elements and no element twice |
| Colgen.QMembers | utilities/serialization.py:51-54 | `Q` starts with the empty sequence, holds no sequence twice, holds the sequence of `p` at every listed node, and holds nothing else |
| Colgen.EmptyIsEmpty | utilities/serialization.py:54 | a sequence with no entries is the empty sequence |
| Colgen.FRow | utilities/serialization.py:81-96 | one row of `F`: -1 at the set's own sequence, 1 at each of its extensions by one of its actions, 0 elsewhere, one entry per sequence of `Q` |
| Colgen.OwnColumn | utilities/serialization.py:83-91 | every row of `F` has a -1, since the set's own sequence is in `Q` |
| Colgen.FMatrix | utilities/serialization.py:76-97 | `F`: the `empty_is` row (1 then zeros) and then one row of coefficients per information set of `H` |
| Colgen.FVector | utilities/serialization.py:99-102 | `f`: 1 for `empty_is`, then one 0 per information set |
| Colgen.Block | utilities/serialization.py:46-102 | one player's block: `Q` as specified, `H` as given, names on the `set Q` line and on `F`'s header the same and distinct for distinct sequences, and `F` and `f` as specified |
| Colgen.BlocksFitSnoc | utilities/serialization.py:46-102 | one more round of the player loop adds that player's block |
| Colgen.PlayerSetsKnown | utilities/serialization.py:67 | every information set of a player's list is in the dict |
| Colgen.PrependMembers | utilities/serialization.py:105 | prefixing every combination by every element of a list gives exactly the combinations headed by one of its elements |
| Colgen.ProductMembers | utilities/serialization.py:104-106 | `itertools.product(*Q)` holds exactly the joint sequences taking one sequence of each player |
| Colgen.ReachableTerminals | data_structures/cfr_trees.py:371-384 | `reachableTerminals(js)` computes exactly the reachable-terminal specification, errors included |
| Colgen.KidsFailure | data_structures/cfr_trees.py:664-673 | once a chance child fails, the union over the children fails the same way |
| Colgen.ReachMeaning | data_structures/cfr_trees.py:371-384 | when no index fails, a terminal is reachable exactly when following the joint sequence from the node leads to it |
| Colgen.KidsMeaning | data_structures/cfr_trees.py:664-673 | at a chance node, exactly the terminals some child reaches |
| Colgen.JsLength | utilities/serialization.py:108-112 | `__js_len`: the total number of entries of the joint sequence |
| Colgen.FoldFailure | utilities/serialization.py:116-117 | once a joint sequence fails, the loop over the rest fails the same way |
| Colgen.ImproveStep | utilities/serialization.py:119-124 | one terminal: recorded when new or when the joint sequence is strictly shorter than the recorded one |
| Colgen.ImprovePass | utilities/serialization.py:119-124 | the loop over the reached terminals makes exactly those updates |
| Colgen.FoldStep | utilities/serialization.py:116-124 | one round of the outer loop: stop at an earlier failure, fail when reaching fails, otherwise update with the reached terminals |
| Colgen.MinimalSequences | utilities/serialization.py:115-124 | the loop over all joint sequences computes exactly the minimal-sequence fold |
| Colgen.FoldSucceeds | utilities/serialization.py:116-117 | a normal end means reaching succeeded for every joint sequence |
| Colgen.MinimalDomain | utilities/serialization.py:115-124 | a terminal is recorded exactly when some joint sequence reaches it |
| Colgen.MinimalChosen | utilities/serialization.py:115-124 | the recorded joint sequence reaches the terminal, is of least total length among those that do, and is the first of them |
| Colgen.ColgenData | utilities/serialization.py:7-124 | one block per player, each fitting its player, and the minimal sequences computed over every combination of the players' `Q` sets |
| CfrTrees.VisitOrder | data_structures/cfr_trees.py:24-40 | the order in which the stack loop pops nodes starts at the node itself |
| CfrTrees.BuildFold | data_structures/cfr_trees.py:26-50 | the information sets built by visiting nodes in a given order form a well-formed dict |
| CfrTrees.VisitOrderValid | data_structures/cfr_trees.py:24-40 | every node the loop pops is a node of the tree |
| CfrTrees.PendingPush | data_structures/cfr_trees.py:30-40 | pushing a node puts its whole visit order ahead of what was pending |
| CfrTrees.PendingPop | data_structures/cfr_trees.py:27 | popping the last node takes its visit order off the front of what was pending |
| CfrTrees.FoldSnoc | data_structures/cfr_trees.py:26-50 | visiting one more node is one more step of the construction |
| CfrTrees.PopStep | data_structures/cfr_trees.py:26-40 | after a pop and its pushes, the nodes visited followed by those pending are still the whole visit order |
| CfrTrees.StepPending | data_structures/cfr_trees.py:29-40 | a node is visited first, then its children's subtrees when it expands (a chance node, or a decision node with a label) |
| CfrTrees.PushStep | data_structures/cfr_trees.py:30-40 | pushing one more child adds its subtree to what is pending |
| CfrTrees.PushChildren | data_structures/cfr_trees.py:30-40 | the loop pushing every child leaves the children's subtrees pending, last child first |
| CfrTrees.JoinInfoSet | data_structures/cfr_trees.py:34-50 | one popped node is exactly one step of the construction: a negative label is skipped, otherwise the action count grows by the node's children and the node joins its set, which is created with its player, child count and sequence when the label is new |
| CfrTrees.BuildInformationSets | data_structures/cfr_trees.py:19-50 | the stack loop builds exactly the fold of the steps over the visit order |
| CfrTrees.WithLabel | data_structures/cfr_trees.py:43-48 | the visited decision nodes carrying a given label |
| CfrTrees.FoldInfoSets | data_structures/cfr_trees.py:26-50 | a label has a set exactly when it is not negative and some visited decision node carries it; the set has the first such node's player, child count and sequence and holds all such nodes in visit order; the action count is the children of all visited labelled nodes |
| CfrTrees.FoldKeys | data_structures/cfr_trees.py:43-49 | a label has a set exactly when it is not negative and some visited decision node carries it |
| CfrTrees.FoldEntry | data_structures/cfr_trees.py:43-50 | the set of a label is built from the visited nodes carrying it |
| CfrTrees.FoldActions | data_structures/cfr_trees.py:39-41 | the action count is the children of all visited labelled nodes |
| CfrTrees.VisitChildrenContains | data_structures/cfr_trees.py:39-40 | a node of a child's subtree is visited |
| CfrTrees.VisitOrderReaches | data_structures/cfr_trees.py:24-40 | a node is visited when every node above it expands |
| CfrTrees.AllExpand | data_structures/cfr_trees.py:34-37 | with no negative label, every node above any node expands |
| CfrTrees.EveryDecisionRegistered | data_structures/cfr_trees.py:24-50 | with no negative label, every decision node belongs to the set of its label |
| CfrTrees.NonNegativeBelow | data_structures/cfr_trees.py:34-37 | the absence of negative labels holds in every subtree |
| CfrTrees.WithLabelContains | data_structures/cfr_trees.py:43-48 | every visited decision node carrying a label is among that label's nodes |
| CfrTrees.ShapeBelow | data_structures/cfr_trees.py:294-296 | the shape conditions on a tree hold in every subtree |
| CfrTrees.NodesAgree | data_structures/cfr_trees.py:60-61 | the loop over a set's nodes succeeds exactly when every node has the set's sequence |
| CfrTrees.FirstRecallViolation | data_structures/cfr_trees.py:57-67 | nothing is reported exactly when the game has perfect recall; a reported label names a set some node of which has another sequence |
| CfrTrees.OfPlayer | data_structures/cfr_trees.py:54 | the labels of the sets of one player, in dict order |
| CfrTrees.ByPlayer | data_structures/cfr_trees.py:52-55 | one list per player; a label is in player `p`'s list exactly when its set is `p`'s, and no label is in two lists |
| CfrTrees.InfosetsUnderHas | data_structures/cfr_trees.py:536-539 | a label in the union over the children comes from one child |
| CfrTrees.InfosetsUnderGets | data_structures/cfr_trees.py:536-539 | every child's labels are in the union |
| CfrTrees.LeavesUnderHas | data_structures/cfr_trees.py:556-559 | a leaf in the union over the children comes from one child |
| CfrTrees.LeavesUnderGets | data_structures/cfr_trees.py:556-559 | every child's leaves are in the union |
| CfrTrees.DirectStep | data_structures/cfr_trees.py:533-539 | a path below a child is direct from the node exactly when the node is another player's and the rest is direct from the child |
| CfrTrees.ChildInfosetWitness | data_structures/cfr_trees.py:521-539 | a label found below a node is the label of a decision node of the player reached without passing another of that player's nodes |
| CfrTrees.ChildInfosetReached | data_structures/cfr_trees.py:521-539 | every such node's label is found |
| CfrTrees.ChildInfosetsAre | data_structures/cfr_trees.py:521-539 | `getChildrenInformationSets`: exactly the labels of the player's decision nodes reached without passing another of the player's nodes |
| CfrTrees.ChildLeafWitness | data_structures/cfr_trees.py:541-559 | a leaf found below a node is reached without passing one of the player's nodes |
| CfrTrees.ChildLeafReached | data_structures/cfr_trees.py:541-559 | every such leaf is found |
| CfrTrees.ChildLeavesAre | data_structures/cfr_trees.py:541-559 | `getChildrenLeaves`: exactly the leaves reached without passing one of the player's nodes |
| CfrTrees.BuiltIsetsMatch | data_structures/cfr_trees.py:24-50 | on a well-shaped game, the built sets agree with the tree: each node of a set is a decision node of the set's player with its label and child count, and every decision node is registered |
| CfrTrees.EveryPathVisited | data_structures/cfr_trees.py:24-40 | with no negative label, every node is visited |
| CfrTrees.UnionInfosets | data_structures/cfr_trees.py:836-845 | the labels found from action `a` at any node of the set |
| CfrTrees.UnionLeaves | data_structures/cfr_trees.py:847-856 | the leaves found from action `a` at any node of the set |
| CfrTrees.ChildrenInfosetMap | data_structures/cfr_trees.py:69-74 | `children_infoset`: one entry per set, one list per action |
| CfrTrees.ChildrenLeavesMap | data_structures/cfr_trees.py:69-74 | `children_leaves`: one entry per set, one list per action |
| CfrTrees.RegretMatched | data_structures/cfr_trees.py:772-783 | the loop computes regret matching, which is a probability distribution |
| CfrTrees.NotInPrefix | data_structures/cfr_trees.py:82-83 | a key of a dict is not among the keys before it |
| CfrTrees.SampleIndex | data_structures/cfr_trees.py:805-811 | the first index whose running total exceeds the draw, or none when no running total does (the method then returns None) |
| CfrTrees.SamplePlanOver | data_structures/cfr_trees.py:81-84 | one sampled action per listed set, in order, each drawn from that set's current strategy |
| CfrTrees.RefreshStep | data_structures/cfr_trees.py:772-783 | refreshing one more set keeps the refreshed part refreshed |
| CfrTrees.FreshState | data_structures/cfr_trees.py:749-754 | the per-set arrays of a new set each have one entry per action |
| CfrTrees.FreshStates | data_structures/cfr_trees.py:728-754 | every set starts at its fresh state |
| CfrTrees.ZeroAtNodes | data_structures/cfr_trees.py:304 | every node starts with zero visits |
| CfrTrees.CFRTree.ActionCountPositive | data_structures/cfr_trees.py:39-47 | every set has at least one action, since its nodes have children |
| CfrTrees.CFRTree.UpdateCurrentStrategy | data_structures/cfr_trees.py:772-783 | only the set's current strategy changes, to the regret matching of its cumulative regret, which is a distribution |
| CfrTrees.CFRTree.UpdateAllStrategies | data_structures/cfr_trees.py:772-783 | every set's current strategy becomes the regret matching of its cumulative regret; nothing else changes |
| CfrTrees.CFRTree.AverageStrategy | data_structures/cfr_trees.py:785-795 | `ZeroDivisionError` exactly when the root's `T` is 0; otherwise `mu_T` divided by `T`: one entry per action, each times `T` giving back `mu_T` |
| CfrTrees.CFRTree.AverageIsDistribution | data_structures/cfr_trees.py:785-795 | when `mu_T` is non-negative and adds up to `T`, the average strategy is a distribution |
| CfrTrees.CFRTree.SampleAction | data_structures/cfr_trees.py:797-811 | an action sampled from the current strategy, and always one for a draw in `[0, 1)` |
| CfrTrees.CFRTree.SampleActionPlan | data_structures/cfr_trees.py:76-84 | one sampled action per set, keyed in dict order, each drawn from the set's current strategy |
| CfrTrees.CFRTree.constructor | data_structures/cfr_trees.py:19-74 | holds the tree, the built sets and action count and the player count; every set starts uniform with zero regrets and sums; no iteration done, and every node has zero visits |
| CfrTrees.NewCFRTree | data_structures/cfr_trees.py:14-74 | a decision or chance node without children fails with AttributeError (it is taken for a leaf, which it is not, so it has no utility); otherwise the sets are those of the construction, and the tree is built exactly when the game has perfect recall (the error otherwise names the first set at fault), valid, with its fresh per-set state |
| CfrIsets.HeightUnderHas | data_structures/cfr_trees.py:294-296 | a node is at least as tall as each of its children plus one |
| CfrIsets.HeightBound | data_structures/cfr_trees.py:294-296 | no path in a tree is longer than its height |
| CfrIsets.AtConcat | data_structures/cfr_trees.py:294-296 | following a path and then another is following their concatenation |
| CfrIsets.Shortest | data_structures/cfr_trees.py:740 | the length of a shortest path among a set's nodes, reached by one of them |
| CfrIsets.ChildInfosetBelow | data_structures/cfr_trees.py:521-539 | a label found below a node belongs to a decision node of the player below it |
| CfrIsets.ChildNodeOf | data_structures/cfr_trees.py:836-845 | a child set of a set after action `a` has a node strictly below one of the set's nodes |
| CfrIsets.RecordedAncestor | data_structures/trees.py:151-163 | a label recorded in a node's sequence is carried by a decision node above it |
| CfrIsets.ChildDeeperIn | data_structures/cfr_trees.py:836-845 | under perfect recall, a child set of a set belongs to the same player and its nodes lie strictly deeper, within the tree's height (also lines 57-67) |
| CfrIsets.ChildDeeper | data_structures/cfr_trees.py:69-74 | every set in `children_infoset[h][a]` is a set of the same player, strictly deeper than `h`, so the recursions over child sets end (also lines 836-845) |
| CfrIsets.DepthBound | data_structures/cfr_trees.py:740 | a set's depth is within the tree's height |
| CfrIsets.ShapeLayered | data_structures/cfr_trees.py:69-74 | a well-formed tree has sets with nodes, child-set lists of the right width, and child sets strictly deeper |
| CfrIsets.IsetsLayered | data_structures/cfr_trees.py:69-74 | every set has nodes, one child-set list per action, and a depth within the height |
| CfrIsets.EdgesDeeper | data_structures/cfr_trees.py:69-74 | every child set of every set is a set, strictly deeper |
| Dicts.Inhabited | data_structures/cfr_trees.py:903 | a non-empty set has a member |
| Dicts.Pick | data_structures/cfr_trees.py:903 | a member of a non-empty set, the one the model's folds over a set take first |
| CfrIsets.ReachAllIs | data_structures/cfr_trees.py:903-904 | visiting a collection of sets succeeds exactly when visiting each succeeds, and then marks exactly what some visit marks |
| CfrIsets.ReachAllAdd | data_structures/cfr_trees.py:903-904 | visiting one more set adds what it marks, and fails exactly when it fails |
| CfrIsets.ReachStep | data_structures/cfr_trees.py:898-904 | a set missing from the plan, or planned an action out of range, fails (KeyError, IndexError); otherwise it is marked with what its planned child sets mark |
| CfrIsets.MarkedThen | data_structures/cfr_trees.py:900 | marking one collection and then another marks their union |
| CfrIsets.MarkedAdd | data_structures/cfr_trees.py:900-904 | marking the set and then its children marks the set and all they mark |
| CfrIsets.MarkedSomeThen | data_structures/cfr_trees.py:900 | two rounds that only set reachabilities to 1 together only set reachabilities to 1 |
| CfrIsets.ComputeReachability | data_structures/cfr_trees.py:898-904 | succeeds exactly when the reach specification does, and then sets `reachability` to 1 on exactly the sets reached and changes nothing else; a failing run only sets reachabilities to 1 |
| CfrIsets.ChainCons | data_structures/cfr_trees.py:903 | a set followed by a chain starting in its planned child sets is a chain |
| CfrIsets.ChainTail | data_structures/cfr_trees.py:903 | the tail of a chain is a chain |
| CfrIsets.ReachSucceeds | data_structures/cfr_trees.py:898-904 | reaching from a set succeeds exactly when every set at the end of a planned chain from it has a planned action in range |
| CfrIsets.ReachMarks | data_structures/cfr_trees.py:898-904 | a set is marked exactly when a planned chain leads to it |
| CfrIsets.MarkedChain | data_structures/cfr_trees.py:898-904 | every marked set ends a planned chain |
| CfrIsets.ChainMarked | data_structures/cfr_trees.py:898-904 | the end of every planned chain is marked |
| CfrIsets.KeepIn | data_structures/cfr_trees.py:1004-1007 | the keys kept are those in the given set, in key order, without repeats |
| CfrIsets.KeepInSnoc | data_structures/cfr_trees.py:1004-1007 | one more key of the loop is kept exactly when it is in the set |
| CfrIsets.RootsReachable | data_structures/cfr_trees.py:1000-1002 | the sets with an empty sequence are sets |
| CfrIsets.ReducedKeys | data_structures/cfr_trees.py:1000-1007 | when the visits from the sets with empty sequence succeed, a set is kept exactly when a planned chain from one of them leads to it |
| CfrIsets.ReducedSucceeds | data_structures/cfr_trees.py:1000-1002 | those visits succeed exactly when every set ending such a chain has a planned action in range |
| CfrIsets.MarkedInPlan | data_structures/cfr_trees.py:1004-1007 | every kept set is in the plan, with an action in range |
| CfrIsets.ClearReachability | data_structures/cfr_trees.py:995-996 | every set's reachability becomes 0; nothing else changes |
| CfrIsets.RootsStep | data_structures/cfr_trees.py:1000-1001 | one more key of the loop adds it to the starting sets exactly when its sequence is empty |
| CfrIsets.ReachFromRoots | data_structures/cfr_trees.py:1000-1002 | the loop over the sets with empty sequence succeeds exactly when the reach specification does, and marks exactly what it reaches |
| CfrIsets.KeepReachable | data_structures/cfr_trees.py:1004-1007 | the sets with positive reachability, in key order, each with its planned action |
| CfrIsets.KeepStep | data_structures/cfr_trees.py:1006-1007 | one more key adds its planned action exactly when it is kept |
| CfrIsets.PrefixElems | data_structures/cfr_trees.py:1004 | one more key of the loop is one more element |
| CfrIsets.KeepMapStep | data_structures/cfr_trees.py:1006-1007 | the kept map grows by the key exactly when it is kept |
| CfrIsets.ReduceActionPlan | data_structures/cfr_trees.py:988-1009 | fails exactly when following the plan from the sets with empty sequence fails; otherwise the reduced plan keeps, in key order, exactly the sets a planned chain reaches, with their planned actions, and the sets' reachabilities are 1 on those and 0 elsewhere; nothing but reachabilities changes |
| CfrIsets.KeepMarked | data_structures/cfr_trees.py:1004-1007 | with reachability 1 on the marked sets and 0 elsewhere, the loop keeps exactly the marked sets with their planned actions |
| CfrSupport.ChildLeafBelow | data_structures/cfr_trees.py:541-559 | a leaf found below a node is a leaf of the tree below it |
| CfrSupport.ChildLeafValid | data_structures/cfr_trees.py:847-856 | a leaf found from a set after action `a` is a node of the tree |
| CfrSupport.LeavesCovered | data_structures/cfr_trees.py:69-74 | every leaf in `children_leaves` has a weight `omega` (also lines 889-890) |
| CfrSupport.ActionsPositive | data_structures/cfr_trees.py:866 | every set has an action, so the loop always picks one and `omega` is bound |
| CfrSupport.ShapeReady | data_structures/cfr_trees.py:858-896 | a well-formed tree whose leaves all carry a weight is ready for the supporting-plan recursion |
| CfrSupport.BestAction | data_structures/cfr_trees.py:864-894 | the chosen action is among those considered |
| CfrSupport.IsetMinIs | data_structures/cfr_trees.py:884-888 | the least of 1 and the child sets' values: at most 1, at most each child's value, and equal to 1 or to one of them |
| CfrSupport.LeafMinIs | data_structures/cfr_trees.py:889-890 | the least of the start and the leaves' weights: at most each, and equal to the start or to one of them |
| CfrSupport.IsetMinAdd | data_structures/cfr_trees.py:885-888 | one more child set takes the minimum with its value |
| CfrSupport.LeafMinAdd | data_structures/cfr_trees.py:889-890 | one more leaf takes the minimum with its weight |
| CfrSupport.UpdateSupportingPlan | data_structures/cfr_trees.py:858-896 | after the call, the set has its information and every stored information (the memo) agrees with the specification: the preset pair on the leaf's sequence, otherwise the first action of greatest value with that value; nothing already stored is dropped |
| CfrSupport.ActionSupport | data_structures/cfr_trees.py:884-890 | `a_omega` of one action: exactly its specified value, the least of 1, the child sets' values and the child leaves' weights |
| CfrSupport.MinOverLeaves | data_structures/cfr_trees.py:889-890 | the loop over the leaves computes exactly their minimum with the start |
| CfrSupport.SequenceOwnIsets | data_structures/trees.py:151-163 | every label in a node's sequence for `p` is a set of `p` |
| CfrSupport.CompletePlan | data_structures/cfr_trees.py:264-271 | the plan starts from the leaf's sequence and every set of `p` gets the action of its information: exactly the supporting map |
| CfrSupport.CompletedIsSupport | data_structures/cfr_trees.py:267-270 | a plan whose keys are the sets of `p` and whose actions are their informations is the supporting map |
| CfrSupport.LeastWeight | data_structures/cfr_trees.py:273 | `min(terminals, key=omega).omega`: the least weight of the terminals, reached by one of them |
| CfrSupport.LabelOnce | data_structures/cfr_trees.py:57-67 | under perfect recall no decision node shares its label with a decision node above it |
| CfrSupport.AtSplit | data_structures/trees.py:151-163 | a path splits into the node at a prefix and the rest below it |
| CfrSupport.FollowsSequence | data_structures/cfr_trees.py:447-460 | a plan that agrees with the leaf's sequence follows the leaf's path from any node on it |
| CfrSupport.LaterLabels | data_structures/trees.py:151-163 | under perfect recall, a later node of `p` on a path carries a different label from an earlier one |
| CfrSupport.BuildSupportingPlan | data_structures/cfr_trees.py:251-275 | the supporting plan keeps the leaf's own sequence; the terminals under it include the leaf; it fails exactly when collecting those terminals fails; otherwise the plan is the supporting map and the weight is the least `omega` over the terminals, at most the leaf's own |
| CfrWalks.FollowsStep | data_structures/cfr_trees.py:447-460 | a path through child `i` follows the plan exactly when the node agrees with the plan (if planned) and the rest of the path follows it |
| CfrWalks.TerminalsFromHas | data_structures/cfr_trees.py:456-458 | a terminal found among the first `k` children was found under one of them |
| CfrWalks.TerminalsFromGets | data_structures/cfr_trees.py:456-458 | a terminal found under one of the first `k` children is in the concatenation |
| CfrWalks.TerminalsFromChild | data_structures/cfr_trees.py:456-458 | when the concatenation succeeds, the walk under each child succeeds |
| CfrWalks.TerminalWitness | data_structures/cfr_trees.py:447-460 | every terminal returned is a leaf below the node on a path that follows the plan |
| CfrWalks.TerminalReached | data_structures/cfr_trees.py:447-460 | every leaf on a path that follows the plan is returned |
| CfrWalks.TerminalsAre | data_structures/cfr_trees.py:447-460 | `terminalsUnderPlan` returns exactly the leaves whose path follows the plan at every planned node (both directions) |
| CfrWalks.PlanValue | data_structures/cfr_trees.py:336-347 | the reference value of a plan has one entry per player (also lines 626-645) |
| CfrWalks.PlanUtilityIsValue | data_structures/cfr_trees.py:336-347 | with the zero default, `utilityFromActionPlan` never fails on a plan in range and equals the reference value: the leaf reached, zero where the plan stops, the distribution-weighted sum at chance; the restart on a running value equal to the default changes nothing (also lines 626-645) |
| CfrWalks.ChanceUtilityIsValue | data_structures/cfr_trees.py:626-645 | the chance loop's running value after `k` children is the weighted sum of their reference values |
| CfrWalks.Weights | data_structures/cfr_trees.py:570 | a node's weights have one entry per child |
| CfrWalks.ExpectedUtility | data_structures/cfr_trees.py:561-584 | `getExpectedUtility` has one entry per player |
| CfrWalks.ExpectedZeroSum | data_structures/cfr_trees.py:561-584 | when every leaf's utilities add up to 0, so do the expected utilities under any strategies |
| CfrWalks.NoDecisionFits | data_structures/cfr_trees.py:561-573 | a subtree without decision nodes asks for no strategy |
| CfrWalks.RootExpectedUtility | data_structures/cfr_trees.py:561-584 | `root.getExpectedUtility()` on the tree: `ZeroDivisionError` exactly when `root.T` is 0 and some decision node is reached; otherwise one entry per player, the expected utility under the average strategies `mu_T / T` |
| CfrWalks.RootUtilityZeroSum | data_structures/cfr_trees.py:561-584 | in a zero-sum game the utility `getExpectedUtility` returns, when it returns one, adds up to 0 |
| CfrWalks.ExpectedFromZeroSum | data_structures/cfr_trees.py:572-582 | the same after the first `k` children |
| CfrWalks.LeafUnderLeaf | data_structures/cfr_trees.py:318-322 | below a leaf the only leaf is itself |
| CfrWalks.LeafUnderChild | data_structures/cfr_trees.py:318-322 | the leaves below an inner node are those below its children, each below exactly one |
| CfrWalks.CarriedUnfold | data_structures/cfr_trees.py:428-445 | one step of a walk multiplies the carried weight by the step weight |
| CfrWalks.CarriedIsProduct | data_structures/cfr_trees.py:428-445 | what a walk carries to a node is its starting weight times the product of the step weights on the way |
| CfrWalks.CarriedStep | data_structures/cfr_trees.py:428-445 | passing to child `i` multiplies the weight carried to any leaf below it by the step weight |
| CfrWalks.DecisionState | data_structures/cfr_trees.py:14-74 | a decision node of a valid tree has an information set with a strategy and a sum of one entry per child |
| CfrWalks.StrategiesFitBelow | data_structures/cfr_trees.py:14-74 | strategies with one vector per information set of the right length fit every node of a valid tree |
| CfrWalks.WrittenStep | data_structures/cfr_trees.py:443-445 | one more child written keeps the loop invariant of a writing walk |
| CfrWalks.WrittenAll | data_structures/cfr_trees.py:443-445 | all children written is the whole node written |
| CfrWalks.WrittenLeaf | data_structures/cfr_trees.py:434-436 | a leaf is written by setting its own entry |
| CfrWalks.KeysBelowChild | data_structures/cfr_trees.py:14-74 | a map keyed by every node below `n` is keyed by every node below its children |
| CfrWalks.KeysAtRoot | data_structures/cfr_trees.py:14-74 | a map covering the tree is keyed by every node below the root |
| CfrWalks.WrittenFromRoot | data_structures/cfr_trees.py:428-445 | from the root, a written map sets every leaf to the start weight times its path weight and leaves the other keys alone |
| CfrWalks.RealizeFrom | data_structures/cfr_trees.py:428-445 | the recursion of `buildRealizationForm`: every leaf below gets the carried weight times the product of its target player's strategy entries on its path (chance not factored in), and nothing else changes (also lines 617-624) |
| CfrWalks.BuildRealizationForm | data_structures/cfr_trees.py:428-445 | every leaf's `omega` becomes `p` times the product of the current strategy entries of the target player (or of every player when the target is `None`) on its path; the tree stays valid and no other field changes (also lines 617-624) |
| CfrWalks.ClearedStep | data_structures/cfr_trees.py:488-489 | one more child cleared keeps the loop invariant |
| CfrWalks.ClearedAll | data_structures/cfr_trees.py:488-489 | all children cleared is the node cleared |
| CfrWalks.ClearFrom | data_structures/cfr_trees.py:480-489 | every leaf below the node gets marginalized utility 0 and nothing else changes (also lines 706-712) |
| CfrWalks.ClearMarginalizedUtility | data_structures/cfr_trees.py:480-489 | every leaf's marginalized utility becomes 0; the tree stays valid and no other field changes (also lines 706-712) |
| CfrWalks.GainStep | data_structures/cfr_trees.py:491-519 | what a leaf gains from `n` is what it gains from the child on its path with the weight multiplied by the step weight |
| CfrWalks.AddedStep | data_structures/cfr_trees.py:491-519 | one more child visited keeps the loop invariant of an adding walk |
| CfrWalks.CarriedFromZero | data_structures/cfr_trees.py:491-519 | a walk carrying 0 carries 0 to every node |
| CfrWalks.AddedSkip | data_structures/cfr_trees.py:502-503 | a child of step weight 0 gains nothing, so not visiting it (as `marginalizePlayer` does off the plan) is the same as visiting it |
| CfrWalks.AddedOnly | data_structures/cfr_trees.py:502-503 | at another player's node visiting only the planned child is the whole node's gain |
| CfrWalks.AddedAll | data_structures/cfr_trees.py:491-519 | all children visited is the node visited |
| CfrWalks.AddedLeaf | data_structures/cfr_trees.py:497-498 | a leaf gains the carried weight times its utility for the marginalized player |
| CfrWalks.MarginalFrom | data_structures/cfr_trees.py:491-503 | the recursion of `marginalizePlayer`: no key added or dropped; succeeds exactly when every node it passes is in the plan with an action in range; then every leaf below gains the frequency times the chance probabilities and indicator of the plan's actions on its path times its utility for `q` (also lines 714-720) |
| CfrWalks.BehaviouralFrom | data_structures/cfr_trees.py:505-519 | the recursion of `marginalizePlayerFromBehaviourals`: every leaf below gains `p` times the product of the chance probabilities and the other players' strategy entries on its path times its utility for `q` |
| CfrWalks.AddedFromRoot | data_structures/cfr_trees.py:491-519 | from the root, an adding walk gives every leaf exactly its gain and changes no other key |
| CfrWalks.GainAtRoot | data_structures/cfr_trees.py:497-498 | a leaf's gain from the root is the start weight times its path weight times its utility for `q` |
| CfrWalks.MarginalizePlayer | data_structures/cfr_trees.py:491-503 | fails (a key or index error) exactly when the plan misses a node it must follow; otherwise every leaf gains `f` times its path weight under chance and the plan times its utility for `q`; the tree stays valid and no other field changes (also lines 714-720) |
| CfrWalks.MarginalizeFromBehaviourals | data_structures/cfr_trees.py:505-519 | every leaf gains `p` times its path weight under chance and the other players' average strategies times its utility for `q`; the tree stays valid and no other field changes |
| CfrWalks.PlanIsPureBehaviour | data_structures/cfr_trees.py:491-519 | the path weight of a plan equals that of the behaviour strategy that plays the plan's action with probability 1, so the two marginalizations agree on pure plans |
| CfrMarginals.TerminalsDistinct | data_structures/cfr_trees.py:447-460 | `terminalsUnderPlan` lists each leaf once |
| CfrMarginals.TerminalsFromDistinct | data_structures/cfr_trees.py:456-458 | the leaves found under the first `k` children are listed once each, each below one of those children |
| CfrMarginals.DistinctOnce | data_structures/cfr_trees.py:174-175 | a list without repetition holds each leaf once, so `t.omega -= best_plan_value` hits a leaf at most once |
| CfrMarginals.FewerNonZero | data_structures/cfr_trees.py:174-181 | when no weight becomes non-zero, the non-zero leaves do not grow in number, and strictly fall when one of them reaches zero |
| CfrMarginals.MassSnoc | data_structures/cfr_trees.py:183 | appending a plan to the distribution adds its share at every leaf |
| CfrMarginals.RoundAt | data_structures/cfr_trees.py:174-175 | one leaf in one round: its new weight is the old one less the plan's share; it turns negative or stays non-zero only if it already was |
| CfrMarginals.Round | data_structures/cfr_trees.py:174-183 | one round keeps "start weight = mass of the recorded plans + weight left" at every leaf, keeps weights non-negative where they were, and brings one more leaf to zero |
| CfrMarginals.SubtractedOnce | data_structures/cfr_trees.py:174-175 | subtracting `w` along a list of distinct leaves takes `w` from exactly those leaves and keeps every other weight and key |
| CfrMarginals.SubtractPlan | data_structures/cfr_trees.py:174-175 | the loop `for t in terminals: t.omega -= w` leaves `omega` as the subtracted map and changes nothing else |
| CfrMarginals.AnyAbove | data_structures/cfr_trees.py:177-181 | true exactly when some leaf weighs more than 0.001 |
| CfrMarginals.LeafPlan | data_structures/cfr_trees.py:251-275 | on success, the leaf's supporting plan with its least weight, which is all the plan is worth |
| CfrMarginals.DominatedBeforeMore | data_structures/cfr_trees.py:155-167 | a bound on the leaves scanned so far stays a bound when raised |
| CfrMarginals.BestPlan | data_structures/cfr_trees.py:150-171 | the kept plan supports a leaf of non-zero weight and has positive value; `None` (the source's `Exception("ERROR")`) only when no leaf's plan has positive value; with `select_optimal_plan` no leaf's plan is worth more than the kept one; without it the kept plan is the first of positive value |
| CfrMarginals.TakePlan | data_structures/cfr_trees.py:174-183 | taking the plan keeps the decomposition invariant and strictly decreases the number of non-zero leaves; no other field changes |
| CfrMarginals.Decompose | data_structures/cfr_trees.py:146-183 | on success the player's plans take from the realization form all but a rest of at most 0.001 per leaf, never more than a non-negative weight; each plan has positive probability and covers exactly the player's information sets |
| CfrMarginals.DecomposeRound | data_structures/cfr_trees.py:150-183 | one round keeps the invariant and makes progress; a failing round leaves `omega` as it was |
| CfrMarginals.PlansOfSnoc | data_structures/cfr_trees.py:183 | appending a positive plan over the player's sets keeps every plan of the distribution such |
| CfrMarginals.MergeIsUpdate | data_structures/cfr_trees.py:193 | `{**j, **d}` is `j` updated by `d`: keys of `j` first, `d`'s values win |
| CfrMarginals.Row | data_structures/cfr_trees.py:192-195 | one plan of the joint crossed with a player's plans gives one entry per plan |
| CfrMarginals.CrossLength | data_structures/cfr_trees.py:190-196 | the cross product has `|a| * |b|` entries |
| CfrMarginals.CrossAt | data_structures/cfr_trees.py:190-196 | entry `i * |b| + k` of the cross product merges plan `i` of `a` with plan `k` of `b` and multiplies their probabilities |
| CfrMarginals.CrossValid | data_structures/cfr_trees.py:193 | merging valid dictionaries gives valid dictionaries |
| CfrMarginals.JointValid | data_structures/cfr_trees.py:187-196 | the joint distribution of valid distributions is valid |
| CfrMarginals.RowSnoc | data_structures/cfr_trees.py:192-195 | the inner loop's result after one more plan |
| CfrMarginals.CrossProduct | data_structures/cfr_trees.py:190-196 | the nested loops compute the cross product with the first distribution outermost |
| CfrMarginals.JointDistribution | data_structures/cfr_trees.py:187-197 | the merging loop computes the first player's distribution crossed with each further player's in order |
| CfrMarginals.ReduceAll | data_structures/cfr_trees.py:199-205 | every joint plan is replaced by its reduction to the information sets it reaches, its probability kept; it fails exactly when some plan's reduction fails; only reachabilities change |
| CfrMarginals.PlayerDistribution | data_structures/cfr_trees.py:142-185 | after `buildRealizationForm(p, 1)` the decomposition's plans, summed at each leaf, equal the leaf's realization weight under the current strategies up to 0.001 and never exceed a non-negative one; each plan covers exactly the player's sets |
| CfrMarginals.BuildJointFromMarginals | data_structures/cfr_trees.py:135-205 | with no player an index error; on success one distribution per player, each realizing that player's current strategy at every leaf up to 0.001, and the result is their cross product in player order with every plan reduced and every probability kept |
| CfrJoint.TaggedSnoc | data_structures/cfr_trees.py:962-963 | one more binding appends `a` and its body to the string |
| CfrJoint.RenderSnoc | data_structures/cfr_trees.py:962-963 | the string of a plan with one more key is the old string followed by `a<infoset>.<action>` |
| CfrJoint.ActionPlanToString | data_structures/cfr_trees.py:955-965 | the loop builds the plan's string form, one `a<infoset>.<action>` per binding in the plan's key order |
| CfrJoint.StringToActionPlan | data_structures/cfr_trees.py:969-986 | the parsing loop computes the plan the string denotes, or the error (`ValueError`) of the first malformed piece |
| CfrJoint.IntToStringPlain | data_structures/cfr_trees.py:963 | the decimal form of an integer contains neither `a` nor `.` |
| CfrJoint.BodyPlain | data_structures/cfr_trees.py:963-982 | a binding's body contains no `a` and parses back to its information set and action |
| CfrJoint.SplitTagged | data_structures/cfr_trees.py:978 | splitting at `a` a piece followed by tagged bodies without `a` gives the piece and then the bodies |
| CfrJoint.SplitRender | data_structures/cfr_trees.py:978 | splitting a plan's string at `a` gives an empty piece and then one body per binding |
| CfrJoint.PutAll | data_structures/cfr_trees.py:981-982 | writing bindings into a valid dict keeps it valid |
| CfrJoint.ParsePiecesAll | data_structures/cfr_trees.py:981-982 | the parsing loop succeeds exactly when every piece parses, and then writes the parsed bindings in order |
| CfrJoint.ParseAllBodies | data_structures/cfr_trees.py:981-982 | the bodies of a plan parse to its bindings in key order |
| CfrJoint.BodiesCons | data_structures/cfr_trees.py:962-963 | the bodies of a plan split into the first binding's and the rest's |
| CfrJoint.PairsCons | data_structures/cfr_trees.py:981-982 | the bindings of a plan split into the first and the rest |
| CfrJoint.ParseAllCons | data_structures/cfr_trees.py:981-982 | parsing a list whose head and tail parse gives the head's pair before the tail's |
| CfrJoint.FreshTail | data_structures/cfr_trees.py:981-982 | after the first of distinct fresh keys, the rest are distinct and fresh with it added |
| CfrJoint.PutAllStep | data_structures/cfr_trees.py:981-982 | writing the bindings is writing the first, then the rest |
| CfrJoint.AppendStep | data_structures/cfr_trees.py:981-982 | appending the first key and then the rest appends all keys |
| CfrJoint.PutAllFresh | data_structures/cfr_trees.py:981-982 | writing distinct fresh keys appends them in order with their values |
| CfrJoint.MapAppendCons | data_structures/cfr_trees.py:981-982 | the bindings of the first key and of the rest are those of all keys |
| CfrJoint.PlanStringRoundTrip | data_structures/cfr_trees.py:955-986 | `stringToActionPlan(actionPlanToString(plan)) == plan`, key order included |
| CfrJoint.PlanStringInjective | data_structures/cfr_trees.py:925-929 | two plans with the same string are the same plan, so the store of a joint strategy tells plans apart |
| CfrJoint.FirstMin | data_structures/cfr_trees.py:937 | `min(plans, key=...)`: a key of least weight, before which every key weighs strictly more |
| CfrJoint.CFRJointStrategy.constructor | data_structures/cfr_trees.py:911-921 | a new joint strategy has the given cap, no plans and frequency count 0 |
| CfrJoint.CFRJointStrategy.AddActionPlan | data_structures/cfr_trees.py:923-945 | the stored plans become those of the specification `Added`, or stay unchanged when `min` would raise; the frequency count stays the total weight and the cap is respected |
| CfrJoint.CFRJointStrategy.AddJointDistribution | data_structures/cfr_trees.py:947-953 | every plan is added with its probability in order; the result is the fold of `Added`, the invariant kept |
| CfrJoint.AddedValid | data_structures/cfr_trees.py:923-945 | adding a plan keeps the dict valid |
| CfrJoint.RemoveLength | data_structures/cfr_trees.py:939 | deleting a stored plan removes one key |
| CfrJoint.FreshLength | data_structures/cfr_trees.py:939 | dropping a key present once shortens the key list by one |
| CfrJoint.FreshNone | data_structures/cfr_trees.py:939 | dropping an absent key changes nothing |
| CfrJoint.DistinctHead | data_structures/cfr_trees.py:939 | the first of distinct keys is not among the rest |
| CfrJoint.DistinctTail | data_structures/cfr_trees.py:939 | the rest of distinct keys are distinct |
| CfrJoint.TotalFrame | data_structures/cfr_trees.py:928-944 | the total of the keys depends only on their weights |
| CfrJoint.TotalBumpKeys | data_structures/cfr_trees.py:928-929 | raising a key's weight by `w` raises the total by `w` when the key is listed |
| CfrJoint.TotalBump | data_structures/cfr_trees.py:928-929 | adding to a stored plan adds to the total |
| CfrJoint.TotalSnoc | data_structures/cfr_trees.py:931-932 | the total of one more key adds its weight |
| CfrJoint.TotalAppend | data_structures/cfr_trees.py:931-932 | storing a new plan adds its weight to the total |
| CfrJoint.TotalFresh | data_structures/cfr_trees.py:938-939 | dropping a key takes its weight off the total |
| CfrJoint.AddedUnbounded | data_structures/cfr_trees.py:930-932 | with no cap every plan is taken and the frequency count grows by the weight |
| CfrJoint.TotalRemove | data_structures/cfr_trees.py:938-939 | deleting a stored plan takes its weight off the total |
| CfrJoint.AddedFails | data_structures/cfr_trees.py:923-945 | with the cap respected, adding fails exactly when the plan is new and the cap is not -1 but at most 0 (`min` of an empty dict) |
| CfrJoint.AddedKeepsRoom | data_structures/cfr_trees.py:930-945 | adding never exceeds the cap |
| CfrJoint.AddedWithoutEviction | data_structures/cfr_trees.py:927-932 | a stored plan, or a new one with room, gains `w` (from 0) and the total grows by `w`; every other plan keeps its weight |
| CfrJoint.AddedEvicts | data_structures/cfr_trees.py:933-945 | a new plan with no room evicts the first plan of least weight and takes its place with weight `w`; the total loses the evicted weight and gains `w` |
| CfrUtility.AccumulateInto | data_structures/cfr_trees.py:99-100 | the loop `utility[i] += leafUtility[i] * frequency` computes the specified accumulation |
| CfrUtility.GetUtility | data_structures/cfr_trees.py:86-102 | the loop over the stored plans computes the specification `JointUtility`: every plan string parsed back, its weight divided by `frequencyCount` (a `ZeroDivisionError` when that is 0), and its utility under the zero default added with that frequency; errors are passed on |
| CfrUtility.PlanUtilityZeroSum | data_structures/cfr_trees.py:336-347 | in a zero-sum game the utility a plan reaches has one entry per player and adds up to 0 (also lines 626-645) |
| CfrUtility.ChanceUtilityZeroSum | data_structures/cfr_trees.py:626-645 | the same for the chance loop after `k` children |
| CfrUtility.JointUtilityZeroSum | data_structures/cfr_trees.py:86-102 | in a zero-sum game the utility of a joint strategy adds up to 0 |
| Cfr.KeptTrans | cfr_code/cfr.py:4-49 | the walk's "only sums change" relation is transitive |
| Cfr.FitKept | cfr_code/cfr.py:4-49 | the state stays shaped for the tree when only sums change |
| Cfr.CountedFromKeys | cfr_code/cfr.py:10 | a visits map keyed by every node below counts every node |
| Cfr.ReadyChild | cfr_code/cfr.py:15-29 | a child is ready for the walk with a reach vector of the same length |
| Cfr.ReadyKept | cfr_code/cfr.py:4-49 | readiness survives the walk of a sibling |
| Cfr.UpdatedRegrets | cfr_code/cfr.py:40-46 | the updated regrets have one entry per action |
| Cfr.UpdatedStrategySums | cfr_code/cfr.py:47 | the updated strategy sums have one entry per action |
| Cfr.PathVisited | cfr_code/cfr.py:10 | the node's path has a visits entry |
| Cfr.VisitedReady | cfr_code/cfr.py:10 | adding to the node's visits changes only sums and keeps it ready |
| Cfr.Walk | cfr_code/cfr.py:4-49 | the specification of `CFR` (value and new state) changes only visits and sums |
| Cfr.ChanceSum | cfr_code/cfr.py:12-16 | the chance loop changes only visits and sums |
| Cfr.ScaleAt | cfr_code/cfr.py:28 | scaling one player's reach keeps the vector's length |
| Cfr.ScaleAtUpdate | cfr_code/cfr.py:27-28 | `pi[p] *= x` is `pi` with entry `p` replaced by its old value times `x` |
| Cfr.Alternatives | cfr_code/cfr.py:25-32 | one value per remaining action; only visits and sums change |
| Cfr.AlternativesStep | cfr_code/cfr.py:25-32 | the alternatives from action `i` are the child walk with the acting player's reach scaled by `sigma[i]` (no CFR+ flag), then the rest |
| Cfr.ChanceSumStep | cfr_code/cfr.py:14-15 | one more chance child adds its value times its probability, with the CFR+ flag passed on |
| Cfr.DotSnoc | cfr_code/cfr.py:32 | `v += v_alt[a] * sigma[a]` one action at a time |
| Cfr.ProdExceptSnoc | cfr_code/cfr.py:35-38 | the product of the other players' reach, one more entry at a time |
| Cfr.ProdSnoc | cfr_code/cfr.py:10 | the product of the reach vector, one more entry at a time |
| Cfr.ReachProduct | cfr_code/cfr.py:10 | computes the product of all reach entries |
| Cfr.OthersReach | cfr_code/cfr.py:35-38 | computes the product of every reach entry but the player's |
| Cfr.UpdateSums | cfr_code/cfr.py:40-47 | the information set's regrets and strategy sums become their updated values (CFR+ clamp when asked); nothing else changes |
| Cfr.CfrFrom | cfr_code/cfr.py:4-49 | the recursion computes exactly the value and new state of the specification `Walk`, and the reach array is the same on return as on entry |
| Cfr.ChanceChildren | cfr_code/cfr.py:12-16 | the chance loop computes the specified weighted sum and leaves the reach array unchanged |
| Cfr.DecisionChildren | cfr_code/cfr.py:21-32 | the action loop computes each alternative value with the acting player's reach scaled and restored, `v` is their `sigma`-weighted sum, and the reach array is unchanged |
| Cfr.AlternativesAdvance | cfr_code/cfr.py:25-32 | the action loop's invariant after one more action |
| Cfr.DecisionChild | cfr_code/cfr.py:27-30 | one child call with `pi[q] *= sigma[a]` then restored: the specified child walk, reach array unchanged |
| Cfr.ScaleReach | cfr_code/cfr.py:27-28 | returns the old entry and scales it in the array |
| Cfr.RestoreReach | cfr_code/cfr.py:30 | writes the old entry back |
| Cfr.WalkDecision | cfr_code/cfr.py:10-49 | at a decision node: visits grow by the product of `pi`; `v` is the `sigma`-weighted sum of the alternatives; only at the player's own node do regrets grow by `pi_other * (v_alt[a] - v)` (clamped under CFR+) and strategy sums by `pi[player] * sigma[a]` |
| Cfr.WalkDecisionValue | cfr_code/cfr.py:25-32 | a decision node's value is the `sigma`-weighted sum of its alternatives |
| Cfr.WalkChance | cfr_code/cfr.py:10-16 | at a chance node visits grow by the product of `pi` and the value is the chance loop's |
| Cfr.PlusIgnoredElsewhere | cfr_code/cfr.py:29-43 | at another player's decision node the CFR+ flag makes no difference, because line 29 drops it |
| Cfr.PlusClampsOwnNode | cfr_code/cfr.py:29-46 | at the player's own node the CFR+ flag changes only that node's regrets, to the positive part of the vanilla update; value, visits and every other set are the same |
| Cfr.ClampIsPosPart | cfr_code/cfr.py:41-46 | the CFR+ update is the positive part of the vanilla update |
| Cfr.FitStrategies | cfr_code/cfr.py:25-32 | a state shaped for the tree gives every decision node a strategy of its width |
| Cfr.CurrentKept | cfr_code/cfr.py:4-49 | the walk does not change current strategies |
| Cfr.PartStep | data_structures/cfr_trees.py:572-582 | the weighted sum over the first `k + 1` children adds child `k`'s expected value times its weight |
| Cfr.WalkValue | cfr_code/cfr.py:4-49 | the value `CFR` returns is the player's entry of the expected utility under the current strategies (`getExpectedUtility` with current instead of average strategies) |
| Cfr.ChanceSumValue | cfr_code/cfr.py:12-16 | the chance loop's value is the weighted sum of the children's expected values |
| Cfr.ChanceFromParts | cfr_code/cfr.py:12-16 | the chance loop from child `i` adds the remaining weighted parts to the running sum |
| Cfr.ChanceStepArith | cfr_code/cfr.py:15 | one step of the chance loop's running sum |
| Cfr.ChildValues | cfr_code/cfr.py:23-29 | one expected value per remaining child |
| Cfr.ChildValuesAt | cfr_code/cfr.py:23-29 | entry `j` is the expected value of child `i + j` |
| Cfr.AlternativesValue | cfr_code/cfr.py:25-32 | the alternative values are the children's expected values |
| Cfr.DotParts | cfr_code/cfr.py:32 | the weighted sum of the first `k` alternatives is the first `k` weighted parts |
| Cfr.DotChildValues | cfr_code/cfr.py:32 | a decision node's weighted sum is its expected value |
| Cfr.PrefixTrans | cfr_code/cfr.py:4-49 | a path below a longer prefix is below the shorter one |
| Cfr.FramedTrans | cfr_code/cfr.py:4-49 | the walk's frame composes |
| Cfr.FramedMore | cfr_code/cfr.py:4-49 | a frame with more labels allowed still holds |
| Cfr.WalkFrame | cfr_code/cfr.py:10-47 | the walk changes only the player's own information sets below the node and the visits of nodes below it; the node's own visits grow by exactly the product of `pi` |
| Cfr.FramedStep | cfr_code/cfr.py:4-49 | a child's frame and the siblings' frame combine into the node's |
| Cfr.ChanceSumFrame | cfr_code/cfr.py:12-16 | the chance loop changes only own sets and visits below, not the node's own visits |
| Cfr.AlternativesFrame | cfr_code/cfr.py:25-32 | the action loop changes only own sets and visits below, not the node's own visits |
| CfrSolve.Ones | cfr_code/cfr.py:67 | `[1] * player_count`: one 1 per player |
| CfrSolve.ProdOnes | cfr_code/cfr.py:10-67 | the root's reach product is 1 |
| CfrSolve.RootReadyKept | cfr_code/cfr.py:66-67 | the root stays ready for the next player's traversal after a traversal |
| CfrSolve.Sweep | cfr_code/cfr.py:66-67 | the traversals for players `p .. m - 1` change only visits and sums |
| CfrSolve.Refreshed | cfr_code/cfr.py:70-71 | refreshing every set's strategy keeps the sets |
| CfrSolve.RefreshedIs | data_structures/cfr_trees.py:772-783 | a state whose every set has its current strategy replaced by regret matching of its regrets is the refreshed state |
| CfrSolve.SweepKeepsStrategies | cfr_code/cfr.py:66-67 | the traversals of one iteration all use the strategies of the start of the iteration, and add no visits key |
| CfrSolve.SweepRootVisits | cfr_code/cfr.py:10-67 | the root's visits grow by 1 per player traversed |
| CfrSolve.SweepFrame | cfr_code/cfr.py:34-67 | a set belonging to none of the traversed players is left alone |
| CfrSolve.TreeFit | data_structures/cfr_trees.py:14-74 | the state of a valid tree fits every node below the root |
| CfrSolve.TreeReady | cfr_code/cfr.py:67 | a valid tree whose players are all below `numOfPlayers` is ready for the traversals from the root |
| CfrSolve.CfrFromRoot | cfr_code/cfr.py:67 | `CFR(root, p, [1] * player_count)`: the new state is that of the specification `Walk` from the root |
| CfrSolve.SweepAll | cfr_code/cfr.py:66-67 | the player loop computes the specified sweep over all players |
| CfrSolve.KeptFits | data_structures/cfr_trees.py:14-74 | a state where only sums changed still fits the tree and keeps distributions as current strategies |
| CfrSolve.CfrIteration | cfr_code/cfr.py:61-71 | one iteration: the traversals for every player in order from the all-ones reach, then `updateCurrentStrategy` on every set; the state becomes `Next` of the old one, the tree stays valid and no other field changes |
| CfrSolve.FitRefreshed | data_structures/cfr_trees.py:772-783 | refreshing the strategies keeps the state's shape |
| CfrSolve.Next | cfr_code/cfr.py:61-71 | one iteration keeps the root ready and adds no key |
| CfrSolve.Iterated | cfr_code/cfr.py:61-71 | `k` iterations keep the root ready and add no key |
| CfrSolve.SolveWithCfr | cfr_code/cfr.py:51-85 | after `iterations` iterations the state is `Iterated` of the starting state; the tree stays valid and no other field changes; the returned utility is `getExpectedUtility()` of the final tree, which, since plain CFR leaves `root.T` at 0, is `ZeroDivisionError` exactly when the tree has a decision node |
| SampleCfr.FirstOver | data_structures/cfr_trees.py:595-606 | the first index from `k` whose running total of the distribution exceeds the draw |
| SampleCfr.FirstOverSampled | data_structures/cfr_trees.py:595-606 | an index found is the one `sampleAction` returns; none found means the draw reaches every running total |
| SampleCfr.SampledUnique | data_structures/cfr_trees.py:595-606 | at most one index is the sampled one |
| SampleCfr.ChanceDraw | data_structures/cfr_trees.py:595-606 | the scan of `sampleAction` over a chance distribution yields `FirstOver` |
| SampleCfr.Drawn | cfr_code/sample_cfr.py:17-18 | the drawn chance child is a child index |
| SampleCfr.SampleReadyChild | cfr_code/sample_cfr.py:32-39 | a decision child is ready with a reach vector of the same length |
| SampleCfr.SampleReadyDrawn | cfr_code/sample_cfr.py:17-18 | a chance node's draw hits a child, which is ready |
| SampleCfr.SampleReadyKept | cfr_code/sample_cfr.py:5-56 | readiness survives a sibling's traversal |
| SampleCfr.MaxOf | cfr_code/sample_cfr.py:29 | `max(pi)`: at least every entry and equal to one of them |
| SampleCfr.ZeroAt | cfr_code/sample_cfr.py:37 | setting one player's reach to 0 keeps the vector's length |
| SampleCfr.SampleWalk | cfr_code/sample_cfr.py:5-56 | the specification of `sampleCFR` changes only visits and sums |
| SampleCfr.ChildReach | cfr_code/sample_cfr.py:33-38 | each child gets a reach vector of the same length |
| SampleCfr.SampleAlternatives | cfr_code/sample_cfr.py:32-39 | one value per remaining action; only visits and sums change |
| SampleCfr.SampleAlternativesStep | cfr_code/sample_cfr.py:32-39 | the alternatives from action `i` are the child traversal with the actor's reach kept on the sampled action and 0 elsewhere, then the rest |
| SampleCfr.SampleWalkDecision | cfr_code/sample_cfr.py:15-56 | with some positive reach: visits grow by the product of `pi`, the value is the sampled action's, and only at the player's own node do regrets become `max(r + pi_other * (v_alt[a] - v), 0)` and strategy sums grow by `pi[player] * sigma[a]` |
| SampleCfr.SampleWalkIdle | cfr_code/sample_cfr.py:29-30 | with every reach 0 the node descends only the sampled action and updates nothing but its visits |
| SampleCfr.SampleWalkChance | cfr_code/sample_cfr.py:15-18 | a chance node descends only its drawn child |
| SampleCfr.MaxReach | cfr_code/sample_cfr.py:29 | computes `max(pi)` |
| SampleCfr.ZeroReach | cfr_code/sample_cfr.py:36-37 | returns the old entry and sets it to 0 in the array |
| SampleCfr.SampleCfrFrom | cfr_code/sample_cfr.py:5-56 | the recursion computes exactly the value and new state of `SampleWalk`, and the reach array is unchanged on return |
| SampleCfr.SampleChildren | cfr_code/sample_cfr.py:32-39 | the action loop computes the specified alternatives and restores the reach array |
| SampleCfr.SampleAlternativesAdvance | cfr_code/sample_cfr.py:32-39 | the action loop's invariant after one more action |
| SampleCfr.SampleChild | cfr_code/sample_cfr.py:33-39 | one child call with the actor's reach zeroed off the sampled action and restored: the specified child traversal, reach array unchanged |
| SampleCfr.Outcome | cfr_code/sample_cfr.py:17-41 | the utility of the leaf the plan and the draws lead to has one entry per player |
| SampleCfr.SampleWalkValue | cfr_code/sample_cfr.py:5-56 | the value `sampleCFR` returns is the player's utility at the leaf the plan and the chance draws lead to, whatever the reach and the sums |
| SampleCfr.SampleAlternativesValue | cfr_code/sample_cfr.py:32-41 | alternative `k` is the outcome of child `k` |
| SampleCfr.ProdAllZero | cfr_code/sample_cfr.py:15-29 | an all-zero reach has product 0 and maximum 0 |
| SampleCfr.SampleWalkZeroReach | cfr_code/sample_cfr.py:15-30 | with an all-zero reach the traversal changes nothing at all |
| SampleCfr.ClampedNonNegative | cfr_code/sample_cfr.py:51 | the clamped regrets are non-negative |
| SampleCfr.SampleWalkClamped | cfr_code/sample_cfr.py:43-54 | after a traversal through the player's own node with positive reach, that set's regrets are non-negative |
| SampleCfr.SampleWalkFrame | cfr_code/sample_cfr.py:15-54 | the traversal changes only the player's own sets below the node and the visits of nodes below; the node's own visits grow by exactly the product of `pi` |
| SampleCfr.ChildFrame | cfr_code/sample_cfr.py:15-30 | the frame of the one descended child is the node's frame |
| SampleCfr.LabelsFromHas | cfr_code/sample_cfr.py:32-39 | the own labels of a later child are among those from `j` on, which are among the node's |
| SampleCfr.LabelsFromSub | cfr_code/sample_cfr.py:32-39 | the own labels from child `j` on are among the node's |
| SampleCfr.SampleAlternativesFrame | cfr_code/sample_cfr.py:32-39 | the action loop changes only own sets and visits below, not the node's own visits |
| SampleCfr.SiblingFrames | cfr_code/sample_cfr.py:32-39 | a child's frame and the later siblings' frame combine |
| SampleSolve.SweepReadyKept | cfr_code/sample_cfr.py:90-91 | the root stays ready for the next player's traversal |
| SampleSolve.SampleSweep | cfr_code/sample_cfr.py:90-91 | the sampled traversals for players `p .. m - 1` change only visits and sums |
| SampleSolve.SampleSweepRootVisits | cfr_code/sample_cfr.py:15 | the root's visits grow by 1 per player traversed (also lines 90-91) |
| SampleSolve.SampleSweepFrame | cfr_code/sample_cfr.py:43-91 | a set belonging to none of the traversed players is left alone |
| SampleSolve.SampleFromRoot | cfr_code/sample_cfr.py:91 | `sampleCFR(root, p, [1] * player_count, plan)`: the new state is that of `SampleWalk` from the root |
| SampleSolve.SampleSweepAll | cfr_code/sample_cfr.py:90-91 | the player loop computes the specified sweep over all players with the same plan |
| SampleSolve.TreePlanFits | data_structures/cfr_trees.py:76-84 | a plan naming an action in range for every set of a valid tree fits every node below the root |
| SampleSolve.NewJoint | cfr_code/sample_cfr.py:68-71 | the joint strategy is fresh and empty, with room for `2 * numOfActions` plans when bounded and `-1` (unbounded) otherwise |
| SampleSolve.SampleAndUpdate | cfr_code/sample_cfr.py:86-95 | `sampleActionPlan` draws, for every set in creation order, the action the draw selects from its current strategy; the traversals for every player then run with that plan, and every set's strategy is refreshed by regret matching; no other field changes |
| SampleSolve.ReduceValid | data_structures/cfr_trees.py:988-1009 | `reduceActionPlan` succeeds exactly when the reachability walk does, and then keeps exactly the plan's actions on the reachable sets, in creation order; only reachabilities change |
| SampleSolve.Offer | cfr_code/sample_cfr.py:100 | `addActionPlan(reduced)` with weight 1: the stored plans become those of `Added`, or stay when it fails; an unbounded joint always takes the plan and its count grows by 1 |
| SampleSolve.SampleIteration | cfr_code/sample_cfr.py:86-100 | one iteration: the plan is drawn from the current strategies, the sweep and refresh are as specified; during the bootstrap nothing reaches the joint; afterwards the reduced plan is offered exactly once (an unbounded joint grows by exactly 1) and a failed reduction adds nothing |
| SampleSolve.ReachabilityOnly | data_structures/cfr_trees.py:988-1009 | a state that differs only in reachabilities still fits the tree with distributions as strategies |
| SampleSolve.SolveWithSampleCfr | cfr_code/sample_cfr.py:58-100 | the joint is new with the source's cap; with no iteration it stays empty; the run stops when `reduceActionPlan` or `addActionPlan` raises, so a bounded joint over a tree without actions never completes an iteration past the bootstrap; an unbounded joint of a completed run has frequency count exactly `iterations` (the bootstrap iterations add nothing); the tree stays valid and no other field changes |
| SampleSolve.NoRoomFails | data_structures/cfr_trees.py:923-938 | with a cap of 0, the first plan offered to an empty joint strategy raises `ValueError` (`min` of an empty dict) |
| Icfr.NoVisits | cfr_code/icfr.py:71-105 | a subtree without a node of `h` visits `h` no time |
| Icfr.NoVisitsFrom | cfr_code/icfr.py:71-105 | the same for the children from `i` on |
| Icfr.Merge | cfr_code/icfr.py:8-15 | `d2.update(d1)`: the union of both plans, `d1`'s bindings winning on a clash; the `Merge` of cfr_code/icfr_.py (lines 31-38) is the same |
| Icfr.InitWalk | cfr_code/icfr.py:17-29 | `init` keeps the set of information sets |
| Icfr.InitFrom | cfr_code/icfr.py:28-29 | the loop over the children keeps the set of information sets |
| Icfr.WidthsKept | cfr_code/icfr.py:27 | node widths that match `mu_T` keep matching when the lengths are kept |
| Icfr.WidthsKeptFrom | cfr_code/icfr.py:27 | the same for the children from `i` on |
| Icfr.InitResets | cfr_code/icfr.py:17-29 | every information set reached gets `externalsigma = ""`, `reachability = -1` and a zero `utility` of its child count; every other set is untouched |
| Icfr.InitFromResets | cfr_code/icfr.py:28-29 | the same for the children from `i` on |
| Icfr.AddedAsWritten | cfr_code/icfr.py:38-39 | as written, a key already in the pool is kept and a new key raises a `TypeError` (`ExternalRM()` without its action count) |
| Icfr.FirstVisitRaises | cfr_code/icfr.py:38-39 | the first `createExternalRM` on an empty pool raises |
| Icfr.Added | cfr_code/icfr.py:38-39 | corrected pool update: a new key gets a fresh minimiser over the set's actions; an existing key and every other entry are kept |
| Icfr.CreateWalk | cfr_code/icfr.py:31-41 | `createExternalRM` keeps the set of information sets |
| Icfr.CreateFrom | cfr_code/icfr.py:40-41 | the loop over the children keeps the set of information sets |
| Icfr.CreateEffect | cfr_code/icfr.py:31-41 | fails exactly on a subtree with a chance node (no `information_set`); otherwise every set below gets `rechability = 0`, and those of `exiset`'s player also get its signal and a minimiser under `signal.id` unless present; other sets unchanged |
| Icfr.CreateFromEffect | cfr_code/icfr.py:40-41 | the same for the children from `i` on |
| Icfr.CreateKeepsReachability | cfr_code/icfr.py:35-70 | `createExternalRM` writes the misspelt `rechability` and never changes `reachability`; the pool changes only for sets of `exiset`'s player |
| Icfr.SampleWalk | cfr_code/icfr.py:43-77 | sampling keeps the set of information sets |
| Icfr.Branches | cfr_code/icfr.py:66-68 | `createExternalRM` under the unsampled children keeps the set of information sets |
| Icfr.Visit | cfr_code/icfr.py:62-77 | a decision node's visit keeps the set of information sets |
| Icfr.SampleFrom | cfr_code/icfr.py:75-76 | the loop over the children keeps the set of information sets |
| Icfr.SamplePlan | cfr_code/icfr.py:43-77 | the sampled plan has an entry for exactly the information sets below, each an action read from the stream, earlier nodes winning over later ones of the same set |
| Icfr.VisitPlan | cfr_code/icfr.py:71-77 | a decision node's plan is its own sampled action merged with its children's |
| Icfr.PlannedOwn | cfr_code/icfr.py:73-76 | the node's own entry with the children's plans merged after it is the node's plan |
| Icfr.SampleFromPlan | cfr_code/icfr.py:75-76 | the children's loop merges each child's plan after the plan so far |
| Icfr.PlannedStep | cfr_code/icfr.py:75-76 | one more child merged keeps the loop invariant |
| Icfr.TotalBump | cfr_code/icfr.py:71 | `mu_T[a] += 1` adds one to the total count |
| Icfr.SampleInternal | cfr_code/icfr.py:43-77 | with every reachability 1 or -1 (as after `init`), sampling asks only the internal minimisers, sets every visited set's reachability to 1, and adds exactly one `mu_T` count per decision node visit; no external minimiser is asked |
| Icfr.DecisionInternal | cfr_code/icfr.py:62-77 | the same from a decision node |
| Icfr.DecisionStep | cfr_code/icfr.py:62-76 | the internal branch at a decision node: reachability 1, a recommendation from `inRM`, the signal `id.action`, the unsampled branches marked, `mu_T` counted, then the children |
| Icfr.StepInternal | cfr_code/icfr.py:62-71 | the state changes of the internal branch make one own step |
| Icfr.TwoValuedKept | cfr_code/icfr.py:62-63 | reachabilities set to 1 stay in {1, -1} |
| Icfr.SteppedTwoValued | cfr_code/icfr.py:62-63 | an own step keeps reachabilities in {1, -1} |
| Icfr.TalliedVisit | cfr_code/icfr.py:62-77 | the own step and the children's tallies make the node's tally |
| Icfr.BranchesQuiet | cfr_code/icfr.py:66-68 | marking the unsampled branches changes no reachability, `mu_T` or internal minimiser and asks no external one |
| Icfr.CreateQuiet | cfr_code/icfr.py:31-41 | `createExternalRM` changes no reachability, `mu_T` or internal minimiser and asks no external one |
| Icfr.QuietTrans | cfr_code/icfr.py:31-41 | quiet changes compose |
| Icfr.SampleFromInternal | cfr_code/icfr.py:75-76 | the children's loop tallies each child in turn |
| Icfr.TalliedStep | cfr_code/icfr.py:75-76 | one more child tallied keeps the loop invariant |
| Icfr.Record | cfr_code/icfr.py:89-91 | recording one switched utility keeps the set of information sets |
| Icfr.ObserveWalk | cfr_code/icfr.py:79-92 | `ICFR_Observe` keeps the set of information sets |
| Icfr.ObserveFrom | cfr_code/icfr.py:88-92 | the action loop keeps the set of information sets |
| Icfr.ObserveFrame | cfr_code/icfr.py:79-92 | `ICFR_Observe` changes only the utilities, of the same lengths, of the sets below |
| Icfr.ObserveFromFrame | cfr_code/icfr.py:88-92 | the same for the action loop from `i` on |
| Icfr.UtilitiesOnlyTrans | cfr_code/icfr.py:79-92 | utility-only changes compose |
| Icfr.ObserveUtilities | cfr_code/icfr.py:86-92 | at a node whose set does not recur below, `utility[a]` ends as the utility for the set's player of the plan with this set's entry switched to `a` |
| Icfr.ObserveFromUtilities | cfr_code/icfr.py:88-92 | the loop from `i` on keeps the earlier entries and sets every later one to its switched utility |
| Icfr.ReadyOwn | cfr_code/icfr.py:102-105 | after one observation the node's set still has its minimiser |
| Icfr.ObservedOnce | cfr_code/icfr.py:102-105 | one observation keeps the minimiser in place |
| Icfr.ObservedTimes | cfr_code/icfr.py:94-107 | repeated observations keep the minimiser in place |
| Icfr.ObservedTimesAdd | cfr_code/icfr.py:94-107 | `c` observations then `d` more are `c + d` observations |
| Icfr.UpdateWalk | cfr_code/icfr.py:94-107 | `ICFR_Update` keeps the set of information sets |
| Icfr.UpdateFrom | cfr_code/icfr.py:106-107 | the loop over the children keeps the set of information sets |
| Icfr.UpdateEffect | cfr_code/icfr.py:94-107 | succeeds exactly when every set below has the minimiser it would use (internal when `reachability` is truthy, otherwise the keyed external one); then every set is observed once per node of it below, nothing else changes |
| Icfr.UpdatedOwn | cfr_code/icfr.py:102-107 | the node's own observation and the children's make the node's |
| Icfr.UpdateFromEffect | cfr_code/icfr.py:106-107 | the same for the children from `i` on |
| Icfr.UpdatedStep | cfr_code/icfr.py:106-107 | after one child the later children are ready exactly when they were |
| Icfr.UpdatedJoin | cfr_code/icfr.py:106-107 | a child's observations and the later children's combine |
| Icfr.Iteration | cfr_code/icfr.py:122-128 | one iteration keeps the set of information sets |
| Icfr.SolveFrom | cfr_code/icfr.py:119-134 | iterations `i .. iterations` keep the set of information sets |
| Icfr.SolveUnfold | cfr_code/icfr.py:119-134 | a failing iteration ends the run with its error; otherwise the run goes on, with `root.T = i` at a checkpoint |
| Icfr.IterationSamples | cfr_code/icfr.py:122-125 | after `init` the sampling plans every set below and asks only the internal minimisers |
| Icfr.InitLabels | cfr_code/icfr.py:26 | after `init` every set below has reachability -1 |
| Icfr.InitFromLabels | cfr_code/icfr.py:26-29 | the same for the children from `i` on, others unchanged |
| Icfr.InitKeeps | cfr_code/icfr.py:17-29 | `init` leaves every set not below alone |
| Icfr.InitFromKeeps | cfr_code/icfr.py:28-29 | the same for the children from `i` on |
| Icfr.IterationReads | cfr_code/icfr.py:64-125 | one iteration reads exactly one recommendation per decision node |
| Icfr.SolveStep | cfr_code/icfr.py:119-134 | one more iteration reads one recommendation per decision node and sets `root.T` at checkpoints |
| Icfr.Reads | cfr_code/icfr.py:119 | the number of recommendations of iterations `i .. n` |
| Icfr.SolveReads | cfr_code/icfr.py:119-128 | a run reads one recommendation per decision node per iteration |
| Icfr.SolveCheckpoints | cfr_code/icfr.py:133-134 | at the end `root.T` is the last multiple of `checkEveryIteration` reached, or unchanged when there is none |
| Icfr.UncheckedRootT | cfr_code/icfr.py:109-146 | with no checkpoint among the iterations (the default `checkEveryIteration = -1`), a run from `root.T == 0` ends at `root.T == 0`, where the returned `getExpectedUtility()` raises |
| Icfr.CheckpointNone | cfr_code/icfr.py:133-134 | no iteration left leaves `root.T` as it was |
| Icfr.CheckpointStep | cfr_code/icfr.py:133-134 | the last checkpoint of iterations `i .. n` follows from that of `i + 1 .. n` |
| Icfr.Init | cfr_code/icfr.py:17-29 | the recursion computes `InitWalk` |
| Icfr.CreateExternalRm | cfr_code/icfr.py:31-41 | the recursion computes `CreateWalk` |
| Icfr.IcfrSampling | cfr_code/icfr.py:43-77 | the recursion computes `SampleWalk` |
| Icfr.CreateBranches | cfr_code/icfr.py:66-68 | the loop over the unsampled children computes `Branches` |
| Icfr.SampleChildren | cfr_code/icfr.py:75-76 | the loop over the children computes `SampleFrom` |
| Icfr.ActionPlan.constructor | cfr_code/icfr.py:48 | a plan object holding the given entries |
| Icfr.IcfrObserve | cfr_code/icfr.py:79-92 | computes `ObserveWalk` on the shared plan object; on success the plan is as it was (each entry is switched and restored), and its keys never change |
| Icfr.RecordSwitched | cfr_code/icfr.py:89-91 | switches the entry, records the utility and restores the entry; a failure leaves the switched entry |
| Icfr.IcfrUpdate | cfr_code/icfr.py:94-107 | the recursion computes `UpdateWalk` |
| Icfr.RunIteration | cfr_code/icfr.py:122-128 | init, sampling, observe and update in that order compute `Iteration` |
| Icfr.SolveWithIcfr | cfr_code/icfr.py:109-146 | the loop computes `SolveFrom` from iteration 1 |
| IcfrDraft.LeafPathsAre | cfr_code/icfr_.py:93-95 | a path is a leaf path of the subtree exactly when it leads from the subtree's root to a leaf (also lines 175-177) |
| IcfrDraft.LeafPathsFromPrefix | cfr_code/icfr_.py:105-106 | the leaves reached through children `i ..` lie under one of those children (also lines 184-190) |
| IcfrDraft.LeafPathsPrefix | cfr_code/icfr_.py:175-190 | every leaf below a node lies under that node's path |
| IcfrDraft.LeafPathsFromHas | cfr_code/icfr_.py:184-190 | a leaf under child `j` is reached by the loop from `i` exactly when `j >= i`, and then as a leaf of child `j` |
| IcfrDraft.OtherChild | cfr_code/icfr_.py:184-190 | sibling subtrees share no leaf |
| IcfrDraft.Unreached | cfr_code/icfr_.py:88-94 | a leaf's flags after `init`: `PLAYER_COUNT` entries, all False |
| IcfrDraft.InitWalk | cfr_code/icfr_.py:87-106 | `init` keeps the set of information sets |
| IcfrDraft.InitFrom | cfr_code/icfr_.py:105-106 | the loop over the children keeps the set of information sets |
| IcfrDraft.WidthsKept | cfr_code/icfr_.py:103-104 | node widths matching the action counts keep matching when the counts are kept |
| IcfrDraft.WidthsKeptFrom | cfr_code/icfr_.py:103-104 | the same for the children from `i` on |
| IcfrDraft.InitResets | cfr_code/icfr_.py:87-106 | every information set below is cleared (`externalsigma = ""`, `tag` and `update` False, `action = -1`, `reachability = -1`, zero `utility` and `imm_utility` of its child count), every leaf below gets all-False flags, and nothing else changes |
| IcfrDraft.InitFromResets | cfr_code/icfr_.py:105-106 | the same for the children from `i` on |
| IcfrDraft.InitialisedJoin | cfr_code/icfr_.py:105-106 | the resets of two parts of the tree combine |
| IcfrDraft.Init | cfr_code/icfr_.py:87-106 | the recursion computes `InitWalk` |
| IcfrDraft.Created | cfr_code/icfr_.py:115-116 | a new key gets a fresh minimiser with the set's action count; existing keys, including this one, are kept |
| IcfrDraft.CreateWalk | cfr_code/icfr_.py:108-118 | `createExternalRM` keeps the set of information sets |
| IcfrDraft.CreateFrom | cfr_code/icfr_.py:117-118 | the loop over the children keeps the set of information sets |
| IcfrDraft.MarkedTwice | cfr_code/icfr_.py:112-116 | marking a set twice is marking it once |
| IcfrDraft.CreateEffect | cfr_code/icfr_.py:108-118 | fails exactly on a subtree with a chance node (which has no `information_set`); otherwise every set below is marked and every other set is unchanged |
| IcfrDraft.CreateFromEffect | cfr_code/icfr_.py:117-118 | the same for the children from `i` on |
| IcfrDraft.CreateMarks | cfr_code/icfr_.py:112-116 | every set of the parent's player below gets `reachability = 0`, the parent's `externalsigma` and a minimiser under `sigma.id` (new with its action count unless present); sets of other players keep their reachability, signal and minimisers |
| IcfrDraft.CreateExternalRm | cfr_code/icfr_.py:108-118 | the recursion computes `CreateWalk` |
| IcfrDraft.SampleWalk | cfr_code/icfr_.py:120-163 | sampling keeps the set of information sets |
| IcfrDraft.Branches | cfr_code/icfr_.py:146-148 | `createExternalRM` under the unsampled children keeps the set of information sets |
| IcfrDraft.Tag | cfr_code/icfr_.py:154-163 | the `tag` block and the children keep the set of information sets |
| IcfrDraft.SampleFrom | cfr_code/icfr_.py:160-162 | the loop over the children keeps the set of information sets |
| IcfrDraft.SampleOnce | cfr_code/icfr_.py:120-163 | from a state where reached sets are tagged and unvisited ones are not, every set below ends tagged; its `mu_T` gains exactly one count when it was untagged and none otherwise, however many of its nodes are visited; the plan holds every set's action |
| IcfrDraft.TagOnce | cfr_code/icfr_.py:154-163 | the `tag` block of an untagged set samples it once |
| IcfrDraft.TagStep | cfr_code/icfr_.py:154-158 | the `tag` block tags the set, stores the action and adds one to its `mu_T` total, changing nothing else that matters |
| IcfrDraft.OnceOwn | cfr_code/icfr_.py:133-163 | the node's own step and the children's sampling make the node's |
| IcfrDraft.BranchesMarks | cfr_code/icfr_.py:146-148 | `createExternalRM` under the other children changes only reachabilities set to 0, signals and minimisers |
| IcfrDraft.KeptTrans | cfr_code/icfr_.py:146-148 | such changes compose |
| IcfrDraft.SampleFromOnce | cfr_code/icfr_.py:160-162 | the children's loop samples every set below them once |
| IcfrDraft.OnceJoin | cfr_code/icfr_.py:160-162 | the sampling of two parts of the tree combines |
| IcfrDraft.SampleAfterInit | cfr_code/icfr_.py:304-307 | sampling right after `init` plans every information set with the action it stores, and every `mu_T` counts exactly one more action |
| IcfrDraft.IcfrSampling | cfr_code/icfr_.py:120-163 | the recursion computes `SampleWalk` |
| IcfrDraft.CreateBranches | cfr_code/icfr_.py:146-148 | the loop over the unsampled children computes `Branches` |
| IcfrDraft.SampleChildren | cfr_code/icfr_.py:160-162 | the loop over the children computes `SampleFrom` |
| IcfrDraft.ChildFlags | cfr_code/icfr_.py:183-190 | when the player indexes the flags, the flags handed to child `i` are those of `Step`; otherwise an `IndexError` |
| IcfrDraft.Step | cfr_code/icfr_.py:178-190 | the flags handed to a child have as many entries as the parent's |
| IcfrDraft.FlagsMeaning | cfr_code/icfr_.py:174-190 | a leaf's flag for player `j` is set exactly when it was set on entry and no decision of player `j` on its path deviates from that set's stored action |
| IcfrDraft.CalcEffect | cfr_code/icfr_.py:174-190 | `calcReachability` gives every leaf below the flags carried down to it and leaves the other leaves alone |
| IcfrDraft.CalcFromEffect | cfr_code/icfr_.py:184-190 | the same for the children from `i` on |
| IcfrDraft.ChildCalced | cfr_code/icfr_.py:184-190 | the leaves of child `i` get the flags carried from the node and are no later child's |
| IcfrDraft.ChildLeaf | cfr_code/icfr_.py:184-190 | a leaf of child `i` lies under child `i` and under no later one |
| IcfrDraft.CalcedJoin | cfr_code/icfr_.py:184-190 | child `i`'s flags and the later children's combine |
| IcfrDraft.AlongChild | cfr_code/icfr_.py:184-190 | the flags carried to a leaf under child `i` are those child `i` carries from the flags the node hands it |
| IcfrDraft.LeafFlags | cfr_code/icfr_.py:174-190 | after `calcReachability(root, [True] * player_count)` every leaf holds `player_count` flags, and player `j`'s is False exactly when a decision of `j` on its path deviates from the stored action (also line 308) |
| IcfrDraft.CalcReachability | cfr_code/icfr_.py:174-190 | the recursion, each child getting its own copy of the flags, computes `CalcReach` |
| IcfrDraft.UpdatedOnce | cfr_code/icfr_.py:250-260 | after the update at a node its set is marked updated |
| IcfrDraft.UpdatedTwice | cfr_code/icfr_.py:250-258 | the `update` flag makes a second visit a no-op |
| IcfrDraft.UpdateWalk | cfr_code/icfr_.py:241-260 | `ICFR_Update` keeps the set of information sets |
| IcfrDraft.UpdateFrom | cfr_code/icfr_.py:256-260 | the loop over the children keeps the set of information sets |
| IcfrDraft.UpdateEffect | cfr_code/icfr_.py:241-260 | succeeds exactly when every set below can take its update (already updated, or the minimiser it would use exists); then each of them observes at most once, however many nodes it has, and nothing else changes |
| IcfrDraft.UpdatedOwn | cfr_code/icfr_.py:249-257 | the node's own update and the children's make the node's |
| IcfrDraft.UpdateFromEffect | cfr_code/icfr_.py:256-260 | the same for the children from `i` on |
| IcfrDraft.UpdatedStep | cfr_code/icfr_.py:256-260 | after one child, the later children can take their updates exactly when they could before |
| IcfrDraft.UpdatedJoin | cfr_code/icfr_.py:256-260 | a child's updates and the later children's combine |
| IcfrDraft.IcfrUpdate | cfr_code/icfr_.py:241-260 | the recursion computes `UpdateWalk` |
| IcfrDraft.TakenStep | cfr_code/icfr_.py:41 | the loop over `d2.keys()` takes one binding more |
| IcfrDraft.FreshStep | cfr_code/icfr_.py:41-45 | a key not met before is appended to the result's keys, a known one is not |
| IcfrDraft.MergeStepKeys | cfr_code/icfr_.py:41-45 | after each key of `d2` the result lists `d1`'s keys then `d2`'s new ones in order |
| IcfrDraft.MergeStep | cfr_code/icfr_.py:41-45 | after each key of `d2` the result maps like `d1` overridden by the keys of `d2` read so far |
| IcfrDraft.MergeDone | cfr_code/icfr_.py:41-46 | after the last key the result is `d1.update(d2)` |
| IcfrDraft.AddMerge | cfr_code/icfr_.py:40-46 | `addMerge` is `d1.update(d2)` whichever branch is taken: `d2` wins on shared keys and its new keys follow `d1`'s in order |
| IcfrUtility.ShapeReady | data_structures/cfr_trees.py:68-74 | a tree as the constructor builds it has a dictionary of information sets and one set of child leaves per action |
| IcfrUtility.Gain | cfr_code/icfr_.py:267-273 | a leaf's contribution fails exactly when it has no flags, the player does not index them, or (when it counts) `a` is outside `imm_utility` or the player outside its utilities; it counts exactly when every flag but the player's is set, and adds nothing otherwise |
| IcfrUtility.GainSumUnfold | cfr_code/icfr_.py:268-273 | the sum over a set of leaves is the first leaf's gain joined with the rest's |
| IcfrUtility.JoinsSwap | cfr_code/icfr_.py:268-273 | two leaves may be taken in either order |
| IcfrUtility.GainSumAny | cfr_code/icfr_.py:268-273 | the sum does not depend on the order in which the set yields its leaves |
| IcfrUtility.GainSumOk | cfr_code/icfr_.py:268-273 | the sum succeeds exactly when every leaf's gain does |
| IcfrUtility.SomeCountsSplit | cfr_code/icfr_.py:272 | some leaf counts exactly when the first does or some other does |
| IcfrUtility.GainSumCounts | cfr_code/icfr_.py:268-273 | a successful sum counts exactly when some leaf counts, and is zero when none does |
| IcfrUtility.ImmAll | cfr_code/icfr_.py:263-273 | the walk over the information sets keeps their set |
| IcfrUtility.GetImm | cfr_code/icfr_.py:263-273 | `get_imm_utility` keeps the set of information sets |
| IcfrUtility.CountsAfterCalc | cfr_code/icfr_.py:174-190 | after `calcReachability` from all-True flags, a leaf counts for player `p` exactly when no other player deviates from their stored action on its path (also lines 263-273) |
| IcfrUtility.ImmActionsEffect | cfr_code/icfr_.py:266-273 | one set's loop succeeds exactly when the leaves below every action do, keeps the length of `imm_utility`, and adds to each action's entry the sum of the leaves below it |
| IcfrUtility.DistinctTail | cfr_code/icfr_.py:264 | the dictionary's key list without its head is distinct and lacks the head |
| IcfrUtility.ImmAllOk | cfr_code/icfr_.py:264-273 | the walk over distinct keys succeeds exactly when every set's loop does |
| IcfrUtility.ImmAllValue | cfr_code/icfr_.py:264-273 | a successful walk gives the listed sets their new `imm_utility` and changes nothing else |
| IcfrUtility.GetImmEffect | cfr_code/icfr_.py:263-273 | `get_imm_utility` succeeds exactly when every information set's loop does, and then gives each its new `imm_utility` and changes nothing else |
| IcfrUtility.GainStep | cfr_code/icfr_.py:268-273 | adding one more leaf to the running sum keeps the loop invariant, or the whole sum fails |
| IcfrUtility.JoinsShift | cfr_code/icfr_.py:268-273 | moving a gain from the rest into the running sum |
| IcfrUtility.LeafGains | cfr_code/icfr_.py:268-273 | the loop over the leaves below an action, in any order, computes the order-free sum (the same failure or the same value) |
| IcfrUtility.ImmForSet | cfr_code/icfr_.py:266-273 | the loop over one set's actions computes `ImmActions` |
| IcfrUtility.GetImmUtility | cfr_code/icfr_.py:263-273 | `get_imm_utility` over the dictionary's order computes `GetImm` |
| IcfrUtility.ShapeWalkable | data_structures/cfr_trees.py:68-74 | a tree as the constructor builds it has one set of deeper child information sets per action |
| IcfrUtility.CumAllUnfold | cfr_code/icfr_.py:278-279 | the sum over the child sets is the first one's cumulative utility plus the rest's |
| IcfrUtility.AddsSwap | cfr_code/icfr_.py:278-279 | two child sets may be added in either order |
| IcfrUtility.CumAllAny | cfr_code/icfr_.py:278-279 | the sum does not depend on the order in which the set yields the child sets |
| IcfrUtility.CumAllOk | cfr_code/icfr_.py:278-279 | the sum succeeds exactly when every child set's cumulative utility does |
| IcfrUtility.AddImm | cfr_code/icfr_.py:273-276 | the entrywise sum of two `imm_utility` tables is defined on their common sets with the same lengths |
| IcfrUtility.CumLinear | cfr_code/icfr_.py:275-280 | `get_cum_utility` is linear in `imm_utility`: on the entrywise sum of two tables of the same shape it succeeds together with both and gives the sum of their results |
| IcfrUtility.CumAllLinear | cfr_code/icfr_.py:278-279 | the same for the sum over the child sets |
| IcfrUtility.AddsShift | cfr_code/icfr_.py:278-279 | moving a child set's utility from the rest into the running sum |
| IcfrUtility.CumKids | cfr_code/icfr_.py:275-280 | at an action in range: with no child set the result is `imm_utility[action]`; with child sets and `h` missing from the plan a `KeyError`; otherwise `imm_utility[action]` plus the child sets' cumulative utilities at the plan's action for `h` |
| IcfrUtility.GetCumUtility | cfr_code/icfr_.py:275-280 | the recursion computes the order-free `Cum` |
| IcfrUtility.ImmOf | cfr_code/icfr_.py:276 | the `imm_utility` table has every information set |
| IcfrUtility.UtilAll | cfr_code/icfr_.py:284-287 | the second walk keeps the set of information sets |
| IcfrUtility.UtilActionsEffect | cfr_code/icfr_.py:286-287 | one set's loop succeeds exactly when every action is inside `utility` and has a cumulative utility, keeps the length, and adds that utility to each entry |
| IcfrUtility.UtilAllOk | cfr_code/icfr_.py:284-287 | the walk over distinct keys succeeds exactly when every set's loop does |
| IcfrUtility.UtilAllValue | cfr_code/icfr_.py:284-287 | a successful walk gives the listed sets their new `utility` and changes nothing else |
| IcfrUtility.GetUtilEffect | cfr_code/icfr_.py:282-287 | `get_utility` succeeds exactly when `get_imm_utility` does and then every set's loop does; the result is `get_imm_utility`'s state with every `utility` grown by the cumulative utilities read from the new `imm_utility` |
| IcfrUtility.UtilForSet | cfr_code/icfr_.py:286-287 | the loop over one set's actions computes `UtilActions` |
| IcfrUtility.UtilRestStep | cfr_code/icfr_.py:284-287 | one more set of the second loop keeps the loop invariant, or the whole walk fails |
| IcfrUtility.UtilForSets | cfr_code/icfr_.py:284-287 | the second loop over the dictionary's order computes `UtilAll` |
| IcfrUtility.GetUtility | cfr_code/icfr_.py:282-287 | `get_imm_utility` then the second loop compute `GetUtil` |

## Left out

Numbers, randomness and foreign code:

- Floating point: every probability, utility and regret is a `real`, so rounding is not modelled. This covers Leduc's `pot / len(winners)`, Hanabi's uniform utility and all CFR arithmetic. Comparisons against 0.001 and 0 are exact.
- Randomness: `random.random`, `np.random.random` and `randint` become parameters. `randomTree` and `sampleAction` in `cfr_code/icfr_.py` are not part of this model.
- RegretMinimizers.InternalRM.GetStrategy: the stationary distribution `p` is an input. The `scipy.linalg.null_space` step and its sign fix are foreign numerical code.
- RegretMinimizers.InternalRM.Observe: requires that a stationary distribution has been computed. Before the first `getStrategy`, the source's `rcmd_action` is unset.
- `Icfr` and `IcfrDraft`: the regret minimisers' recommendations are read from a stream, and `observe` is counted rather than computed. The minimisers' arithmetic is modelled in `RegretMinimizers`.
- Coordination.CoordinationUtility: the draw `x` stands for `randint(1, 5)`. Its contract holds for every `x`, so the range 1..5 is not stated.
- `GameUtilities`: the `sqrt` in `number_to_pair` is an integer square root.

Drivers and reporting:

- The `Solve*` drivers leave out:
  - timing;
  - progress and strategy `print`s;
  - `graph_data`;
  - `check_callback`;
  - `checkEquilibrium` and `checkMarginalsEpsilon`.
- CfrSolve.SolveWithCfr: the checkpoints (`checkEveryIteration > 0`, `cfr_code/cfr.py:72-81`) are not modelled. Plain CFR never sets `root.T`, so in the source the first checkpoint's `getExpectedUtility()` raises `ZeroDivisionError` on a tree with a decision node, as the returned one does (`CfrWalks.RootExpectedUtility`).
- Icfr.SolveWithIcfr: does not compute the `getExpectedUtility()` it returns (`cfr_code/icfr.py:146`), because the ICFR state is not tied to the widths of the tree's nodes. In the source that call raises `ZeroDivisionError` whenever `root.T` is still 0, which `Icfr.UncheckedRootT` shows is the case after every run without a checkpoint, the default `checkEveryIteration = -1` included.
- CfrWalks.MarginalizeFromBehaviourals requires `root.T != 0`. With `root.T == 0` the source raises `ZeroDivisionError` at the first decision node of another player, where it asks for the average strategy; that case is excluded.
- SampleSolve.SolveWithSampleCfr: does not return the final `getUtility(jointStrategy)`. In this driver that call never raises: an empty joint strategy gives `[0] * numOfPlayers` without dividing, and every stored plan has weight at least 1 (`CfrUtility.GetUtility`).
- SampleSolve.SolveWithSampleCfr: states each iteration through `SampleSolve.SampleIteration`, not the final state folded over all iterations.
- The second draft's `SolveWithICFR` (`cfr_code/icfr_.py:291-362`) is not modelled as a loop. It reads `icfr_tree.actionPlan`, which `CFRTree` never defines. Its steps are modelled one by one: `init`, `ICFR_sampling`, `calcReachability`, `get_utility` and `ICFR_Update`.
- `getEpsilon` and `drawing` in `cfr_code/icfr_.py` are not modelled: the first is an unused convergence probe, the second is plotting.

Solver tree:

- CfrTrees.NewCFRTree requires `NonNegativeLabels`. The source skips a decision node with a negative label as if it were a leaf (`data_structures/cfr_trees.py:34-37`), and the model excludes such trees.
- CfrTrees.NewCFRTree requires `LabelsAgree`: nodes sharing a label agree on player and arity. The source never checks this, and its first node of a label creates the set (`data_structures/cfr_trees.py:43-50`).
- CfrTrees.NewCFRTree requires `ChanceAligned` and `LeafWidth`. `ChanceNode.addChild` keeps one probability per child, and `Tree.addLeaf` is given one utility per player.
- CfrTrees.RecallMessage: the perfect-recall error message leaves out the list of node ids that the source puts in parentheses (`data_structures/cfr_trees.py:64-66`).
- The `print` of the sequences before the perfect-recall exception, and of the leaves before `Exception("ERROR")`, are left out.
- CfrMarginals.BuildJointFromMarginals: the leaves are visited in a given order standing for the iteration order of the Python set.
- `buildJointFromMarginals_AllPlayersTogether` (`data_structures/cfr_trees.py:206-249`) is not part of this model.
- The `targetPlayer is None` case of the supporting plan is not part of this model; it is only reached from that variant.
- `stringToActionPlan`'s result cache is not modelled. It returns the same dictionary the parse does.
- `CFRNode.computeReachability`, `getLeafDistribution`, `getAllLeafVisits`, `utilityFromJointSequence`, `utilityFromModifiedActionPlan` and `isActionPlanLeadingToInfoset` are not part of this model. They are called only from code that is not part of this model, or from commented-out lines.

Sampling:

- SampleCfr.SampleCfrFrom requires `DrawsHit`: every reached chance node's draw falls below its distribution's total. When rounded probabilities add up to less than the draw, `sampleAction` returns `None` and the source raises `TypeError` (`data_structures/cfr_trees.py:600-607`). That case is excluded.
- SampleCfr.Outcome requires `DrawsHit`, for the same reason.
- SampleSolve.SampleAndUpdate requires `DrawsHit` for every player's draws, for the same reason.

Games:

- Colgen.Dedup: `Q` lists the distinct non-empty sequences in order of first appearance in `Q_raw`. The source builds them with a set comprehension (`utilities/serialization.py:54`), so Python gives them in hash order. That order decides the order of the `set Q` line, the columns of `F`, the compressed ids handed out, and which of several shortest joint sequences `Colgen.MinimalChosen` calls the first. The model states membership, distinctness and the leading empty sequence, which do not depend on the order.
- Leduc.Unique: `list(set(cards))` is modelled in increasing order, which is CPython's order for small integers. Python does not promise that order.
- Permutation.BuildPermutationGameTree requires `ParamsCover`. A `utility_params` matrix too small for the branching factor, an `IndexError` in the source, is excluded.
- Permutation.BuildPermutationGameTree: success for two or more players is not stated, only failure for fewer.
- Kuhn.MergeHands: states when the loop fails, and that labels only fall and only inside the merged subtrees. The labels after each pair of deals are stated by `Kuhn.MergePair`; their composition into the final labels after all pairs is not stated.
- GoofspielTree.CardLists.HandTree requires `Dealt`: every hand is distinct and unplayed, as `build_goofspiel_tree` deals them.
- The chance probabilities of the Goofspiel tree and its `Tree` object are not modelled. The hand trees and their save/restore are.
- `build_hanabi_tree` and `build_hanabi_state_tree` are not part of this model.
- Strings.ParseInt: Python's `int()` is modelled for plain decimal text only: an optional sign and ASCII digits. The whitespace `int()` strips, the `_` it accepts between digits and non-ASCII digits are read as errors. Every reader built on it inherits this:
  - Serialization.DeserializeTree (and `DeserializeSubtree`, `DeserializeNode`, `DeserializeChildren`) fails on a field `int()` would accept, such as the `"0\r"` of a file with CRLF line endings;
  - CfrJoint.StringToActionPlan fails on such a field of a plan string;
  - Colgen.ReadPairs, the reader of sequence names, does the same;
  - Hanabi's reading of action names (`ParseSlotName`, `ParseClueName`) does the same.
  The round trips (`Serialization.RoundTrip`, `CfrJoint.PlanStringRoundTrip`, `Colgen.EntriesRoundTrip`, `Hanabi.ParseSlotName`) read only text that `str()` wrote, where the two agree.
- Hanabi's `highest_card_number` is computed as a card. No property about finished piles or winning is stated.
- `Tree.addChanceNode` always raises `TypeError`, because it calls `ChanceNode` with the wrong arity. It is modelled as failing.
- Serialization.RoundTrip: holds when `show` and `read` are inverse on the numbers that occur in the tree, not on every float.
- Plotting, command-line drivers, result files and `reconstruction_cfr.py` are not part of this model.

## Findings

| source | as written | input that shows it | evidently intended | confidence | as-written member | corrected member |
|---|---|---|---|---|---|---|
| cfr_code/icfr.py:38-39 | `createExternalRM` creates a missing external minimiser with `ExternalRM()`, but `ExternalRM.__init__` takes the action count (data_structures/regret_minimizers.py:96-98), so the call raises `TypeError` | the first `createExternalRM` that reaches an information set of the parent's player whose minimiser pool is empty, as in the first iteration of `SolveWithICFR` on a tree where a player moves again below an action other than the one it samples | `ExternalRM(iset.action_count)`, as the second draft writes it (cfr_code/icfr_.py:116) | not executed | Icfr.AddedAsWritten, Icfr.FirstVisitRaises | Icfr.Added |
| games/goofspiel.py:100 | `build_all_possible_hands` passes a bare `range(1, ranks + 1)` to `all_permutations`, which forms `items[:i] + items[i+1:]` (games/utilities.py:15); adding two `range` objects raises `TypeError` | `build_all_possible_hands(0, 1)`, or any call with `ranks >= 1` | `all_permutations(list(range(1, ranks + 1)))`, as `build_goofspiel_tree` writes it at games/goofspiel.py:23 | not executed | Goofspiel.BuildAllPossibleHandsAsWritten, Goofspiel.HandsWhereTypeError | Goofspiel.BuildAllPossibleHands |
