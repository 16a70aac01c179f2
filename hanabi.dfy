/** Hanabi (games/hanabi.py): a game state, the names of its legal actions, the
    transition an action name leads to, the dealing of the base state, what a player
    sees, and the utility of a finished game. */
module Hanabi {
  import opened Wrappers
  import opened Strings
  import GameUtilities
  import Coordination
  import Kuhn

  /** How the end-of-game score is shared out. */
  datatype UtilitySplitter = Uniform | Competitive

  /** A card: a `(number, colour)` pair, or the same pair packed into one integer by
      `pair_to_number`. An empty slot holds `(0, 0)` or `0`. */
  datatype Card = Pair(number: int, colour: int) | Packed(code: nat)

  /** The `(number, colour)` pair of a card: `number_to_pair` for a packed one. */
  function Unpack(c: Card): (int, int)
  {
    match c
    case Pair(n, k) => (n, k)
    case Packed(z) => GameUtilities.NumberToPair(z)
  }

  /** `card == 0 or card == (0, 0)`. */
  predicate IsEmptySlot(c: Card)
  {
    c == Packed(0) || c == Pair(0, 0)
  }

  /** Python's `x == card` for an integer `x`: an integer equals a packed card with
      that code and never a pair. */
  predicate SameAs(x: int, c: Card)
  {
    c.Packed? && c.code == x
  }

  /** The fields of a `HanabiState`. The clue marks of a slot are a `(number, colour)`
      pair, 0 meaning "not clued"; `turnsLeft` is -1 until the deck runs out. */
  datatype State = State(
    deck: seq<Card>,
    hands: seq<seq<Card>>,
    piles: seq<int>,
    discarded: seq<(int, int)>,
    tokens: int,
    clueHistory: seq<string>,
    clued: seq<seq<(int, int)>>,
    history: seq<string>,
    highest: Card,
    turnsLeft: int)

  // ---------------------------------------------------------------------------------------
  // Python indexing and slicing.

  /** The position `s[i]` reads in a list of length `n`, counting from the back for a
      negative `i`; `None` is the `IndexError`. */
  function PyIndex(n: nat, i: int): (r: Option<nat>)
    ensures r.Some? <==> -(n as int) <= i < n
    ensures r.Some? ==> r.value < n && r.value == (if i >= 0 then i else n + i)
  {
    if 0 <= i < n then Some(i) else if -(n as int) <= i < 0 then Some(n + i) else None
  }

  /** Where a slice bound `k` cuts a list of length `n`: counted from the back when
      negative, and clamped to the list. */
  function Cut(n: nat, k: int): (c: nat)
    ensures c <= n
  {
    if k >= n then n else if k >= 0 then k else if -k >= n then 0 else n + k
  }

  /** `s[:k]`. */
  function Take<T>(s: seq<T>, k: int): seq<T>
  {
    s[..Cut(|s|, k)]
  }

  /** `s[k:]`. */
  function Drop<T>(s: seq<T>, k: int): seq<T>
  {
    s[Cut(|s|, k)..]
  }

  /** A slice pair splits a list: `s[:k] + s[k:] == s` for every `k`. */
  lemma TakeDrop<T>(s: seq<T>, k: int)
    ensures Take(s, k) + Drop(s, k) == s
  {
    assert s[..Cut(|s|, k)] + s[Cut(|s|, k)..] == s;
  }

  /** `[x] * n`. */
  function Repeat<T>(x: T, n: nat): (r: seq<T>)
    ensures |r| == n && forall i :: 0 <= i < n ==> r[i] == x
  {
    seq(n, _ => x)
  }

  // ---------------------------------------------------------------------------------------
  // Action names and their parsing.

  /** `str(card)` for a `(number, colour)` pair: `"(n, c)"`. */
  function CardText(c: (int, int)): string
  {
    "(" + IntToString(c.0) + ", " + IntToString(c.1) + ")"
  }

  /** `'p.i-Pplayer'` (play) or `'d.i-Pplayer'` (discard), with `kind` the first letter. */
  function SlotName(kind: char, i: nat, player: int): string
  {
    [kind] + "." + NatToString(i) + "-P" + IntToString(player)
  }

  /** `'c' + str(other) + '.' + kind + str(value)`: the clue, as the history records it. */
  function ClueText(other: nat, kind: char, value: int): string
  {
    "c" + NatToString(other) + "." + [kind] + IntToString(value)
  }

  /** A clue's action name: its text, then `'-P' + str(player)`. */
  function ClueName(other: nat, kind: char, value: int, player: int): string
  {
    ClueText(other, kind, value) + "-P" + IntToString(player)
  }

  /** What `getChildState` reads from an action name. A clue keeps the text before the
      `-`, which it writes into the histories; `Unknown` is an action whose first letter
      is none of `p`, `d`, `c`. */
  datatype Action =
    | Play(index: int, player: nat)
    | Discard(index: int, player: nat)
    | Clue(text: string, target: nat, kind: char, value: nat, player: nat)
    | Unknown(player: nat)

  /** `int(c)` for a one-character string. */
  function DigitOf(c: char): (r: Option<nat>)
    ensures r.Some? ==> r.value < 10
  {
    if IsDigit(c) then Some(DigitValue(c)) else None
  }

  /** The parsing at the head of `getChildState`: the player is the single character after
      `-P`, a play or discard index is the integer after the `.`, and a clue's target and
      value are the characters at positions 1 and 4 with its kind at position 3. */
  function ParseAction(s: string): Result<Action>
  {
    var parts := Split(s, '-');
    if |parts| < 2 || |parts[1]| < 2 then Failure("IndexError")
    else match DigitOf(parts[1][1])
      case None => Failure("ValueError")
      case Some(player) =>
        var text := parts[0];
        if |text| == 0 then Failure("IndexError")
        else if text[0] == 'p' || text[0] == 'd' then
          var pieces := Split(text, '.');
          if |pieces| < 2 then Failure("IndexError")
          else match ParseInt(pieces[1])
            case None => Failure("ValueError")
            case Some(i) => Success(if text[0] == 'p' then Play(i, player) else Discard(i, player))
        else if text[0] == 'c' then
          if |text| < 2 then Failure("IndexError")
          else match DigitOf(text[1])
            case None => Failure("ValueError")
            case Some(target) =>
              if |text| < 5 then Failure("IndexError")
              else match DigitOf(text[4])
                case None => Failure("ValueError")
                case Some(value) => Success(Clue(text, target, text[3], value, player))
        else Success(Unknown(player))
  }

  lemma DigitName(d: nat)
    requires d < 10
    ensures IntToString(d) == NatToString(d) == [DigitChar(d)]
    ensures DigitOf(DigitChar(d)) == Some(d)
  {
  }

  lemma NoDashInDigits(n: nat)
    ensures '-' !in NatToString(n) && '.' !in NatToString(n)
  {
    var s := NatToString(n);
    assert forall i :: 0 <= i < |s| ==> s[i] != '-' && s[i] != '.';
  }

  /** A play or discard name parses back to the action it names, when the player is a
      single digit. */
  lemma {:induction false} ParseSlotName(kind: char, i: nat, player: nat)
    requires kind == 'p' || kind == 'd'
    requires player < 10
    ensures ParseAction(SlotName(kind, i, player))
         == Success(if kind == 'p' then Play(i, player) else Discard(i, player))
  {
    DigitName(player);
    NoDashInDigits(i);
    var x := [kind] + "." + NatToString(i);
    var y := "P" + [DigitChar(player)];
    assert SlotName(kind, i, player) == x + ['-'] + y;
    assert '-' !in x by {
      assert forall k :: 0 <= k < |x| ==> x[k] == kind || x[k] == '.' || x[k] in NatToString(i);
    }
    SplitAfterPiece(x, y, '-');
    SplitOfPiece(y, '-');
    assert x == [kind] + ['.'] + NatToString(i);
    SplitAfterPiece([kind], NatToString(i), '.');
    SplitOfPiece(NatToString(i), '.');
    ParseIntOfIntToString(i);
  }

  /** A clue name parses back to its target, kind and value, keeping its text, when
      target, value and player are single digits. */
  lemma {:induction false} ParseClueName(other: nat, kind: char, value: nat, player: nat)
    requires other < 10 && value < 10 && player < 10
    requires kind != '-'
    ensures ParseAction(ClueName(other, kind, value, player))
         == Success(Clue(ClueText(other, kind, value), other, kind, value, player))
  {
    DigitName(player);
    DigitName(other);
    DigitName(value);
    var x := ClueText(other, kind, value);
    assert x == ['c', DigitChar(other), '.', kind, DigitChar(value)];
    var y := "P" + [DigitChar(player)];
    assert ClueName(other, kind, value, player) == x + ['-'] + y;
    SplitAfterPiece(x, y, '-');
    SplitOfPiece(y, '-');
  }

  // ---------------------------------------------------------------------------------------
  // Transitions.

  /** What `getChildState` returns: the terminal pair `(cards_in_play, action_history)`,
      a child state, or `None` for an action it does not know. */
  datatype Transition = Terminal(piles: seq<int>, history: seq<string>) | Next(state: State) | NoChild

  /** The card that refills a slot: the front of the deck, or `(0, 0)` once it is empty. */
  function Refill(v: State): Card
  {
    if |v.deck| > 0 then v.deck[0] else Pair(0, 0)
  }

  /** The turn counter after a play or discard: unchanged while the deck lasts; once it is
      empty, `players - 1` the first time and one less each time after. */
  function TurnsAfterDraw(v: State): int
  {
    if |v.deck| > 0 then v.turnsLeft
    else if v.turnsLeft == -1 then |v.hands| - 1
    else v.turnsLeft - 1
  }

  /** Slot `ci` of `player` refilled, the deck and the turn counter moved on. */
  function Draw(v: State, player: nat, ci: nat): State
    requires player < |v.hands| && ci < |v.hands[player]|
  {
    v.(deck := if |v.deck| > 0 then v.deck[1..] else v.deck,
       hands := v.hands[player := v.hands[player][ci := Refill(v)]],
       turnsLeft := TurnsAfterDraw(v))
  }

  /** `player_clued_hands[player][index] = (0, 0)`. */
  function ClearMarks(v: State, player: nat, index: int): Result<State>
  {
    if player >= |v.clued| then Failure("IndexError")
    else match PyIndex(|v.clued[player]|, index)
      case None => Failure("IndexError")
      case Some(j) => Success(v.(clued := v.clued[player := v.clued[player][j := (0, 0)]]))
  }

  /** The slot an action names, or the `IndexError` of reading it. */
  function SlotOf(v: State, player: nat, index: int): Option<nat>
  {
    if player >= |v.hands| then None else PyIndex(|v.hands[player]|, index)
  }

  /** Playing a card (lines 92-129). */
  function PlayStep(v: State, index: int, player: nat): Result<Transition>
  {
    match SlotOf(v, player, index)
    case None => Failure("IndexError")
    case Some(ci) =>
      var card := Unpack(v.hands[player][ci]);
      match PyIndex(|v.piles|, card.1 - 1)
      case None => Failure("IndexError")
      case Some(k) =>
        if v.piles[k] != card.0 - 1 then Success(Terminal(v.piles, v.history))
        else
          var piles := v.piles[k := v.piles[k] + 1];
          var history := v.history + ["p." + CardText(card)];
          if v.turnsLeft == 1 then Success(Terminal(piles, history))
          else if SameAs(Coordination.MinOf(piles), v.highest) then Success(Terminal(v.piles, v.history))
          else
            var tokens := if SameAs(card.0, v.highest) then v.tokens + 1 else v.tokens;
            match ClearMarks(Draw(v.(piles := piles, tokens := tokens), player, ci), player, index)
            case Failure(e) => Failure(e)
            case Success(w) => Success(Next(w.(history := history)))
  }

  /** Discarding a card (lines 133-159). */
  function DiscardStep(v: State, index: int, player: nat): Result<Transition>
  {
    match SlotOf(v, player, index)
    case None => Failure("IndexError")
    case Some(ci) =>
      var card := Unpack(v.hands[player][ci]);
      if v.turnsLeft == 1 then Success(Terminal(v.piles, v.history))
      else
        var u := v.(discarded := v.discarded + [card], tokens := v.tokens + 1);
        match ClearMarks(Draw(u, player, ci), player, index)
        case Failure(e) => Failure(e)
        case Success(w) => Success(Next(w.(history := v.history + ["d." + CardText(card)])))
  }

  /** The marks of one slot after a clue: a number clue that matches the card's number
      sets the number mark, a colour clue that matches its colour sets the colour mark. */
  function Mark(card: (int, int), prev: (int, int), kind: char, value: int): (int, int)
  {
    if kind == 'n' && card.0 == value then (value, prev.1)
    else if kind == 'c' && card.1 == value then (prev.0, value)
    else prev
  }

  /** The marks row of the clued player with each of its first `upto` slots re-marked. */
  function MarkRow(cards: seq<Card>, row: seq<(int, int)>, kind: char, value: int, upto: nat): seq<(int, int)>
    requires upto <= |cards| && upto <= |row|
  {
    seq(|row|, j requires 0 <= j < |row| =>
      if j < upto then Mark(Unpack(cards[j]), row[j], kind, value) else row[j])
  }

  /** The turn counter after `n` passes of `if turns > 0: turns -= 1`. */
  function SpentTurns(turns: int, n: nat): int
  {
    if turns <= 0 then turns else if turns > n then turns - n else 0
  }

  /** Giving a clue (lines 163-194). The loop at lines 173-192 updates the turn counter
      and both histories once per card of the clued hand, as it is written. */
  function ClueStep(v: State, text: string, target: nat, kind: char, value: nat, player: nat): Result<Transition>
  {
    if v.turnsLeft == 1 then Success(Terminal(v.piles, v.history))
    else if target >= |v.hands| then Failure("IndexError")
    else
      var cards := v.hands[target];
      var n := |cards|;
      if n > 0 && (target >= |v.clued| || |v.clued[target]| < n) then Failure("IndexError")
      else Success(Next(Clued(v, text, target, kind, value, player, n)))
  }

  /** The child of a clue after the loop has visited the first `j` cards of the target's
      hand: one token spent, those slots re-marked, and per card one turn spent and one
      entry added to each history. */
  function Clued(v: State, text: string, target: nat, kind: char, value: nat, player: nat, j: nat): State
    requires target < |v.hands| && j <= |v.hands[target]|
    requires j > 0 ==> target < |v.clued| && j <= |v.clued[target]|
  {
    v.(tokens := v.tokens - 1,
       clued := if j == 0 then v.clued
                else v.clued[target := MarkRow(v.hands[target], v.clued[target], kind, value, j)],
       turnsLeft := SpentTurns(v.turnsLeft, j),
       clueHistory := v.clueHistory + Repeat(text + "-P" + IntToString(player), j),
       history := v.history + Repeat(text, j))
  }

  /** The transition of a parsed action. */
  function Step(v: State, a: Action): Result<Transition>
  {
    match a
    case Play(i, p) => PlayStep(v, i, p)
    case Discard(i, p) => DiscardStep(v, i, p)
    case Clue(text, t, kind, value, p) => ClueStep(v, text, t, kind, value, p)
    case Unknown(_) => Success(NoChild)
  }

  /** `getChildState(action)` on a state with fields `v`. */
  function ChildState(v: State, action: string): Result<Transition>
  {
    match ParseAction(action)
    case Failure(e) => Failure(e)
    case Success(a) => Step(v, a)
  }

  // ---------------------------------------------------------------------------------------
  // What the transitions do.

  /** Playing a card that is not the next one on its colour's pile ends the game with the
      piles and history as they are. */
  lemma PlayMisfit(v: State, index: int, player: nat)
    requires SlotOf(v, player, index).Some?
    requires var card := Unpack(v.hands[player][SlotOf(v, player, index).value]);
             var k := PyIndex(|v.piles|, card.1 - 1);
             k.Some? && v.piles[k.value] != card.0 - 1
    ensures PlayStep(v, index, player) == Success(Terminal(v.piles, v.history))
  {
  }

  /** A play that leads to a child state: the card was the next one on its colour's pile,
      that pile alone grows by one, the slot is refilled from the front of the deck (with
      `(0, 0)` once the deck is empty) and its clue marks cleared, and the card is
      recorded in the history. Nothing else but the tokens changes. */
  lemma PlayEffect(v: State, index: int, player: nat)
    requires PlayStep(v, index, player).Success? && PlayStep(v, index, player).value.Next?
    ensures SlotOf(v, player, index).Some?
    ensures var ci := SlotOf(v, player, index).value;
            var card := Unpack(v.hands[player][ci]);
            var w := PlayStep(v, index, player).value.state;
            var k := PyIndex(|v.piles|, card.1 - 1);
            k.Some? && v.piles[k.value] == card.0 - 1
            && w.piles == v.piles[k.value := card.0]
            && w.hands == v.hands[player := v.hands[player][ci := Refill(v)]]
            && w.deck == (if |v.deck| > 0 then v.deck[1..] else v.deck)
            && w.turnsLeft == TurnsAfterDraw(v)
            && player < |v.clued| && PyIndex(|v.clued[player]|, index).Some?
            && w.clued == v.clued[player := v.clued[player][PyIndex(|v.clued[player]|, index).value := (0, 0)]]
            && w.history == v.history + ["p." + CardText(card)]
            && w.discarded == v.discarded && w.clueHistory == v.clueHistory
            && (w.tokens == v.tokens || w.tokens == v.tokens + 1)
  {
  }

  /** A discard that leads to a child state: one more token, the card appended to the
      discarded cards and the history, the slot refilled and its marks cleared; the piles
      do not change. */
  lemma DiscardEffect(v: State, index: int, player: nat)
    requires DiscardStep(v, index, player).Success? && DiscardStep(v, index, player).value.Next?
    ensures SlotOf(v, player, index).Some?
    ensures var ci := SlotOf(v, player, index).value;
            var card := Unpack(v.hands[player][ci]);
            var w := DiscardStep(v, index, player).value.state;
            w.tokens == v.tokens + 1
            && w.discarded == v.discarded + [card]
            && w.piles == v.piles
            && w.hands == v.hands[player := v.hands[player][ci := Refill(v)]]
            && w.deck == (if |v.deck| > 0 then v.deck[1..] else v.deck)
            && w.turnsLeft == TurnsAfterDraw(v)
            && player < |v.clued| && PyIndex(|v.clued[player]|, index).Some?
            && w.clued == v.clued[player := v.clued[player][PyIndex(|v.clued[player]|, index).value := (0, 0)]]
            && w.history == v.history + ["d." + CardText(card)]
  {
  }

  /** A clue that leads to a child state spends one token and records the clued number
      (or colour) on exactly the target's cards that have it, keeping the other mark of
      each slot; no other player's marks, no card and no pile change. */
  lemma ClueEffect(v: State, text: string, target: nat, kind: char, value: nat, player: nat)
    requires ClueStep(v, text, target, kind, value, player).Success?
    requires ClueStep(v, text, target, kind, value, player).value.Next?
    ensures target < |v.hands|
    ensures var w := ClueStep(v, text, target, kind, value, player).value.state;
            var cards := v.hands[target];
            w.tokens == v.tokens - 1
            && w.hands == v.hands && w.deck == v.deck && w.piles == v.piles
            && |w.clued| == |v.clued|
            && (forall o :: 0 <= o < |v.clued| && o != target ==> w.clued[o] == v.clued[o])
            && (forall j :: 0 <= j < |cards| ==>
                  target < |v.clued| && j < |v.clued[target]| &&
                  var card, prev := Unpack(cards[j]), v.clued[target][j];
                  w.clued[target][j] ==
                    (if kind == 'n' && card.0 == value then (value, prev.1)
                     else if kind == 'c' && card.1 == value then (prev.0, value)
                     else prev))
            && |w.history| == |v.history| + |cards|
  {
  }

  /** Once the deck is empty, the first play or discard sets the turn counter to
      `players - 1` and each later one takes one off; while cards remain it stays put. */
  lemma DeckEndTurns(v: State, a: Action)
    requires a.Play? || a.Discard?
    requires Step(v, a).Success? && Step(v, a).value.Next?
    ensures var w := Step(v, a).value.state;
            if |v.deck| > 0 then w.turnsLeft == v.turnsLeft
            else if v.turnsLeft == -1 then w.turnsLeft == |v.hands| - 1
            else w.turnsLeft == v.turnsLeft - 1
  {
  }

  /** With one turn left, every play of a fitting card, every discard and every clue ends
      the game. */
  lemma LastTurnEnds(v: State, a: Action)
    requires v.turnsLeft == 1 && !a.Unknown? && Step(v, a).Success?
    ensures Step(v, a).value.Terminal?
  {
  }

  /** Hands and clue-mark rows of matching shapes: one row per hand, one mark per card. */
  predicate Shaped(v: State)
  {
    |v.clued| == |v.hands| && forall p :: 0 <= p < |v.hands| ==> |v.clued[p]| == |v.hands[p]|
  }

  /** Every transition keeps the numbers of players and of slots, and with them the shape.
      In a shaped state, a discard of an existing slot never fails, and a play of one fails
      only when the card's colour names no pile. */
  lemma {:induction false} StepKeepsShape(v: State, a: Action)
    requires Shaped(v)
    ensures a.Discard? && SlotOf(v, a.player, a.index).Some? ==> Step(v, a).Success?
    ensures a.Play? && SlotOf(v, a.player, a.index).Some? ==>
              var card := Unpack(v.hands[a.player][SlotOf(v, a.player, a.index).value]);
              (Step(v, a).Success? <==> PyIndex(|v.piles|, card.1 - 1).Some?)
    ensures Step(v, a).Success? && Step(v, a).value.Next? ==>
              var w := Step(v, a).value.state;
              Shaped(w) && |w.hands| == |v.hands|
              && forall p :: 0 <= p < |v.hands| ==> |w.hands[p]| == |v.hands[p]|
  {
    match a
    case Play(i, p) =>
      if SlotOf(v, p, i).Some? {
        var ci := SlotOf(v, p, i).value;
        assert PyIndex(|v.clued[p]|, i) == Some(ci);
      }
    case Discard(i, p) =>
      if SlotOf(v, p, i).Some? {
        var ci := SlotOf(v, p, i).value;
        assert PyIndex(|v.clued[p]|, i) == Some(ci);
      }
    case Clue(text, t, kind, value, p) =>
    case Unknown(_) =>
  }

  // ---------------------------------------------------------------------------------------
  // Legal actions.

  /** Python's `a < b` on strings: the first differing character decides, and a proper
      prefix comes first. */
  predicate Below(a: string, b: string)
  {
    if |a| == 0 then |b| > 0
    else if |b| == 0 then false
    else if a[0] != b[0] then a[0] < b[0]
    else Below(a[1..], b[1..])
  }

  lemma {:induction false} BelowIrreflexive(a: string)
    ensures !Below(a, a)
  {
    if |a| > 0 {
      BelowIrreflexive(a[1..]);
    }
  }

  lemma {:induction false} BelowTransitive(a: string, b: string, c: string)
    requires Below(a, b) && Below(b, c)
    ensures Below(a, c)
  {
    if |a| > 0 && a[0] == b[0] && b[0] == c[0] {
      BelowTransitive(a[1..], b[1..], c[1..]);
    }
  }

  lemma {:induction false} BelowTotal(a: string, b: string)
    requires a != b
    ensures Below(a, b) || Below(b, a)
  {
    if |a| > 0 && |b| > 0 && a[0] == b[0] {
      assert a == [a[0]] + a[1..] && b == [b[0]] + b[1..];
      BelowTotal(a[1..], b[1..]);
    }
  }

  /** Each entry is below the next, so the list is sorted and has no repeats. */
  predicate Ascending(r: seq<string>)
  {
    forall i, j :: 0 <= i < j < |r| ==> Below(r[i], r[j])
  }

  lemma AscendingDistinct(r: seq<string>)
    requires Ascending(r)
    ensures forall i, j :: 0 <= i < j < |r| ==> r[i] != r[j]
  {
    forall i, j | 0 <= i < j < |r| ensures r[i] != r[j] {
      BelowIrreflexive(r[i]);
    }
  }

  /** The least string of a non-empty set. */
  method Least(t: set<string>) returns (m: string)
    requires t != {}
    ensures m in t && forall y :: y in t && y != m ==> Below(m, y)
  {
    m :| m in t;
    var rest := t - {m};
    while rest != {}
      invariant m in t && rest <= t
      invariant forall y :: y in t && y !in rest && y != m ==> Below(m, y)
      decreases |rest|
    {
      var x :| x in rest;
      if Below(x, m) {
        forall y | y in t && y !in rest && y != x
          ensures Below(x, y)
        {
          if y != m {
            BelowTransitive(x, m, y);
          }
        }
        m := x;
      } else if x != m {
        BelowTotal(x, m);
      }
      rest := rest - {x};
    }
  }

  /** `sorted(list(actions))`: the strings of the set, each once, in ascending order. */
  method SortNames(t: set<string>) returns (r: seq<string>)
    ensures Ascending(r)
    ensures forall x :: x in r <==> x in t
  {
    r := [];
    var rest := t;
    while rest != {}
      invariant rest <= t
      invariant Ascending(r)
      invariant forall x :: x in t <==> x in r || x in rest
      invariant forall x, y :: x in r && y in rest ==> Below(x, y)
      decreases |rest|
    {
      var m := Least(rest);
      forall i | 0 <= i < |r| ensures Below(r[i], m) {
        assert r[i] in r;
      }
      r := r + [m];
      rest := rest - {m};
    }
  }

  /** The play and discard names of the non-empty slots among the first `i` of a hand. */
  function SlotNames(hand: seq<Card>, player: int, i: nat): set<string>
    requires i <= |hand|
  {
    if i == 0 then {}
    else SlotNames(hand, player, i - 1)
         + (if IsEmptySlot(hand[i - 1]) then {} else {SlotName('p', i - 1, player), SlotName('d', i - 1, player)})
  }

  /** The numbers and colours of the cards left in the deck and in all hands, empty slots
      included. */
  function NumbersLeft(v: State): set<int>
  {
    (set c | c in v.deck :: Unpack(c).0)
    + (set p, i | 0 <= p < |v.hands| && 0 <= i < |v.hands[p]| :: Unpack(v.hands[p][i]).0)
  }

  function ColoursLeft(v: State): set<int>
  {
    (set c | c in v.deck :: Unpack(c).1)
    + (set p, i | 0 <= p < |v.hands| && 0 <= i < |v.hands[p]| :: Unpack(v.hands[p][i]).1)
  }

  /** The clue names one card of another player's hand gives rise to. */
  function CardClues(card: (int, int), marks: (int, int), other: nat, player: int,
                     numbers: bool, colours: bool): set<string>
  {
    (if marks.0 == 0 && numbers then {ClueName(other, 'n', card.0, player)} else {})
    + (if marks.1 == 0 && colours then {ClueName(other, 'c', card.1, player)} else {})
  }

  /** The clue names of the first `j` cards of `other`'s hand; empty slots give none. */
  function HandClues(cards: seq<Card>, row: seq<(int, int)>, other: nat, player: int,
                     numbers: bool, colours: bool, j: nat): set<string>
    requires j <= |cards|
  {
    if j == 0 then {}
    else
      var card := Unpack(cards[j - 1]);
      HandClues(cards, row, other, player, numbers, colours, j - 1)
      + (if card == (0, 0) || j - 1 >= |row| then {}
         else CardClues(card, row[j - 1], other, player, numbers, colours))
  }

  /** The marks row of a player, or none when the marks list is too short. */
  function RowOf(v: State, o: nat): seq<(int, int)>
  {
    if o < |v.clued| then v.clued[o] else []
  }

  /** The clue names for the hands of the first `o` players other than `player`. */
  function AllClues(v: State, player: int, numbers: bool, colours: bool, o: nat): set<string>
    requires o <= |v.hands|
  {
    if o == 0 then {}
    else AllClues(v, player, numbers, colours, o - 1)
         + (if o - 1 == player then {}
            else HandClues(v.hands[o - 1], RowOf(v, o - 1), o - 1, player, numbers, colours, |v.hands[o - 1]|))
  }

  /** Every non-empty card of player `o` has its clue marks. */
  predicate HandReadable(v: State, o: nat)
    requires o < |v.hands|
  {
    forall j :: 0 <= j < |v.hands[o]| ==> Unpack(v.hands[o][j]) != (0, 0) ==> o < |v.clued| && j < |v.clued[o]|
  }

  /** Every non-empty card of another player has its clue marks (else `IndexError`). */
  predicate MarksReadable(v: State, player: int)
  {
    forall o :: 0 <= o < |v.hands| && o != player ==> HandReadable(v, o)
  }

  /** The set `getLegalActions(player)` builds before sorting it. */
  function LegalNames(v: State, player: int): Result<set<string>>
  {
    match PyIndex(|v.hands|, player)
    case None => Failure("IndexError")
    case Some(h) =>
      var slots := SlotNames(v.hands[h], player, |v.hands[h]|);
      if v.tokens <= 0 then Success(slots)
      else if !MarksReadable(v, player) then Failure("IndexError")
      else Success(slots + AllClues(v, player, |NumbersLeft(v)| > 1, |ColoursLeft(v)| > 1, |v.hands|))
  }

  /** Slot `i` of `hand` is not empty and `s` plays or discards it. */
  predicate SlotGives(hand: seq<Card>, i: nat, player: int, s: string)
    requires i < |hand|
  {
    !IsEmptySlot(hand[i]) && (s == SlotName('p', i, player) || s == SlotName('d', i, player))
  }

  /** A play or discard of a non-empty slot of `hand`. */
  ghost predicate SlotOffer(hand: seq<Card>, player: int, s: string)
  {
    exists i :: 0 <= i < |hand| && SlotGives(hand, i, player, s)
  }

  /** `s` is a clue on card `i` of player `other`: the card is not an empty slot, and `s`
      names its number (its colour) when that mark is not yet set and number (colour)
      clues are given at all. */
  predicate CardOffer(cards: seq<Card>, row: seq<(int, int)>, i: nat, other: nat, player: int,
                      numbers: bool, colours: bool, s: string)
    requires i < |cards|
  {
    var card := Unpack(cards[i]);
    card != (0, 0) && i < |row|
    && ((row[i].0 == 0 && numbers && s == ClueName(other, 'n', card.0, player))
        || (row[i].1 == 0 && colours && s == ClueName(other, 'c', card.1, player)))
  }

  /** A clue to another player about one of that player's cards; `numbers` (`colours`)
      says whether number (colour) clues are given. */
  ghost predicate ClueOffer(v: State, player: int, numbers: bool, colours: bool, s: string)
  {
    exists q :: 0 <= q < |v.hands| && HandOffer(v, player, numbers, colours, q, s)
  }

  lemma {:induction false} SlotNamesIff(hand: seq<Card>, player: int, k: nat, s: string)
    requires k <= |hand|
    ensures s in SlotNames(hand, player, k) <==> exists i :: 0 <= i < k && SlotGives(hand, i, player, s)
  {
    if k > 0 {
      SlotNamesIff(hand, player, k - 1, s);
      if SlotGives(hand, k - 1, player, s) {
        assert exists i :: 0 <= i < k && SlotGives(hand, i, player, s);
      }
    }
  }

  lemma CardCluesIff(cards: seq<Card>, row: seq<(int, int)>, i: nat, other: nat, player: int,
                     numbers: bool, colours: bool, s: string)
    requires i < |cards|
    ensures CardOffer(cards, row, i, other, player, numbers, colours, s)
            <==> Unpack(cards[i]) != (0, 0) && i < |row|
                 && s in CardClues(Unpack(cards[i]), row[i], other, player, numbers, colours)
  {
  }

  lemma HandCluesStep(cards: seq<Card>, row: seq<(int, int)>, other: nat, player: int,
                      numbers: bool, colours: bool, j: nat, s: string)
    requires 0 < j <= |cards|
    ensures s in HandClues(cards, row, other, player, numbers, colours, j)
            <==> s in HandClues(cards, row, other, player, numbers, colours, j - 1)
                 || CardOffer(cards, row, j - 1, other, player, numbers, colours, s)
  {
    CardCluesIff(cards, row, j - 1, other, player, numbers, colours, s);
  }

  lemma {:induction false} HandCluesIff(cards: seq<Card>, row: seq<(int, int)>, other: nat, player: int,
                                        numbers: bool, colours: bool, j: nat, s: string)
    requires j <= |cards|
    ensures s in HandClues(cards, row, other, player, numbers, colours, j)
            <==> exists i :: 0 <= i < j && CardOffer(cards, row, i, other, player, numbers, colours, s)
  {
    if j > 0 {
      var k := j - 1;
      HandCluesIff(cards, row, other, player, numbers, colours, k, s);
      HandCluesStep(cards, row, other, player, numbers, colours, j, s);
      if exists i :: 0 <= i < j && CardOffer(cards, row, i, other, player, numbers, colours, s) {
        var i :| 0 <= i < j && CardOffer(cards, row, i, other, player, numbers, colours, s);
        if i == k {
          assert CardOffer(cards, row, k, other, player, numbers, colours, s);
        }
      }
      if CardOffer(cards, row, k, other, player, numbers, colours, s) {
        assert exists i :: 0 <= i < j && CardOffer(cards, row, i, other, player, numbers, colours, s);
      }
    }
  }

  /** `s` is a clue on some card of player `q`, who is not `player`. */
  ghost predicate HandOffer(v: State, player: int, numbers: bool, colours: bool, q: nat, s: string)
    requires q < |v.hands|
  {
    q != player && exists i :: 0 <= i < |v.hands[q]| && CardOffer(v.hands[q], RowOf(v, q), i, q, player, numbers, colours, s)
  }

  lemma {:induction false} AllCluesIff(v: State, player: int, numbers: bool, colours: bool, o: nat, s: string)
    requires o <= |v.hands|
    ensures s in AllClues(v, player, numbers, colours, o)
            <==> exists q :: 0 <= q < o && HandOffer(v, player, numbers, colours, q, s)
  {
    if o > 0 {
      var q := o - 1;
      AllCluesIff(v, player, numbers, colours, q, s);
      var here := HandOffer(v, player, numbers, colours, q, s);
      if q != player {
        HandCluesIff(v.hands[q], RowOf(v, q), q, player, numbers, colours, |v.hands[q]|, s);
      }
      assert s in AllClues(v, player, numbers, colours, o) <==> s in AllClues(v, player, numbers, colours, q) || here;
      if exists p :: 0 <= p < o && HandOffer(v, player, numbers, colours, p, s) {
        var p :| 0 <= p < o && HandOffer(v, player, numbers, colours, p, s);
        if p == q {
          assert here;
        }
      }
      if here {
        assert exists p :: 0 <= p < o && HandOffer(v, player, numbers, colours, p, s);
      }
    }
  }

  /** What `getLegalActions(player)` offers, stated without the loops: a play and a
      discard for each non-empty slot of the player's hand, and, only while clue tokens
      are left, the clues on other players' cards that `ClueOffer` describes: never a
      clue to the acting player, never on an attribute already clued, and no number
      (colour) clue when a single number (colour) is left in the deck and hands. */
  lemma LegalNamesIff(v: State, player: int, s: string)
    requires 0 <= player < |v.hands| && LegalNames(v, player).Success?
    ensures s in LegalNames(v, player).value
            <==> SlotOffer(v.hands[player], player, s)
                 || (v.tokens > 0 && ClueOffer(v, player, |NumbersLeft(v)| > 1, |ColoursLeft(v)| > 1, s))
  {
    var hand := v.hands[player];
    SlotNamesIff(hand, player, |hand|, s);
    if v.tokens > 0 {
      AllCluesIff(v, player, |NumbersLeft(v)| > 1, |ColoursLeft(v)| > 1, |v.hands|, s);
    }
  }

  // ---------------------------------------------------------------------------------------
  // The base state.

  /** The hands dealt to `players` players in turn from the front of the deck, `k` cards
      each as `deck[:k]` takes them (fewer once the deck runs out), and what is left. */
  function Deal(deck: seq<Card>, players: nat, k: int): (seq<seq<Card>>, seq<Card>)
  {
    if players == 0 then ([], deck)
    else
      var (hands, rest) := Deal(deck, players - 1, k);
      (hands + [Take(rest, k)], Drop(rest, k))
  }

  /** The cards of a list of hands, in order. */
  function Flatten(hands: seq<seq<Card>>): seq<Card>
  {
    if hands == [] then [] else Flatten(hands[..|hands| - 1]) + hands[|hands| - 1]
  }

  /** Dealing loses and invents no card: the hands, one after the other, and then the rest
      of the deck give back the deck. */
  lemma {:induction false} DealKeepsDeck(deck: seq<Card>, players: nat, k: int)
    ensures |Deal(deck, players, k).0| == players
    ensures Flatten(Deal(deck, players, k).0) + Deal(deck, players, k).1 == deck
  {
    if players > 0 {
      DealKeepsDeck(deck, players - 1, k);
      var before := Deal(deck, players - 1, k);
      var rest := before.1;
      TakeDrop(rest, k);
      FlattenSnoc(before.0, Take(rest, k));
    }
  }

  lemma FlattenSnoc(hands: seq<seq<Card>>, hand: seq<Card>)
    ensures Flatten(hands + [hand]) == Flatten(hands) + hand
  {
    assert (hands + [hand])[..|hands|] == hands;
  }

  /** With enough cards every player gets exactly `k` of them, and the deck left over
      starts at position `players * k`. */
  lemma {:induction false} DealFull(deck: seq<Card>, players: nat, k: nat)
    requires players * k <= |deck|
    ensures var (hands, rest) := Deal(deck, players, k);
            |hands| == players && rest == deck[players * k..]
            && forall p :: 0 <= p < players ==> |hands[p]| == k
  {
    if players > 0 {
      var before := (players - 1) * k;
      assert players * k == before + k;
      DealFull(deck, players - 1, k);
      var (hands, rest) := Deal(deck, players - 1, k);
      assert rest == deck[before..];
      assert |Take(rest, k)| == k;
      assert Drop(rest, k) == deck[before + k..];
    }
  }

  /** The number `max(deck, key=...)` compares a card by. */
  function Number(c: Card): int
  {
    Unpack(c).0
  }

  /** `max(deck, key=number)`: the first card with the largest number. */
  function FirstMax(deck: seq<Card>): (m: nat)
    requires |deck| > 0
    ensures m < |deck|
    ensures forall i :: 0 <= i < |deck| ==> Number(deck[i]) <= Number(deck[m])
    ensures forall i :: 0 <= i < m ==> Number(deck[i]) < Number(deck[m])
  {
    if |deck| == 1 then 0
    else
      var m := FirstMax(deck[..|deck| - 1]);
      assert forall i :: 0 <= i < |deck| - 1 ==> deck[..|deck| - 1][i] == deck[i];
      if Number(deck[|deck| - 1]) > Number(deck[m]) then |deck| - 1 else m
  }

  /** `createBaseState(...)`: the hands dealt, the piles at zero, no clue marks, the card
      with the highest number among the cards left (`ValueError` when none is left). */
  function BaseState(deck: seq<Card>, players: int, k: int, colours: int, tokens: int): Result<State>
  {
    var (hands, rest) := Deal(deck, if players > 0 then players else 0, k);
    if |rest| == 0 then Failure("ValueError")
    else Success(State(rest, hands, Repeat(0, if colours > 0 then colours else 0), [], tokens, [],
                       Repeat(Repeat((0, 0), if k > 0 then k else 0), if players > 0 then players else 0),
                       [], rest[FirstMax(rest)], -1))
  }

  /** When the deck covers every hand and leaves a card, the base state is shaped: each
      player holds `k` cards and has `k` blank clue marks. */
  lemma BaseShaped(deck: seq<Card>, players: nat, k: nat, colours: int, tokens: int)
    requires players * k < |deck|
    ensures BaseState(deck, players, k, colours, tokens).Success?
    ensures var v := BaseState(deck, players, k, colours, tokens).value;
            Shaped(v) && |v.hands| == players && (forall p :: 0 <= p < players ==> |v.hands[p]| == k)
            && v.deck == deck[players * k..]
  {
    DealFull(deck, players, k);
  }

  // ---------------------------------------------------------------------------------------
  // What a player sees.

  /** A player's view: `toPlayerState` after `list_to_tuple`, which leaves these values as
      they are. */
  datatype View = View(visible: seq<seq<Card>>, piles: seq<int>, discarded: seq<(int, int)>,
                       tokens: int, clueHistory: seq<string>, history: seq<string>,
                       clued: seq<seq<(int, int)>>)

  /** The clue marks of a hand, shown where the cards would be. */
  function MarksAsCards(row: seq<(int, int)>): seq<Card>
  {
    seq(|row|, i requires 0 <= i < |row| => Pair(row[i].0, row[i].1))
  }

  /** `toPlayerState(player)`: the other hands as they are, the player's own replaced by its
      clue marks. */
  function PlayerView(v: State, player: int): Result<View>
  {
    match PyIndex(|v.clued|, player)
    case None => Failure("IndexError")
    case Some(c) =>
      Success(View(Take(v.hands, player) + [MarksAsCards(v.clued[c])] + Drop(v.hands, player + 1),
                   v.piles, v.discarded, v.tokens, v.clueHistory, v.history, v.clued))
  }

  /** A player sees every other hand and, in place of their own, only its clue marks. */
  lemma OwnHandHidden(v: State, player: nat)
    requires player < |v.hands| && player < |v.clued|
    ensures PlayerView(v, player).Success?
    ensures var w := PlayerView(v, player).value.visible;
            |w| == |v.hands| && w[player] == MarksAsCards(v.clued[player])
            && forall q :: 0 <= q < |v.hands| && q != player ==> w[q] == v.hands[q]
  {
    var w := PlayerView(v, player).value.visible;
    assert Take(v.hands, player) == v.hands[..player];
    assert Drop(v.hands, player + 1) == v.hands[player + 1..];
    forall q | 0 <= q < |v.hands| && q != player ensures w[q] == v.hands[q] {
      if q > player {
        assert w[q] == v.hands[player + 1..][q - player - 1];
      }
    }
  }

  /** The view does not depend on the player's own cards: two states that differ only in
      that hand look the same to the player. */
  lemma ViewIgnoresOwnCards(v: State, player: nat, hand: seq<Card>)
    requires player < |v.hands|
    ensures PlayerView(v, player) == PlayerView(v.(hands := v.hands[player := hand]), player)
  {
    var u := v.(hands := v.hands[player := hand]);
    assert Take(u.hands, player) == Take(v.hands, player);
    assert Drop(u.hands, player + 1) == Drop(v.hands, player + 1);
  }

  // ---------------------------------------------------------------------------------------
  // The utility of a finished game.

  /** `sum(cards_in_play) / n` for each of the `n` players (no one when `n <= 0`). */
  function UniformUtility(n: int, piles: seq<int>): (u: seq<real>)
    ensures |u| == (if n > 0 then n else 0)
    ensures forall i :: 0 <= i < |u| ==> u[i] * (n as real) == Kuhn.IntSum(piles) as real
  {
    if n > 0 then Repeat(Kuhn.IntSum(piles) as real / n as real, n) else []
  }

  function RealSum(u: seq<real>): real
  {
    if u == [] then 0.0 else RealSum(u[..|u| - 1]) + u[|u| - 1]
  }

  lemma {:induction false} RealSumConstant(u: seq<real>, x: real)
    requires forall i :: 0 <= i < |u| ==> u[i] == x
    ensures RealSum(u) == (|u| as real) * x
  {
    if u != [] {
      RealSumConstant(u[..|u| - 1], x);
    }
  }

  /** The uniform split hands out exactly the score: the shares add up to the sum of the
      piles. */
  lemma UniformSharesAll(n: nat, piles: seq<int>)
    requires n > 0
    ensures RealSum(UniformUtility(n, piles)) == Kuhn.IntSum(piles) as real
  {
    var u := UniformUtility(n, piles);
    RealSumConstant(u, Kuhn.IntSum(piles) as real / n as real);
  }

  /** `action_history.index(x)`; `None` is the `ValueError`. */
  function FirstIndex(xs: seq<string>, x: string): (r: Option<nat>)
    ensures r.Some? ==> r.value < |xs| && xs[r.value] == x && forall j :: 0 <= j < r.value ==> xs[j] != x
    ensures r.None? ==> x !in xs
  {
    if xs == [] then None
    else if xs[0] == x then Some(0)
    else match FirstIndex(xs[1..], x)
      case None => None
      case Some(i) => Some(i + 1)
  }

  /** The seat of the player who made history entry `i`: `i % n`. */
  function Seat(i: nat, n: int): (s: nat)
    requires n > 0
    ensures s < n
  {
    i % n
  }

  /** The competitive split after the first `k` piles: pile `c` (colour `c + 1`) holding
      `r > 0` cards gives `r` to the player `index % n` of the first history entry that
      played the card `(r, c + 1)`. */
  function Credit(n: int, piles: seq<int>, history: seq<string>, k: nat): (u: Result<seq<int>>)
    requires k <= |piles|
    ensures u.Success? ==> |u.value| == (if n > 0 then n else 0)
  {
    if k == 0 then Success(Repeat(0, if n > 0 then n else 0))
    else match Credit(n, piles, history, k - 1)
      case Failure(e) => Failure(e)
      case Success(u) =>
        var r := piles[k - 1];
        if r == 0 then Success(u)
        else match FirstIndex(history, "p." + CardText((r, k)))
          case None => Failure("ValueError")
          case Some(i) =>
            if n == 0 then Failure("ZeroDivisionError")
            else if n < 0 then Failure("IndexError")
            else Success(u[Seat(i, n) := u[Seat(i, n)] + r])
  }

  /** Once a pile raises an error, the later piles keep that error. */
  lemma {:induction false} CreditFailed(n: int, piles: seq<int>, history: seq<string>, k: nat, m: nat)
    requires k <= m <= |piles| && Credit(n, piles, history, k).Failure?
    ensures Credit(n, piles, history, m) == Credit(n, piles, history, k)
    decreases m - k
  {
    if k < m {
      CreditFailed(n, piles, history, k, m - 1);
    }
  }

  /** The competitive split hands out exactly the score: its entries add up to the sum of
      the piles. */
  lemma {:induction false} CreditTotal(n: int, piles: seq<int>, history: seq<string>, k: nat)
    requires k <= |piles| && Credit(n, piles, history, k).Success?
    ensures Kuhn.IntSum(Credit(n, piles, history, k).value) == Kuhn.IntSum(piles[..k])
  {
    if k == 0 {
      IntSumZeros(if n > 0 then n else 0);
    } else {
      CreditTotal(n, piles, history, k - 1);
      assert piles[..k][..k - 1] == piles[..k - 1];
      var u := Credit(n, piles, history, k - 1).value;
      var r := piles[k - 1];
      if r != 0 {
        var i := FirstIndex(history, "p." + CardText((r, k))).value;
        IntSumUpdate(u, Seat(i, n), u[Seat(i, n)] + r);
      }
    }
  }

  lemma {:induction false} IntSumZeros(n: nat)
    ensures Kuhn.IntSum(Repeat(0, n)) == 0
  {
    if n > 0 {
      assert Repeat(0, n)[..n - 1] == Repeat(0, n - 1);
      IntSumZeros(n - 1);
    }
  }

  lemma {:induction false} IntSumUpdate(u: seq<int>, i: nat, x: int)
    requires i < |u|
    ensures Kuhn.IntSum(u[i := x]) == Kuhn.IntSum(u) - u[i] + x
  {
    var w := u[i := x];
    if i < |u| - 1 {
      assert w[..|w| - 1] == u[..|u| - 1][i := x];
      IntSumUpdate(u[..|u| - 1], i, x);
    } else {
      assert w[..|w| - 1] == u[..|u| - 1];
    }
  }

  /** The competitive split of a finished game. */
  method CompetitiveUtility(n: int, piles: seq<int>, history: seq<string>) returns (r: Result<seq<int>>)
    ensures r == Credit(n, piles, history, |piles|)
  {
    var utility := Repeat(0, if n > 0 then n else 0);
    var c := 0;
    while c < |piles|
      invariant 0 <= c <= |piles|
      invariant Credit(n, piles, history, c) == Success(utility)
    {
      var pile := piles[c];
      if pile != 0 {
        var at := FirstIndex(history, "p." + CardText((pile, c + 1)));
        if at.None? || n <= 0 {
          CreditFailed(n, piles, history, c + 1, |piles|);
          return if at.None? then Failure("ValueError")
                 else if n == 0 then Failure("ZeroDivisionError")
                 else Failure("IndexError");
        }
        var first := Seat(at.value, n);
        utility := utility[first := utility[first] + pile];
      }
      c := c + 1;
    }
    r := Success(utility);
  }

  /** `build_hanabi_utility`: the uniform split, or the competitive one with its integer
      entries read as numbers. */
  method BuildHanabiUtility(n: int, splitter: UtilitySplitter, piles: seq<int>, history: seq<string>)
    returns (r: Result<seq<real>>)
    ensures splitter == Uniform ==> r == Success(UniformUtility(n, piles))
    ensures splitter == Competitive ==>
              var u := Credit(n, piles, history, |piles|);
              (r.Success? <==> u.Success?)
              && (r.Success? ==> |r.value| == |u.value|
                                 && forall i :: 0 <= i < |r.value| ==> r.value[i] == u.value[i] as real)
  {
    if splitter == Uniform {
      return Success(UniformUtility(n, piles));
    }
    var u := CompetitiveUtility(n, piles, history);
    if u.Failure? {
      return Failure(u.error);
    }
    r := Success(seq(|u.value|, i requires 0 <= i < |u.value| => u.value[i] as real));
  }

  /** The loop at lines 37-43: a play and a discard name per non-empty slot. */
  method SlotNamesOf(hand: seq<Card>, player: int) returns (names: set<string>)
    ensures names == SlotNames(hand, player, |hand|)
  {
    names := {};
    var i := 0;
    while i < |hand|
      invariant 0 <= i <= |hand|
      invariant names == SlotNames(hand, player, i)
    {
      if !IsEmptySlot(hand[i]) {
        names := names + {SlotName('p', i, player), SlotName('d', i, player)};
      }
      i := i + 1;
    }
  }

  /** One more card of the clue loop. */
  lemma ClueOneMore(v: State, text: string, target: nat, kind: char, value: nat, player: nat, j: nat)
    requires target < |v.hands| && j < |v.hands[target]|
    requires target < |v.clued| && j < |v.clued[target]|
    ensures var u := Clued(v, text, target, kind, value, player, j);
            var w := Clued(v, text, target, kind, value, player, j + 1);
            var card, prev := Unpack(v.hands[target][j]), u.clued[target][j];
            w == u.(clued := u.clued[target := u.clued[target][j := Mark(card, prev, kind, value)]],
                    turnsLeft := if u.turnsLeft > 0 then u.turnsLeft - 1 else u.turnsLeft,
                    clueHistory := u.clueHistory + [text + "-P" + IntToString(player)],
                    history := u.history + [text])
  {
    var u := Clued(v, text, target, kind, value, player, j);
    var w := Clued(v, text, target, kind, value, player, j + 1);
    var row := v.clued[target];
    assert u.clued[target][j] == row[j];
    var marked := MarkRow(v.hands[target], row, kind, value, j + 1);
    assert marked == (if j == 0 then row else MarkRow(v.hands[target], row, kind, value, j))[j := Mark(Unpack(v.hands[target][j]), row[j], kind, value)];
    assert Repeat(text, j + 1) == Repeat(text, j) + [text];
    assert Repeat(text + "-P" + IntToString(player), j + 1) == Repeat(text + "-P" + IntToString(player), j) + [text + "-P" + IntToString(player)];
  }

  // ---------------------------------------------------------------------------------------
  // The state object.

  /** What `getChildState` returns when it runs through: the terminal pair, a new state
      object, or nothing. */
  datatype Child = Ended(piles: seq<int>, history: seq<string>) | Continue(state: HanabiState) | Nothing

  /** `c` is the transition `t`, a new state object standing for the state it holds. */
  predicate Agrees(c: Child, t: Transition)
    reads if c.Continue? then {c.state} else {}
  {
    match c
    case Ended(piles, history) => t == Terminal(piles, history)
    case Continue(o) => t.Next? && o.Value() == t.state
    case Nothing => t == NoChild
  }

  /** The same outcome, or the same error. */
  predicate ResultAgrees(r: Result<Child>, t: Result<Transition>)
    reads if r.Success? && r.value.Continue? then {r.value.state} else {}
  {
    match r
    case Success(c) => t.Success? && Agrees(c, t.value)
    case Failure(e) => t == Failure(e)
  }

  /** A Hanabi game state. Transitions never change it: they work on a copy. */
  class HanabiState {
    var deck: seq<Card>
    var hands: seq<seq<Card>>
    var piles: seq<int>
    var discarded: seq<(int, int)>
    var tokens: int
    var clueHistory: seq<string>
    var clued: seq<seq<(int, int)>>
    var history: seq<string>
    var highest: Card
    var turnsLeft: int

    function Value(): State
      reads this
    {
      State(deck, hands, piles, discarded, tokens, clueHistory, clued, history, highest, turnsLeft)
    }

    constructor (v: State)
      ensures Value() == v
    {
      deck, hands, piles, discarded, tokens := v.deck, v.hands, v.piles, v.discarded, v.tokens;
      clueHistory, clued, history, highest, turnsLeft := v.clueHistory, v.clued, v.history, v.highest, v.turnsLeft;
    }

    /** `copy()`: a new object with the same contents; later changes to either leave the
        other alone. */
    method Copy() returns (c: HanabiState)
      ensures fresh(c) && c.Value() == Value()
    {
      c := new HanabiState(Value());
    }

    /** `getLegalActions(player)`. */
    method LegalActions(player: int) returns (r: Result<seq<string>>)
      ensures r.Success? <==> LegalNames(Value(), player).Success?
      ensures r.Success? ==> Ascending(r.value)
                             && forall x :: x in r.value <==> x in LegalNames(Value(), player).value
    {
      var v := Value();
      var h := PyIndex(|hands|, player);
      if h.None? {
        return Failure("IndexError");
      }
      var hand := hands[h.value];
      var actions := SlotNamesOf(hand, player);
      if tokens > 0 {
        var clues := AllClueNames(player, |NumbersLeft(v)| > 1, |ColoursLeft(v)| > 1);
        if clues.None? {
          return Failure("IndexError");
        }
        actions := actions + clues.value;
      }
      var sorted := SortNames(actions);
      r := Success(sorted);
    }

    /** The loop at lines 64-81: the clue names for every other player's cards, or `None`
        for the `IndexError` of a missing clue mark. */
    method AllClueNames(player: int, numbers: bool, colours: bool) returns (r: Option<set<string>>)
      ensures r.Some? <==> MarksReadable(Value(), player)
      ensures r.Some? ==> r.value == AllClues(Value(), player, numbers, colours, |hands|)
    {
      var names: set<string> := {};
      var o := 0;
      while o < |hands|
        invariant 0 <= o <= |hands|
        invariant names == AllClues(Value(), player, numbers, colours, o)
        invariant forall q :: 0 <= q < o && q != player ==> HandReadable(Value(), q)
      {
        if o != player {
          var added := ClueNamesOf(o, player, numbers, colours);
          if added.None? {
            return None;
          }
          names := names + added.value;
        }
        o := o + 1;
      }
      r := Some(names);
    }

    /** The clue names for the cards of player `o`, or `None` for the `IndexError` of a
        missing clue mark. */
    method ClueNamesOf(o: nat, player: int, numbers: bool, colours: bool) returns (r: Option<set<string>>)
      requires o < |hands| && o != player
      ensures r.Some? <==> HandReadable(Value(), o)
      ensures r.Some? ==> r.value == HandClues(hands[o], RowOf(Value(), o), o, player, numbers, colours, |hands[o]|)
    {
      var cards := hands[o];
      var names: set<string> := {};
      var j := 0;
      while j < |cards|
        invariant 0 <= j <= |cards|
        invariant names == HandClues(cards, RowOf(Value(), o), o, player, numbers, colours, j)
        invariant forall i :: 0 <= i < j ==> Unpack(cards[i]) != (0, 0) ==> o < |clued| && i < |clued[o]|
      {
        var card := Unpack(cards[j]);
        if card != (0, 0) {
          if o >= |clued| || j >= |clued[o]| {
            return None;
          }
          var marks := clued[o][j];
          if marks.0 == 0 && numbers {
            names := names + {ClueName(o, 'n', card.0, player)};
          }
          if marks.1 == 0 && colours {
            names := names + {ClueName(o, 'c', card.1, player)};
          }
        }
        j := j + 1;
      }
      r := Some(names);
    }

    /** `getChildState(action)`. The parent is left as it was. */
    method GetChildState(action: string) returns (r: Result<Child>)
      ensures unchanged(this)
      ensures ResultAgrees(r, ChildState(Value(), action))
      ensures r.Success? && r.value.Continue? ==> fresh(r.value.state)
    {
      var parsed := ParseAction(action);
      if parsed.Failure? {
        return Failure(parsed.error);
      }
      match parsed.value
      case Play(i, p) =>
        r := PlayChild(i, p);
      case Discard(i, p) =>
        r := DiscardChild(i, p);
      case Clue(text, t, kind, value, p) =>
        r := ClueChild(text, t, kind, value, p);
      case Unknown(_) =>
        r := Success(Nothing);
    }

    /** Refills slot `ci` of `player`: from the front of the deck, or with `(0, 0)` and one
        turn spent once the deck is empty. */
    method DrawInto(player: nat, ci: nat)
      requires player < |hands| && ci < |hands[player]|
      modifies this
      ensures Value() == Draw(old(Value()), player, ci)
    {
      var card: Card;
      if |deck| > 0 {
        card := deck[0];
        deck := deck[1..];
      } else {
        card := Pair(0, 0);
        if turnsLeft == -1 {
          turnsLeft := |hands| - 1;
        } else {
          turnsLeft := turnsLeft - 1;
        }
      }
      hands := hands[player := hands[player][ci := card]];
    }

    /** `player_clued_hands[player][index] = (0, 0)`; false for the `IndexError`. */
    method ResetMarks(player: nat, index: int) returns (ok: bool)
      modifies this
      ensures ok <==> ClearMarks(old(Value()), player, index).Success?
      ensures ok ==> Value() == ClearMarks(old(Value()), player, index).value
    {
      if player >= |clued| {
        return false;
      }
      var j := PyIndex(|clued[player]|, index);
      if j.None? {
        return false;
      }
      clued := clued[player := clued[player][j.value := (0, 0)]];
      ok := true;
    }

    method PlayChild(index: int, player: nat) returns (r: Result<Child>)
      ensures ResultAgrees(r, PlayStep(Value(), index, player))
      ensures r.Success? && r.value.Continue? ==> fresh(r.value.state)
    {
      ghost var v := Value();
      var slot := SlotOf(Value(), player, index);
      if slot.None? {
        return Failure("IndexError");
      }
      var ci := slot.value;
      var card := Unpack(hands[player][ci]);
      var pile := PyIndex(|piles|, card.1 - 1);
      if pile.None? {
        return Failure("IndexError");
      }
      var k := pile.value;
      if piles[k] != card.0 - 1 {
        return Success(Ended(piles, history));
      }
      if turnsLeft == 1 {
        return Success(Ended(piles[k := piles[k] + 1], history + ["p." + CardText(card)]));
      }
      var child := Copy();
      child.piles := child.piles[k := child.piles[k] + 1];
      if SameAs(Coordination.MinOf(child.piles), highest) {
        return Success(Ended(piles, history));
      }
      if SameAs(card.0, highest) {
        child.tokens := child.tokens + 1;
      }
      ghost var u := child.Value();
      assert u == v.(piles := u.piles, tokens := u.tokens);
      child.DrawInto(player, ci);
      var ok := child.ResetMarks(player, index);
      if !ok {
        return Failure("IndexError");
      }
      ghost var w := ClearMarks(Draw(u, player, ci), player, index).value;
      child.history := child.history + ["p." + CardText(card)];
      assert child.Value() == w.(history := v.history + ["p." + CardText(card)]);
      r := Success(Continue(child));
    }

    method DiscardChild(index: int, player: nat) returns (r: Result<Child>)
      ensures ResultAgrees(r, DiscardStep(Value(), index, player))
      ensures r.Success? && r.value.Continue? ==> fresh(r.value.state)
    {
      var slot := SlotOf(Value(), player, index);
      if slot.None? {
        return Failure("IndexError");
      }
      var ci := slot.value;
      var card := Unpack(hands[player][ci]);
      if turnsLeft == 1 {
        return Success(Ended(piles, history));
      }
      var child := Copy();
      child.discarded := child.discarded + [card];
      child.tokens := child.tokens + 1;
      child.DrawInto(player, ci);
      var ok := child.ResetMarks(player, index);
      if !ok {
        return Failure("IndexError");
      }
      child.history := child.history + ["d." + CardText(card)];
      r := Success(Continue(child));
    }

    method ClueChild(text: string, target: nat, kind: char, value: nat, player: nat) returns (r: Result<Child>)
      ensures ResultAgrees(r, ClueStep(Value(), text, target, kind, value, player))
      ensures r.Success? && r.value.Continue? ==> fresh(r.value.state)
    {
      if turnsLeft == 1 {
        return Success(Ended(piles, history));
      }
      var v := Value();
      var child := Copy();
      child.tokens := child.tokens - 1;
      if target >= |child.hands| {
        return Failure("IndexError");
      }
      var n := |child.hands[target]|;
      var j := 0;
      while j < n
        invariant 0 <= j <= n && target < |v.hands| && n == |v.hands[target]|
        invariant j > 0 ==> target < |v.clued| && j <= |v.clued[target]|
        invariant fresh(child) && child.Value() == Clued(v, text, target, kind, value, player, j)
        invariant Value() == v
      {
        if target >= |child.clued| || j >= |child.clued[target]| {
          return Failure("IndexError");
        }
        ClueOneMore(v, text, target, kind, value, player, j);
        child.ClueCard(target, j, Unpack(hands[target][j]), kind, value, text + "-P" + IntToString(player), text);
        j := j + 1;
      }
      r := Success(Continue(child));
    }

    /** One pass of the clue loop (lines 174-192): re-mark slot `j` of the target, spend a
        turn if any is left, and record the clue in both histories. */
    method ClueCard(target: nat, j: nat, card: (int, int), kind: char, value: nat, entry: string, text: string)
      requires target < |clued| && j < |clued[target]|
      modifies this
      ensures Value() == old(Value()).(
                clued := old(clued)[target := old(clued)[target][j := Mark(card, old(clued)[target][j], kind, value)]],
                turnsLeft := if old(turnsLeft) > 0 then old(turnsLeft) - 1 else old(turnsLeft),
                clueHistory := old(clueHistory) + [entry],
                history := old(history) + [text])
    {
      var prev := clued[target][j];
      if kind == 'n' && card.0 == value {
        clued := clued[target := clued[target][j := (value, prev.1)]];
      } else if kind == 'c' && card.1 == value {
        clued := clued[target := clued[target][j := (prev.0, value)]];
      } else {
        assert clued[target][j := prev] == clued[target];
      }
      if turnsLeft > 0 {
        turnsLeft := turnsLeft - 1;
      }
      clueHistory := clueHistory + [entry];
      history := history + [text];
    }

    /** `createBaseState(deck, num_players, cards_per_player, num_colors, starting_tokens)`. */
    static method CreateBaseState(deck: seq<Card>, players: int, k: int, colours: int, tokens: int)
      returns (r: Result<HanabiState>)
      ensures r.Success? <==> BaseState(deck, players, k, colours, tokens).Success?
      ensures r.Success? ==> fresh(r.value) && r.value.Value() == BaseState(deck, players, k, colours, tokens).value
    {
      var rest := deck;
      var hands: seq<seq<Card>> := [];
      var n := if players > 0 then players else 0;
      var p := 0;
      while p < players
        invariant 0 <= p <= n
        invariant (hands, rest) == Deal(deck, p, k)
      {
        hands := hands + [Take(rest, k)];
        rest := Drop(rest, k);
        p := p + 1;
      }
      if |rest| == 0 {
        return Failure("ValueError");
      }
      var s := new HanabiState(State(rest, hands, Repeat(0, if colours > 0 then colours else 0), [], tokens, [],
                                     Repeat(Repeat((0, 0), if k > 0 then k else 0), n),
                                     [], rest[FirstMax(rest)], -1));
      r := Success(s);
    }
  }
}
