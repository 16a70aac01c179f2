/** The tree text format. `serialize_tree` writes a header line `"<players> <root player>"` and
    then one line per node in preorder: `l <utilities>` for a leaf, `c <k>` for a chance node
    with `k` children and `n <k> <player> <infoset>` for a decision node, followed by
    ` <probability>` when its parent is a chance node. `deserialize_tree` reads the lines back,
    one subtree per call, rebuilding the tree through `addNode`/`addLeaf`.

    How Python writes a number (`str`) and reads one back (`ast.literal_eval`) are the
    parameters `show` and `read`. */
module Serialization {
  import opened Wrappers
  import opened Strings
  import opened GameTree

  // ---------------------------------------------------------------------------------------
  // What the format records about a subtree.

  /** What the lines of a subtree say: a leaf's utilities, a chance node's children, and a
      decision node's player, infoset, probability text (present when its parent is a chance
      node) and children. */
  datatype Shape =
    | LeafShape(utility: seq<real>)
    | ChanceShape(children: seq<Shape>)
    | DecisionShape(player: int, infoset: int, prob: Option<string>, children: seq<Shape>)

  /** `str` of a probability stored by a chance node: a number as `show` writes it, a string
      as itself, `None` as `"None"`. */
  function ProbText(p: Prob, show: real -> string): string
  {
    match p
    case PNum(x) => show(x)
    case PText(t) => t
    case PNone => "None"
  }

  /** The probability text node `r` gives its `k`-th child: only a chance node gives one. */
  function ProbAt(r: NodeRec, k: nat, show: real -> string): Option<string>
  {
    if r.kind == ChanceKind && k < |r.distribution| then Some(ProbText(r.distribution[k], show)) else None
  }

  /** The subtree of node `i` of a node table, as the serializer reads it; `prob` is the text
      its parent gives it. */
  function ShapeOf(ns: seq<NodeRec>, i: nat, prob: Option<string>, show: real -> string): Shape
    requires Linked(ns) && i < |ns|
    decreases |ns| - i, 1
  {
    var r := ns[i];
    match r.kind
    case LeafKind => LeafShape(r.utility)
    case ChanceKind => ChanceShape(KidShapes(ns, i, show))
    case DecisionKind => DecisionShape(r.player, r.infoset, prob, KidShapes(ns, i, show))
  }

  function KidShapes(ns: seq<NodeRec>, i: nat, show: real -> string): (r: seq<Shape>)
    requires Linked(ns) && i < |ns|
    ensures |r| == |ns[i].children|
    decreases |ns| - i, 0
  {
    assert WellLinked(ns, i);
    seq(|ns[i].children|, k requires 0 <= k < |ns[i].children| =>
      ShapeOf(ns, ns[i].children[k], ProbAt(ns[i], k, show), show))
  }

  // ---------------------------------------------------------------------------------------
  // Writing.

  /** The inside of Python's `str(list)`: the entries separated by `", "`. */
  function Listed(xs: seq<string>): string
  {
    if xs == [] then ""
    else if |xs| == 1 then xs[0]
    else xs[0] + ", " + Listed(xs[1..])
  }

  /** `s.replace(c, '')`. */
  function Without(s: string, c: char): string
  {
    if s == [] then [] else (if s[0] == c then [] else [s[0]]) + Without(s[1..], c)
  }

  /** `s.replace(a, b)` for single characters. */
  function Swap(s: string, a: char, b: char): string
  {
    if s == [] then [] else [if s[0] == a then b else s[0]] + Swap(s[1..], a, b)
  }

  function Shown(u: seq<real>, show: real -> string): (r: seq<string>)
    ensures |r| == |u|
  {
    seq(|u|, k requires 0 <= k < |u| => show(u[k]))
  }

  /** The line a node writes (serialization.py:155-164). */
  function LineOf(s: Shape, show: real -> string): string
  {
    match s
    case LeafShape(u) => "l " + Without(Listed(Shown(u, show)), ',')
    case ChanceShape(ks) => "c " + NatToString(|ks|)
    case DecisionShape(p, h, prob, ks) => DecisionLine(|ks|, p, h, prob)
  }

  /** The line of a decision node with `count` children; the probability text is written only
      below a chance node. */
  function DecisionLine(count: nat, player: int, infoset: int, prob: Option<string>): string
  {
    "n " + NatToString(count) + " " + IntToString(player) + " " + IntToString(infoset)
    + (if prob.Some? then " " + prob.value else "")
  }

  /** `serialize_subtree`: the node's line, then its children's subtrees in order. */
  function LinesOf(s: Shape, show: real -> string): seq<string>
    decreases s, 1
  {
    [LineOf(s, show)] + KidsLines(s, 0, show)
  }

  /** The lines of the subtrees of the children of `s` from the `k`-th on. */
  function KidsLines(s: Shape, k: nat, show: real -> string): seq<string>
    decreases s, 0, if s.LeafShape? then 0 else |s.children| - k
  {
    if s.LeafShape? || k >= |s.children| then []
    else LinesOf(s.children[k], show) + KidsLines(s, k + 1, show)
  }

  /** Each line followed by a newline. */
  function Unlines(ls: seq<string>): string
  {
    if ls == [] then "" else ls[0] + "\n" + Unlines(ls[1..])
  }

  /** `serialize_tree`: the header, then the root's subtree (serialization.py:151-177). */
  function Serialize(players: int, ns: seq<NodeRec>, show: real -> string): string
    requires Linked(ns)
  {
    IntToString(players) + " " + IntToString(ns[0].player) + "\n"
    + Unlines(LinesOf(ShapeOf(ns, 0, None, show), show))
  }

  // ---------------------------------------------------------------------------------------
  // Reading.

  /** The builder's state: node table and counters of a `Tree`. */
  datatype Build = Build(nodes: seq<NodeRec>, infosetCount: int, maxInfoset: int, maxDepth: int)

  function StateOf(t: Tree): Build
    reads t
  {
    Build(t.nodes, t.infosetCount, t.maxInfoset, t.maxDepth)
  }

  /** `tree.addNode(player, infoset, parent, prob)` on a builder state. */
  function WithNode(b: Build, player: int, infoset: int, par: nat, prob: Prob): Build
    requires par < |b.nodes|
  {
    var h := if infoset == -1 then b.infosetCount else infoset;
    var depth := b.nodes[par].depth + 1;
    var name := DefaultActionName(b.nodes[par], |b.nodes[par].children|);
    var node := NodeRec(DecisionKind, |b.nodes|, player, h, par, depth, [], [], [], None, None, []);
    Build(AttachChild(b.nodes, par, node, prob, name),
          if infoset == -1 then b.infosetCount + 1 else b.infosetCount,
          Max(b.maxInfoset, h), Max(b.maxDepth, depth))
  }

  /** `tree.addLeaf(parent, u)` on a builder state: nothing when `u` has the wrong length. */
  function WithLeaf(b: Build, players: int, par: nat, u: seq<real>): Build
    requires par < |b.nodes|
  {
    if |u| != players then b
    else
      var depth := b.nodes[par].depth + 1;
      var name := DefaultActionName(b.nodes[par], |b.nodes[par].children|);
      var leaf := NodeRec(LeafKind, |b.nodes|, -1, -1, par, depth, [], [], [], None, None, u);
      Build(AttachChild(b.nodes, par, leaf, PNone, name), b.infosetCount, b.maxInfoset, Max(b.maxDepth, depth))
  }

  /** `int(e[k])`: IndexError past the end, ValueError for text that is not an integer. */
  function IntAt(e: seq<string>, k: nat): Result<int>
  {
    if k >= |e| then Failure("IndexError")
    else match ParseInt(e[k])
      case Some(x) => Success(x)
      case None => Failure("ValueError")
  }

  /** The fields of a decision line, in the order the source reads them: child count,
      player, infoset, and the probability (`-1` when the line has no fifth field). */
  function NodeFields(e: seq<string>): Result<(int, int, int, Prob)>
  {
    var count :- IntAt(e, 1);
    var player :- IntAt(e, 2);
    var infoset :- IntAt(e, 3);
    Success((count, player, infoset, if |e| > 4 then PText(e[4]) else PNum(-1.0)))
  }

  /** `line[2:]`. */
  function Tail2(line: string): string
  {
    if |line| >= 2 then line[2..] else ""
  }

  /** `ast.literal_eval('[' + text.replace(' ', ',') + ']')` on a list of numbers: the pieces
      between commas, each read by `read`. */
  function ReadUtility(text: string, read: string -> Option<real>): Option<seq<real>>
  {
    if text == "" then Some([]) else ReadAll(Split(Swap(text, ' ', ','), ','), read)
  }

  function ReadAll(pieces: seq<string>, read: string -> Option<real>): Option<seq<real>>
  {
    if pieces == [] then Some([])
    else match (read(pieces[0]), ReadAll(pieces[1..], read))
      case (Some(x), Some(xs)) => Some([x] + xs)
      case _ => None
  }

  /** A line as `deserialize_subtree` reads it: empty, a leaf with its utilities (None when
      `literal_eval` fails), a decision node with its fields, a chance node with its child
      count, or a line of another kind. */
  datatype Line =
    | Blank
    | LeafLine(utility: Option<seq<real>>)
    | NodeLine(fields: Result<(int, int, int, Prob)>)
    | ChanceLine(count: Result<int>)
    | OtherLine

  function Classify(line: string, read: string -> Option<real>): Line
  {
    if line == [] then Blank
    else if line[0] == 'l' then LeafLine(ReadUtility(Tail2(line), read))
    else if line[0] == 'n' then NodeLine(NodeFields(Split(line, ' ')))
    else if line[0] == 'c' then ChanceLine(IntAt(Split(line, ' '), 1))
    else OtherLine
  }

  /** `deserialize_subtree(tree, parent, lines)`: reads one subtree below `par` and returns the
      remaining lines (serialization.py:180-208). */
  function Sub(b: Build, players: int, par: nat, lines: seq<string>, read: string -> Option<real>)
    : (r: Result<(Build, seq<string>)>)
    requires par < |b.nodes|
    ensures r.Success? ==> |r.value.1| < |lines| && |r.value.0.nodes| >= |b.nodes|
    decreases |lines|, 1
  {
    if lines == [] then Failure("IndexError")
    else Apply(b, players, par, lines[0], lines[1..], read)
  }

  /** What a line does to the tree: a leaf is added (or dropped, by `addLeaf`, when its length
      is wrong), a decision node is added and its children read, a chance line fails with
      `addChanceNode`'s TypeError, and any other line is skipped. */
  function Apply(b: Build, players: int, par: nat, line: string, rest: seq<string>, read: string -> Option<real>)
    : (r: Result<(Build, seq<string>)>)
    requires par < |b.nodes|
    ensures r.Success? ==> |r.value.1| <= |rest| && |r.value.0.nodes| >= |b.nodes|
    decreases |rest|, 3
  {
    match Classify(line, read)
    case Blank => Failure("IndexError")
    case LeafLine(None) => Failure("ValueError")
    case LeafLine(Some(u)) => Success((WithLeaf(b, players, par, u), rest))
    case NodeLine(Failure(err)) => Failure(err)
    case NodeLine(Success((count, player, infoset, prob))) =>
      Kids(WithNode(b, player, infoset, par, prob), players, |b.nodes|, count, rest, read)
    case ChanceLine(Failure(err)) => Failure(err)
    case ChanceLine(Success(_)) => Failure("TypeError")
    case OtherLine => Success((b, rest))
  }

  /** `for i in range(n): lines = deserialize_subtree(tree, par, lines)`. */
  function Kids(b: Build, players: int, par: nat, n: int, lines: seq<string>, read: string -> Option<real>)
    : (r: Result<(Build, seq<string>)>)
    requires par < |b.nodes|
    ensures r.Success? ==> |r.value.1| <= |lines| && |r.value.0.nodes| >= |b.nodes|
    decreases |lines|, 2
  {
    if n <= 0 then Success((b, lines))
    else match Sub(b, players, par, lines, read)
      case Failure(err) => Failure(err)
      case Success((b1, rest)) => Kids(b1, players, par, n - 1, rest, read)
  }

  /** The header line: the player count and the first player. */
  function ReadHeader(line: string): Result<(int, int)>
  {
    var e := Split(line, ' ');
    var players :- IntAt(e, 0);
    var first :- IntAt(e, 1);
    Success((players, first))
  }

  /** The root line: the root's child count, then a decision root with its player and label
      or a chance root; any other line leaves `root` unbound. */
  function ReadRoot(line: string): Result<(int, RootSpec)>
  {
    var e := Split(line, ' ');
    var count :- IntAt(e, 1);
    if line != [] && line[0] == 'n' then
      var p :- IntAt(e, 2);
      var h :- IntAt(e, 3);
      Success((count, DecisionRoot(p, h)))
    else if line != [] && line[0] == 'c' then Success((count, ChanceRoot))
    else Failure("UnboundLocalError")
  }

  /** `deserialize_tree`: the player count from the header, the root from line 1, then the
      root's children (serialization.py:210-235). */
  function ReadTree(text: string, read: string -> Option<real>): Result<(int, Build)>
  {
    var lines := Split(text, '\n');
    var header :- ReadHeader(lines[0]);
    if |lines| < 2 then Failure("IndexError")
    else
      var root :- ReadRoot(lines[1]);
      var built :- Kids(Build([RootRecord(root.1)], 1, 0, 0), header.0, 0, root.0, lines[2..], read);
      Success((header.0, built.0))
  }

  /** The outcome of a reading method as the reading function gives it. */
  function Reached(b: Build, r: Result<seq<string>>): Result<(Build, seq<string>)>
  {
    if r.Success? then Success((b, r.value)) else Failure(r.error)
  }

  /** `deserialize_subtree` on a `Tree`. */
  method DeserializeSubtree(t: Tree, parent: nat, lines: seq<string>, read: string -> Option<real>)
    returns (r: Result<seq<string>>)
    requires t.Valid() && parent < |t.nodes|
    modifies t
    ensures t.Valid() && t.numOfPlayers == old(t.numOfPlayers)
    ensures Reached(StateOf(t), r) == Sub(old(StateOf(t)), t.numOfPlayers, parent, lines, read)
    decreases |lines|, 0
  {
    if lines == [] {
      return Failure("IndexError");
    }
    var line := lines[0];
    var e := Split(line, ' ');
    ghost var b0 := StateOf(t);
    ghost var kind := Classify(line, read);
    assert Sub(b0, t.numOfPlayers, parent, lines, read) == Apply(b0, t.numOfPlayers, parent, line, lines[1..], read);
    if line == [] {
      return Failure("IndexError");
    }
    if line[0] == 'l' {
      var u := ReadUtility(Tail2(line), read);
      if u.None? {
        return Failure("ValueError");
      }
      assert kind == LeafLine(u);
      ghost var b1 := WithLeaf(b0, t.numOfPlayers, parent, u.value);
      var _ := t.AddLeaf(parent, u.value, None);
      assert StateOf(t) == b1;
      r := Success(lines[1..]);
    } else if line[0] == 'n' {
      var fields := NodeFields(e);
      if fields.Failure? {
        return Failure(fields.error);
      }
      assert kind == NodeLine(fields);
      r := DeserializeNode(t, parent, fields.value, lines[1..], read);
    } else if line[0] == 'c' {
      var count := IntAt(e, 1);
      if count.Failure? {
        return Failure(count.error);
      }
      var c := t.AddChanceNode(Some(parent), None);
      r := Failure(c.error);
    } else {
      r := Success(lines[1..]);
    }
  }

  /** The decision-node case of `deserialize_subtree`: `tree.addNode` with the line's player,
      label and probability, then its `n` children read one subtree at a time. */
  method DeserializeNode(t: Tree, parent: nat, fields: (int, int, int, Prob), lines: seq<string>, read: string -> Option<real>)
    returns (r: Result<seq<string>>)
    requires t.Valid() && parent < |t.nodes|
    modifies t
    ensures t.Valid() && t.numOfPlayers == old(t.numOfPlayers)
    ensures Reached(StateOf(t), r)
      == Kids(WithNode(old(StateOf(t)), fields.1, fields.2, parent, fields.3), t.numOfPlayers, old(|t.nodes|), fields.0, lines, read)
    decreases |lines|, 2
  {
    var (count, player, infoset, prob) := fields;
    ghost var b1 := WithNode(StateOf(t), player, infoset, parent, prob);
    var node := t.AddNode(player, infoset, Some(parent), prob, None);
    assert StateOf(t) == b1;
    r := DeserializeChildren(t, node, count, lines, read);
  }

  /** One turn of the loop in `Kids`. */
  lemma KidsStep(b: Build, players: int, par: nat, n: int, lines: seq<string>, read: string -> Option<real>)
    requires par < |b.nodes| && n > 0
    ensures var s := Sub(b, players, par, lines, read);
      Kids(b, players, par, n, lines, read)
      == if s.Failure? then Failure(s.error) else Kids(s.value.0, players, par, n - 1, s.value.1, read)
  {
  }

  /** The loop reading `count` subtrees below `node`. */
  method DeserializeChildren(t: Tree, node: nat, count: int, lines: seq<string>, read: string -> Option<real>)
    returns (r: Result<seq<string>>)
    requires t.Valid() && node < |t.nodes|
    modifies t
    ensures t.Valid() && t.numOfPlayers == old(t.numOfPlayers)
    ensures Reached(StateOf(t), r) == Kids(old(StateOf(t)), t.numOfPlayers, node, count, lines, read)
    decreases |lines|, 1
  {
    ghost var players := t.numOfPlayers;
    ghost var goal := Kids(StateOf(t), players, node, count, lines, read);
    ghost var cur := StateOf(t);
    var rest := lines;
    var left := count;
    while left > 0
      invariant t.Valid() && node < |t.nodes| && |rest| <= |lines|
      invariant t.numOfPlayers == players && cur == StateOf(t)
      invariant Kids(cur, players, node, left, rest, read) == goal
      decreases left
    {
      var s := DeserializeSubtree(t, node, rest, read);
      KidsStep(cur, players, node, left, rest, read);
      if s.Failure? {
        return Failure(s.error);
      }
      assert Sub(cur, players, node, rest, read) == Success((StateOf(t), s.value));
      cur, rest, left := StateOf(t), s.value, left - 1;
    }
    r := Success(rest);
  }

  /** `deserialize_tree` on a `Tree`: the header and root line, the `Tree` constructor, then
      the root's children read by `deserialize_subtree`. */
  method DeserializeTree(text: string, read: string -> Option<real>) returns (r: Result<Tree>)
    ensures ReadTree(text, read).Failure? ==> r == Failure(ReadTree(text, read).error)
    ensures ReadTree(text, read).Success? ==>
      r.Success? && fresh(r.value) && r.value.Valid()
      && r.value.numOfPlayers == ReadTree(text, read).value.0
      && StateOf(r.value) == ReadTree(text, read).value.1
  {
    var lines := Split(text, '\n');
    var header := ReadHeader(lines[0]);
    if header.Failure? {
      return Failure(header.error);
    }
    if |lines| < 2 {
      return Failure("IndexError");
    }
    var root := ReadRoot(lines[1]);
    if root.Failure? {
      return Failure(root.error);
    }
    var (players, first) := header.value;
    var (count, spec) := root.value;
    var t := new Tree(players, first, Some(spec));
    var rest := DeserializeChildren(t, 0, count, lines[2..], read);
    if rest.Failure? {
      return Failure(rest.error);
    }
    r := Success(t);
  }

  // ---------------------------------------------------------------------------------------
  // Reading back what was written.

  /** Text that stays one field of a line split on spaces, and one piece of a list split on
      commas. */
  predicate Plain(t: string)
  {
    ' ' !in t && '\n' !in t && ',' !in t
  }

  /** `read` undoes `show` on the numbers `xs`, each of which `show` writes as non-empty plain
      text. */
  ghost predicate Inverse(show: real -> string, read: string -> Option<real>, xs: set<real>)
  {
    forall x :: x in xs ==> show(x) != "" && Plain(show(x)) && read(show(x)) == Some(x)
  }

  lemma InverseAt(show: real -> string, read: string -> Option<real>, xs: set<real>, x: real)
    requires Inverse(show, read, xs) && x in xs
    ensures show(x) != "" && Plain(show(x)) && read(show(x)) == Some(x)
  {
  }

  /** The utilities held by the leaves of a subtree. */
  ghost function Numbers(s: Shape): set<real>
  {
    match s
    case LeafShape(u) => set x | x in u
    case ChanceShape(ks) => set k, x | 0 <= k < |ks| && x in Numbers(ks[k]) :: x
    case DecisionShape(_, _, _, ks) => set k, x | 0 <= k < |ks| && x in Numbers(ks[k]) :: x
  }

  lemma KidNumbers(s: Shape, k: nat)
    requires !s.LeafShape? && k < |s.children|
    ensures Numbers(s.children[k]) <= Numbers(s)
  {
    forall x | x in Numbers(s.children[k]) ensures x in Numbers(s) {
      var ks := s.children;
      assert 0 <= k < |ks| && x in Numbers(ks[k]);
    }
  }

  /** Every probability text in `s` is a single field on a single line. */
  predicate Tidy(s: Shape)
  {
    match s
    case LeafShape(_) => true
    case ChanceShape(ks) => forall k :: 0 <= k < |ks| ==> Tidy(ks[k])
    case DecisionShape(_, _, prob, ks) =>
      (prob.Some? ==> ' ' !in prob.value && '\n' !in prob.value)
      && forall k :: 0 <= k < |ks| ==> Tidy(ks[k])
  }

  /** A subtree below the root that reads back as written: leaves have one utility per
      player, decision nodes have a label of their own (not the -1 that asks for a fresh one)
      and carry a probability exactly when their parent is a chance node, and there are no
      chance nodes, since `addChanceNode` cannot add one. */
  predicate Readable(s: Shape, players: int, underChance: bool)
  {
    match s
    case LeafShape(u) => |u| == players
    case ChanceShape(_) => false
    case DecisionShape(_, h, prob, ks) =>
      h != -1 && prob.Some? == underChance
      && (prob.Some? ==> ' ' !in prob.value && '\n' !in prob.value)
      && forall k :: 0 <= k < |ks| ==> Readable(ks[k], players, false)
  }

  /** A tree `serialize_tree` writes and `deserialize_tree` reads back: a decision or chance
      root whose subtrees are readable. */
  ghost predicate Writable(players: int, ns: seq<NodeRec>, show: real -> string)
  {
    Linked(ns) &&
    match ShapeOf(ns, 0, None, show)
    case LeafShape(_) => false
    case ChanceShape(ks) => forall k :: 0 <= k < |ks| ==> Readable(ks[k], players, true)
    case DecisionShape(_, _, _, ks) => forall k :: 0 <= k < |ks| ==> Readable(ks[k], players, false)
  }

  lemma {:induction false} ReadableTidy(s: Shape, players: int, underChance: bool)
    requires Readable(s, players, underChance)
    ensures Tidy(s)
    decreases s
  {
    if s.DecisionShape? {
      forall k | 0 <= k < |s.children| ensures Tidy(s.children[k]) {
        ReadableTidy(s.children[k], players, false);
      }
    }
  }

  lemma NumberPlain(i: int)
    ensures Plain(IntToString(i))
  {
    var t := IntToString(i);
    forall c | c in t ensures c != ' ' && c != '\n' && c != ',' {
      var k :| 0 <= k < |t| && t[k] == c;
    }
  }

  /** A separator other than `c` puts no `c` into a join. */
  lemma {:induction false} JoinAvoids(xs: seq<string>, sep: char, c: char)
    requires sep != c && forall k :: 0 <= k < |xs| ==> c !in xs[k]
    ensures c !in Join(xs, sep)
    decreases |xs|
  {
    if |xs| > 1 {
      JoinAvoids(xs[1..], sep, c);
    }
  }

  lemma {:induction false} WithoutAppend(a: string, b: string, c: char)
    ensures Without(a + b, c) == Without(a, c) + Without(b, c)
    decreases |a|
  {
    if a != [] {
      WithoutAppend(a[1..], b, c);
      var h := if a[0] == c then [] else [a[0]];
      assert (a + b)[0] == a[0] && (a + b)[1..] == a[1..] + b;
      calc {
        Without(a + b, c);
        h + Without(a[1..] + b, c);
        h + (Without(a[1..], c) + Without(b, c));
        (h + Without(a[1..], c)) + Without(b, c);
      }
    } else {
      assert a + b == b;
    }
  }

  lemma {:induction false} WithoutAbsent(a: string, c: char)
    requires c !in a
    ensures Without(a, c) == a
    decreases |a|
  {
    if a != [] {
      WithoutAbsent(a[1..], c);
      assert a == [a[0]] + a[1..];
    }
  }

  /** Dropping the commas of `"x, y, z"` leaves `"x y z"`. */
  lemma {:induction false} ListedJoin(xs: seq<string>)
    requires forall k :: 0 <= k < |xs| ==> ',' !in xs[k]
    ensures Without(Listed(xs), ',') == Join(xs, ' ')
    decreases |xs|
  {
    if |xs| == 1 {
      WithoutAbsent(xs[0], ',');
    } else if |xs| > 1 {
      ListedJoin(xs[1..]);
      WithoutAppend(xs[0] + ", ", Listed(xs[1..]), ',');
      WithoutAppend(xs[0], ", ", ',');
      WithoutAbsent(xs[0], ',');
      assert Without(", ", ',') == " ";
    }
  }

  lemma {:induction false} SwapAppend(a: string, b: string, x: char, y: char)
    ensures Swap(a + b, x, y) == Swap(a, x, y) + Swap(b, x, y)
    decreases |a|
  {
    if a != [] {
      SwapAppend(a[1..], b, x, y);
      var h := [if a[0] == x then y else a[0]];
      assert (a + b)[0] == a[0] && (a + b)[1..] == a[1..] + b;
      calc {
        Swap(a + b, x, y);
        h + Swap(a[1..] + b, x, y);
        h + (Swap(a[1..], x, y) + Swap(b, x, y));
        (h + Swap(a[1..], x, y)) + Swap(b, x, y);
      }
    } else {
      assert a + b == b;
    }
  }

  lemma {:induction false} SwapAbsent(a: string, x: char, y: char)
    requires x !in a
    ensures Swap(a, x, y) == a
    decreases |a|
  {
    if a != [] {
      SwapAbsent(a[1..], x, y);
      assert a == [a[0]] + a[1..];
    }
  }

  /** Turning the spaces of `"x y z"` into commas gives `"x,y,z"`. */
  lemma {:induction false} SwapJoin(xs: seq<string>)
    requires forall k :: 0 <= k < |xs| ==> ' ' !in xs[k]
    ensures Swap(Join(xs, ' '), ' ', ',') == Join(xs, ',')
    decreases |xs|
  {
    if |xs| == 1 {
      SwapAbsent(xs[0], ' ', ',');
    } else if |xs| > 1 {
      SwapJoin(xs[1..]);
      SwapAppend(xs[0] + [' '], Join(xs[1..], ' '), ' ', ',');
      SwapAppend(xs[0], [' '], ' ', ',');
      SwapAbsent(xs[0], ' ', ',');
    }
  }

  lemma {:induction false} ReadShown(u: seq<real>, show: real -> string, read: string -> Option<real>)
    requires Inverse(show, read, Numbers(LeafShape(u)))
    ensures ReadAll(Shown(u, show), read) == Some(u)
    decreases |u|
  {
    if u != [] {
      assert forall x :: x in u[1..] ==> x in u;
      ReadShown(u[1..], show, read);
      assert Shown(u, show)[1..] == Shown(u[1..], show);
      InverseAt(show, read, Numbers(LeafShape(u)), u[0]);
      assert [u[0]] + u[1..] == u;
    }
  }

  /** A leaf's line reads back as its utilities. */
  lemma LeafLineReads(u: seq<real>, show: real -> string, read: string -> Option<real>)
    requires Inverse(show, read, Numbers(LeafShape(u)))
    ensures Classify(LineOf(LeafShape(u), show), read) == LeafLine(Some(u))
    ensures '\n' !in LineOf(LeafShape(u), show)
  {
    var xs := Shown(u, show);
    forall k | 0 <= k < |xs| ensures Plain(xs[k]) && xs[k] != "" {
      InverseAt(show, read, Numbers(LeafShape(u)), u[k]);
    }
    ListedJoin(xs);
    var w := Join(xs, ' ');
    var line := LineOf(LeafShape(u), show);
    assert line == "l " + w;
    assert Tail2(line) == w;
    JoinAvoids(xs, ' ', '\n');
    if u != [] {
      assert w != "" by {
        if |xs| > 1 {
          assert w == xs[0] + [' '] + Join(xs[1..], ' ');
        }
      }
      SwapJoin(xs);
      JoinSplit(xs, ',');
      ReadShown(u, show, read);
    }
  }

  /** The fields of a decision node's line. */
  function NodePieces(s: Shape): seq<string>
    requires s.DecisionShape?
  {
    ["n", NatToString(|s.children|), IntToString(s.player), IntToString(s.infoset)]
    + (if s.prob.Some? then [s.prob.value] else [])
  }

  /** A decision node's line is its fields joined by spaces. */
  lemma NodeLineJoin(s: Shape, show: real -> string)
    requires s.DecisionShape?
    ensures LineOf(s, show) == Join(NodePieces(s), ' ')
  {
    DecisionLineJoin(|s.children|, s.player, s.infoset, s.prob);
  }

  lemma DecisionLineJoin(n: nat, player: int, infoset: int, prob: Option<string>)
    ensures DecisionLine(n, player, infoset, prob)
      == Join(["n", NatToString(n), IntToString(player), IntToString(infoset)] + (if prob.Some? then [prob.value] else []), ' ')
  {
    var opt := if prob.Some? then [prob.value] else [];
    var tail := if prob.Some? then " " + prob.value else "";
    var q3 := [IntToString(infoset)] + opt;
    if prob.Some? {
      JoinCons(IntToString(infoset), opt, ' ');
    } else {
      assert q3 == [IntToString(infoset)];
    }
    JoinCons(IntToString(player), q3, ' ');
    var q2 := [IntToString(player)] + q3;
    JoinCons(NatToString(n), q2, ' ');
    var q1 := [NatToString(n)] + q2;
    JoinCons("n", q1, ' ');
    assert ["n", NatToString(n), IntToString(player), IntToString(infoset)] + opt == ["n"] + q1;
    SpacedLine(NatToString(n), IntToString(player), IntToString(infoset), tail);
  }

  lemma SpacedLine(a: string, b: string, c: string, t: string)
    ensures "n " + a + " " + b + " " + c + t == "n" + [' '] + (a + [' '] + (b + [' '] + (c + t)))
  {
  }

  /** A decision node's line splits into its fields, and holds no newline. */
  lemma NodeLineSplits(s: Shape, show: real -> string)
    requires s.DecisionShape? && (s.prob.Some? ==> ' ' !in s.prob.value && '\n' !in s.prob.value)
    ensures Split(LineOf(s, show), ' ') == NodePieces(s)
    ensures '\n' !in LineOf(s, show)
  {
    var ps := NodePieces(s);
    var n := |s.children|;
    assert IntToString(n) == NatToString(n);
    NumberPlain(n);
    NumberPlain(s.player);
    NumberPlain(s.infoset);
    NodeLineJoin(s, show);
    JoinSplit(ps, ' ');
    JoinAvoids(ps, ' ', '\n');
  }

  /** A decision node's line reads back as its child count, player, label and probability
      (`PText` of the written text, -1 when there is none). */
  lemma NodeLineReads(s: Shape, show: real -> string, read: string -> Option<real>)
    requires s.DecisionShape? && (s.prob.Some? ==> ' ' !in s.prob.value && '\n' !in s.prob.value)
    ensures Classify(LineOf(s, show), read)
      == NodeLine(Success((|s.children|, s.player, s.infoset,
                           if s.prob.Some? then PText(s.prob.value) else PNum(-1.0))))
    ensures '\n' !in LineOf(s, show)
  {
    NodeLineSplits(s, show);
    var ps := NodePieces(s);
    var n := |s.children|;
    assert IntToString(n) == NatToString(n);
    ParseIntOfIntToString(n);
    ParseIntOfIntToString(s.player);
    ParseIntOfIntToString(s.infoset);
    assert IntAt(ps, 1) == Success(n);
    assert IntAt(ps, 2) == Success(s.player);
    assert IntAt(ps, 3) == Success(s.infoset);
    assert LineOf(s, show)[0] == 'n';
  }

  /** A chance node's line splits into `c` and its child count. */
  lemma ChanceLineSplits(s: Shape, show: real -> string)
    requires s.ChanceShape?
    ensures Split(LineOf(s, show), ' ') == ["c", NatToString(|s.children|)]
    ensures '\n' !in LineOf(s, show)
  {
    var n := |s.children|;
    assert IntToString(n) == NatToString(n);
    NumberPlain(n);
    assert Join(["c", NatToString(n)], ' ') == LineOf(s, show);
    JoinSplit(["c", NatToString(n)], ' ');
    JoinAvoids(["c", NatToString(n)], ' ', '\n');
  }

  /** No line written for a tidy subtree holds a newline. */
  lemma {:induction false} LinesFlat(s: Shape, show: real -> string, read: string -> Option<real>)
    requires Inverse(show, read, Numbers(s)) && Tidy(s)
    ensures forall k :: 0 <= k < |LinesOf(s, show)| ==> '\n' !in LinesOf(s, show)[k]
    decreases s, 1
  {
    KidsFlat(s, 0, show, read);
    match s
    case LeafShape(u) => LeafLineReads(u, show, read);
    case ChanceShape(_) => ChanceLineSplits(s, show);
    case DecisionShape(_, _, _, _) => NodeLineReads(s, show, read);
  }

  lemma {:induction false} KidsFlat(s: Shape, k: nat, show: real -> string, read: string -> Option<real>)
    requires Inverse(show, read, Numbers(s)) && Tidy(s)
    ensures forall j :: 0 <= j < |KidsLines(s, k, show)| ==> '\n' !in KidsLines(s, k, show)[j]
    decreases s, 0, if s.LeafShape? then 0 else |s.children| - k
  {
    if !s.LeafShape? && k < |s.children| {
      KidNumbers(s, k);
      LinesFlat(s.children[k], show, read);
      KidsFlat(s, k + 1, show, read);
    }
  }

  /** `Unlines` is a newline join with an empty last piece. */
  lemma {:induction false} UnlinesJoin(ls: seq<string>)
    ensures Unlines(ls) == Join(ls + [""], '\n')
    decreases |ls|
  {
    if ls != [] {
      UnlinesJoin(ls[1..]);
      assert (ls + [""])[1..] == ls[1..] + [""];
    }
  }

  /** `b` is `a` after reading below `par`: records are added at the end, every old record
      other than `par` is kept, and `par` keeps its core while its children, action names and
      probabilities only gain entries at the end. */
  ghost predicate Extends(a: seq<NodeRec>, b: seq<NodeRec>, par: nat)
  {
    par < |a| <= |b|
    && (forall j :: 0 <= j < |a| && j != par ==> b[j] == a[j])
    && Core(b[par]) == Core(a[par])
    && a[par].children <= b[par].children
    && a[par].distribution <= b[par].distribution
  }

  /** The subtree of `c` only depends on the records from `c` on. */
  lemma {:induction false} ShapeFrame(a: seq<NodeRec>, b: seq<NodeRec>, c: nat, show: real -> string)
    requires Linked(a) && Linked(b) && c < |a| <= |b|
    requires forall j :: c <= j < |a| ==> b[j] == a[j]
    ensures forall prob :: ShapeOf(b, c, prob, show) == ShapeOf(a, c, prob, show)
    ensures KidShapes(b, c, show) == KidShapes(a, c, show)
    decreases |a| - c
  {
    assert WellLinked(a, c);
    var ks := a[c].children;
    forall k | 0 <= k < |ks|
      ensures KidShapes(b, c, show)[k] == KidShapes(a, c, show)[k]
    {
      ShapeFrame(a, b, ks[k], show);
    }
  }

  /** Reading below `par` keeps the subtrees of the children it already had. */
  lemma KidsKept(a: seq<NodeRec>, b: seq<NodeRec>, par: nat, show: real -> string)
    requires Linked(a) && Linked(b) && Extends(a, b, par)
    ensures KidShapes(b, par, show)[..|a[par].children|] == KidShapes(a, par, show)
  {
    assert WellLinked(a, par);
    var ks := a[par].children;
    forall k | 0 <= k < |ks|
      ensures KidShapes(b, par, show)[k] == KidShapes(a, par, show)[k]
    {
      ShapeFrame(a, b, ks[k], show);
      assert ProbAt(b[par], k, show) == ProbAt(a[par], k, show);
    }
  }

  /** Appending a child to `par` extends the table below `par`. */
  lemma AttachExtends(ns: seq<NodeRec>, par: nat, child: NodeRec, prob: Prob, name: string)
    requires par < |ns|
    ensures Extends(ns, AttachChild(ns, par, child, prob, name), par)
  {
    AttachFacts(ns, par, child, prob, name);
  }

  /** Reading below the new last child `n` of `par` still only extends the table below `par`. */
  lemma ExtendsBelow(a: seq<NodeRec>, c: seq<NodeRec>, d: seq<NodeRec>, par: nat, n: nat)
    requires Extends(a, c, par) && Extends(c, d, n) && n == |a|
    ensures Extends(a, d, par) && d[par] == c[par]
  {
  }

  /** Extending twice below `par` extends below `par`. */
  lemma ExtendsTrans(a: seq<NodeRec>, c: seq<NodeRec>, d: seq<NodeRec>, par: nat)
    requires Extends(a, c, par) && Extends(c, d, par)
    ensures Extends(a, d, par)
  {
    assert a[par].children <= d[par].children;
    assert a[par].distribution <= d[par].distribution;
  }

  /** The `k`-th child subtree of `par`. */
  lemma KidAt(d: seq<NodeRec>, par: nat, k: nat, show: real -> string)
    requires Linked(d) && par < |d| && k < |d[par].children|
    ensures WellLinked(d, par) && KidShapes(d, par, show)[k] == ShapeOf(d, d[par].children[k], ProbAt(d[par], k, show), show)
  {
    assert WellLinked(d, par);
  }

  /** Reading below `par` that added one child with subtree `x` appends `x` to the subtrees
      of `par`. */
  lemma LastKid(a: seq<NodeRec>, d: seq<NodeRec>, par: nat, x: Shape, show: real -> string)
    requires Linked(a) && Linked(d) && Extends(a, d, par) && |d[par].children| == |a[par].children| + 1
    requires KidShapes(d, par, show)[|a[par].children|] == x
    ensures KidShapes(d, par, show) == KidShapes(a, par, show) + [x]
  {
    KidsKept(a, d, par, show);
    var ks := KidShapes(d, par, show);
    assert ks == ks[..|a[par].children|] + [ks[|a[par].children|]];
  }

  /** A leaf's lines add the leaf with its utilities. */
  lemma ReadsLeaf(b: Build, players: int, par: nat, u: seq<real>, rest: seq<string>,
                  show: real -> string, read: string -> Option<real>)
    requires Inverse(show, read, Numbers(LeafShape(u))) && par < |b.nodes|
    ensures Sub(b, players, par, LinesOf(LeafShape(u), show) + rest, read) == Success((WithLeaf(b, players, par, u), rest))
  {
    var s := LeafShape(u);
    LeafLineReads(u, show, read);
    assert KidsLines(s, 0, show) == [];
    var lines := LinesOf(s, show) + rest;
    assert lines[0] == LineOf(s, show) && lines[1..] == rest;
  }

  /** A decision node's lines add the node with its player, label and probability, then read
      its children below it. */
  lemma ReadsNode(b: Build, players: int, par: nat, s: Shape, rest: seq<string>,
                  show: real -> string, read: string -> Option<real>)
    requires par < |b.nodes|
    requires s.DecisionShape? && (s.prob.Some? ==> ' ' !in s.prob.value && '\n' !in s.prob.value)
    ensures var pr := if s.prob.Some? then PText(s.prob.value) else PNum(-1.0);
      Sub(b, players, par, LinesOf(s, show) + rest, read)
      == Kids(WithNode(b, s.player, s.infoset, par, pr), players, |b.nodes|, |s.children|, KidsLines(s, 0, show) + rest, read)
  {
    NodeLineReads(s, show, read);
    var more := KidsLines(s, 0, show) + rest;
    SubApply(b, players, par, LineOf(s, show), more, read);
    assert LinesOf(s, show) + rest == [LineOf(s, show)] + more;
  }

  /** `Sub` applies the first line. */
  lemma SubApply(b: Build, players: int, par: nat, line: string, more: seq<string>, read: string -> Option<real>)
    requires par < |b.nodes|
    ensures Sub(b, players, par, [line] + more, read) == Apply(b, players, par, line, more, read)
  {
    assert ([line] + more)[0] == line && ([line] + more)[1..] == more;
  }

  /** The state reading the lines of subtree `s` below `par` reaches: its leaf added, or its
      decision node added and its children read below it. */
  ghost function BuildSub(b: Build, players: int, par: nat, s: Shape): (r: Build)
    requires par < |b.nodes|
    ensures |r.nodes| >= |b.nodes|
    decreases s, 1
  {
    match s
    case LeafShape(u) => WithLeaf(b, players, par, u)
    case ChanceShape(_) => b
    case DecisionShape(p, h, prob, ks) =>
      BuildKids(WithNode(b, p, h, par, if prob.Some? then PText(prob.value) else PNum(-1.0)), players, |b.nodes|, s, 0)
  }

  /** The state reached by reading the children of `s` from the `k`-th on below `par`. */
  ghost function BuildKids(b: Build, players: int, par: nat, s: Shape, k: nat): (r: Build)
    requires par < |b.nodes|
    ensures |r.nodes| >= |b.nodes|
    decreases s, 0, if s.LeafShape? then 0 else |s.children| - k
  {
    if s.LeafShape? || k >= |s.children| then b
    else BuildKids(BuildSub(b, players, par, s.children[k]), players, par, s, k + 1)
  }

  /** Reading a subtree's lines below `par` succeeds with state `b1` and leaves `tail`. */
  ghost predicate SubReads(b: Build, players: int, par: nat, lines: seq<string>, b1: Build, tail: seq<string>,
                           read: string -> Option<real>)
  {
    par < |b.nodes| && Sub(b, players, par, lines, read) == Success((b1, tail))
  }

  /** A successful first child followed by the remaining ones is a successful loop. */
  lemma KidsAfter(b: Build, b1: Build, d: Build, players: int, par: nat, s: Shape, k: nat, rest: seq<string>,
                  show: real -> string, read: string -> Option<real>)
    requires ReadsKid(b, players, par, s, k, rest, b1, show, read)
    requires ReadsKids(b1, players, par, s, k + 1, rest, d, show, read)
    ensures ReadsKids(b, players, par, s, k, rest, d, show, read)
  {
    KidsStep(b, players, par, |s.children| - k, KidsLines(s, k, show) + rest, read);
  }

  lemma AppendStep(a: seq<Shape>, b: seq<Shape>, d: seq<Shape>, x: Shape, xs: seq<Shape>, ys: seq<Shape>)
    requires b == a + [x] && d == b + xs && ys == [x] + xs
    ensures d == a + ys
  {
  }

  lemma KidsLinesCons(s: Shape, k: nat, rest: seq<string>, show: real -> string)
    requires !s.LeafShape? && k < |s.children|
    ensures KidsLines(s, k, show) + rest == LinesOf(s.children[k], show) + (KidsLines(s, k + 1, show) + rest)
  {
  }

  /** `d` is the state `BuildSub` gives. */
  ghost predicate SubBuilt(b: Build, players: int, par: nat, s: Shape, d: Build)
  {
    par < |b.nodes| && BuildSub(b, players, par, s) == d
  }

  /** `d` is the state `BuildKids` gives. */
  ghost predicate KidsBuilt(b: Build, players: int, par: nat, s: Shape, k: nat, d: Build)
  {
    par < |b.nodes| && BuildKids(b, players, par, s, k) == d
  }

  /** Reading the lines of the `k`-th child of `s` below `par` reaches `d` and leaves the lines
      of the later children. */
  ghost predicate ReadsKid(b: Build, players: int, par: nat, s: Shape, k: nat, rest: seq<string>, d: Build,
                           show: real -> string, read: string -> Option<real>)
  {
    !s.LeafShape? && k < |s.children| && par < |b.nodes|
    && Sub(b, players, par, KidsLines(s, k, show) + rest, read) == Success((d, KidsLines(s, k + 1, show) + rest))
  }

  /** Reading the lines of the children of `s` from the `k`-th on below `par` reaches `d` and
      leaves `rest`. */
  ghost predicate ReadsKids(b: Build, players: int, par: nat, s: Shape, k: nat, rest: seq<string>, d: Build,
                            show: real -> string, read: string -> Option<real>)
  {
    !s.LeafShape? && k <= |s.children| && par < |b.nodes|
    && Kids(b, players, par, |s.children| - k, KidsLines(s, k, show) + rest, read) == Success((d, rest))
  }

  /** The lines of a readable subtree, read below `par`, reach `BuildSub` and leave the lines
      after them. */
  lemma {:induction false} SubParse(s: Shape, b: Build, players: int, par: nat, under: bool, rest: seq<string>,
                                    show: real -> string, read: string -> Option<real>) returns (d: Build)
    requires Inverse(show, read, Numbers(s)) && par < |b.nodes| && Readable(s, players, under)
    ensures SubBuilt(b, players, par, s, d) && SubReads(b, players, par, LinesOf(s, show) + rest, d, rest, read)
    decreases s, 2
  {
    if s.LeafShape? {
      ReadsLeaf(b, players, par, s.utility, rest, show, read);
      d := WithLeaf(b, players, par, s.utility);
    } else {
      d := NodeParse(s, b, players, par, under, rest, show, read);
    }
  }

  /** The decision-node case of `SubParse`. */
  lemma {:induction false} NodeParse(s: Shape, b: Build, players: int, par: nat, under: bool, rest: seq<string>,
                                     show: real -> string, read: string -> Option<real>) returns (d: Build)
    requires Inverse(show, read, Numbers(s)) && par < |b.nodes| && s.DecisionShape? && Readable(s, players, under)
    ensures SubBuilt(b, players, par, s, d) && SubReads(b, players, par, LinesOf(s, show) + rest, d, rest, read)
    decreases s, 1
  {
    ReadsNode(b, players, par, s, rest, show, read);
    var c := WithNode(b, s.player, s.infoset, par, if s.prob.Some? then PText(s.prob.value) else PNum(-1.0));
    d := KidsParse(s, 0, c, players, |b.nodes|, false, rest, show, read);
  }

  /** The `k`-th child of `s` read below `par`. */
  lemma {:induction false} KidParse(s: Shape, k: nat, b: Build, players: int, par: nat, under: bool,
                                    rest: seq<string>, show: real -> string, read: string -> Option<real>)
    returns (d: Build)
    requires Inverse(show, read, Numbers(s)) && !s.LeafShape? && k < |s.children| && par < |b.nodes|
    requires Readable(s.children[k], players, under)
    ensures SubBuilt(b, players, par, s.children[k], d) && ReadsKid(b, players, par, s, k, rest, d, show, read)
    decreases s, 0, |s.children| - k, 1
  {
    KidsLinesCons(s, k, rest, show);
    KidNumbers(s, k);
    d := SubParse(s.children[k], b, players, par, under, KidsLines(s, k + 1, show) + rest, show, read);
  }

  /** The lines of the children of `s` from the `k`-th on, read below `par`, reach `BuildKids`
      and leave the lines after them. */
  lemma {:induction false} KidsParse(s: Shape, k: nat, b: Build, players: int, par: nat, under: bool,
                                     rest: seq<string>, show: real -> string, read: string -> Option<real>)
    returns (d: Build)
    requires Inverse(show, read, Numbers(s)) && !s.LeafShape? && k <= |s.children| && par < |b.nodes|
    requires forall j :: k <= j < |s.children| ==> Readable(s.children[j], players, under)
    ensures KidsBuilt(b, players, par, s, k, d) && ReadsKids(b, players, par, s, k, rest, d, show, read)
    decreases s, 0, |s.children| - k, 2
  {
    if k == |s.children| {
      NoKidsRead(b, players, par, s, k, rest, show, read);
      d := b;
    } else {
      var b1 := KidParse(s, k, b, players, par, under, rest, show, read);
      d := KidsParse(s, k + 1, b1, players, par, under, rest, show, read);
      KidsAfter(b, b1, d, players, par, s, k, rest, show, read);
    }
  }

  lemma NoKidsRead(b: Build, players: int, par: nat, s: Shape, k: nat, rest: seq<string>,
                   show: real -> string, read: string -> Option<real>)
    requires !s.LeafShape? && k == |s.children| && par < |b.nodes|
    ensures ReadsKids(b, players, par, s, k, rest, b, show, read)
  {
    assert KidsLines(s, k, show) + rest == rest;
  }

  /** A readable subtree read below `par` keeps the table linked, only extends it below `par`,
      and appends exactly that subtree to the subtrees of `par`. */
  lemma {:induction false} SubShape(s: Shape, b: Build, players: int, par: nat, show: real -> string)
    requires Linked(b.nodes) && par < |b.nodes| && b.nodes[par].kind != LeafKind
    requires Readable(s, players, b.nodes[par].kind == ChanceKind)
    ensures var d := BuildSub(b, players, par, s).nodes;
      Linked(d) && Extends(b.nodes, d, par) && KidShapes(d, par, show) == KidShapes(b.nodes, par, show) + [s]
    decreases s, 2
  {
    if s.LeafShape? {
      LeafShapeAdded(s.utility, b, players, par, show);
    } else {
      NodeShape(s, b, players, par, show);
    }
  }

  /** The leaf case of `SubShape`. */
  lemma LeafShapeAdded(u: seq<real>, b: Build, players: int, par: nat, show: real -> string)
    requires Linked(b.nodes) && par < |b.nodes| && |u| == players
    ensures var d := BuildSub(b, players, par, LeafShape(u)).nodes;
      Linked(d) && Extends(b.nodes, d, par) && KidShapes(d, par, show) == KidShapes(b.nodes, par, show) + [LeafShape(u)]
  {
    var ns := b.nodes;
    var k := |ns[par].children|;
    var name := DefaultActionName(ns[par], k);
    var leaf := NodeRec(LeafKind, |ns|, -1, -1, par, ns[par].depth + 1, [], [], [], None, None, u);
    var d := WithLeaf(b, players, par, u).nodes;
    assert d == AttachChild(ns, par, leaf, PNone, name);
    AttachFacts(ns, par, leaf, PNone, name);
    AttachExtends(ns, par, leaf, PNone, name);
    AttachKeepsLinked(ns, par, leaf, PNone, name);
    KidAt(d, par, k, show);
    LastKid(ns, d, par, LeafShape(u), show);
  }

  /** The decision-node case of `SubShape`: the node is added, then its children below it. */
  lemma {:induction false} NodeShape(s: Shape, b: Build, players: int, par: nat, show: real -> string)
    requires Linked(b.nodes) && par < |b.nodes| && b.nodes[par].kind != LeafKind
    requires s.DecisionShape? && Readable(s, players, b.nodes[par].kind == ChanceKind)
    ensures var d := BuildSub(b, players, par, s).nodes;
      Linked(d) && Extends(b.nodes, d, par) && KidShapes(d, par, show) == KidShapes(b.nodes, par, show) + [s]
    decreases s, 1
  {
    var ns := b.nodes;
    var n := |ns|;
    var k := |ns[par].children|;
    var pr := if s.prob.Some? then PText(s.prob.value) else PNum(-1.0);
    var c := NodeAdded(b, par, s.player, s.infoset, pr);
    KidsShape(s, 0, c, players, n, show);
    var d := BuildKids(c, players, n, s, 0).nodes;
    assert BuildSub(b, players, par, s).nodes == d;
    ExtendsBelow(ns, c.nodes, d, par, n);
    assert WellLinked(ns, par);
    assert ProbAt(d[par], k, show) == s.prob;
    KidAt(d, par, k, show);
    LastKid(ns, d, par, s, show);
  }

  /** The children of `s` from the `k`-th on, read below `par`, keep the table linked, only
      extend it below `par`, and append exactly those subtrees to the subtrees of `par`. */
  lemma {:induction false} KidsShape(s: Shape, k: nat, b: Build, players: int, par: nat, show: real -> string)
    requires !s.LeafShape? && k <= |s.children|
    requires Linked(b.nodes) && par < |b.nodes| && b.nodes[par].kind != LeafKind
    requires forall j :: k <= j < |s.children| ==> Readable(s.children[j], players, b.nodes[par].kind == ChanceKind)
    ensures var d := BuildKids(b, players, par, s, k).nodes;
      Linked(d) && Extends(b.nodes, d, par) && KidShapes(d, par, show) == KidShapes(b.nodes, par, show) + s.children[k..]
    decreases s, 0, |s.children| - k
  {
    if k == |s.children| {
      assert s.children[k..] == [];
    } else {
      var x := s.children[k];
      SubShape(x, b, players, par, show);
      var b1 := BuildSub(b, players, par, x);
      KidsShape(s, k + 1, b1, players, par, show);
      var d := BuildKids(b1, players, par, s, k + 1);
      assert BuildKids(b, players, par, s, k) == d;
      ExtendsTrans(b.nodes, b1.nodes, d.nodes, par);
      assert s.children[k..] == [x] + s.children[k + 1..];
      AppendStep(KidShapes(b.nodes, par, show), KidShapes(b1.nodes, par, show), KidShapes(d.nodes, par, show),
                 x, s.children[k + 1..], s.children[k..]);
    }
  }

  /** `addNode` below `par` gives a linked table extending the old one below `par`, whose new
      last record is a childless decision node with the given player and label. */
  lemma NodeAdded(b: Build, par: nat, player: int, infoset: int, pr: Prob) returns (c: Build)
    requires Linked(b.nodes) && par < |b.nodes| && infoset != -1
    ensures c == WithNode(b, player, infoset, par, pr)
    ensures Linked(c.nodes) && Extends(b.nodes, c.nodes, par) && |c.nodes| == |b.nodes| + 1
    ensures Core(c.nodes[|b.nodes|]) == (DecisionKind, player, infoset, par, b.nodes[par].depth + 1, [])
    ensures c.nodes[|b.nodes|].children == []
    ensures c.nodes[par].children == b.nodes[par].children + [|b.nodes|]
    ensures c.nodes[par].distribution
      == if b.nodes[par].kind == ChanceKind then b.nodes[par].distribution + [pr] else b.nodes[par].distribution
  {
    var ns := b.nodes;
    var name := DefaultActionName(ns[par], |ns[par].children|);
    var node := NodeRec(DecisionKind, |ns|, player, infoset, par, ns[par].depth + 1, [], [], [], None, None, []);
    c := WithNode(b, player, infoset, par, pr);
    assert c.nodes == AttachChild(ns, par, node, pr, name);
    AttachFacts(ns, par, node, pr, name);
    AttachExtends(ns, par, node, pr, name);
    AttachKeepsLinked(ns, par, node, pr, name);
  }

  /** The header written for `players` and the root's player reads back. */
  lemma HeaderReads(players: int, first: int)
    ensures var line := IntToString(players) + " " + IntToString(first);
      '\n' !in line && ReadHeader(line) == Success((players, first))
  {
    var ps := [IntToString(players), IntToString(first)];
    NumberPlain(players);
    NumberPlain(first);
    assert Join(ps, ' ') == IntToString(players) + " " + IntToString(first);
    JoinAvoids(ps, ' ', '\n');
    JoinSplit(ps, ' ');
    ParseIntOfIntToString(players);
    ParseIntOfIntToString(first);
  }

  /** The root's line reads back as its child count and a root of the same kind, player and
      label. */
  lemma RootReads(root: Shape, show: real -> string)
    requires root.ChanceShape? || (root.DecisionShape? && root.prob.None?)
    ensures ReadRoot(LineOf(root, show))
      == Success((|root.children|, if root.ChanceShape? then ChanceRoot else DecisionRoot(root.player, root.infoset)))
  {
    var n := |root.children|;
    assert IntToString(n) == NatToString(n);
    ParseIntOfIntToString(n);
    if root.DecisionShape? {
      NodeLineSplits(root, show);
      ParseIntOfIntToString(root.player);
      ParseIntOfIntToString(root.infoset);
      assert LineOf(root, show)[0] == 'n';
    } else {
      ChanceLineSplits(root, show);
      assert LineOf(root, show)[0] == 'c';
    }
  }

  /** The text of a tree splits into the header and the lines of the root's subtree, and an
      empty last line. */
  lemma TextLines(players: int, ns: seq<NodeRec>, show: real -> string, read: string -> Option<real>)
    requires Linked(ns) && Inverse(show, read, Numbers(ShapeOf(ns, 0, None, show))) && Tidy(ShapeOf(ns, 0, None, show))
    ensures var lines := Split(Serialize(players, ns, show), '\n');
      var root := ShapeOf(ns, 0, None, show);
      |lines| >= 2 && lines[0] == IntToString(players) + " " + IntToString(ns[0].player)
      && lines[1] == LineOf(root, show) && lines[2..] == KidsLines(root, 0, show) + [""]
  {
    var body := LinesOf(ShapeOf(ns, 0, None, show), show);
    var header := IntToString(players) + " " + IntToString(ns[0].player);
    LinesFlat(ShapeOf(ns, 0, None, show), show, read);
    HeaderReads(players, ns[0].player);
    UnlinesJoin(body);
    var pieces := [header] + (body + [""]);
    assert Serialize(players, ns, show) == Join(pieces, '\n');
    JoinSplit(pieces, '\n');
    assert pieces[2..] == KidsLines(ShapeOf(ns, 0, None, show), 0, show) + [""];
  }

  /** `deserialize_tree` succeeds when its header, root line and the root's children do. */
  lemma ReadTreeSteps(text: string, read: string -> Option<real>, header: (int, int), root: (int, RootSpec),
                      d: Build, rest: seq<string>)
    requires var lines := Split(text, '\n');
      |lines| >= 2 && ReadHeader(lines[0]) == Success(header) && ReadRoot(lines[1]) == Success(root)
      && Kids(Build([RootRecord(root.1)], 1, 0, 0), header.0, 0, root.0, lines[2..], read) == Success((d, rest))
    ensures ReadTree(text, read) == Success((header.0, d))
  {
  }

  /** The lines of the root's children, read below a fresh root of the same kind, rebuild the
      root's subtrees and leave the empty last line. */
  lemma RootKidsRead(players: int, ns: seq<NodeRec>, show: real -> string, read: string -> Option<real>)
    returns (d: Build)
    requires Writable(players, ns, show) && Inverse(show, read, Numbers(ShapeOf(ns, 0, None, show)))
    ensures var root := ShapeOf(ns, 0, None, show);
      var spec := if root.ChanceShape? then ChanceRoot else DecisionRoot(root.player, root.infoset);
      !root.LeafShape?
      && Kids(Build([RootRecord(spec)], 1, 0, 0), players, 0, |root.children|, KidsLines(root, 0, show) + [""], read)
         == Success((d, [""]))
      && Linked(d.nodes) && KidShapes(d.nodes, 0, show) == root.children
      && Extends([RootRecord(spec)], d.nodes, 0)
  {
    var root := ShapeOf(ns, 0, None, show);
    var spec := if root.ChanceShape? then ChanceRoot else DecisionRoot(root.player, root.infoset);
    var b0 := Build([RootRecord(spec)], 1, 0, 0);
    assert WellLinked(b0.nodes, 0);
    d := KidsParse(root, 0, b0, players, 0, root.ChanceShape?, [""], show, read);
    KidsShape(root, 0, b0, players, 0, show);
    assert root.children[0..] == root.children;
  }

  /** `deserialize_tree(serialize_tree(tree))` rebuilds the tree: it succeeds, has the same
      number of players, and its root has the same subtree, node for node. */
  lemma RoundTrip(players: int, ns: seq<NodeRec>, show: real -> string, read: string -> Option<real>)
    requires Writable(players, ns, show) && Inverse(show, read, Numbers(ShapeOf(ns, 0, None, show)))
    ensures var r := ReadTree(Serialize(players, ns, show), read);
      r.Success? && r.value.0 == players && Linked(r.value.1.nodes)
      && ShapeOf(r.value.1.nodes, 0, None, show) == ShapeOf(ns, 0, None, show)
  {
    var root := ShapeOf(ns, 0, None, show);
    forall k | 0 <= k < |root.children| ensures Tidy(root.children[k]) {
      ReadableTidy(root.children[k], players, root.ChanceShape?);
    }
    TextLines(players, ns, show, read);
    var lines := Split(Serialize(players, ns, show), '\n');
    HeaderReads(players, ns[0].player);
    RootReads(root, show);
    var spec := if root.ChanceShape? then ChanceRoot else DecisionRoot(root.player, root.infoset);
    var d := RootKidsRead(players, ns, show, read);
    assert |lines| >= 2;
    assert ReadHeader(lines[0]) == Success((players, ns[0].player));
    assert ReadRoot(lines[1]) == Success((|root.children|, spec));
    ReadTreeSteps(Serialize(players, ns, show), read, (players, ns[0].player), (|root.children|, spec), d, [""]);
    assert KidShapes(d.nodes, 0, show) == root.children;
  }
}
