/** The second draft of ICFR (`icfr_.py`). It differs from the first draft in three ways.
    `createExternalRM` sets `reachability` itself, so the external minimisers are asked.
    A `tag` flag makes each information set count one sampled action per iteration, and an
    `update` flag makes it observe its utility once per iteration. Every leaf carries
    per-player reach flags that `calcReachability` derives from the sampled actions; the
    utilities summed from these flags are in `IcfrUtility`.
    The information sets are held as a map from label to fields, as in `Icfr`; the leaves'
    flags as a map from leaf path to flags; recommendations come from the stream `recs`. */
module IcfrDraft {
  import opened Wrappers
  import opened RealSeq
  import opened Strings
  import opened GameTree
  import opened Icfr
  import Dicts

  /** The fields of a `CFRInformationSet` that `icfr_.py` reads and writes. */
  datatype DraftIset = DraftIset(
    player: int,
    actionCount: nat,
    reachability: int,
    action: int,
    externalSigma: string,
    tag: bool,
    update: bool,
    utility: seq<real>,
    immUtility: seq<real>,
    muT: seq<int>,
    inRM: Minimiser,
    exRM: map<string, Minimiser>)

  type DraftState = map<int, DraftIset>

  /** `leaf.reachability` of every leaf, by the leaf's path from the root. */
  type Flags = map<seq<int>, seq<bool>>

  /** `PLAYER_COUNT` in `init`: the length of the flags `init` gives a leaf. */
  const PlayerCount := 3

  // ---------------------------------------------------------------------------------------
  // Leaves.

  /** The paths of the leaves of `n`, which sits at `path`. */
  function LeafPaths(n: Node, path: seq<int>): set<seq<int>>
    decreases n, |ChildrenOf(n)| + 1
  {
    if n.Leaf? then {path} else LeafPathsFrom(n, path, 0)
  }

  function LeafPathsFrom(n: Node, path: seq<int>, i: nat): set<seq<int>>
    requires i <= |ChildrenOf(n)|
    decreases n, |ChildrenOf(n)| - i
  {
    if i == |ChildrenOf(n)| then {} else LeafPaths(ChildrenOf(n)[i], path + [i]) + LeafPathsFrom(n, path, i + 1)
  }

  /** `path` followed by `q` reaches a leaf of `n` exactly when `path + q` is a leaf path. */
  lemma {:induction false} LeafPathsAre(n: Node, path: seq<int>, q: seq<int>)
    ensures path + q in LeafPaths(n, path) <==> ValidPath(n, q) && At(n, q).Leaf?
    decreases n, |ChildrenOf(n)| + 1
  {
    if !n.Leaf? {
      if q == [] {
        assert path + q == path;
        LeafPathsFromPrefix(n, path, 0, path);
      } else if 0 <= q[0] < |ChildrenOf(n)| {
        assert path + q == (path + [q[0]]) + q[1..];
        LeafPathsAre(ChildrenOf(n)[q[0]], path + [q[0]], q[1..]);
        LeafPathsFromHas(n, path, 0, q[0], path + q);
      } else {
        LeafPathsFromPrefix(n, path, 0, path + q);
      }
    } else if q != [] {
      assert ChildrenOf(n) == [] && !ValidPath(n, q);
      assert |path + q| != |path|;
      assert LeafPaths(n, path) == {path};
    } else {
      assert path + q == path;
    }
  }

  /** Every path in `LeafPathsFrom(n, path, i)` continues `path` with a child index `>= i`. */
  lemma {:induction false} LeafPathsFromPrefix(n: Node, path: seq<int>, i: nat, x: seq<int>)
    requires i <= |ChildrenOf(n)|
    ensures x in LeafPathsFrom(n, path, i) ==> |x| > |path| && x[..|path|] == path && i <= x[|path|] < |ChildrenOf(n)|
    decreases n, |ChildrenOf(n)| - i
  {
    if i < |ChildrenOf(n)| {
      LeafPathsPrefix(ChildrenOf(n)[i], path + [i], x);
      LeafPathsFromPrefix(n, path, i + 1, x);
      if x in LeafPaths(ChildrenOf(n)[i], path + [i]) {
        assert x[..|path| + 1] == path + [i];
        assert x[..|path|] == (path + [i])[..|path|];
      }
    }
  }

  /** Every leaf path of `n` continues `path`. */
  lemma {:induction false} LeafPathsPrefix(n: Node, path: seq<int>, x: seq<int>)
    ensures x in LeafPaths(n, path) ==> |x| >= |path| && x[..|path|] == path
    decreases n, |ChildrenOf(n)| + 1
  {
    if !n.Leaf? {
      LeafPathsFromPrefix(n, path, 0, x);
    }
  }

  /** A path that continues `path` with child `j >= i` is in `LeafPathsFrom(n, path, i)`
      exactly when it is a leaf path of child `j`. */
  lemma {:induction false} LeafPathsFromHas(n: Node, path: seq<int>, i: nat, j: int, x: seq<int>)
    requires i <= |ChildrenOf(n)| && 0 <= j < |ChildrenOf(n)|
    requires |x| > |path| && x[..|path| + 1] == path + [j]
    ensures j >= i ==> (x in LeafPathsFrom(n, path, i) <==> x in LeafPaths(ChildrenOf(n)[j], path + [j]))
    ensures j < i ==> x !in LeafPathsFrom(n, path, i)
    decreases |ChildrenOf(n)| - i
  {
    if i < |ChildrenOf(n)| {
      LeafPathsFromHas(n, path, i + 1, j, x);
      if i != j {
        LeafPathsPrefix(ChildrenOf(n)[i], path + [i], x);
        OtherChild(path, i, j, x);
      }
    }
  }

  /** A path through child `j` does not continue `path + [i]` for another `i`. */
  lemma OtherChild(path: seq<int>, i: int, j: int, x: seq<int>)
    requires i != j && |x| > |path| && x[..|path| + 1] == path + [j]
    ensures !(|x| >= |path + [i]| && x[..|path + [i]|] == path + [i])
  {
    assert x[..|path| + 1][|path|] == j;
  }

  // ---------------------------------------------------------------------------------------
  // `init`.

  /** The information set `s` as `init` leaves it at a node with `width` children. */
  function Cleared(s: DraftIset, width: nat): DraftIset
  {
    s.(externalSigma := "", tag := false, update := false, action := -1, reachability := -1,
       utility := Zeros(width), immUtility := Zeros(width))
  }

  /** The flags `init` gives a leaf. */
  function Unreached(): (r: seq<bool>)
    ensures |r| == PlayerCount && forall j :: 0 <= j < |r| ==> !r[j]
  {
    [false, false, false]
  }

  /** `init(node, player_count)` on `n` at `path`. */
  function InitWalk(n: Node, path: seq<int>, st: DraftState, lv: Flags): (r: (DraftState, Flags))
    requires Labels(n) <= st.Keys
    ensures r.0.Keys == st.Keys
    decreases n, |ChildrenOf(n)| + 1
  {
    match n
    case Leaf(_) => (st, lv[path := Unreached()])
    case Chance(_, _) => InitFrom(n, path, st, lv, 0)
    case Decision(_, h, cs) => InitFrom(n, path, st[h := Cleared(st[h], |cs|)], lv, 0)
  }

  function InitFrom(n: Node, path: seq<int>, st: DraftState, lv: Flags, i: nat): (r: (DraftState, Flags))
    requires i <= |ChildrenOf(n)| && LabelsFrom(n, i) <= st.Keys
    ensures r.0.Keys == st.Keys
    decreases n, |ChildrenOf(n)| - i
  {
    if i == |ChildrenOf(n)| then (st, lv)
    else
      var c := InitWalk(ChildrenOf(n)[i], path + [i], st, lv);
      InitFrom(n, path, c.0, c.1, i + 1)
  }

  /** Every decision node of `n` has as many children as its information set has actions. */
  ghost predicate Widths(n: Node, st: DraftState)
    decreases n, |ChildrenOf(n)| + 1
  {
    (n.Decision? ==> n.infoset in st && |n.children| == st[n.infoset].actionCount) && WidthsFrom(n, st, 0)
  }

  ghost predicate WidthsFrom(n: Node, st: DraftState, i: nat)
    requires i <= |ChildrenOf(n)|
    decreases n, |ChildrenOf(n)| - i
  {
    i < |ChildrenOf(n)| ==> Widths(ChildrenOf(n)[i], st) && WidthsFrom(n, st, i + 1)
  }

  /** Two states with the same action counts. */
  ghost predicate SameCounts(st: DraftState, st': DraftState)
  {
    forall h :: h in st ==> h in st' && st'[h].actionCount == st[h].actionCount
  }

  lemma {:induction false} WidthsKept(n: Node, st: DraftState, st': DraftState)
    requires Widths(n, st) && SameCounts(st, st')
    ensures Widths(n, st')
    decreases n, |ChildrenOf(n)| + 1
  {
    WidthsKeptFrom(n, st, st', 0);
  }

  lemma {:induction false} WidthsKeptFrom(n: Node, st: DraftState, st': DraftState, i: nat)
    requires i <= |ChildrenOf(n)| && WidthsFrom(n, st, i) && SameCounts(st, st')
    ensures WidthsFrom(n, st', i)
    decreases n, |ChildrenOf(n)| - i
  {
    if i < |ChildrenOf(n)| {
      WidthsKept(ChildrenOf(n)[i], st, st');
      WidthsKeptFrom(n, st, st', i + 1);
    }
  }

  /** What `init` leaves: every information set of `n` cleared, with zero utilities as long
      as its action count; every leaf of `n` with all-False flags; nothing else changed. */
  ghost predicate Initialised(labels: set<int>, leaves: set<seq<int>>, st: DraftState, lv: Flags, r: (DraftState, Flags))
  {
    (forall h :: h in st ==> h in r.0 && r.0[h] == if h in labels then Cleared(st[h], st[h].actionCount) else st[h]) &&
    r.1.Keys == lv.Keys + leaves &&
    forall x :: x in r.1 ==> r.1[x] == if x in leaves then Unreached() else lv[x]
  }

  lemma {:induction false} InitResets(n: Node, path: seq<int>, st: DraftState, lv: Flags)
    requires Labels(n) <= st.Keys && Widths(n, st)
    ensures Initialised(Labels(n), LeafPaths(n, path), st, lv, InitWalk(n, path, st, lv))
    decreases n, |ChildrenOf(n)| + 1
  {
    match n
    case Leaf(_) =>
    case Chance(_, _) =>
      InitFromResets(n, path, st, lv, 0);
    case Decision(_, h, cs) =>
      var st1 := st[h := Cleared(st[h], |cs|)];
      WidthsKeptFrom(n, st, st1, 0);
      InitFromResets(n, path, st1, lv, 0);
  }

  lemma {:induction false} InitFromResets(n: Node, path: seq<int>, st: DraftState, lv: Flags, i: nat)
    requires i <= |ChildrenOf(n)| && LabelsFrom(n, i) <= st.Keys && WidthsFrom(n, st, i)
    ensures Initialised(LabelsFrom(n, i), LeafPathsFrom(n, path, i), st, lv, InitFrom(n, path, st, lv, i))
    decreases n, |ChildrenOf(n)| - i
  {
    if i < |ChildrenOf(n)| {
      var c := InitWalk(ChildrenOf(n)[i], path + [i], st, lv);
      InitResets(ChildrenOf(n)[i], path + [i], st, lv);
      assert SameCounts(st, c.0);
      WidthsKeptFrom(n, st, c.0, i + 1);
      InitFromResets(n, path, c.0, c.1, i + 1);
      InitialisedJoin(Labels(ChildrenOf(n)[i]), LabelsFrom(n, i + 1), LeafPaths(ChildrenOf(n)[i], path + [i]),
        LeafPathsFrom(n, path, i + 1), st, lv, c, InitFrom(n, path, c.0, c.1, i + 1));
    }
  }

  lemma InitialisedJoin(a: set<int>, b: set<int>, la: set<seq<int>>, lb: set<seq<int>>, st: DraftState, lv: Flags,
      c: (DraftState, Flags), r: (DraftState, Flags))
    requires Initialised(a, la, st, lv, c) && Initialised(b, lb, c.0, c.1, r)
    ensures Initialised(a + b, la + lb, st, lv, r)
  {
  }

  /** `init(node, player_count)` on `n` at `path`. */
  method Init(n: Node, path: seq<int>, st: DraftState, lv: Flags) returns (r: DraftState, rv: Flags)
    requires Labels(n) <= st.Keys
    ensures (r, rv) == InitWalk(n, path, st, lv)
    decreases n, 1
  {
    r, rv := st, lv;
    if n.Leaf? {
      rv := rv[path := [false, false, false]];
      return;
    }
    if n.Decision? {
      var h := n.infoset;
      var s := r[h];
      r := r[h := s.(externalSigma := "", tag := false, update := false, action := -1, reachability := -1,
        utility := Zeros(|n.children|), immUtility := Zeros(|n.children|))];
    }
    ghost var whole := InitWalk(n, path, st, lv);
    var i := 0;
    while i < |n.children|
      invariant 0 <= i <= |n.children| && LabelsFrom(n, i) <= r.Keys
      invariant InitFrom(n, path, r, rv, i) == whole
    {
      r, rv := Init(n.children[i], path + [i], r, rv);
      i := i + 1;
    }
  }

  // ---------------------------------------------------------------------------------------
  // `createExternalRM`.

  /** The minimisers with one for `key` added, with `count` actions, unless one exists. */
  function Created(m: map<string, Minimiser>, key: string, count: nat): (r: map<string, Minimiser>)
    ensures r.Keys == m.Keys + {key}
    ensures forall k :: k in m ==> r[k] == m[k]
    ensures key !in m ==> r[key] == Minimiser(count, [], [])
  {
    if key in m then m else m[key := Minimiser(count, [], [])]
  }

  /** One node of information set `h` as `createExternalRM` leaves it, for a parent of player
      `p` with `externalsigma` `sigma`: an information set of player `p` becomes externally
      reached (0) under `sigma`, with its minimiser for `sigma.h`; any other is left as is. */
  function Marked(s: DraftIset, h: int, p: int, sigma: string): DraftIset
  {
    if s.player == p then s.(reachability := 0, externalSigma := sigma, exRM := Created(s.exRM, Key(sigma, h), s.actionCount))
    else s
  }

  /** `createExternalRM(node, exiset)` with `exiset`'s player `p` and `externalsigma` `sigma`;
      a chance node has no information set, which is Python's `AttributeError`. */
  function CreateWalk(n: Node, st: DraftState, p: int, sigma: string): (r: Result<DraftState>)
    requires Labels(n) <= st.Keys
    ensures r.Success? ==> r.value.Keys == st.Keys
    decreases n, |ChildrenOf(n)| + 1
  {
    match n
    case Leaf(_) => Success(st)
    case Chance(_, _) => Failure("AttributeError")
    case Decision(_, h, _) => CreateFrom(n, st[h := Marked(st[h], h, p, sigma)], p, sigma, 0)
  }

  function CreateFrom(n: Node, st: DraftState, p: int, sigma: string, i: nat): (r: Result<DraftState>)
    requires i <= |ChildrenOf(n)| && LabelsFrom(n, i) <= st.Keys
    ensures r.Success? ==> r.value.Keys == st.Keys
    decreases n, |ChildrenOf(n)| - i
  {
    if i == |ChildrenOf(n)| then Success(st)
    else
      var st1 :- CreateWalk(ChildrenOf(n)[i], st, p, sigma);
      CreateFrom(n, st1, p, sigma, i + 1)
  }

  /** Marking twice is marking once. */
  lemma MarkedTwice(s: DraftIset, h: int, p: int, sigma: string)
    ensures Marked(Marked(s, h, p, sigma), h, p, sigma) == Marked(s, h, p, sigma)
  {
  }

  /** `createExternalRM` fails exactly on subtrees with a chance node; otherwise it marks
      every information set of the subtree and changes nothing else. */
  lemma {:induction false} CreateEffect(n: Node, st: DraftState, p: int, sigma: string)
    requires Labels(n) <= st.Keys
    ensures CreateWalk(n, st, p, sigma).Failure? <==> HasChance(n)
    ensures CreateWalk(n, st, p, sigma).Success? ==> forall h :: h in st ==>
      CreateWalk(n, st, p, sigma).value[h] == if h in Labels(n) then Marked(st[h], h, p, sigma) else st[h]
    decreases n, |ChildrenOf(n)| + 1
  {
    match n
    case Leaf(_) =>
    case Chance(_, _) =>
    case Decision(_, h, _) =>
      CreateFromEffect(n, st[h := Marked(st[h], h, p, sigma)], p, sigma, 0);
      MarkedTwice(st[h], h, p, sigma);
  }

  lemma {:induction false} CreateFromEffect(n: Node, st: DraftState, p: int, sigma: string, i: nat)
    requires i <= |ChildrenOf(n)| && LabelsFrom(n, i) <= st.Keys
    ensures CreateFrom(n, st, p, sigma, i).Failure? <==> HasChanceFrom(n, i)
    ensures CreateFrom(n, st, p, sigma, i).Success? ==> forall h :: h in st ==>
      CreateFrom(n, st, p, sigma, i).value[h] == if h in LabelsFrom(n, i) then Marked(st[h], h, p, sigma) else st[h]
    decreases n, |ChildrenOf(n)| - i
  {
    if i < |ChildrenOf(n)| {
      var c := ChildrenOf(n)[i];
      CreateEffect(c, st, p, sigma);
      if CreateWalk(c, st, p, sigma).Success? {
        var st1 := CreateWalk(c, st, p, sigma).value;
        CreateFromEffect(n, st1, p, sigma, i + 1);
        forall h | h in st && h in Labels(c)
          ensures Marked(st1[h], h, p, sigma) == Marked(st[h], h, p, sigma)
        {
          MarkedTwice(st[h], h, p, sigma);
        }
      }
    }
  }

  /** Below a decision of player `p`, `createExternalRM` makes every information set of
      player `p` externally reached (0) under `sigma`, with a minimiser for `sigma.h` (a new
      one with the set's action count unless one exists), and leaves the reachability,
      signal and minimisers of every other information set as they were. */
  lemma CreateMarks(n: Node, st: DraftState, p: int, sigma: string, h: int)
    requires Labels(n) <= st.Keys && h in st && CreateWalk(n, st, p, sigma).Success?
    ensures var s := CreateWalk(n, st, p, sigma).value[h];
      if h in Labels(n) && st[h].player == p then
        s.reachability == 0 && s.externalSigma == sigma && Key(sigma, h) in s.exRM &&
        (Key(sigma, h) !in st[h].exRM ==> s.exRM[Key(sigma, h)] == Minimiser(st[h].actionCount, [], [])) &&
        forall k :: k in st[h].exRM ==> k in s.exRM && s.exRM[k] == st[h].exRM[k]
      else
        s.reachability == st[h].reachability && s.externalSigma == st[h].externalSigma && s.exRM == st[h].exRM
  {
    CreateEffect(n, st, p, sigma);
  }

  /** `createExternalRM(node, exiset)`. */
  method CreateExternalRm(n: Node, st: DraftState, p: int, sigma: string) returns (r: Result<DraftState>)
    requires Labels(n) <= st.Keys
    ensures r == CreateWalk(n, st, p, sigma)
    decreases n, 1
  {
    if n.Leaf? {
      return Success(st);
    }
    if n.Chance? {
      return Failure("AttributeError");
    }
    var h := n.infoset;
    var s := st[h];
    if s.player == p {
      s := s.(reachability := 0, externalSigma := sigma);
      var key := sigma + "." + IntToString(h);
      if key !in s.exRM {
        s := s.(exRM := s.exRM[key := Minimiser(s.actionCount, [], [])]);
      }
    }
    var cur := st[h := s];
    ghost var whole := CreateWalk(n, st, p, sigma);
    var i := 0;
    while i < |n.children|
      invariant 0 <= i <= |n.children| && LabelsFrom(n, i) <= cur.Keys
      invariant CreateFrom(n, cur, p, sigma, i) == whole
    {
      var c := CreateExternalRm(n.children[i], cur, p, sigma);
      if c.Failure? {
        return Failure(c.error);
      }
      cur := c.value;
      i := i + 1;
    }
    r := Success(cur);
  }

  // ---------------------------------------------------------------------------------------
  // `ICFR_sampling`.

  /** The plan sampled so far, the state, and the number of recommendations read. */
  datatype DraftSampled = DraftSampled(plan: map<int, int>, st: DraftState, k: nat)

  /** `ICFR_sampling(node)`, the minimisers recommending `recs(k)`, `recs(k + 1)`, ... A set
      already reached (1) re-plans its stored action; on its first visit (-1) it asks its
      internal minimiser, becomes reached, and runs `createExternalRM` under the other
      children; an externally reached set not yet tagged asks its keyed external minimiser. */
  function SampleWalk(n: Node, st: DraftState, recs: nat -> int, k: nat): (r: Result<DraftSampled>)
    requires Labels(n) <= st.Keys
    ensures r.Success? ==> r.value.st.Keys == st.Keys
    decreases n, |ChildrenOf(n)| + 2
  {
    match n
    case Leaf(_) => Success(DraftSampled(map[], st, k))
    case Chance(_, _) => SampleFrom(n, map[], st, recs, k, 0)
    case Decision(_, h, _) =>
      var s := st[h];
      if s.reachability == 1 then SampleFrom(n, map[h := s.action], st, recs, k, 0)
      else if s.reachability == -1 then
        var a := recs(k);
        var sigma := IntToString(h) + "." + IntToString(a);
        var st1 := st[h := s.(reachability := 1, inRM := Recommended(s.inRM, a), action := a, externalSigma := sigma)];
        var st2 :- Branches(n, st1, a, s.player, sigma, 0);
        Tag(n, a, st2, recs, k + 1)
      else if s.tag then SampleFrom(n, map[], st, recs, k, 0)
      else
        var key := Key(s.externalSigma, h);
        if key !in s.exRM then Failure("KeyError")
        else
          var a := recs(k);
          Tag(n, a, st[h := s.(exRM := s.exRM[key := Recommended(s.exRM[key], a)], action := a)], recs, k + 1)
  }

  /** `createExternalRM` under every child but the sampled one. */
  function Branches(n: Node, st: DraftState, a: int, p: int, sigma: string, i: nat): (r: Result<DraftState>)
    requires i <= |ChildrenOf(n)| && LabelsFrom(n, i) <= st.Keys
    ensures r.Success? ==> r.value.Keys == st.Keys
    decreases |ChildrenOf(n)| - i
  {
    if i == |ChildrenOf(n)| then Success(st)
    else if i == a then Branches(n, st, a, p, sigma, i + 1)
    else
      var st1 :- CreateWalk(ChildrenOf(n)[i], st, p, sigma);
      Branches(n, st1, a, p, sigma, i + 1)
  }

  /** The `tag` block: an untagged set records action `a` in the plan and in `mu_T` and
      becomes tagged; then the children are sampled. */
  function Tag(n: Node, a: int, st: DraftState, recs: nat -> int, k: nat): (r: Result<DraftSampled>)
    requires n.Decision? && Labels(n) <= st.Keys
    ensures r.Success? ==> r.value.st.Keys == st.Keys
    decreases n, |ChildrenOf(n)| + 1
  {
    var h := n.infoset;
    var s := st[h];
    if s.tag then SampleFrom(n, map[], st, recs, k, 0)
    else
      var j := PyIndex(|s.muT|, a);
      if !(0 <= j < |s.muT|) then Failure("IndexError")
      else SampleFrom(n, map[h := a], st[h := s.(action := a, muT := s.muT[j := s.muT[j] + 1], tag := true)], recs, k, 0)
  }

  function SampleFrom(n: Node, plan: map<int, int>, st: DraftState, recs: nat -> int, k: nat, i: nat): (r: Result<DraftSampled>)
    requires i <= |ChildrenOf(n)| && LabelsFrom(n, i) <= st.Keys
    ensures r.Success? ==> r.value.st.Keys == st.Keys
    decreases n, |ChildrenOf(n)| - i
  {
    if i == |ChildrenOf(n)| then Success(DraftSampled(plan, st, k))
    else
      var c :- SampleWalk(ChildrenOf(n)[i], st, recs, k);
      SampleFrom(n, Merge(plan, c.plan), c.st, recs, c.k, i + 1)
  }

  /** A reached (1) set is tagged and an unvisited (-1) one is not. `init` leaves every set
      unvisited and untagged, and sampling keeps this. */
  ghost predicate Consistent(st: DraftState)
  {
    forall h :: h in st ==> (st[h].reachability == 1 ==> st[h].tag) && (st[h].reachability == -1 ==> !st[h].tag)
  }

  /** Every entry of `plan` is the action of a tagged set. */
  ghost predicate PlanFits(plan: map<int, int>, st: DraftState)
  {
    forall h :: h in plan ==> h in st && st[h].tag && plan[h] == st[h].action
  }

  /** `r` is `st` after sampling the sets `labels` on top of `plan`: each of them ends up
      tagged, its `mu_T` counts one more action exactly when it was untagged, an untagged one
      enters the plan, a tagged one keeps its action, and every plan entry is its set's
      action. */
  ghost predicate Once(labels: set<int>, plan: map<int, int>, st: DraftState, r: DraftSampled)
  {
    Consistent(r.st) && PlanFits(r.plan, r.st) &&
    plan.Keys <= r.plan.Keys <= plan.Keys + labels &&
    forall h :: h in st ==> (h in r.st &&
      |r.st[h].muT| == |st[h].muT| &&
      r.st[h].tag == (st[h].tag || h in labels) &&
      Total(r.st[h].muT) == Total(st[h].muT) + (if st[h].tag || h !in labels then 0 else 1) &&
      (st[h].tag ==> r.st[h].action == st[h].action) &&
      (h in labels && !st[h].tag ==> h in r.plan))
  }

  /** Sampling from a consistent state tags every information set of `n` once: `mu_T` counts
      one action for each set that was untagged, however many of its nodes are visited, and
      the plan holds the action of each of them. */
  lemma {:induction false} SampleOnce(n: Node, st: DraftState, recs: nat -> int, k: nat)
    requires Labels(n) <= st.Keys && Consistent(st) && SampleWalk(n, st, recs, k).Success?
    ensures Once(Labels(n), map[], st, SampleWalk(n, st, recs, k).value)
    decreases n, |ChildrenOf(n)| + 2
  {
    match n
    case Leaf(_) =>
    case Chance(_, _) =>
      SampleFromOnce(n, map[], st, recs, k, 0);
    case Decision(_, h, _) =>
      var s := st[h];
      if s.reachability == 1 {
        SampleFromOnce(n, map[h := s.action], st, recs, k, 0);
      } else if s.reachability == -1 {
        var a := recs(k);
        var sigma := IntToString(h) + "." + IntToString(a);
        var st1 := st[h := s.(reachability := 1, inRM := Recommended(s.inRM, a), action := a, externalSigma := sigma)];
        BranchesMarks(n, st1, a, s.player, sigma, 0);
        var st2 := Branches(n, st1, a, s.player, sigma, 0).value;
        assert KeptBut(st, st2, h);
        TagOnce(n, a, st, st2, recs, k + 1);
      } else if s.tag {
        SampleFromOnce(n, map[], st, recs, k, 0);
      } else {
        var key := Key(s.externalSigma, h);
        var a := recs(k);
        var st1 := st[h := s.(exRM := s.exRM[key := Recommended(s.exRM[key], a)], action := a)];
        TagOnce(n, a, st, st1, recs, k + 1);
      }
  }

  /** `st'` differs from `st` only in reachabilities set to 0, signals and minimisers. */
  ghost predicate Kept(st: DraftState, st': DraftState)
  {
    forall g :: g in st ==> (g in st' &&
      st'[g].tag == st[g].tag && st'[g].muT == st[g].muT &&
      (st'[g].reachability == st[g].reachability || st'[g].reachability == 0) &&
      (st[g].tag ==> st'[g].action == st[g].action))
  }

  /** `st'` is `st` up to what `Kept` allows, except at `h`. */
  ghost predicate KeptBut(st: DraftState, st': DraftState, h: int)
  {
    forall g :: g in st && g != h ==> (g in st' &&
      st'[g].tag == st[g].tag && st'[g].muT == st[g].muT &&
      (st'[g].reachability == st[g].reachability || st'[g].reachability == 0) &&
      (st[g].tag ==> st'[g].action == st[g].action))
  }

  /** The `tag` block of an untagged set, after its own step has left it untagged, with its
      `mu_T` as before and not unvisited. */
  lemma TagOnce(n: Node, a: int, st: DraftState, st1: DraftState, recs: nat -> int, k: nat)
    requires n.Decision? && Labels(n) <= st.Keys && Consistent(st) && !st[n.infoset].tag
    requires st1.Keys == st.Keys && KeptBut(st, st1, n.infoset)
    requires !st1[n.infoset].tag && st1[n.infoset].muT == st[n.infoset].muT && st1[n.infoset].reachability != -1
    requires Tag(n, a, st1, recs, k).Success?
    ensures Once(Labels(n), map[], st, Tag(n, a, st1, recs, k).value)
    decreases n, |ChildrenOf(n)| + 1
  {
    var st3 := TagStep(n, a, st, st1, recs, k);
    SampleFromOnce(n, map[n.infoset := a], st3, recs, k, 0);
    OnceOwn(n, st, st3, Tag(n, a, st1, recs, k).value);
  }

  lemma TagStep(n: Node, a: int, st: DraftState, st1: DraftState, recs: nat -> int, k: nat) returns (st3: DraftState)
    requires n.Decision? && Labels(n) <= st.Keys && Consistent(st) && !st[n.infoset].tag
    requires st1.Keys == st.Keys && KeptBut(st, st1, n.infoset)
    requires !st1[n.infoset].tag && st1[n.infoset].muT == st[n.infoset].muT && st1[n.infoset].reachability != -1
    requires Tag(n, a, st1, recs, k).Success?
    ensures st3.Keys == st.Keys && KeptBut(st, st3, n.infoset) && Consistent(st3)
    ensures st3[n.infoset].tag && st3[n.infoset].action == a && |st3[n.infoset].muT| == |st[n.infoset].muT|
    ensures Total(st3[n.infoset].muT) == Total(st[n.infoset].muT) + 1
    ensures Tag(n, a, st1, recs, k) == SampleFrom(n, map[n.infoset := a], st3, recs, k, 0)
  {
    var h := n.infoset;
    var s := st1[h];
    var j := PyIndex(|s.muT|, a);
    st3 := st1[h := s.(action := a, muT := s.muT[j := s.muT[j] + 1], tag := true)];
    TotalBump(s.muT, j);
  }

  lemma OnceOwn(n: Node, st: DraftState, st3: DraftState, r: DraftSampled)
    requires n.Decision? && n.infoset in st && !st[n.infoset].tag && st3.Keys == st.Keys
    requires KeptBut(st, st3, n.infoset)
    requires st3[n.infoset].tag && |st3[n.infoset].muT| == |st[n.infoset].muT|
    requires Total(st3[n.infoset].muT) == Total(st[n.infoset].muT) + 1
    requires Once(LabelsFrom(n, 0), map[n.infoset := st3[n.infoset].action], st3, r)
    ensures Once(Labels(n), map[], st, r)
  {
  }

  /** `createExternalRM` under the other children keeps what `Kept` names. */
  lemma {:induction false} BranchesMarks(n: Node, st: DraftState, a: int, p: int, sigma: string, i: nat)
    requires i <= |ChildrenOf(n)| && LabelsFrom(n, i) <= st.Keys && Branches(n, st, a, p, sigma, i).Success?
    ensures Kept(st, Branches(n, st, a, p, sigma, i).value)
    decreases |ChildrenOf(n)| - i
  {
    if i < |ChildrenOf(n)| && i != a {
      var c := ChildrenOf(n)[i];
      CreateEffect(c, st, p, sigma);
      var st1 := CreateWalk(c, st, p, sigma).value;
      assert Kept(st, st1);
      BranchesMarks(n, st1, a, p, sigma, i + 1);
      KeptTrans(st, st1, Branches(n, st, a, p, sigma, i).value);
    } else if i < |ChildrenOf(n)| {
      BranchesMarks(n, st, a, p, sigma, i + 1);
    }
  }

  lemma KeptTrans(st: DraftState, st1: DraftState, st2: DraftState)
    requires Kept(st, st1) && Kept(st1, st2)
    ensures Kept(st, st2)
  {
  }

  lemma {:induction false} SampleFromOnce(n: Node, plan: map<int, int>, st: DraftState, recs: nat -> int, k: nat, i: nat)
    requires i <= |ChildrenOf(n)| && LabelsFrom(n, i) <= st.Keys && Consistent(st) && PlanFits(plan, st)
    requires SampleFrom(n, plan, st, recs, k, i).Success?
    ensures Once(LabelsFrom(n, i), plan, st, SampleFrom(n, plan, st, recs, k, i).value)
    decreases n, |ChildrenOf(n)| - i
  {
    if i < |ChildrenOf(n)| {
      var c := SampleWalk(ChildrenOf(n)[i], st, recs, k).value;
      SampleOnce(ChildrenOf(n)[i], st, recs, k);
      assert PlanFits(Merge(plan, c.plan), c.st);
      SampleFromOnce(n, Merge(plan, c.plan), c.st, recs, c.k, i + 1);
      OnceJoin(Labels(ChildrenOf(n)[i]), LabelsFrom(n, i + 1), plan, st, c,
        SampleFrom(n, Merge(plan, c.plan), c.st, recs, c.k, i + 1).value);
    }
  }

  lemma OnceJoin(a: set<int>, b: set<int>, plan: map<int, int>, st: DraftState, c: DraftSampled, r: DraftSampled)
    requires PlanFits(plan, st) && Once(a, map[], st, c) && Once(b, Merge(plan, c.plan), c.st, r)
    ensures Once(a + b, plan, st, r)
  {
  }

  /** Sampling right after `init`, on a state whose keys are the information sets of the
      tree: the plan has an entry for every information set, the action that set stores, and
      every `mu_T` counts exactly one more action. */
  lemma SampleAfterInit(root: Node, st: DraftState, lv: Flags, recs: nat -> int, k: nat)
    requires st.Keys == Labels(root) && Widths(root, st)
    requires SampleWalk(root, InitWalk(root, [], st, lv).0, recs, k).Success?
    ensures var r := SampleWalk(root, InitWalk(root, [], st, lv).0, recs, k).value;
      r.plan.Keys == st.Keys &&
      forall h :: h in st ==> (r.st[h].tag && r.plan[h] == r.st[h].action &&
        |r.st[h].muT| == |st[h].muT| && Total(r.st[h].muT) == Total(st[h].muT) + 1)
  {
    InitResets(root, [], st, lv);
    var st0 := InitWalk(root, [], st, lv).0;
    assert Consistent(st0);
    SampleOnce(root, st0, recs, k);
    var r := SampleWalk(root, st0, recs, k).value;
    assert forall h :: h in st ==> h in r.plan;
  }

  /** `ICFR_sampling(node)`, reading the minimisers' recommendations from `recs` at `k`. */
  method IcfrSampling(n: Node, st: DraftState, recs: nat -> int, k: nat) returns (r: Result<DraftSampled>)
    requires Labels(n) <= st.Keys
    ensures r == SampleWalk(n, st, recs, k)
    decreases n, 2
  {
    if n.Chance? {
      r := SampleChildren(n, map[], st, recs, k);
      return;
    }
    if n.Leaf? {
      return Success(DraftSampled(map[], st, k));
    }
    var h := n.infoset;
    var s := st[h];
    if s.reachability == 1 {
      r := SampleChildren(n, map[h := s.action], st, recs, k);
      return;
    }
    var cur := st;
    var next := k;
    var a := 0;
    if s.reachability == -1 {
      a := recs(k);
      next := k + 1;
      var sigma := IntToString(h) + "." + IntToString(a);
      cur := st[h := s.(reachability := 1, inRM := Recommended(s.inRM, a), action := a, externalSigma := sigma)];
      var b := CreateBranches(n, cur, a, s.player, sigma);
      if b.Failure? {
        return Failure(b.error);
      }
      cur := b.value;
    } else if !s.tag {
      var key := Key(s.externalSigma, h);
      if key !in s.exRM {
        return Failure("KeyError");
      }
      a := recs(k);
      next := k + 1;
      cur := st[h := s.(exRM := s.exRM[key := Recommended(s.exRM[key], a)], action := a)];
    }
    var plan: map<int, int> := map[];
    var s2 := cur[h];
    if !s2.tag {
      var j := PyIndex(|s2.muT|, a);
      if !(0 <= j < |s2.muT|) {
        return Failure("IndexError");
      }
      plan := map[h := a];
      cur := cur[h := s2.(action := a, muT := s2.muT[j := s2.muT[j] + 1], tag := true)];
    }
    r := SampleChildren(n, plan, cur, recs, next);
  }

  /** The loop running `createExternalRM` under every child but the sampled one. */
  method CreateBranches(n: Node, st: DraftState, a: int, p: int, sigma: string) returns (r: Result<DraftState>)
    requires Labels(n) <= st.Keys
    ensures r == Branches(n, st, a, p, sigma, 0)
    decreases n, 0
  {
    ghost var whole := Branches(n, st, a, p, sigma, 0);
    var cur := st;
    var i := 0;
    while i < |ChildrenOf(n)|
      invariant 0 <= i <= |ChildrenOf(n)| && LabelsFrom(n, i) <= cur.Keys
      invariant Branches(n, cur, a, p, sigma, i) == whole
    {
      if i != a {
        var c := CreateExternalRm(ChildrenOf(n)[i], cur, p, sigma);
        if c.Failure? {
          return Failure(c.error);
        }
        cur := c.value;
      }
      i := i + 1;
    }
    r := Success(cur);
  }

  /** The loop sampling the children and merging their plans into `plan`. */
  method SampleChildren(n: Node, plan: map<int, int>, st: DraftState, recs: nat -> int, k: nat) returns (r: Result<DraftSampled>)
    requires Labels(n) <= st.Keys
    ensures r == SampleFrom(n, plan, st, recs, k, 0)
    decreases n, 1
  {
    ghost var whole := SampleFrom(n, plan, st, recs, k, 0);
    var acc := DraftSampled(plan, st, k);
    var i := 0;
    while i < |ChildrenOf(n)|
      invariant 0 <= i <= |ChildrenOf(n)| && LabelsFrom(n, i) <= acc.st.Keys
      invariant SampleFrom(n, acc.plan, acc.st, recs, acc.k, i) == whole
    {
      var c := IcfrSampling(ChildrenOf(n)[i], acc.st, recs, acc.k);
      if c.Failure? {
        return Failure(c.error);
      }
      acc := DraftSampled(Merge(acc.plan, c.value.plan), c.value.st, c.value.k);
      i := i + 1;
    }
    r := Success(acc);
  }

  // ---------------------------------------------------------------------------------------
  // `calcReachability`.

  /** The flags handed to child `i` of `n`: a decision node clears its set's player for every
      child but the stored action, and anything else passes a copy through unchanged. A
      player index outside the flags is an `IndexError`. */
  function ChildFlags(n: Node, st: DraftState, v: seq<bool>, i: int): (r: Result<seq<bool>>)
    requires n.Decision? ==> n.infoset in st
    ensures r.Success? ==> r.value == Step(n, st, v, i)
  {
    if n.Decision? && i != st[n.infoset].action then
      var j := PyIndex(|v|, st[n.infoset].player);
      if 0 <= j < |v| then Success(v[j := false]) else Failure("IndexError")
    else Success(v)
  }

  /** `ChildFlags` with an out-of-range player leaving the flags alone. */
  function Step(n: Node, st: DraftState, v: seq<bool>, i: int): (r: seq<bool>)
    ensures |r| == |v|
  {
    if n.Decision? && n.infoset in st && i != st[n.infoset].action &&
      0 <= PyIndex(|v|, st[n.infoset].player) < |v|
    then v[PyIndex(|v|, st[n.infoset].player) := false]
    else v
  }

  /** The flags the leaf at `q` below `n` receives when `n` is handed `v`. */
  function FlagsAlong(n: Node, q: seq<int>, st: DraftState, v: seq<bool>): (r: seq<bool>)
    requires ValidPath(n, q)
    decreases |q|
  {
    if q == [] then v else FlagsAlong(ChildrenOf(n)[q[0]], q[1..], st, Step(n, st, v, q[0]))
  }

  /** Some decision node on the path `q` below `n` whose information set's player is flag
      `j` takes a child other than the set's stored action. */
  ghost predicate Deviates(n: Node, q: seq<int>, st: DraftState, j: int, width: nat)
    requires ValidPath(n, q)
    decreases |q|
  {
    q != [] &&
    ((n.Decision? && n.infoset in st && q[0] != st[n.infoset].action && PyIndex(width, st[n.infoset].player) == j) ||
     Deviates(ChildrenOf(n)[q[0]], q[1..], st, j, width))
  }

  /** A leaf's flag for player `j` is set exactly when it was set on entry and no decision of
      player `j` on the way down deviates from the stored action. */
  lemma {:induction false} FlagsMeaning(n: Node, q: seq<int>, st: DraftState, v: seq<bool>)
    requires ValidPath(n, q)
    ensures |FlagsAlong(n, q, st, v)| == |v|
    ensures forall j :: 0 <= j < |v| ==> (FlagsAlong(n, q, st, v)[j] <==> v[j] && !Deviates(n, q, st, j, |v|))
    decreases |q|
  {
    if q != [] {
      FlagsMeaning(ChildrenOf(n)[q[0]], q[1..], st, Step(n, st, v, q[0]));
    }
  }

  /** `calcReachability(node, reachability)` on `n` at `path`, with the leaves' flags in `lv`. */
  function CalcReach(n: Node, path: seq<int>, st: DraftState, v: seq<bool>, lv: Flags): (r: Result<Flags>)
    requires Labels(n) <= st.Keys
    decreases n, |ChildrenOf(n)| + 1
  {
    if n.Leaf? then Success(lv[path := v]) else CalcFrom(n, path, st, v, lv, 0)
  }

  function CalcFrom(n: Node, path: seq<int>, st: DraftState, v: seq<bool>, lv: Flags, i: nat): (r: Result<Flags>)
    requires i <= |ChildrenOf(n)| && LabelsFrom(n, i) <= st.Keys && (n.Decision? ==> n.infoset in st)
    decreases n, |ChildrenOf(n)| - i
  {
    if i == |ChildrenOf(n)| then Success(lv)
    else
      var w :- ChildFlags(n, st, v, i);
      var lv1 :- CalcReach(ChildrenOf(n)[i], path + [i], st, w, lv);
      CalcFrom(n, path, st, v, lv1, i + 1)
  }

  /** `r` is `lv` with every leaf in `leaves` (below `n` at `path`) given the flags carried
      down to it. */
  ghost predicate Calced(n: Node, path: seq<int>, st: DraftState, v: seq<bool>, lv: Flags, leaves: set<seq<int>>, r: Flags)
  {
    r.Keys == lv.Keys + leaves &&
    forall x :: x in r ==>
      if x in leaves then |x| >= |path| && ValidPath(n, x[|path|..]) && r[x] == FlagsAlong(n, x[|path|..], st, v)
      else r[x] == lv[x]
  }

  lemma {:induction false} CalcEffect(n: Node, path: seq<int>, st: DraftState, v: seq<bool>, lv: Flags)
    requires Labels(n) <= st.Keys && CalcReach(n, path, st, v, lv).Success?
    ensures Calced(n, path, st, v, lv, LeafPaths(n, path), CalcReach(n, path, st, v, lv).value)
    decreases n, |ChildrenOf(n)| + 1
  {
    if n.Leaf? {
      assert path[|path|..] == [];
    } else {
      CalcFromEffect(n, path, st, v, lv, 0);
    }
  }

  lemma {:induction false} CalcFromEffect(n: Node, path: seq<int>, st: DraftState, v: seq<bool>, lv: Flags, i: nat)
    requires i <= |ChildrenOf(n)| && LabelsFrom(n, i) <= st.Keys && (n.Decision? ==> n.infoset in st)
    requires CalcFrom(n, path, st, v, lv, i).Success?
    ensures Calced(n, path, st, v, lv, LeafPathsFrom(n, path, i), CalcFrom(n, path, st, v, lv, i).value)
    decreases n, |ChildrenOf(n)| - i
  {
    if i < |ChildrenOf(n)| {
      var c := ChildrenOf(n)[i];
      var w := ChildFlags(n, st, v, i).value;
      var lv1 := CalcReach(c, path + [i], st, w, lv).value;
      CalcEffect(c, path + [i], st, w, lv);
      CalcFromEffect(n, path, st, v, lv1, i + 1);
      ChildCalced(n, path, st, v, lv, i, lv1);
      CalcedJoin(n, path, st, v, lv, i, lv1, CalcFrom(n, path, st, v, lv1, i + 1).value);
    }
  }

  /** The leaves of child `i` are none of the later children's, and get the flags carried
      down from `n`. */
  lemma ChildCalced(n: Node, path: seq<int>, st: DraftState, v: seq<bool>, lv: Flags, i: nat, lv1: Flags)
    requires i < |ChildrenOf(n)|
    requires Calced(ChildrenOf(n)[i], path + [i], st, Step(n, st, v, i), lv, LeafPaths(ChildrenOf(n)[i], path + [i]), lv1)
    ensures forall x :: x in LeafPaths(ChildrenOf(n)[i], path + [i]) ==>
      x !in LeafPathsFrom(n, path, i + 1) && |x| >= |path| && ValidPath(n, x[|path|..]) &&
      lv1[x] == FlagsAlong(n, x[|path|..], st, v)
  {
    forall x | x in LeafPaths(ChildrenOf(n)[i], path + [i])
      ensures x !in LeafPathsFrom(n, path, i + 1) && |x| >= |path| && ValidPath(n, x[|path|..])
      ensures lv1[x] == FlagsAlong(n, x[|path|..], st, v)
    {
      ChildLeaf(n, path, i, x);
      AlongChild(n, path, st, v, i, x);
    }
  }

  /** A leaf of child `i` extends `path + [i]` and is no leaf of a later child. */
  lemma ChildLeaf(n: Node, path: seq<int>, i: nat, x: seq<int>)
    requires i < |ChildrenOf(n)| && x in LeafPaths(ChildrenOf(n)[i], path + [i])
    ensures |x| > |path| && x[..|path| + 1] == path + [i] && x !in LeafPathsFrom(n, path, i + 1)
  {
    LeafPathsPrefix(ChildrenOf(n)[i], path + [i], x);
    assert x[..|path| + 1] == path + [i];
    LeafPathsFromHas(n, path, i + 1, i, x);
  }

  lemma CalcedJoin(n: Node, path: seq<int>, st: DraftState, v: seq<bool>, lv: Flags, i: nat, lv1: Flags, r: Flags)
    requires i < |ChildrenOf(n)|
    requires Calced(ChildrenOf(n)[i], path + [i], st, Step(n, st, v, i), lv, LeafPaths(ChildrenOf(n)[i], path + [i]), lv1)
    requires forall x :: x in LeafPaths(ChildrenOf(n)[i], path + [i]) ==>
      x !in LeafPathsFrom(n, path, i + 1) && |x| >= |path| && ValidPath(n, x[|path|..]) &&
      lv1[x] == FlagsAlong(n, x[|path|..], st, v)
    requires Calced(n, path, st, v, lv1, LeafPathsFrom(n, path, i + 1), r)
    ensures Calced(n, path, st, v, lv, LeafPathsFrom(n, path, i), r)
  {
    assert LeafPathsFrom(n, path, i) == LeafPaths(ChildrenOf(n)[i], path + [i]) + LeafPathsFrom(n, path, i + 1);
  }

  /** The flags carried to a leaf `x` below child `i` of `n` are those carried from child `i`
      with the flags `n` hands it. */
  lemma AlongChild(n: Node, path: seq<int>, st: DraftState, v: seq<bool>, i: int, x: seq<int>)
    requires 0 <= i < |ChildrenOf(n)| && |x| > |path| && x[..|path| + 1] == path + [i]
    requires ValidPath(ChildrenOf(n)[i], x[|path| + 1..])
    ensures ValidPath(n, x[|path|..])
    ensures FlagsAlong(n, x[|path|..], st, v) == FlagsAlong(ChildrenOf(n)[i], x[|path| + 1..], st, Step(n, st, v, i))
  {
    var q := x[|path|..];
    assert q[0] == x[..|path| + 1][|path|] == i;
    assert q[1..] == x[|path| + 1..];
  }

  /** After `calcReachability(root, [True] * player_count)`, every leaf of the tree holds
      `player_count` flags, and the flag of player `j` is False exactly when some decision of
      player `j` on the leaf's path takes a child other than the stored action. */
  lemma LeafFlags(root: Node, st: DraftState, players: nat, lv: Flags)
    requires Labels(root) <= st.Keys && CalcReach(root, [], st, seq(players, _ => true), lv).Success?
    ensures var r := CalcReach(root, [], st, seq(players, _ => true), lv).value;
      r.Keys == lv.Keys + LeafPaths(root, []) &&
      forall x :: x in LeafPaths(root, []) ==> (ValidPath(root, x) && |r[x]| == players &&
        forall j :: 0 <= j < players ==> (r[x][j] <==> !Deviates(root, x, st, j, players)))
  {
    var v := seq(players, _ => true);
    CalcEffect(root, [], st, v, lv);
    forall x | x in LeafPaths(root, [])
      ensures ValidPath(root, x) && FlagsAlong(root, x, st, v) == CalcReach(root, [], st, v, lv).value[x]
    {
      assert x[0..] == x;
    }
    forall x | x in LeafPaths(root, []) && ValidPath(root, x)
      ensures |FlagsAlong(root, x, st, v)| == players &&
        forall j :: 0 <= j < players ==> (FlagsAlong(root, x, st, v)[j] <==> !Deviates(root, x, st, j, players))
    {
      FlagsMeaning(root, x, st, v);
    }
  }

  /** `calcReachability(node, reachability)`: each child gets its own copy of the flags. */
  method CalcReachability(n: Node, path: seq<int>, st: DraftState, v: seq<bool>, lv: Flags) returns (r: Result<Flags>)
    requires Labels(n) <= st.Keys
    ensures r == CalcReach(n, path, st, v, lv)
    decreases n, 1
  {
    if n.Leaf? {
      return Success(lv[path := v]);
    }
    ghost var whole := CalcReach(n, path, st, v, lv);
    var cur := lv;
    var i := 0;
    while i < |n.children|
      invariant 0 <= i <= |n.children| && LabelsFrom(n, i) <= st.Keys
      invariant CalcFrom(n, path, st, v, cur, i) == whole
    {
      var w := v;
      if n.Decision? && i != st[n.infoset].action {
        var j := PyIndex(|v|, st[n.infoset].player);
        if !(0 <= j < |v|) {
          return Failure("IndexError");
        }
        w := v[j := false];
      }
      var c := CalcReachability(n.children[i], path + [i], st, w, cur);
      if c.Failure? {
        return Failure(c.error);
      }
      cur := c.value;
      i := i + 1;
    }
    r := Success(cur);
  }

  // ---------------------------------------------------------------------------------------
  // `ICFR_Update`.

  /** Information set `h` can take its update: it already has this iteration, or the
      minimiser it observes with exists. */
  predicate CanUpdate(s: DraftIset, h: int)
  {
    s.update || s.reachability != 0 || Key(s.externalSigma, h) in s.exRM
  }

  /** The update at a node of `h`: a set not yet updated observes its utility with `inRM`
      when `reachability` is truthy and with `exRM[externalsigma.id]` otherwise, and is
      marked updated; an updated one is left alone. */
  function UpdatedOnce(s: DraftIset, h: int): (r: DraftIset)
    requires CanUpdate(s, h)
    ensures r.update
  {
    if s.update then s
    else if s.reachability != 0 then s.(inRM := Observed(s.inRM, s.utility), update := true)
    else
      var key := Key(s.externalSigma, h);
      s.(exRM := s.exRM[key := Observed(s.exRM[key], s.utility)], update := true)
  }

  /** The `update` flag makes a second visit a no-op. */
  lemma UpdatedTwice(s: DraftIset, h: int)
    requires CanUpdate(s, h)
    ensures UpdatedOnce(UpdatedOnce(s, h), h) == UpdatedOnce(s, h)
  {
  }

  /** `ICFR_Update(node)`. */
  function UpdateWalk(n: Node, st: DraftState): (r: Result<DraftState>)
    requires Labels(n) <= st.Keys
    ensures r.Success? ==> r.value.Keys == st.Keys
    decreases n, |ChildrenOf(n)| + 1
  {
    match n
    case Leaf(_) => Success(st)
    case Chance(_, _) => UpdateFrom(n, st, 0)
    case Decision(_, h, _) =>
      if !CanUpdate(st[h], h) then Failure("KeyError") else UpdateFrom(n, st[h := UpdatedOnce(st[h], h)], 0)
  }

  function UpdateFrom(n: Node, st: DraftState, i: nat): (r: Result<DraftState>)
    requires i <= |ChildrenOf(n)| && LabelsFrom(n, i) <= st.Keys
    ensures r.Success? ==> r.value.Keys == st.Keys
    decreases n, |ChildrenOf(n)| - i
  {
    if i == |ChildrenOf(n)| then Success(st)
    else
      var st1 :- UpdateWalk(ChildrenOf(n)[i], st);
      UpdateFrom(n, st1, i + 1)
  }

  ghost predicate AllCanUpdate(hs: set<int>, st: DraftState)
  {
    forall h :: h in hs ==> h in st && CanUpdate(st[h], h)
  }

  /** `r` is `st` with every information set of `hs` updated once. */
  ghost predicate UpdatedAll(hs: set<int>, st: DraftState, r: DraftState)
  {
    forall h :: h in st ==> (h in r &&
      if h in hs then CanUpdate(st[h], h) && r[h] == UpdatedOnce(st[h], h) else r[h] == st[h])
  }

  /** `ICFR_Update` succeeds exactly when every information set of `n` can take its update,
      and then each of them observes at most once, however many nodes it has, and nothing
      else changes. */
  lemma {:induction false} UpdateEffect(n: Node, st: DraftState)
    requires Labels(n) <= st.Keys
    ensures UpdateWalk(n, st).Success? <==> AllCanUpdate(Labels(n), st)
    ensures UpdateWalk(n, st).Success? ==> UpdatedAll(Labels(n), st, UpdateWalk(n, st).value)
    decreases n, |ChildrenOf(n)| + 1
  {
    match n
    case Leaf(_) =>
    case Chance(_, _) =>
      UpdateFromEffect(n, st, 0);
    case Decision(_, h, _) =>
      if CanUpdate(st[h], h) {
        var st1 := st[h := UpdatedOnce(st[h], h)];
        UpdateFromEffect(n, st1, 0);
        UpdatedTwice(st[h], h);
        if UpdateWalk(n, st).Success? {
          UpdatedOwn(n, st, st1, UpdateWalk(n, st).value);
        }
      }
  }

  lemma UpdatedOwn(n: Node, st: DraftState, st1: DraftState, r: DraftState)
    requires n.Decision? && n.infoset in st && CanUpdate(st[n.infoset], n.infoset)
    requires st1 == st[n.infoset := UpdatedOnce(st[n.infoset], n.infoset)]
    requires UpdatedOnce(st1[n.infoset], n.infoset) == st1[n.infoset]
    requires UpdatedAll(LabelsFrom(n, 0), st1, r)
    ensures UpdatedAll(Labels(n), st, r)
  {
  }

  lemma {:induction false} UpdateFromEffect(n: Node, st: DraftState, i: nat)
    requires i <= |ChildrenOf(n)| && LabelsFrom(n, i) <= st.Keys
    ensures UpdateFrom(n, st, i).Success? <==> AllCanUpdate(LabelsFrom(n, i), st)
    ensures UpdateFrom(n, st, i).Success? ==> UpdatedAll(LabelsFrom(n, i), st, UpdateFrom(n, st, i).value)
    decreases n, |ChildrenOf(n)| - i
  {
    if i < |ChildrenOf(n)| {
      var c := ChildrenOf(n)[i];
      UpdateEffect(c, st);
      if UpdateWalk(c, st).Success? {
        var st1 := UpdateWalk(c, st).value;
        UpdateFromEffect(n, st1, i + 1);
        UpdatedStep(n, i, st, st1);
        if UpdateFrom(n, st, i).Success? {
          UpdatedJoin(n, i, st, st1, UpdateFrom(n, st, i).value);
        }
      }
    }
  }

  lemma UpdatedStep(n: Node, i: nat, st: DraftState, st1: DraftState)
    requires i < |ChildrenOf(n)| && AllCanUpdate(Labels(ChildrenOf(n)[i]), st)
    requires UpdatedAll(Labels(ChildrenOf(n)[i]), st, st1) && st1.Keys == st.Keys
    ensures AllCanUpdate(LabelsFrom(n, i + 1), st1) <==> AllCanUpdate(LabelsFrom(n, i), st)
  {
    assert LabelsFrom(n, i) == Labels(ChildrenOf(n)[i]) + LabelsFrom(n, i + 1);
  }

  lemma UpdatedJoin(n: Node, i: nat, st: DraftState, st1: DraftState, r: DraftState)
    requires i < |ChildrenOf(n)|
    requires UpdatedAll(Labels(ChildrenOf(n)[i]), st, st1)
    requires UpdatedAll(LabelsFrom(n, i + 1), st1, r)
    ensures UpdatedAll(LabelsFrom(n, i), st, r)
  {
    assert LabelsFrom(n, i) == Labels(ChildrenOf(n)[i]) + LabelsFrom(n, i + 1);
    forall h | h in st && h in Labels(ChildrenOf(n)[i]) && h in LabelsFrom(n, i + 1)
      ensures r[h] == UpdatedOnce(st[h], h)
    {
      UpdatedTwice(st[h], h);
    }
  }

  /** `ICFR_Update(node)`. */
  method IcfrUpdate(n: Node, st: DraftState) returns (r: Result<DraftState>)
    requires Labels(n) <= st.Keys
    ensures r == UpdateWalk(n, st)
    decreases n, 1
  {
    if n.Leaf? {
      return Success(st);
    }
    var cur := st;
    if n.Decision? {
      var h := n.infoset;
      var s := st[h];
      if !s.update {
        if s.reachability != 0 {
          cur := st[h := s.(inRM := Observed(s.inRM, s.utility), update := true)];
        } else {
          var key := Key(s.externalSigma, h);
          if key !in s.exRM {
            return Failure("KeyError");
          }
          cur := st[h := s.(exRM := s.exRM[key := Observed(s.exRM[key], s.utility)], update := true)];
        }
      }
      assert cur == st[h := UpdatedOnce(s, h)];
    }
    ghost var whole := UpdateWalk(n, st);
    var i := 0;
    while i < |n.children|
      invariant 0 <= i <= |n.children| && LabelsFrom(n, i) <= cur.Keys
      invariant UpdateFrom(n, cur, i) == whole
    {
      var c := IcfrUpdate(n.children[i], cur);
      if c.Failure? {
        return Failure(c.error);
      }
      cur := c.value;
      i := i + 1;
    }
    r := Success(cur);
  }

  // ---------------------------------------------------------------------------------------
  // `addMerge`.

  /** The bindings of the first `i` keys of `d`. */
  function Taken(d: Dicts.Dict<int, real>, i: nat): (r: map<int, real>)
    requires i <= |d.keys| && Dicts.Elems(d.keys) <= d.m.Keys
  {
    map k | k in d.keys[..i] :: d.m[k]
  }

  /** Taking one more key of `d`. */
  lemma TakenStep(d: Dicts.Dict<int, real>, i: nat)
    requires i < |d.keys| && Dicts.Elems(d.keys) <= d.m.Keys
    ensures d.keys[i] in d.m
    ensures Taken(d, i + 1) == Taken(d, i)[d.keys[i] := d.m[d.keys[i]]]
  {
    assert d.keys[i] in Dicts.Elems(d.keys);
    assert d.keys[..i + 1] == d.keys[..i] + [d.keys[i]];
  }

  /** The next key of a list of distinct keys is new, and adds itself to the fresh ones
      unless it is in `seen`. */
  lemma FreshStep(ks: seq<int>, i: nat, seen: set<int>)
    requires Dicts.Distinct(ks) && i < |ks|
    ensures ks[i] !in ks[..i]
    ensures Dicts.Fresh(ks[..i + 1], seen) == Dicts.Fresh(ks[..i], seen) + (if ks[i] in seen then [] else [ks[i]])
  {
    assert ks[..i + 1] == ks[..i] + [ks[i]];
    Dicts.FreshSnoc(ks[..i], ks[i], seen);
  }

  /** Overriding a key after a map union overrides it in the right operand. */
  lemma UnionPut(a: map<int, real>, b: map<int, real>, k: int, v: real)
    ensures (a + b)[k := v] == a + b[k := v]
  {
  }

  /** Appending after a concatenation appends to its right part. */
  lemma Append(a: seq<int>, b: seq<int>, k: int)
    ensures (a + b) + [k] == a + (b + [k])
  {
  }

  /** One pass of `addMerge`'s loop, on the keys: the next key of `d2` is listed after the
      merge's keys unless `d1` has it. */
  lemma MergeStepKeys(d1: Dicts.Dict<int, real>, d2: Dicts.Dict<int, real>, r: Dicts.Dict<int, real>, i: nat)
    requires Dicts.Valid(d1) && Dicts.Valid(d2) && Dicts.Valid(r) && i < |d2.keys|
    requires r.keys == d1.keys + Dicts.Fresh(d2.keys[..i], d1.m.Keys)
    requires r.m.Keys == d1.m.Keys + Dicts.Elems(d2.keys[..i])
    ensures d2.keys[i] in d2.m
    ensures Dicts.Put(r, d2.keys[i], d2.m[d2.keys[i]]).keys == d1.keys + Dicts.Fresh(d2.keys[..i + 1], d1.m.Keys)
  {
    var k := d2.keys[i];
    assert k in Dicts.Elems(d2.keys);
    FreshStep(d2.keys, i, d1.m.Keys);
    var f := Dicts.Fresh(d2.keys[..i], d1.m.Keys);
    if k in d1.m {
      assert k in r.m;
    } else {
      assert k !in r.m;
      Append(d1.keys, f, k);
    }
  }

  /** One pass of `addMerge`'s loop: writing the next key of `d2` extends the merge by it. */
  lemma MergeStep(d1: Dicts.Dict<int, real>, d2: Dicts.Dict<int, real>, r: Dicts.Dict<int, real>, i: nat)
    requires Dicts.Valid(d1) && Dicts.Valid(d2) && Dicts.Valid(r) && i < |d2.keys|
    requires r.keys == d1.keys + Dicts.Fresh(d2.keys[..i], d1.m.Keys)
    requires r.m == d1.m + Taken(d2, i)
    ensures d2.keys[i] in d2.m
    ensures Dicts.Put(r, d2.keys[i], d2.m[d2.keys[i]]).keys == d1.keys + Dicts.Fresh(d2.keys[..i + 1], d1.m.Keys)
    ensures Dicts.Put(r, d2.keys[i], d2.m[d2.keys[i]]).m == d1.m + Taken(d2, i + 1)
  {
    var k := d2.keys[i];
    TakenStep(d2, i);
    assert Taken(d2, i).Keys == Dicts.Elems(d2.keys[..i]);
    MergeStepKeys(d1, d2, r, i);
    UnionPut(d1.m, Taken(d2, i), k, d2.m[k]);
  }

  /** After the last key of `d2`, the merge is `d1.update(d2)`. */
  lemma MergeDone(d1: Dicts.Dict<int, real>, d2: Dicts.Dict<int, real>, r: Dicts.Dict<int, real>)
    requires Dicts.Valid(d1) && Dicts.Valid(d2)
    requires r.keys == d1.keys + Dicts.Fresh(d2.keys[..|d2.keys|], d1.m.Keys)
    requires r.m == d1.m + Taken(d2, |d2.keys|)
    ensures r == Dicts.Update(d1, d2)
  {
    assert d2.keys[..|d2.keys|] == d2.keys;
    assert Taken(d2, |d2.keys|) == d2.m;
  }

  /** `addMerge(d1, d2)`: both branches write `d2[k]`, so the comparison makes no difference
      and the result is `d1.update(d2)`: `d2` wins on the keys the two share, and its new keys
      follow `d1`'s in `d2`'s order. */
  method AddMerge(d1: Dicts.Dict<int, real>, d2: Dicts.Dict<int, real>) returns (r: Dicts.Dict<int, real>)
    requires Dicts.Valid(d1) && Dicts.Valid(d2)
    ensures r == Dicts.Update(d1, d2)
    ensures r.m == d1.m + d2.m
  {
    r := d1;
    assert d2.keys[..0] == [];
    assert Taken(d2, 0) == map[];
    assert d1.keys + [] == d1.keys && d1.m + map[] == d1.m;
    var i := 0;
    while i < |d2.keys|
      invariant 0 <= i <= |d2.keys| && Dicts.Valid(r)
      invariant r.keys == d1.keys + Dicts.Fresh(d2.keys[..i], d1.m.Keys)
      invariant r.m == d1.m + Taken(d2, i)
    {
      var k := d2.keys[i];
      MergeStep(d1, d2, r, i);
      if k in r.m && d2.m[k] > r.m[k] {
        r := Dicts.Put(r, k, d2.m[k]);
      } else {
        r := Dicts.Put(r, k, d2.m[k]);
      }
      i := i + 1;
    }
    MergeDone(d1, d2, r);
  }
}
