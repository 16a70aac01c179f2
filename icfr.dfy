/** The internal-regret sampling variant of `cfr_code/icfr.py`. Every information set
    holds an internal regret minimiser, a pool of external ones keyed by `signal.id`, the
    per-iteration fields `externalsigma`, `reachability` and `utility`, and the counts `mu_T`.
    One iteration resets the per-iteration fields, samples an action plan, records the
    counterfactual utilities under that plan and lets the minimisers observe them.

    The minimisers' own arithmetic is not part of this model: a minimiser is the log of what
    it recommended and of what it observed, and each recommendation is read from the stream
    `recs` (the `k`-th recommendation of the run is `recs(k)`). */
module Icfr {
  import opened Wrappers
  import opened RealSeq
  import opened Strings
  import opened GameTree
  import opened CfrWalks

  /** A regret minimiser: the size it was created with, and what it was asked and told. */
  datatype Minimiser = Minimiser(actionNumbers: nat, recommended: seq<int>, observed: seq<seq<real>>)

  /** The ICFR fields of an information set. `rechability` is the attribute that
      `createExternalRM` writes; nothing reads it. */
  datatype IcfrIset = IcfrIset(
    player: int,
    actionCount: nat,
    reachability: int,
    rechability: Option<int>,
    externalSigma: string,
    utility: seq<real>,
    muT: seq<int>,
    inRM: Minimiser,
    exRM: map<string, Minimiser>)

  type IcfrState = map<int, IcfrIset>

  // ---------------------------------------------------------------------------------------
  // Counting the decision nodes of a tree.

  /** The information sets of the decision nodes of `n`. */
  function Labels(n: Node): set<int>
    decreases n, |ChildrenOf(n)| + 1
  {
    (if n.Decision? then {n.infoset} else {}) + LabelsFrom(n, 0)
  }

  function LabelsFrom(n: Node, i: nat): set<int>
    requires i <= |ChildrenOf(n)|
    decreases n, |ChildrenOf(n)| - i
  {
    if i == |ChildrenOf(n)| then {} else Labels(ChildrenOf(n)[i]) + LabelsFrom(n, i + 1)
  }

  /** The number of decision nodes of `n` in information set `h`. */
  function Visits(n: Node, h: int): nat
    decreases n, |ChildrenOf(n)| + 1
  {
    (if n.Decision? && n.infoset == h then 1 else 0) + VisitsFrom(n, h, 0)
  }

  function VisitsFrom(n: Node, h: int, i: nat): nat
    requires i <= |ChildrenOf(n)|
    decreases n, |ChildrenOf(n)| - i
  {
    if i == |ChildrenOf(n)| then 0 else Visits(ChildrenOf(n)[i], h) + VisitsFrom(n, h, i + 1)
  }

  /** The number of decision nodes of `n`. */
  function Size(n: Node): nat
    decreases n, |ChildrenOf(n)| + 1
  {
    (if n.Decision? then 1 else 0) + SizeFrom(n, 0)
  }

  function SizeFrom(n: Node, i: nat): nat
    requires i <= |ChildrenOf(n)|
    decreases n, |ChildrenOf(n)| - i
  {
    if i == |ChildrenOf(n)| then 0 else Size(ChildrenOf(n)[i]) + SizeFrom(n, i + 1)
  }

  /** The number of decision nodes that come before the first node of `h` in a
      depth-first, left-to-right walk of `n`. */
  function First(n: Node, h: int): nat
    requires h in Labels(n)
    decreases n, |ChildrenOf(n)| + 1
  {
    if n.Decision? && n.infoset == h then 0
    else (if n.Decision? then 1 else 0) + FirstFrom(n, h, 0)
  }

  function FirstFrom(n: Node, h: int, i: nat): nat
    requires i <= |ChildrenOf(n)| && h in LabelsFrom(n, i)
    decreases n, |ChildrenOf(n)| - i
  {
    if h in Labels(ChildrenOf(n)[i]) then First(ChildrenOf(n)[i], h)
    else Size(ChildrenOf(n)[i]) + FirstFrom(n, h, i + 1)
  }

  /** A node with no information set of `h` below it is visited `h`-free. */
  lemma {:induction false} NoVisits(n: Node, h: int)
    requires h !in Labels(n)
    ensures Visits(n, h) == 0
    decreases n, |ChildrenOf(n)| + 1
  {
    NoVisitsFrom(n, h, 0);
  }

  lemma {:induction false} NoVisitsFrom(n: Node, h: int, i: nat)
    requires i <= |ChildrenOf(n)| && h !in LabelsFrom(n, i)
    ensures VisitsFrom(n, h, i) == 0
    decreases n, |ChildrenOf(n)| - i
  {
    if i < |ChildrenOf(n)| {
      NoVisits(ChildrenOf(n)[i], h);
      NoVisitsFrom(n, h, i + 1);
    }
  }

  // ---------------------------------------------------------------------------------------
  // `Merge`.

  /** `Merge(d1, d2)` updates `d2` with `d1`: the union of the two plans, `d1` winning. */
  function Merge(d1: map<int, int>, d2: map<int, int>): (r: map<int, int>)
    ensures r.Keys == d1.Keys + d2.Keys
    ensures forall h :: h in d1 ==> r[h] == d1[h]
    ensures forall h :: h in d2 && h !in d1 ==> r[h] == d2[h]
  {
    d2 + d1
  }

  // ---------------------------------------------------------------------------------------
  // `init`.

  /** Every decision node of `n` resets the per-iteration fields of its information set. */
  function InitWalk(n: Node, st: IcfrState): (r: IcfrState)
    requires Labels(n) <= st.Keys
    ensures r.Keys == st.Keys
    decreases n, |ChildrenOf(n)| + 1
  {
    match n
    case Leaf(_) => st
    case Chance(_, _) => InitFrom(n, st, 0)
    case Decision(_, h, cs) =>
      InitFrom(n, st[h := st[h].(externalSigma := "", reachability := -1, utility := Zeros(|cs|))], 0)
  }

  function InitFrom(n: Node, st: IcfrState, i: nat): (r: IcfrState)
    requires i <= |ChildrenOf(n)| && LabelsFrom(n, i) <= st.Keys
    ensures r.Keys == st.Keys
    decreases n, |ChildrenOf(n)| - i
  {
    if i == |ChildrenOf(n)| then st else InitFrom(n, InitWalk(ChildrenOf(n)[i], st), i + 1)
  }

  /** Every decision node of `n` has as many children as its information set has actions. */
  ghost predicate Widths(n: Node, st: IcfrState)
    decreases n, |ChildrenOf(n)| + 1
  {
    (n.Decision? ==> n.infoset in st && |n.children| == |st[n.infoset].muT|) && WidthsFrom(n, st, 0)
  }

  ghost predicate WidthsFrom(n: Node, st: IcfrState, i: nat)
    requires i <= |ChildrenOf(n)|
    decreases n, |ChildrenOf(n)| - i
  {
    i < |ChildrenOf(n)| ==> Widths(ChildrenOf(n)[i], st) && WidthsFrom(n, st, i + 1)
  }

  /** The information set `s` as `init` leaves it. */
  ghost predicate Reset(s: IcfrIset, s': IcfrIset)
  {
    s' == s.(externalSigma := "", reachability := -1, utility := Zeros(|s.muT|))
  }

  /** Two states hold the same `mu_T` lengths. */
  ghost predicate SameWidths(st: IcfrState, st': IcfrState)
  {
    forall h :: h in st ==> h in st' && |st'[h].muT| == |st[h].muT|
  }

  lemma {:induction false} WidthsKept(n: Node, st: IcfrState, st': IcfrState)
    requires Widths(n, st) && SameWidths(st, st')
    ensures Widths(n, st')
    decreases n, |ChildrenOf(n)| + 1
  {
    WidthsKeptFrom(n, st, st', 0);
  }

  lemma {:induction false} WidthsKeptFrom(n: Node, st: IcfrState, st': IcfrState, i: nat)
    requires i <= |ChildrenOf(n)| && WidthsFrom(n, st, i) && SameWidths(st, st')
    ensures WidthsFrom(n, st', i)
    decreases n, |ChildrenOf(n)| - i
  {
    if i < |ChildrenOf(n)| {
      WidthsKept(ChildrenOf(n)[i], st, st');
      WidthsKeptFrom(n, st, st', i + 1);
    }
  }

  /** `init` gives every information set of `n` the empty `externalsigma`, reachability -1
      and a zero utility for each of its actions, and changes nothing else. */
  lemma {:induction false} InitResets(n: Node, st: IcfrState)
    requires Labels(n) <= st.Keys && Widths(n, st)
    ensures forall h :: h in st ==>
      if h in Labels(n) then Reset(st[h], InitWalk(n, st)[h]) else InitWalk(n, st)[h] == st[h]
    decreases n, |ChildrenOf(n)| + 1
  {
    match n
    case Leaf(_) =>
    case Chance(_, _) =>
      InitFromResets(n, st, 0);
    case Decision(_, h, cs) =>
      var st1 := st[h := st[h].(externalSigma := "", reachability := -1, utility := Zeros(|cs|))];
      WidthsKeptFrom(n, st, st1, 0);
      InitFromResets(n, st1, 0);
  }

  lemma {:induction false} InitFromResets(n: Node, st: IcfrState, i: nat)
    requires i <= |ChildrenOf(n)| && LabelsFrom(n, i) <= st.Keys && WidthsFrom(n, st, i)
    ensures forall h :: h in st ==>
      if h in LabelsFrom(n, i) then Reset(st[h], InitFrom(n, st, i)[h]) else InitFrom(n, st, i)[h] == st[h]
    decreases n, |ChildrenOf(n)| - i
  {
    if i < |ChildrenOf(n)| {
      var c := ChildrenOf(n)[i];
      var st1 := InitWalk(c, st);
      InitResets(c, st);
      assert SameWidths(st, st1);
      WidthsKeptFrom(n, st, st1, i + 1);
      InitFromResets(n, st1, i + 1);
    }
  }

  // ---------------------------------------------------------------------------------------
  // `createExternalRM`.

  /** The key of the external minimiser of information set `h` under signal `sigma`. */
  function Key(sigma: string, h: int): string
  {
    sigma + "." + IntToString(h)
  }

  /** The pool update of `createExternalRM` as `icfr.py` writes it: `ExternalRM()` is called
      without the action count its constructor demands, a TypeError whenever the key is new. */
  function AddedAsWritten(m: map<string, Minimiser>, key: string): (r: Result<map<string, Minimiser>>)
    ensures r.Success? <==> key in m
    ensures r.Success? ==> r.value == m
  {
    if key in m then Success(m) else Failure("TypeError")
  }

  /** A fresh key, as on the first visit to every information set of the player, raises. */
  lemma FirstVisitRaises(h: int)
    ensures AddedAsWritten(map[], Key("", h)) == Failure("TypeError")
  {
  }

  /** `m` with a new minimiser over `count` actions under `key` unless one is there already:
      `ExternalRM(iset.action_count)`, as the second draft calls it. */
  function Added(m: map<string, Minimiser>, key: string, count: nat): (r: map<string, Minimiser>)
    ensures r.Keys == m.Keys + {key}
    ensures forall k :: k in m ==> r[k] == m[k]
    ensures key !in m ==> r[key] == Minimiser(count, [], [])
  {
    if key in m then m else m[key := Minimiser(count, [], [])]
  }

  /** The visit of `createExternalRM` to a node of information set `h`, for an information
      set of player `p` whose signal is `sigma`. */
  function Marked(s: IcfrIset, h: int, p: int, sigma: string): IcfrIset
  {
    var s1 := s.(rechability := Some(0));
    if s.player == p then s1.(externalSigma := sigma, exRM := Added(s.exRM, Key(sigma, h), s.actionCount)) else s1
  }

  /** `createExternalRM(n, exiset)` for an `exiset` of player `p` with signal `sigma`. A
      chance node has no `information_set`, so reaching one fails. */
  function CreateWalk(n: Node, st: IcfrState, p: int, sigma: string): (r: Result<IcfrState>)
    requires Labels(n) <= st.Keys
    ensures r.Success? ==> r.value.Keys == st.Keys
    decreases n, |ChildrenOf(n)| + 1
  {
    match n
    case Leaf(_) => Success(st)
    case Chance(_, _) => Failure("AttributeError")
    case Decision(_, h, _) => CreateFrom(n, st[h := Marked(st[h], h, p, sigma)], p, sigma, 0)
  }

  function CreateFrom(n: Node, st: IcfrState, p: int, sigma: string, i: nat): (r: Result<IcfrState>)
    requires i <= |ChildrenOf(n)| && LabelsFrom(n, i) <= st.Keys
    ensures r.Success? ==> r.value.Keys == st.Keys
    decreases n, |ChildrenOf(n)| - i
  {
    if i == |ChildrenOf(n)| then Success(st)
    else
      var st1 :- CreateWalk(ChildrenOf(n)[i], st, p, sigma);
      CreateFrom(n, st1, p, sigma, i + 1)
  }

  /** Whether `n` has a chance node. */
  predicate HasChance(n: Node)
    decreases n, |ChildrenOf(n)| + 1
  {
    n.Chance? || HasChanceFrom(n, 0)
  }

  predicate HasChanceFrom(n: Node, i: nat)
    requires i <= |ChildrenOf(n)|
    decreases n, |ChildrenOf(n)| - i
  {
    i < |ChildrenOf(n)| && (HasChance(ChildrenOf(n)[i]) || HasChanceFrom(n, i + 1))
  }

  /** `createExternalRM` fails exactly on subtrees with a chance node. Otherwise it marks
      every information set of the subtree once: `rechability` becomes 0 and, for the
      information sets of player `p`, `externalsigma` becomes `sigma` and the minimiser keyed
      `sigma.id` is created unless it exists. Nothing else changes; in particular
      `reachability` keeps its value. */
  lemma {:induction false} CreateEffect(n: Node, st: IcfrState, p: int, sigma: string)
    requires Labels(n) <= st.Keys
    ensures CreateWalk(n, st, p, sigma).Failure? <==> HasChance(n)
    ensures CreateWalk(n, st, p, sigma).Success? ==> forall h :: h in st ==>
      CreateWalk(n, st, p, sigma).value[h] == if h in Labels(n) then Marked(st[h], h, p, sigma) else st[h]
    decreases n, |ChildrenOf(n)| + 1
  {
    match n
    case Leaf(_) =>
    case Chance(_, _) =>
    case Decision(_, h, _) =>
      CreateFromEffect(n, st[h := Marked(st[h], h, p, sigma)], p, sigma, 0);
  }

  lemma {:induction false} CreateFromEffect(n: Node, st: IcfrState, p: int, sigma: string, i: nat)
    requires i <= |ChildrenOf(n)| && LabelsFrom(n, i) <= st.Keys
    ensures CreateFrom(n, st, p, sigma, i).Failure? <==> HasChanceFrom(n, i)
    ensures CreateFrom(n, st, p, sigma, i).Success? ==> forall h :: h in st ==>
      CreateFrom(n, st, p, sigma, i).value[h] == if h in LabelsFrom(n, i) then Marked(st[h], h, p, sigma) else st[h]
    decreases n, |ChildrenOf(n)| - i
  {
    if i < |ChildrenOf(n)| {
      var c := ChildrenOf(n)[i];
      CreateEffect(c, st, p, sigma);
      if CreateWalk(c, st, p, sigma).Success? {
        CreateFromEffect(n, CreateWalk(c, st, p, sigma).value, p, sigma, i + 1);
      }
    }
  }

  /** `createExternalRM` never changes `reachability`, and changes the minimiser pool only
      by adding the minimiser keyed `sigma.id` to information sets of player `p`. */
  lemma CreateKeepsReachability(n: Node, st: IcfrState, p: int, sigma: string, h: int)
    requires Labels(n) <= st.Keys && h in st && CreateWalk(n, st, p, sigma).Success?
    ensures CreateWalk(n, st, p, sigma).value[h].reachability == st[h].reachability
    ensures CreateWalk(n, st, p, sigma).value[h].exRM ==
      if h in Labels(n) && st[h].player == p then Added(st[h].exRM, Key(sigma, h), st[h].actionCount) else st[h].exRM
  {
    CreateEffect(n, st, p, sigma);
  }

  // ---------------------------------------------------------------------------------------
  // `ICFR_sampling`.

  /** The plan sampled so far, the state, and the number of recommendations read. */
  datatype Sampled = Sampled(plan: map<int, int>, st: IcfrState, k: nat)

  /** `m` after recommending `a`. */
  function Recommended(m: Minimiser, a: int): Minimiser
  {
    m.(recommended := m.recommended + [a])
  }

  /** `ICFR_sampling(n)`: the plan of the actions sampled at the decision nodes of `n`. */
  function SampleWalk(n: Node, st: IcfrState, recs: nat -> int, k: nat): (r: Result<Sampled>)
    requires Labels(n) <= st.Keys
    ensures r.Success? ==> r.value.st.Keys == st.Keys
    decreases n, |ChildrenOf(n)| + 2
  {
    match n
    case Leaf(_) => Success(Sampled(map[], st, k))
    case Chance(_, _) => SampleFrom(n, map[], st, recs, k, 0)
    case Decision(_, h, cs) =>
      var a := recs(k);
      var s := st[h];
      if s.reachability == 1 || s.reachability == -1 then
        var sigma := IntToString(h) + "." + IntToString(a);
        var st1 := st[h := s.(reachability := 1, inRM := Recommended(s.inRM, a), externalSigma := sigma)];
        var st2 :- Branches(n, st1, a, s.player, sigma, 0);
        Visit(n, a, st2, recs, k + 1)
      else
        var key := Key(s.externalSigma, h);
        if key !in s.exRM then Failure("KeyError")
        else Visit(n, a, st[h := s.(exRM := s.exRM[key := Recommended(s.exRM[key], a)])], recs, k + 1)
  }

  /** `createExternalRM` under every child but the sampled one. */
  function Branches(n: Node, st: IcfrState, a: int, p: int, sigma: string, i: nat): (r: Result<IcfrState>)
    requires i <= |ChildrenOf(n)| && LabelsFrom(n, i) <= st.Keys
    ensures r.Success? ==> r.value.Keys == st.Keys
    decreases |ChildrenOf(n)| - i
  {
    if i == |ChildrenOf(n)| then Success(st)
    else if i == a then Branches(n, st, a, p, sigma, i + 1)
    else
      var st1 :- CreateWalk(ChildrenOf(n)[i], st, p, sigma);
      Branches(n, st1, a, p, sigma, i + 1)
  }

  /** Counting action `a` in `mu_T`, then sampling the children. */
  function Visit(n: Node, a: int, st: IcfrState, recs: nat -> int, k: nat): (r: Result<Sampled>)
    requires n.Decision? && Labels(n) <= st.Keys
    ensures r.Success? ==> r.value.st.Keys == st.Keys
    decreases n, |ChildrenOf(n)| + 1
  {
    var h := n.infoset;
    var s := st[h];
    var j := PyIndex(|s.muT|, a);
    if !(0 <= j < |s.muT|) then Failure("IndexError")
    else SampleFrom(n, map[h := a], st[h := s.(muT := s.muT[j := s.muT[j] + 1])], recs, k, 0)
  }

  /** The children from `i` on, each child's plan merged under the plan so far. */
  function SampleFrom(n: Node, plan: map<int, int>, st: IcfrState, recs: nat -> int, k: nat, i: nat): (r: Result<Sampled>)
    requires i <= |ChildrenOf(n)| && LabelsFrom(n, i) <= st.Keys
    ensures r.Success? ==> r.value.st.Keys == st.Keys
    decreases n, |ChildrenOf(n)| - i
  {
    if i == |ChildrenOf(n)| then Success(Sampled(plan, st, k))
    else
      var c :- SampleWalk(ChildrenOf(n)[i], st, recs, k);
      SampleFrom(n, Merge(plan, c.plan), c.st, recs, c.k, i + 1)
  }

  /** `r` is what sampling `n` from the `k`-th recommendation on produces: one
      recommendation read per decision node, and a plan entry for exactly the information
      sets of `n`, each the action recommended at its first node. */
  ghost predicate Planned(n: Node, recs: nat -> int, k: nat, r: Sampled)
  {
    r.k == k + Size(n) && r.plan.Keys == Labels(n) &&
    forall h :: h in Labels(n) ==> r.plan[h] == recs(k + First(n, h))
  }

  /** `r` is what sampling the children from `i` on produces over the plan `plan`. */
  ghost predicate PlannedFrom(n: Node, i: nat, recs: nat -> int, k: nat, plan: map<int, int>, r: Sampled)
    requires i <= |ChildrenOf(n)|
  {
    r.k == k + SizeFrom(n, i) && r.plan.Keys == plan.Keys + LabelsFrom(n, i) &&
    (forall h :: h in plan ==> r.plan[h] == plan[h]) &&
    forall h :: h in LabelsFrom(n, i) && h !in plan ==> r.plan[h] == recs(k + FirstFrom(n, h, i))
  }

  /** The sampled plan has an entry for exactly the information sets of `n`: the action
      recommended at the first node of the information set, one recommendation being read
      per decision node. */
  lemma {:induction false} SamplePlan(n: Node, st: IcfrState, recs: nat -> int, k: nat)
    requires Labels(n) <= st.Keys && SampleWalk(n, st, recs, k).Success?
    ensures Planned(n, recs, k, SampleWalk(n, st, recs, k).value)
    decreases n, |ChildrenOf(n)| + 2
  {
    match n
    case Leaf(_) =>
    case Chance(_, _) =>
      SampleFromPlan(n, map[], st, recs, k, 0);
    case Decision(_, h, cs) =>
      var a := recs(k);
      var s := st[h];
      if s.reachability == 1 || s.reachability == -1 {
        var sigma := IntToString(h) + "." + IntToString(a);
        var st1 := st[h := s.(reachability := 1, inRM := Recommended(s.inRM, a), externalSigma := sigma)];
        VisitPlan(n, a, Branches(n, st1, a, s.player, sigma, 0).value, recs, k);
      } else {
        var key := Key(s.externalSigma, h);
        VisitPlan(n, a, st[h := s.(exRM := s.exRM[key := Recommended(s.exRM[key], a)])], recs, k);
      }
  }

  lemma VisitPlan(n: Node, a: int, st: IcfrState, recs: nat -> int, k: nat)
    requires n.Decision? && Labels(n) <= st.Keys && a == recs(k) && Visit(n, a, st, recs, k + 1).Success?
    ensures Planned(n, recs, k, Visit(n, a, st, recs, k + 1).value)
    decreases n, |ChildrenOf(n)| + 1
  {
    var h := n.infoset;
    var s := st[h];
    var j := PyIndex(|s.muT|, a);
    SampleFromPlan(n, map[h := a], st[h := s.(muT := s.muT[j := s.muT[j] + 1])], recs, k + 1, 0);
    PlannedOwn(n, recs, k, Visit(n, a, st, recs, k + 1).value);
  }

  lemma PlannedOwn(n: Node, recs: nat -> int, k: nat, r: Sampled)
    requires n.Decision? && PlannedFrom(n, 0, recs, k + 1, map[n.infoset := recs(k)], r)
    ensures Planned(n, recs, k, r)
  {
  }

  lemma {:induction false} SampleFromPlan(n: Node, plan: map<int, int>, st: IcfrState, recs: nat -> int, k: nat, i: nat)
    requires i <= |ChildrenOf(n)| && LabelsFrom(n, i) <= st.Keys && SampleFrom(n, plan, st, recs, k, i).Success?
    ensures PlannedFrom(n, i, recs, k, plan, SampleFrom(n, plan, st, recs, k, i).value)
    decreases n, |ChildrenOf(n)| - i
  {
    if i < |ChildrenOf(n)| {
      var c := ChildrenOf(n)[i];
      var w := SampleWalk(c, st, recs, k).value;
      SamplePlan(c, st, recs, k);
      SampleFromPlan(n, Merge(plan, w.plan), w.st, recs, w.k, i + 1);
      PlannedStep(n, i, recs, k, plan, w, SampleFrom(n, plan, st, recs, k, i).value);
    }
  }

  lemma PlannedStep(n: Node, i: nat, recs: nat -> int, k: nat, plan: map<int, int>, w: Sampled, r: Sampled)
    requires i < |ChildrenOf(n)| && Planned(ChildrenOf(n)[i], recs, k, w)
    requires PlannedFrom(n, i + 1, recs, w.k, Merge(plan, w.plan), r)
    ensures PlannedFrom(n, i, recs, k, plan, r)
  {
  }

  /** The sum of the counts in `s`. */
  function Total(s: seq<int>): int
  {
    if s == [] then 0 else s[0] + Total(s[1..])
  }

  /** Adding one to an entry adds one to the sum. */
  lemma {:induction false} TotalBump(s: seq<int>, j: nat)
    requires j < |s|
    ensures Total(s[j := s[j] + 1]) == Total(s) + 1
  {
    if j > 0 {
      assert s[j := s[j] + 1][1..] == s[1..][j - 1 := s[j] + 1];
      TotalBump(s[1..], j - 1);
    } else {
      assert s[j := s[j] + 1][1..] == s[1..];
    }
  }

  /** Every information set in `hs` has reachability 1 or -1. */
  ghost predicate TwoValued(hs: set<int>, st: IcfrState)
  {
    forall h :: h in hs ==> h in st && (st[h].reachability == 1 || st[h].reachability == -1)
  }

  /** The pool `m'` extends `m` and no external minimiser in it has been asked. */
  ghost predicate ExSilent(m: map<string, Minimiser>, m': map<string, Minimiser>)
  {
    m.Keys <= m'.Keys &&
    forall key :: key in m' ==> m'[key].recommended == if key in m then m[key].recommended else []
  }

  /** `st'` agrees with `st` on reachability, `mu_T` and the internal minimisers, and
      asked no external minimiser. */
  ghost predicate Quiet(st: IcfrState, st': IcfrState)
  {
    forall h :: h in st ==> (h in st' &&
      st'[h].reachability == st[h].reachability && st'[h].muT == st[h].muT &&
      st'[h].inRM == st[h].inRM && ExSilent(st[h].exRM, st'[h].exRM))
  }

  /** `r` is `st` after sampling `n` with reachabilities 1 and -1: every information set of
      `n` reachable (1), `mu_T` and the internal minimiser's recommendations grown by one
      per node of the information set, and no external minimiser asked. */
  ghost predicate Tallied(n: Node, st: IcfrState, r: IcfrState)
  {
    forall h :: h in st ==> (h in r &&
      r[h].reachability == (if h in Labels(n) then 1 else st[h].reachability) &&
      |r[h].muT| == |st[h].muT| && Total(r[h].muT) == Total(st[h].muT) + Visits(n, h) &&
      |r[h].inRM.recommended| == |st[h].inRM.recommended| + Visits(n, h) &&
      ExSilent(st[h].exRM, r[h].exRM))
  }

  ghost predicate TalliedFrom(n: Node, i: nat, st: IcfrState, r: IcfrState)
    requires i <= |ChildrenOf(n)|
  {
    forall h :: h in st ==> (h in r &&
      r[h].reachability == (if h in LabelsFrom(n, i) then 1 else st[h].reachability) &&
      |r[h].muT| == |st[h].muT| && Total(r[h].muT) == Total(st[h].muT) + VisitsFrom(n, h, i) &&
      |r[h].inRM.recommended| == |st[h].inRM.recommended| + VisitsFrom(n, h, i) &&
      ExSilent(st[h].exRM, r[h].exRM))
  }

  /** `st'` is `st` after the own step of a decision node of `h` (the internal
      recommendation, the external branches and the `mu_T` count). */
  ghost predicate Stepped(h: int, st: IcfrState, st': IcfrState)
  {
    forall g :: g in st ==> (g in st' &&
      st'[g].reachability == (if g == h then 1 else st[g].reachability) &&
      |st'[g].muT| == |st[g].muT| &&
      Total(st'[g].muT) == Total(st[g].muT) + (if g == h then 1 else 0) &&
      |st'[g].inRM.recommended| == |st[g].inRM.recommended| + (if g == h then 1 else 0) &&
      ExSilent(st[g].exRM, st'[g].exRM))
  }

  /** With reachabilities 1 and -1 only the internal minimisers are asked: sampling counts
      each node's action in `mu_T` once, asks the internal minimiser once per node, leaves
      every external minimiser unasked and makes every information set of `n` reachable. */
  lemma {:induction false} SampleInternal(n: Node, st: IcfrState, recs: nat -> int, k: nat)
    requires Labels(n) <= st.Keys && TwoValued(Labels(n), st) && SampleWalk(n, st, recs, k).Success?
    ensures Tallied(n, st, SampleWalk(n, st, recs, k).value.st)
    decreases n, |ChildrenOf(n)| + 2
  {
    match n
    case Leaf(_) =>
      assert forall h :: h in st ==> Visits(n, h) == 0;
    case Chance(_, _) =>
      SampleFromInternal(n, map[], st, recs, k, 0);
    case Decision(_, _, _) =>
      DecisionInternal(n, st, recs, k);
  }

  lemma {:induction false} DecisionInternal(n: Node, st: IcfrState, recs: nat -> int, k: nat)
    requires n.Decision? && Labels(n) <= st.Keys && TwoValued(Labels(n), st) && SampleWalk(n, st, recs, k).Success?
    ensures Tallied(n, st, SampleWalk(n, st, recs, k).value.st)
    decreases n, |ChildrenOf(n)| + 1
  {
    var h := n.infoset;
    var st3 := DecisionStep(n, st, recs, k);
    SteppedTwoValued(LabelsFrom(n, 0), h, st, st3);
    SampleFromInternal(n, map[h := recs(k)], st3, recs, k + 1, 0);
    TalliedVisit(n, st, st3, SampleFrom(n, map[h := recs(k)], st3, recs, k + 1, 0).value.st);
  }

  /** The own step of a decision node whose information set has reachability 1 or -1. */
  lemma DecisionStep(n: Node, st: IcfrState, recs: nat -> int, k: nat) returns (st3: IcfrState)
    requires n.Decision? && Labels(n) <= st.Keys && SampleWalk(n, st, recs, k).Success?
    requires st[n.infoset].reachability == 1 || st[n.infoset].reachability == -1
    ensures Stepped(n.infoset, st, st3) && st3.Keys == st.Keys
    ensures SampleWalk(n, st, recs, k) == SampleFrom(n, map[n.infoset := recs(k)], st3, recs, k + 1, 0)
  {
    var h := n.infoset;
    var a := recs(k);
    var s := st[h];
    var sigma := IntToString(h) + "." + IntToString(a);
    var st1 := st[h := s.(reachability := 1, inRM := Recommended(s.inRM, a), externalSigma := sigma)];
    var b := Branches(n, st1, a, s.player, sigma, 0);
    assert b.Success? && SampleWalk(n, st, recs, k) == Visit(n, a, b.value, recs, k + 1);
    var st2 := b.value;
    BranchesQuiet(n, st1, a, s.player, sigma, 0);
    var s2 := st2[h];
    var j := PyIndex(|s2.muT|, a);
    st3 := st2[h := s2.(muT := s2.muT[j := s2.muT[j] + 1])];
    assert SampleWalk(n, st, recs, k) == SampleFrom(n, map[h := a], st3, recs, k + 1, 0);
    StepInternal(h, a, sigma, j, st, st1, st2, st3);
  }

  lemma StepInternal(h: int, a: int, sigma: string, j: int, st: IcfrState, st1: IcfrState, st2: IcfrState, st3: IcfrState)
    requires h in st && (st[h].reachability == 1 || st[h].reachability == -1)
    requires st1 == st[h := st[h].(reachability := 1, inRM := Recommended(st[h].inRM, a), externalSigma := sigma)]
    requires Quiet(st1, st2) && st2.Keys == st1.Keys && 0 <= j < |st2[h].muT|
    requires st3 == st2[h := st2[h].(muT := st2[h].muT[j := st2[h].muT[j] + 1])]
    ensures Stepped(h, st, st3)
  {
    TotalBump(st2[h].muT, j);
  }

  /** Reachabilities set to 1 on `hs'` and kept elsewhere stay 1 or -1. */
  lemma TwoValuedKept(hs: set<int>, st: IcfrState, r: IcfrState, hs': set<int>)
    requires TwoValued(hs, st)
    requires forall h :: h in st ==> h in r && r[h].reachability == (if h in hs' then 1 else st[h].reachability)
    ensures TwoValued(hs, r)
  {
  }

  lemma SteppedTwoValued(hs: set<int>, h: int, st: IcfrState, st3: IcfrState)
    requires TwoValued(hs, st) && Stepped(h, st, st3)
    ensures TwoValued(hs, st3)
  {
  }

  lemma TalliedVisit(n: Node, st: IcfrState, st3: IcfrState, r: IcfrState)
    requires n.Decision? && Stepped(n.infoset, st, st3) && TalliedFrom(n, 0, st3, r)
    ensures Tallied(n, st, r)
  {
  }

  /** `createExternalRM` under the unsampled children changes no reachability, `mu_T` or
      internal minimiser, and asks no external minimiser. */
  lemma {:induction false} BranchesQuiet(n: Node, st: IcfrState, a: int, p: int, sigma: string, i: nat)
    requires i <= |ChildrenOf(n)| && LabelsFrom(n, i) <= st.Keys && Branches(n, st, a, p, sigma, i).Success?
    ensures Quiet(st, Branches(n, st, a, p, sigma, i).value)
    decreases |ChildrenOf(n)| - i
  {
    if i < |ChildrenOf(n)| && i != a {
      var c := ChildrenOf(n)[i];
      CreateQuiet(c, st, p, sigma);
      var st1 := CreateWalk(c, st, p, sigma).value;
      BranchesQuiet(n, st1, a, p, sigma, i + 1);
      QuietTrans(st, st1, Branches(n, st, a, p, sigma, i).value);
    } else if i < |ChildrenOf(n)| {
      BranchesQuiet(n, st, a, p, sigma, i + 1);
    }
  }

  lemma CreateQuiet(n: Node, st: IcfrState, p: int, sigma: string)
    requires Labels(n) <= st.Keys && CreateWalk(n, st, p, sigma).Success?
    ensures Quiet(st, CreateWalk(n, st, p, sigma).value)
  {
    CreateEffect(n, st, p, sigma);
  }

  lemma QuietTrans(st: IcfrState, st1: IcfrState, st2: IcfrState)
    requires Quiet(st, st1) && Quiet(st1, st2)
    ensures Quiet(st, st2)
  {
  }

  lemma {:induction false} SampleFromInternal(n: Node, plan: map<int, int>, st: IcfrState, recs: nat -> int, k: nat, i: nat)
    requires i <= |ChildrenOf(n)| && LabelsFrom(n, i) <= st.Keys && TwoValued(LabelsFrom(n, i), st)
    requires SampleFrom(n, plan, st, recs, k, i).Success?
    ensures TalliedFrom(n, i, st, SampleFrom(n, plan, st, recs, k, i).value.st)
    decreases n, |ChildrenOf(n)| - i
  {
    if i < |ChildrenOf(n)| {
      var c := ChildrenOf(n)[i];
      var w := SampleWalk(c, st, recs, k).value;
      SampleInternal(c, st, recs, k);
      TwoValuedKept(LabelsFrom(n, i + 1), st, w.st, Labels(c));
      SampleFromInternal(n, Merge(plan, w.plan), w.st, recs, w.k, i + 1);
      TalliedStep(n, i, st, w.st, SampleFrom(n, plan, st, recs, k, i).value.st);
    } else {
      assert forall h :: h in st ==> VisitsFrom(n, h, i) == 0;
    }
  }

  lemma TalliedStep(n: Node, i: nat, st: IcfrState, w: IcfrState, r: IcfrState)
    requires i < |ChildrenOf(n)| && Tallied(ChildrenOf(n)[i], st, w) && TalliedFrom(n, i + 1, w, r)
    ensures TalliedFrom(n, i, st, r)
  {
  }

  // ---------------------------------------------------------------------------------------
  // `ICFR_Observe`.

  /** `node.utilityFromActionPlan(plan)[player]` with the plan's entry for `n`'s information
      set switched to `a`. */
  function Switched(n: Node, plan: map<int, int>, a: int, player: int): Result<real>
    requires n.Decision?
  {
    var u :- PlanUtility(n, plan[n.infoset := a], []);
    var q := PyIndex(|u|, player);
    if 0 <= q < |u| then Success(u[q]) else Failure("IndexError")
  }

  /** `iset.utility[a]` set to the switched utility of the information set's player. */
  function Record(n: Node, plan: map<int, int>, st: IcfrState, a: nat): (r: Result<IcfrState>)
    requires n.Decision? && n.infoset in st
    ensures r.Success? ==> r.value.Keys == st.Keys
  {
    var s := st[n.infoset];
    var v :- Switched(n, plan, a, s.player);
    if a < |s.utility| then Success(st[n.infoset := s.(utility := s.utility[a := v])]) else Failure("IndexError")
  }

  /** `ICFR_Observe(n, plan)`. The plan is the same on every call, since each entry is
      restored after its switch. */
  function ObserveWalk(n: Node, plan: map<int, int>, st: IcfrState): (r: Result<IcfrState>)
    requires Labels(n) <= st.Keys
    ensures r.Success? ==> r.value.Keys == st.Keys
    decreases n, |ChildrenOf(n)| + 1
  {
    match n
    case Leaf(_) => Success(st)
    case Chance(_, _) => ObserveFrom(n, plan, st, 0)
    case Decision(_, h, _) => if h !in plan then Failure("KeyError") else ObserveFrom(n, plan, st, 0)
  }

  function ObserveFrom(n: Node, plan: map<int, int>, st: IcfrState, i: nat): (r: Result<IcfrState>)
    requires i <= |ChildrenOf(n)| && (n.Decision? ==> n.infoset in st) && LabelsFrom(n, i) <= st.Keys
    ensures r.Success? ==> r.value.Keys == st.Keys
    decreases n, |ChildrenOf(n)| - i
  {
    if i == |ChildrenOf(n)| then Success(st)
    else
      var st1 :- if n.Decision? then Record(n, plan, st, i) else Success(st);
      var st2 :- ObserveWalk(ChildrenOf(n)[i], plan, st1);
      ObserveFrom(n, plan, st2, i + 1)
  }

  /** `r` differs from `st` at most in the utilities, of the same lengths, of the
      information sets in `hs`. */
  ghost predicate UtilitiesOnly(hs: set<int>, st: IcfrState, r: IcfrState)
  {
    forall h :: h in st ==> (h in r && r[h] == st[h].(utility := r[h].utility) &&
      |r[h].utility| == |st[h].utility| && (h !in hs ==> r[h] == st[h]))
  }

  /** `ICFR_Observe` changes only the utilities of the information sets of `n`. */
  lemma {:induction false} ObserveFrame(n: Node, plan: map<int, int>, st: IcfrState)
    requires Labels(n) <= st.Keys && ObserveWalk(n, plan, st).Success?
    ensures UtilitiesOnly(Labels(n), st, ObserveWalk(n, plan, st).value)
    decreases n, |ChildrenOf(n)| + 1
  {
    ObserveFromFrame(n, plan, st, 0);
  }

  lemma {:induction false} ObserveFromFrame(n: Node, plan: map<int, int>, st: IcfrState, i: nat)
    requires i <= |ChildrenOf(n)| && (n.Decision? ==> n.infoset in st) && LabelsFrom(n, i) <= st.Keys
    requires ObserveFrom(n, plan, st, i).Success?
    ensures UtilitiesOnly((if n.Decision? then {n.infoset} else {}) + LabelsFrom(n, i), st,
      ObserveFrom(n, plan, st, i).value)
    decreases n, |ChildrenOf(n)| - i
  {
    if i < |ChildrenOf(n)| {
      var st1 := if n.Decision? then Record(n, plan, st, i).value else st;
      var st2 := ObserveWalk(ChildrenOf(n)[i], plan, st1).value;
      ObserveFrame(ChildrenOf(n)[i], plan, st1);
      ObserveFromFrame(n, plan, st2, i + 1);
      UtilitiesOnlyTrans(st, st1, st2, ObserveFrom(n, plan, st, i).value,
        if n.Decision? then {n.infoset} else {}, Labels(ChildrenOf(n)[i]), LabelsFrom(n, i + 1));
    }
  }

  lemma UtilitiesOnlyTrans(st: IcfrState, st1: IcfrState, st2: IcfrState, r: IcfrState, a: set<int>, b: set<int>, c: set<int>)
    requires UtilitiesOnly(a, st, st1) && UtilitiesOnly(b, st1, st2) && UtilitiesOnly(a + c, st2, r)
    ensures UtilitiesOnly(a + b + c, st, r)
  {
  }

  /** At a decision node whose information set does not recur below it, `ICFR_Observe`
      leaves in `utility[a]` the utility of the information set's player under the plan
      with this information set's entry switched to `a`, for every action `a`. */
  lemma ObserveUtilities(n: Node, plan: map<int, int>, st: IcfrState)
    requires n.Decision? && Labels(n) <= st.Keys && n.infoset !in LabelsFrom(n, 0)
    requires ObserveWalk(n, plan, st).Success?
    ensures |n.children| <= |ObserveWalk(n, plan, st).value[n.infoset].utility| || n.children == []
    ensures forall a :: 0 <= a < |n.children| ==>
      Switched(n, plan, a, st[n.infoset].player) == Success(ObserveWalk(n, plan, st).value[n.infoset].utility[a])
  {
    assert ObserveWalk(n, plan, st) == ObserveFrom(n, plan, st, 0);
    ObserveFromUtilities(n, plan, st, 0);
  }

  lemma {:induction false} ObserveFromUtilities(n: Node, plan: map<int, int>, st: IcfrState, i: nat)
    requires n.Decision? && i <= |n.children| && n.infoset in st && LabelsFrom(n, i) <= st.Keys
    requires n.infoset !in LabelsFrom(n, i) && ObserveFrom(n, plan, st, i).Success?
    ensures var u := ObserveFrom(n, plan, st, i).value[n.infoset].utility;
      |u| == |st[n.infoset].utility| && ObserveFrom(n, plan, st, i).value[n.infoset].player == st[n.infoset].player &&
      (i < |n.children| ==> |n.children| <= |u|) &&
      (forall a :: 0 <= a < i && a < |u| ==> u[a] == st[n.infoset].utility[a]) &&
      forall a :: i <= a < |n.children| ==> Switched(n, plan, a, st[n.infoset].player) == Success(u[a])
    decreases |n.children| - i
  {
    var h := n.infoset;
    if i < |n.children| {
      var v := Switched(n, plan, i, st[h].player).value;
      var st1 := Record(n, plan, st, i).value;
      assert st1[h] == st[h].(utility := st[h].utility[i := v]);
      var st2 := ObserveWalk(n.children[i], plan, st1).value;
      ObserveFrame(n.children[i], plan, st1);
      assert st2[h] == st1[h];
      assert ObserveFrom(n, plan, st, i) == ObserveFrom(n, plan, st2, i + 1);
      ObserveFromUtilities(n, plan, st2, i + 1);
    }
  }

  // ---------------------------------------------------------------------------------------
  // `ICFR_Update`.

  /** `m` after observing `u`. */
  function Observed(m: Minimiser, u: seq<real>): Minimiser
  {
    m.(observed := m.observed + [u])
  }

  /** The minimiser a node of `h` observes with exists: the internal one when `reachability`
      is truthy (non-zero), else the external one keyed `externalsigma.id`. */
  predicate Ready(s: IcfrIset, h: int)
  {
    s.reachability != 0 || Key(s.externalSigma, h) in s.exRM
  }

  /** One observation of the information set's utility by that minimiser. */
  function ObservedOnce(s: IcfrIset, h: int): (r: IcfrIset)
    requires Ready(s, h)
    ensures Ready(r, h)
  {
    if s.reachability != 0 then s.(inRM := Observed(s.inRM, s.utility))
    else
      var key := Key(s.externalSigma, h);
      s.(exRM := s.exRM[key := Observed(s.exRM[key], s.utility)])
  }

  /** `c` observations in a row. */
  function ObservedTimes(s: IcfrIset, h: int, c: nat): (r: IcfrIset)
    requires Ready(s, h)
    ensures Ready(r, h)
    decreases c
  {
    if c == 0 then s else ObservedTimes(ObservedOnce(s, h), h, c - 1)
  }

  lemma {:induction false} ObservedTimesAdd(s: IcfrIset, h: int, c: nat, d: nat)
    requires Ready(s, h)
    ensures ObservedTimes(ObservedTimes(s, h, c), h, d) == ObservedTimes(s, h, c + d)
    decreases c
  {
    if c > 0 {
      ObservedTimesAdd(ObservedOnce(s, h), h, c - 1, d);
    }
  }

  /** `ICFR_Update(n)`. */
  function UpdateWalk(n: Node, st: IcfrState): (r: Result<IcfrState>)
    requires Labels(n) <= st.Keys
    ensures r.Success? ==> r.value.Keys == st.Keys
    decreases n, |ChildrenOf(n)| + 1
  {
    match n
    case Leaf(_) => Success(st)
    case Chance(_, _) => UpdateFrom(n, st, 0)
    case Decision(_, h, _) =>
      if !Ready(st[h], h) then Failure("KeyError") else UpdateFrom(n, st[h := ObservedOnce(st[h], h)], 0)
  }

  function UpdateFrom(n: Node, st: IcfrState, i: nat): (r: Result<IcfrState>)
    requires i <= |ChildrenOf(n)| && LabelsFrom(n, i) <= st.Keys
    ensures r.Success? ==> r.value.Keys == st.Keys
    decreases n, |ChildrenOf(n)| - i
  {
    if i == |ChildrenOf(n)| then Success(st)
    else
      var st1 :- UpdateWalk(ChildrenOf(n)[i], st);
      UpdateFrom(n, st1, i + 1)
  }

  /** Every information set in `hs` has the minimiser it would observe with. */
  ghost predicate AllReady(hs: set<int>, st: IcfrState)
  {
    forall h :: h in hs ==> h in st && Ready(st[h], h)
  }

  /** `r` is `st` after `c(h)` observations by every information set `h` of `hs`. */
  ghost predicate UpdatedBy(hs: set<int>, c: int -> nat, st: IcfrState, r: IcfrState)
  {
    forall h :: h in st ==> (h in r &&
      if h in hs then Ready(st[h], h) && r[h] == ObservedTimes(st[h], h, c(h)) else r[h] == st[h])
  }

  /** `ICFR_Update` succeeds exactly when every information set of `n` has the minimiser it
      observes with, and then each information set observes its utility once per node,
      with `inRM` when `reachability` is non-zero and with `exRM[externalsigma.id]` when it is
      zero; nothing else changes. */
  lemma {:induction false} UpdateEffect(n: Node, st: IcfrState)
    requires Labels(n) <= st.Keys
    ensures UpdateWalk(n, st).Success? <==> AllReady(Labels(n), st)
    ensures UpdateWalk(n, st).Success? ==> UpdatedBy(Labels(n), h => Visits(n, h), st, UpdateWalk(n, st).value)
    decreases n, |ChildrenOf(n)| + 1
  {
    match n
    case Leaf(_) =>
    case Chance(_, _) =>
      UpdateFromEffect(n, st, 0);
    case Decision(_, h, _) =>
      if Ready(st[h], h) {
        var st1 := st[h := ObservedOnce(st[h], h)];
        UpdateFromEffect(n, st1, 0);
        if UpdateWalk(n, st).Success? {
          UpdatedOwn(n, st, st1, UpdateWalk(n, st).value);
        }
        ReadyOwn(n, st, st1);
      }
  }

  lemma ReadyOwn(n: Node, st: IcfrState, st1: IcfrState)
    requires n.Decision? && n.infoset in st && Ready(st[n.infoset], n.infoset)
    requires st1 == st[n.infoset := ObservedOnce(st[n.infoset], n.infoset)]
    ensures AllReady(LabelsFrom(n, 0), st1) <==> AllReady(Labels(n), st)
  {
  }

  lemma UpdatedOwn(n: Node, st: IcfrState, st1: IcfrState, r: IcfrState)
    requires n.Decision? && n.infoset in st && Ready(st[n.infoset], n.infoset)
    requires st1 == st[n.infoset := ObservedOnce(st[n.infoset], n.infoset)]
    requires UpdatedBy(LabelsFrom(n, 0), h => VisitsFrom(n, h, 0), st1, r)
    ensures UpdatedBy(Labels(n), h => Visits(n, h), st, r)
  {
    var h := n.infoset;
    forall g | g in st
      ensures g in r && if g in Labels(n) then Ready(st[g], g) && r[g] == ObservedTimes(st[g], g, Visits(n, g)) else r[g] == st[g]
    {
      if g == h {
        if h in LabelsFrom(n, 0) {
          ObservedTimesAdd(st[h], h, 1, VisitsFrom(n, h, 0));
        } else {
          NoVisitsFrom(n, h, 0);
        }
      }
    }
  }

  lemma {:induction false} UpdateFromEffect(n: Node, st: IcfrState, i: nat)
    requires i <= |ChildrenOf(n)| && LabelsFrom(n, i) <= st.Keys
    ensures UpdateFrom(n, st, i).Success? <==> AllReady(LabelsFrom(n, i), st)
    ensures UpdateFrom(n, st, i).Success? ==> UpdatedBy(LabelsFrom(n, i), h => VisitsFrom(n, h, i), st, UpdateFrom(n, st, i).value)
    decreases n, |ChildrenOf(n)| - i
  {
    if i < |ChildrenOf(n)| {
      var c := ChildrenOf(n)[i];
      UpdateEffect(c, st);
      if UpdateWalk(c, st).Success? {
        var st1 := UpdateWalk(c, st).value;
        UpdateFromEffect(n, st1, i + 1);
        UpdatedStep(n, i, st, st1);
        if UpdateFrom(n, st, i).Success? {
          UpdatedJoin(n, i, st, st1, UpdateFrom(n, st, i).value);
        }
      }
    }
  }

  lemma UpdatedStep(n: Node, i: nat, st: IcfrState, st1: IcfrState)
    requires i < |ChildrenOf(n)| && AllReady(Labels(ChildrenOf(n)[i]), st)
    requires UpdatedBy(Labels(ChildrenOf(n)[i]), h => Visits(ChildrenOf(n)[i], h), st, st1) && st1.Keys == st.Keys
    ensures AllReady(LabelsFrom(n, i + 1), st1) <==> AllReady(LabelsFrom(n, i), st)
  {
    var c := ChildrenOf(n)[i];
    assert LabelsFrom(n, i) == Labels(c) + LabelsFrom(n, i + 1);
    if AllReady(LabelsFrom(n, i + 1), st1) {
      forall g | g in LabelsFrom(n, i) ensures g in st && Ready(st[g], g) {
        if g !in Labels(c) {
          assert g in st1;
        }
      }
    }
  }

  lemma UpdatedJoin(n: Node, i: nat, st: IcfrState, st1: IcfrState, r: IcfrState)
    requires i < |ChildrenOf(n)|
    requires UpdatedBy(Labels(ChildrenOf(n)[i]), h => Visits(ChildrenOf(n)[i], h), st, st1)
    requires UpdatedBy(LabelsFrom(n, i + 1), h => VisitsFrom(n, h, i + 1), st1, r)
    ensures UpdatedBy(LabelsFrom(n, i), h => VisitsFrom(n, h, i), st, r)
  {
    var c := ChildrenOf(n)[i];
    forall g | g in st
      ensures g in r && if g in LabelsFrom(n, i) then Ready(st[g], g) && r[g] == ObservedTimes(st[g], g, VisitsFrom(n, g, i)) else r[g] == st[g]
    {
      if g in Labels(c) && g in LabelsFrom(n, i + 1) {
        ObservedTimesAdd(st[g], g, Visits(c, g), VisitsFrom(n, g, i + 1));
      } else if g in Labels(c) {
        NoVisitsFrom(n, g, i + 1);
      } else if g in LabelsFrom(n, i + 1) {
        NoVisits(c, g);
      }
    }
  }

  // ---------------------------------------------------------------------------------------
  // `SolveWithICFR`.

  /** One iteration: `init`, `ICFR_sampling`, `ICFR_Observe` and `ICFR_Update` from the
      root. The result holds the iteration's plan, the new state and the stream position. */
  function Iteration(root: Node, st: IcfrState, recs: nat -> int, k: nat): (r: Result<Sampled>)
    requires Labels(root) <= st.Keys
    ensures r.Success? ==> r.value.st.Keys == st.Keys
  {
    var st1 := InitWalk(root, st);
    var smp :- SampleWalk(root, st1, recs, k);
    var st2 :- ObserveWalk(root, smp.plan, smp.st);
    var st3 :- UpdateWalk(root, st2);
    Success(Sampled(smp.plan, st3, smp.k))
  }

  /** The state of a run: the information sets, the stream position and `root.T`. */
  datatype Run = Run(st: IcfrState, k: nat, t: int)

  /** Iterations `i` to `iterations`; `root.T` is set to `i` after iterations that are
      multiples of a positive `checkEvery`. */
  function SolveFrom(root: Node, run: Run, recs: nat -> int, checkEvery: int, i: int, iterations: int): (r: Result<Run>)
    requires Labels(root) <= run.st.Keys
    ensures r.Success? ==> r.value.st.Keys == run.st.Keys
    decreases iterations - i + 1
  {
    if i > iterations then Success(run)
    else
      var it :- Iteration(root, run.st, recs, run.k);
      SolveFrom(root, Run(it.st, it.k, Stamp(checkEvery, i, run.t)), recs, checkEvery, i + 1, iterations)
  }

  /** `root.T` after iteration `i`: `i` at a checkpoint, as it was otherwise. */
  function Stamp(checkEvery: int, i: int, t: int): int
  {
    if checkEvery > 0 && i % checkEvery == 0 then i else t
  }

  /** One iteration of `SolveFrom`: stop at its error, or go on from its state. */
  lemma SolveUnfold(root: Node, run: Run, recs: nat -> int, checkEvery: int, i: int, iterations: int, it: Result<Sampled>)
    requires Labels(root) <= run.st.Keys && i <= iterations && it == Iteration(root, run.st, recs, run.k)
    ensures it.Failure? ==> SolveFrom(root, run, recs, checkEvery, i, iterations) == Failure(it.error)
    ensures it.Success? ==> (SolveFrom(root, run, recs, checkEvery, i, iterations) ==
      SolveFrom(root, Run(it.value.st, it.value.k, Stamp(checkEvery, i, run.t)),
        recs, checkEvery, i + 1, iterations))
  {
  }

  /** In every iteration only the internal minimisers are asked: `init` leaves every
      information set of the tree at reachability -1, so the sampled plan covers the tree,
      `mu_T` and the internal minimiser's recommendations grow by one per node, and no
      external minimiser is asked. */
  lemma IterationSamples(root: Node, st: IcfrState, recs: nat -> int, k: nat)
    requires Labels(root) <= st.Keys && Iteration(root, st, recs, k).Success?
    ensures var st1 := InitWalk(root, st);
      var smp := SampleWalk(root, st1, recs, k).value;
      Planned(root, recs, k, smp) && Tallied(root, st1, smp.st)
  {
    var st1 := InitWalk(root, st);
    InitLabels(root, st);
    SamplePlan(root, st1, recs, k);
    SampleInternal(root, st1, recs, k);
  }

  /** `init` leaves every information set of the tree at reachability -1. */
  lemma {:induction false} InitLabels(n: Node, st: IcfrState)
    requires Labels(n) <= st.Keys
    ensures TwoValued(Labels(n), InitWalk(n, st))
    ensures forall h :: h in Labels(n) ==> InitWalk(n, st)[h].reachability == -1
    decreases n, |ChildrenOf(n)| + 1
  {
    match n
    case Leaf(_) =>
    case Chance(_, _) =>
      InitFromLabels(n, st, 0);
    case Decision(_, h, cs) =>
      InitFromLabels(n, st[h := st[h].(externalSigma := "", reachability := -1, utility := Zeros(|cs|))], 0);
  }

  lemma {:induction false} InitFromLabels(n: Node, st: IcfrState, i: nat)
    requires i <= |ChildrenOf(n)| && LabelsFrom(n, i) <= st.Keys
    ensures forall h :: h in st ==>
      InitFrom(n, st, i)[h].reachability == if h in LabelsFrom(n, i) then -1 else st[h].reachability
    decreases n, |ChildrenOf(n)| - i
  {
    if i < |ChildrenOf(n)| {
      var c := ChildrenOf(n)[i];
      InitLabels(c, st);
      InitKeeps(c, st);
      InitFromLabels(n, InitWalk(c, st), i + 1);
    }
  }

  /** `init` keeps the reachability of the information sets outside the tree. */
  lemma {:induction false} InitKeeps(n: Node, st: IcfrState)
    requires Labels(n) <= st.Keys
    ensures forall h :: h in st && h !in Labels(n) ==> InitWalk(n, st)[h] == st[h]
    decreases n, |ChildrenOf(n)| + 1
  {
    match n
    case Leaf(_) =>
    case Chance(_, _) =>
      InitFromKeeps(n, st, 0);
    case Decision(_, h, cs) =>
      InitFromKeeps(n, st[h := st[h].(externalSigma := "", reachability := -1, utility := Zeros(|cs|))], 0);
  }

  lemma {:induction false} InitFromKeeps(n: Node, st: IcfrState, i: nat)
    requires i <= |ChildrenOf(n)| && LabelsFrom(n, i) <= st.Keys
    ensures forall h :: h in st && h !in LabelsFrom(n, i) ==> InitFrom(n, st, i)[h] == st[h]
    decreases n, |ChildrenOf(n)| - i
  {
    if i < |ChildrenOf(n)| {
      var c := ChildrenOf(n)[i];
      InitKeeps(c, st);
      InitFromKeeps(n, InitWalk(c, st), i + 1);
    }
  }

  /** An iteration reads one recommendation per decision node of the tree. */
  lemma IterationReads(root: Node, st: IcfrState, recs: nat -> int, k: nat)
    requires Labels(root) <= st.Keys && Iteration(root, st, recs, k).Success?
    ensures Iteration(root, st, recs, k).value.k == k + Size(root)
  {
    SamplePlan(root, InitWalk(root, st), recs, k);
  }

  predicate Divides(c: int, j: int)
    requires c > 0
  {
    j % c == 0
  }

  /** `t` is the last multiple of `c` in `i .. n`. */
  ghost predicate LastMultiple(t: int, i: int, n: int, c: int)
    requires c > 0
  {
    i <= t <= n && Divides(c, t) && forall j :: t < j <= n ==> !Divides(c, j)
  }

  /** `i .. n` holds no multiple of `c`. */
  ghost predicate NoMultiple(i: int, n: int, c: int)
    requires c > 0
  {
    forall j :: i <= j <= n ==> !Divides(c, j)
  }

  /** The first iteration of a run of iterations `i .. iterations` gives the run `next`
      that the rest starts from. */
  lemma SolveStep(root: Node, run: Run, recs: nat -> int, checkEvery: int, i: int, iterations: int) returns (next: Run)
    requires Labels(root) <= run.st.Keys && i <= iterations
    requires SolveFrom(root, run, recs, checkEvery, i, iterations).Success?
    ensures Labels(root) <= next.st.Keys && next.k == run.k + Size(root)
    ensures next.t == if checkEvery > 0 && Divides(checkEvery, i) then i else run.t
    ensures SolveFrom(root, run, recs, checkEvery, i, iterations) == SolveFrom(root, next, recs, checkEvery, i + 1, iterations)
  {
    var it := Iteration(root, run.st, recs, run.k).value;
    IterationReads(root, run.st, recs, run.k);
    next := Run(it.st, it.k, if checkEvery > 0 && Divides(checkEvery, i) then i else run.t);
  }

  /** `size` reads for each iteration of `i .. n`. */
  function Reads(i: int, n: int, size: nat): (r: nat)
    ensures r == (if n < i then 0 else n - i + 1) * size
    decreases n - i + 1
  {
    if n < i then 0 else size + Reads(i + 1, n, size)
  }

  /** A run of iterations `i .. iterations` reads one recommendation per decision node per
      iteration. */
  lemma {:induction false} SolveReads(root: Node, run: Run, recs: nat -> int, checkEvery: int, i: int, iterations: int)
    requires Labels(root) <= run.st.Keys && SolveFrom(root, run, recs, checkEvery, i, iterations).Success?
    ensures SolveFrom(root, run, recs, checkEvery, i, iterations).value.k == run.k + Reads(i, iterations, Size(root))
    decreases iterations - i + 1
  {
    if i <= iterations {
      var next := SolveStep(root, run, recs, checkEvery, i, iterations);
      SolveReads(root, next, recs, checkEvery, i + 1, iterations);
    }
  }

  /** `r` is the last multiple of a positive `c` in `i .. n`, or `t` when there is none
      or `c` is not positive. */
  ghost predicate Checkpointed(r: int, t: int, i: int, n: int, c: int)
  {
    (c > 0 && !NoMultiple(i, n, c) ==> LastMultiple(r, i, n, c)) &&
    (c <= 0 || NoMultiple(i, n, c) ==> r == t)
  }

  /** A run of iterations `i .. iterations` leaves in `root.T` the last multiple of
      `checkEvery` among them, or the old `root.T` when there is none. */
  lemma {:induction false} SolveCheckpoints(root: Node, run: Run, recs: nat -> int, checkEvery: int, i: int, iterations: int)
    requires Labels(root) <= run.st.Keys && SolveFrom(root, run, recs, checkEvery, i, iterations).Success?
    ensures Checkpointed(SolveFrom(root, run, recs, checkEvery, i, iterations).value.t, run.t, i, iterations, checkEvery)
    decreases iterations - i + 1
  {
    if i <= iterations {
      var next := SolveStep(root, run, recs, checkEvery, i, iterations);
      SolveCheckpoints(root, next, recs, checkEvery, i + 1, iterations);
      CheckpointStep(SolveFrom(root, next, recs, checkEvery, i + 1, iterations).value.t, run.t, i, iterations, checkEvery);
    } else {
      CheckpointNone(run.t, i, iterations, checkEvery);
    }
  }

  /** With no checkpoint among the iterations (the default `checkEveryIteration = -1`, or
      fewer iterations than `checkEveryIteration`), a run that starts at `root.T == 0` ends
      with `root.T == 0`, so the `getExpectedUtility()` that `SolveWithICFR` returns raises
      `ZeroDivisionError` on every tree with a decision node (`CfrWalks.RootExpectedUtility`). */
  lemma UncheckedRootT(root: Node, st: IcfrState, recs: nat -> int, checkEvery: int, iterations: int)
    requires Labels(root) <= st.Keys && (checkEvery <= 0 || iterations < checkEvery)
    requires SolveFrom(root, Run(st, 0, 0), recs, checkEvery, 1, iterations).Success?
    ensures SolveFrom(root, Run(st, 0, 0), recs, checkEvery, 1, iterations).value.t == 0
  {
    SolveCheckpoints(root, Run(st, 0, 0), recs, checkEvery, 1, iterations);
    if checkEvery > 0 {
      forall j | 1 <= j <= iterations ensures !Divides(checkEvery, j) {
        NotDividedBelow(checkEvery, j);
      }
    }
  }

  /** A positive number below `c` is no multiple of `c`. */
  lemma NotDividedBelow(c: int, j: int)
    requires 0 < j < c
    ensures !Divides(c, j)
  {
  }

  lemma CheckpointNone(t: int, i: int, n: int, c: int)
    requires n < i
    ensures Checkpointed(t, t, i, n, c)
  {
    if c > 0 {
      assert NoMultiple(i, n, c);
    }
  }

  lemma CheckpointStep(r: int, t: int, i: int, n: int, c: int)
    requires i <= n
    requires Checkpointed(r, if c > 0 && Divides(c, i) then i else t, i + 1, n, c)
    ensures Checkpointed(r, t, i, n, c)
  {
    if c > 0 && NoMultiple(i + 1, n, c) && !Divides(c, i) {
      assert NoMultiple(i, n, c);
    }
  }

  // ---------------------------------------------------------------------------------------
  // The walks as the source runs them: each method updates the information sets one node
  // at a time and gives the state its specification function describes.

  /** `init(node)`. */
  method Init(n: Node, st: IcfrState) returns (r: IcfrState)
    requires Labels(n) <= st.Keys
    ensures r == InitWalk(n, st)
    decreases n, 1
  {
    r := st;
    if n.Leaf? {
      return;
    }
    if n.Decision? {
      var h := n.infoset;
      r := r[h := r[h].(externalSigma := "", reachability := -1, utility := Zeros(|n.children|))];
    }
    ghost var whole := InitWalk(n, st);
    var i := 0;
    while i < |ChildrenOf(n)|
      invariant 0 <= i <= |ChildrenOf(n)| && LabelsFrom(n, i) <= r.Keys
      invariant InitFrom(n, r, i) == whole
    {
      r := Init(ChildrenOf(n)[i], r);
      i := i + 1;
    }
  }

  /** `createExternalRM(node, exiset)` with `exiset`'s player `p` and `externalsigma`
      `sigma`; a chance node has no information set. */
  method CreateExternalRm(n: Node, st: IcfrState, p: int, sigma: string) returns (r: Result<IcfrState>)
    requires Labels(n) <= st.Keys
    ensures r == CreateWalk(n, st, p, sigma)
    decreases n, 1
  {
    if n.Leaf? {
      return Success(st);
    }
    if n.Chance? {
      return Failure("AttributeError");
    }
    var h := n.infoset;
    var s := st[h].(rechability := Some(0));
    if s.player == p {
      s := s.(externalSigma := sigma);
      var key := sigma + "." + IntToString(h);
      if key !in s.exRM {
        s := s.(exRM := s.exRM[key := Minimiser(s.actionCount, [], [])]);
      }
    }
    var cur := st[h := s];
    ghost var whole := CreateWalk(n, st, p, sigma);
    var i := 0;
    while i < |n.children|
      invariant 0 <= i <= |n.children| && LabelsFrom(n, i) <= cur.Keys
      invariant CreateFrom(n, cur, p, sigma, i) == whole
    {
      var c := CreateExternalRm(n.children[i], cur, p, sigma);
      if c.Failure? {
        return Failure(c.error);
      }
      cur := c.value;
      i := i + 1;
    }
    r := Success(cur);
  }

  /** `ICFR_sampling(node)`, reading the minimisers' recommendations from `recs` at `k`. */
  method IcfrSampling(n: Node, st: IcfrState, recs: nat -> int, k: nat) returns (r: Result<Sampled>)
    requires Labels(n) <= st.Keys
    ensures r == SampleWalk(n, st, recs, k)
    decreases n, 2
  {
    if n.Chance? {
      r := SampleChildren(n, map[], st, recs, k);
      return;
    }
    if n.Leaf? {
      return Success(Sampled(map[], st, k));
    }
    var h := n.infoset;
    var s := st[h];
    var a := recs(k);
    var cur: IcfrState;
    if s.reachability == 1 || s.reachability == -1 {
      var sigma := IntToString(h) + "." + IntToString(a);
      cur := st[h := s.(reachability := 1, inRM := Recommended(s.inRM, a), externalSigma := sigma)];
      var b := CreateBranches(n, cur, a, s.player, sigma);
      if b.Failure? {
        return Failure(b.error);
      }
      cur := b.value;
    } else {
      var key := s.externalSigma + "." + IntToString(h);
      if key !in s.exRM {
        return Failure("KeyError");
      }
      cur := st[h := s.(exRM := s.exRM[key := Recommended(s.exRM[key], a)])];
    }
    var s2 := cur[h];
    var j := PyIndex(|s2.muT|, a);
    if !(0 <= j < |s2.muT|) {
      return Failure("IndexError");
    }
    cur := cur[h := s2.(muT := s2.muT[j := s2.muT[j] + 1])];
    r := SampleChildren(n, map[h := a], cur, recs, k + 1);
  }

  /** The loop running `createExternalRM` under every child but the sampled one. */
  method CreateBranches(n: Node, st: IcfrState, a: int, p: int, sigma: string) returns (r: Result<IcfrState>)
    requires Labels(n) <= st.Keys
    ensures r == Branches(n, st, a, p, sigma, 0)
    decreases n, 0
  {
    ghost var whole := Branches(n, st, a, p, sigma, 0);
    var cur := st;
    var i := 0;
    while i < |ChildrenOf(n)|
      invariant 0 <= i <= |ChildrenOf(n)| && LabelsFrom(n, i) <= cur.Keys
      invariant Branches(n, cur, a, p, sigma, i) == whole
    {
      if i != a {
        var c := CreateExternalRm(ChildrenOf(n)[i], cur, p, sigma);
        if c.Failure? {
          return Failure(c.error);
        }
        cur := c.value;
      }
      i := i + 1;
    }
    r := Success(cur);
  }

  /** The loop sampling the children and merging their plans into `plan`. */
  method SampleChildren(n: Node, plan: map<int, int>, st: IcfrState, recs: nat -> int, k: nat) returns (r: Result<Sampled>)
    requires Labels(n) <= st.Keys
    ensures r == SampleFrom(n, plan, st, recs, k, 0)
    decreases n, 1
  {
    ghost var whole := SampleFrom(n, plan, st, recs, k, 0);
    var acc := Sampled(plan, st, k);
    var i := 0;
    while i < |ChildrenOf(n)|
      invariant 0 <= i <= |ChildrenOf(n)| && LabelsFrom(n, i) <= acc.st.Keys
      invariant SampleFrom(n, acc.plan, acc.st, recs, acc.k, i) == whole
    {
      var c := IcfrSampling(ChildrenOf(n)[i], acc.st, recs, acc.k);
      if c.Failure? {
        return Failure(c.error);
      }
      acc := Sampled(Merge(acc.plan, c.value.plan), c.value.st, c.value.k);
      i := i + 1;
    }
    r := Success(acc);
  }

  /** The action plan `ICFR_Observe` edits and restores in place. */
  class ActionPlan {
    var entries: map<int, int>

    constructor (entries: map<int, int>)
      ensures this.entries == entries
    {
      this.entries := entries;
    }
  }

  /** `ICFR_Observe(node, action_plan)`: the plan is as it was when the walk succeeds, and
      keeps its keys when it fails part-way. */
  method IcfrObserve(n: Node, plan: ActionPlan, st: IcfrState) returns (r: Result<IcfrState>)
    requires Labels(n) <= st.Keys
    modifies plan
    ensures r == ObserveWalk(n, old(plan.entries), st)
    ensures r.Success? ==> plan.entries == old(plan.entries)
    ensures plan.entries.Keys == old(plan.entries.Keys)
    decreases n, 1
  {
    if n.Leaf? {
      return Success(st);
    }
    if n.Decision? && n.infoset !in plan.entries {
      return Failure("KeyError");
    }
    ghost var p0 := plan.entries;
    ghost var whole := ObserveWalk(n, p0, st);
    var cur := st;
    var i := 0;
    while i < |n.children|
      invariant 0 <= i <= |n.children| && LabelsFrom(n, i) <= cur.Keys && (n.Decision? ==> n.infoset in cur)
      invariant plan.entries == p0
      invariant ObserveFrom(n, p0, cur, i) == whole
    {
      if n.Decision? {
        var rec := RecordSwitched(n, plan, cur, i);
        if rec.Failure? {
          return Failure(rec.error);
        }
        cur := rec.value;
      }
      var c := IcfrObserve(n.children[i], plan, cur);
      if c.Failure? {
        return Failure(c.error);
      }
      cur := c.value;
      i := i + 1;
    }
    r := Success(cur);
  }

  /** `utility[a]` set to the plan's utility with this information set's entry switched to
      `a`; the entry is put back unless the utility could not be had. */
  method RecordSwitched(n: Node, plan: ActionPlan, st: IcfrState, a: nat) returns (r: Result<IcfrState>)
    requires n.Decision? && n.infoset in st && n.infoset in plan.entries
    modifies plan
    ensures r == Record(n, old(plan.entries), st, a)
    ensures plan.entries == if r.Success? then old(plan.entries) else old(plan.entries)[n.infoset := a]
  {
    var h := n.infoset;
    var sampled := plan.entries[h];
    plan.entries := plan.entries[h := a];
    var u := PlanUtility(n, plan.entries, []);
    if u.Failure? {
      return Failure(u.error);
    }
    var s := st[h];
    var q := PyIndex(|u.value|, s.player);
    if !(0 <= q < |u.value|) || a >= |s.utility| {
      return Failure("IndexError");
    }
    r := Success(st[h := s.(utility := s.utility[a := u.value[q]])]);
    plan.entries := plan.entries[h := sampled];
  }

  /** `ICFR_Update(node)`. */
  method IcfrUpdate(n: Node, st: IcfrState) returns (r: Result<IcfrState>)
    requires Labels(n) <= st.Keys
    ensures r == UpdateWalk(n, st)
    decreases n, 1
  {
    if n.Leaf? {
      return Success(st);
    }
    var cur := st;
    if n.Decision? {
      var h := n.infoset;
      var s := st[h];
      if s.reachability != 0 {
        cur := st[h := s.(inRM := Observed(s.inRM, s.utility))];
      } else {
        var key := s.externalSigma + "." + IntToString(h);
        if key !in s.exRM {
          return Failure("KeyError");
        }
        cur := st[h := s.(exRM := s.exRM[key := Observed(s.exRM[key], s.utility)])];
      }
    }
    ghost var whole := UpdateWalk(n, st);
    var i := 0;
    while i < |n.children|
      invariant 0 <= i <= |n.children| && LabelsFrom(n, i) <= cur.Keys
      invariant UpdateFrom(n, cur, i) == whole
    {
      var c := IcfrUpdate(n.children[i], cur);
      if c.Failure? {
        return Failure(c.error);
      }
      cur := c.value;
      i := i + 1;
    }
    r := Success(cur);
  }

  /** One iteration of `SolveWithICFR`'s loop. */
  method RunIteration(root: Node, st: IcfrState, recs: nat -> int, k: nat) returns (r: Result<Sampled>)
    requires Labels(root) <= st.Keys
    ensures r == Iteration(root, st, recs, k)
  {
    var st1 := Init(root, st);
    var smp := IcfrSampling(root, st1, recs, k);
    if smp.Failure? {
      return Failure(smp.error);
    }
    var plan := new ActionPlan(smp.value.plan);
    var st2 := IcfrObserve(root, plan, smp.value.st);
    if st2.Failure? {
      return Failure(st2.error);
    }
    var st3 := IcfrUpdate(root, st2.value);
    if st3.Failure? {
      return Failure(st3.error);
    }
    r := Success(Sampled(smp.value.plan, st3.value, smp.value.k));
  }

  /** `SolveWithICFR(icfr_tree, iterations, checkEveryIteration = checkEvery)` from the
      information sets `st`, the stream position 0 and `root.T == t`. */
  method SolveWithIcfr(root: Node, st: IcfrState, recs: nat -> int, t: int, iterations: int, checkEvery: int)
    returns (r: Result<Run>)
    requires Labels(root) <= st.Keys
    ensures r == SolveFrom(root, Run(st, 0, t), recs, checkEvery, 1, iterations)
  {
    ghost var whole := SolveFrom(root, Run(st, 0, t), recs, checkEvery, 1, iterations);
    var run := Run(st, 0, t);
    var i := 1;
    while i <= iterations
      invariant 1 <= i && Labels(root) <= run.st.Keys
      invariant SolveFrom(root, run, recs, checkEvery, i, iterations) == whole
      decreases iterations - i
    {
      var next := SolveIteration(root, run, recs, checkEvery, i, iterations);
      if next.Failure? {
        return Failure(next.error);
      }
      run := next.value;
      i := i + 1;
    }
    SolveDone(root, run, recs, checkEvery, i, iterations);
    r := Success(run);
  }

  /** Past the last iteration the run is what it is. */
  lemma SolveDone(root: Node, run: Run, recs: nat -> int, checkEvery: int, i: int, iterations: int)
    requires Labels(root) <= run.st.Keys && i > iterations
    ensures SolveFrom(root, run, recs, checkEvery, i, iterations) == Success(run)
  {
  }

  /** The body of the loop of `SolveWithICFR`: one iteration, and `root.T` set at a
      checkpoint. The run from `i` stops at its error, or goes on from its result. */
  method SolveIteration(root: Node, run: Run, recs: nat -> int, checkEvery: int, i: int, iterations: int)
    returns (r: Result<Run>)
    requires Labels(root) <= run.st.Keys && i <= iterations
    ensures r.Failure? ==> SolveFrom(root, run, recs, checkEvery, i, iterations) == Failure(r.error)
    ensures r.Success? ==> Labels(root) <= r.value.st.Keys
    ensures r.Success? ==>
      SolveFrom(root, r.value, recs, checkEvery, i + 1, iterations) == SolveFrom(root, run, recs, checkEvery, i, iterations)
  {
    var it := RunIteration(root, run.st, recs, run.k);
    SolveUnfold(root, run, recs, checkEvery, i, iterations, it);
    if it.Failure? {
      return Failure(it.error);
    }
    r := Success(Run(it.value.st, it.value.k, Stamp(checkEvery, i, run.t)));
  }
}
