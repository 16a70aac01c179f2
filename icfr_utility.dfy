/** The utilities of the second ICFR draft (`icfr_.py`). Once `calcReachability` has given
    every leaf its per-player reach flags, `get_imm_utility` adds to `imm_utility[a]` of each
    information set the utility of the leaves directly below action `a` that every other
    player reaches by following the sampled plan. `get_cum_utility` then adds the cumulative
    utilities of the information sets directly below, and `get_utility` adds these to
    `utility`. The information sets' fields are the `DraftState` of `IcfrDraft`; the tree's
    information sets and children are those of a built `CFRTree`. */
module IcfrUtility {
  import opened Wrappers
  import opened GameTree
  import Dicts
  import CfrTrees
  import CfrIsets
  import RegretMinimizers
  import Icfr
  import IcfrDraft

  /** Two outcomes that agree on success and, on success, on the value. Where the source walks
      a Python set, the error raised first depends on the set's order, so the methods promise
      this much about the order-free definitions. */
  ghost predicate Same<T>(r: Result<T>, s: Result<T>)
  {
    (r.Success? <==> s.Success?) && (r.Success? ==> r.value == s.value)
  }

  /** What `get_imm_utility` needs of the tree: the information sets form a dictionary and each
      has one set of child leaves per action. */
  ghost predicate Ready(t: CfrTrees.CFRTree)
  {
    Dicts.Valid(t.informationSets) &&
    forall h :: h in t.informationSets.m ==>
      h in t.childrenLeaves && |t.childrenLeaves[h]| == t.informationSets.m[h].actionCount
  }

  /** A tree as the constructor builds it is ready. */
  lemma ShapeReady(t: CfrTrees.CFRTree)
    requires t.Shape()
    ensures Ready(t)
  {
  }

  // ---------------------------------------------------------------------------------------
  // `get_imm_utility`.

  /** The utilities of the leaf at `x`, or none when `x` is not a leaf of `root`. */
  function UtilityAt(root: Node, x: seq<int>): seq<real>
  {
    if ValidPath(root, x) && At(root, x).Leaf? then At(root, x).utility else []
  }

  /** `reduce(lambda x, y: x and y, flags, True)`. */
  predicate AllSet(f: seq<bool>)
  {
    forall j :: 0 <= j < |f| ==> f[j]
  }

  /** Leaf `x` counts for player `p`: it has flags, `p` indexes them (as a Python list index),
      and with `p`'s own flag forced on every flag is set. */
  predicate Counts(lv: IcfrDraft.Flags, p: int, x: seq<int>)
  {
    x in lv && 0 <= RegretMinimizers.PyIndex(|lv[x]|, p) < |lv[x]| &&
    AllSet(lv[x][RegretMinimizers.PyIndex(|lv[x]|, p) := true])
  }

  /** What leaf `x` adds to `imm_utility[a]` of a set of player `p` whose `imm_utility` has
      `width` entries: whether it counts, and its share, the leaf's utility for `p` over six.
      A leaf without flags is an `AttributeError`; a player outside the flags, `a` outside
      `imm_utility` (read before the share) or `p` outside the utilities an `IndexError`. */
  function Gain(root: Node, lv: IcfrDraft.Flags, p: int, a: nat, width: nat, x: seq<int>): (r: Result<(bool, real)>)
    ensures r.Success? <==> (x in lv && 0 <= RegretMinimizers.PyIndex(|lv[x]|, p) < |lv[x]| &&
      (Counts(lv, p, x) ==> (a < width &&
        0 <= RegretMinimizers.PyIndex(|UtilityAt(root, x)|, p) < |UtilityAt(root, x)|)))
    ensures r.Success? ==> (r.value.0 <==> Counts(lv, p, x))
    ensures r.Success? && !r.value.0 ==> r.value.1 == 0.0
  {
    if x !in lv then Failure("AttributeError")
    else if !(0 <= RegretMinimizers.PyIndex(|lv[x]|, p) < |lv[x]|) then Failure("IndexError")
    else if !Counts(lv, p, x) then Success((false, 0.0))
    else if a >= width then Failure("IndexError")
    else
      var u := UtilityAt(root, x);
      var k := RegretMinimizers.PyIndex(|u|, p);
      if 0 <= k < |u| then Success((true, u[k] / 6.0)) else Failure("IndexError")
  }

  /** Two gains together: whether either counts, and their sum. */
  function Plus(g: (bool, real), g': (bool, real)): (bool, real)
  {
    (g.0 || g'.0, g.1 + g'.1)
  }

  /** `g` succeeds exactly when `g1` and `g2` do, and then is their `Plus`. */
  ghost predicate Joins(g: Result<(bool, real)>, g1: Result<(bool, real)>, g2: Result<(bool, real)>)
  {
    (g.Success? <==> g1.Success? && g2.Success?) &&
    (g.Success? ==> g.value == Plus(g1.value, g2.value))
  }

  /** The leaves of `s` together, taking a fixed member first. */
  ghost function GainSum(root: Node, lv: IcfrDraft.Flags, p: int, a: nat, width: nat, s: set<seq<int>>): (r: Result<(bool, real)>)
    decreases |s|
  {
    if s == {} then Success((false, 0.0))
    else
      var x := Dicts.Pick(s);
      var g :- Gain(root, lv, p, a, width, x);
      var rest :- GainSum(root, lv, p, a, width, s - {x});
      Success(Plus(g, rest))
  }

  /** One unfolding of `GainSum`. */
  lemma GainSumUnfold(root: Node, lv: IcfrDraft.Flags, p: int, a: nat, width: nat, s: set<seq<int>>)
    requires s != {}
    ensures Joins(GainSum(root, lv, p, a, width, s), Gain(root, lv, p, a, width, Dicts.Pick(s)),
      GainSum(root, lv, p, a, width, s - {Dicts.Pick(s)}))
  {
  }

  /** Taking `gz` then `gy` off `a` comes to taking `gy` then `gz`. */
  lemma JoinsSwap(a: Result<(bool, real)>, b: Result<(bool, real)>, c: Result<(bool, real)>, d: Result<(bool, real)>,
    gz: Result<(bool, real)>, gy: Result<(bool, real)>)
    requires Joins(a, gz, b) && Joins(b, gy, c) && Joins(d, gz, c)
    ensures Joins(a, gy, d)
  {
  }

  /** Any member of `s` may be taken first: the sum does not depend on the set's order. */
  lemma {:induction false} GainSumAny(root: Node, lv: IcfrDraft.Flags, p: int, a: nat, width: nat, s: set<seq<int>>, y: seq<int>)
    requires y in s
    ensures Joins(GainSum(root, lv, p, a, width, s), Gain(root, lv, p, a, width, y), GainSum(root, lv, p, a, width, s - {y}))
    decreases |s|
  {
    var z := Dicts.Pick(s);
    GainSumUnfold(root, lv, p, a, width, s);
    if z != y {
      GainSumAny(root, lv, p, a, width, s - {z}, y);
      GainSumAny(root, lv, p, a, width, s - {y}, z);
      assert s - {z} - {y} == s - {y} - {z};
      JoinsSwap(GainSum(root, lv, p, a, width, s), GainSum(root, lv, p, a, width, s - {z}),
        GainSum(root, lv, p, a, width, s - {z} - {y}), GainSum(root, lv, p, a, width, s - {y}),
        Gain(root, lv, p, a, width, z), Gain(root, lv, p, a, width, y));
    }
  }

  /** The sum succeeds exactly when every leaf's gain does. */
  lemma {:induction false} GainSumOk(root: Node, lv: IcfrDraft.Flags, p: int, a: nat, width: nat, s: set<seq<int>>)
    ensures GainSum(root, lv, p, a, width, s).Success? <==> forall x :: x in s ==> Gain(root, lv, p, a, width, x).Success?
    decreases |s|
  {
    if s != {} {
      var x := Dicts.Pick(s);
      GainSumUnfold(root, lv, p, a, width, s);
      GainSumOk(root, lv, p, a, width, s - {x});
      assert forall y :: y in s ==> y == x || y in s - {x};
    }
  }

  /** Some leaf of `s` counts for `p`. */
  ghost predicate SomeCounts(lv: IcfrDraft.Flags, p: int, s: set<seq<int>>)
  {
    exists x :: x in s && Counts(lv, p, x)
  }

  lemma SomeCountsSplit(lv: IcfrDraft.Flags, p: int, s: set<seq<int>>, x: seq<int>)
    requires x in s
    ensures SomeCounts(lv, p, s) <==> Counts(lv, p, x) || SomeCounts(lv, p, s - {x})
  {
    if SomeCounts(lv, p, s) {
      var y :| y in s && Counts(lv, p, y);
      if y != x {
        assert y in s - {x};
      }
    }
  }

  /** When the sum succeeds, it counts exactly when some leaf counts, and is zero otherwise. */
  lemma {:induction false} GainSumCounts(root: Node, lv: IcfrDraft.Flags, p: int, a: nat, width: nat, s: set<seq<int>>)
    requires GainSum(root, lv, p, a, width, s).Success?
    ensures GainSum(root, lv, p, a, width, s).value.0 <==> SomeCounts(lv, p, s)
    ensures !GainSum(root, lv, p, a, width, s).value.0 ==> GainSum(root, lv, p, a, width, s).value.1 == 0.0
    decreases |s|
  {
    if s != {} {
      var x := Dicts.Pick(s);
      GainSumUnfold(root, lv, p, a, width, s);
      GainSumCounts(root, lv, p, a, width, s - {x});
      SomeCountsSplit(lv, p, s, x);
    }
  }

  /** `imm_utility` of set `h` after the loop over the leaves below action `a`. */
  ghost function ImmAction(t: CfrTrees.CFRTree, lv: IcfrDraft.Flags, h: int, imm: seq<real>, a: nat): (r: Result<seq<real>>)
    requires Ready(t) && h in t.informationSets.m && a < t.informationSets.m[h].actionCount
  {
    var g :- GainSum(t.root, lv, t.informationSets.m[h].player, a, |imm|, t.childrenLeaves[h][a]);
    if g.0 && a < |imm| then Success(imm[a := imm[a] + g.1]) else Success(imm)
  }

  /** `imm_utility` of set `h` after actions `a ..` of `for a in range(iset.action_count)`. */
  ghost function ImmActions(t: CfrTrees.CFRTree, lv: IcfrDraft.Flags, h: int, imm: seq<real>, a: nat): (r: Result<seq<real>>)
    requires Ready(t) && h in t.informationSets.m && a <= t.informationSets.m[h].actionCount
    decreases t.informationSets.m[h].actionCount - a
  {
    if a == t.informationSets.m[h].actionCount then Success(imm)
    else
      var imm' :- ImmAction(t, lv, h, imm, a);
      ImmActions(t, lv, h, imm', a + 1)
  }

  /** The sets of `keys`, in order, each given its new `imm_utility`. */
  ghost function ImmAll(t: CfrTrees.CFRTree, lv: IcfrDraft.Flags, st: IcfrDraft.DraftState, keys: seq<int>): (r: Result<IcfrDraft.DraftState>)
    requires Ready(t) && forall h :: h in keys ==> h in t.informationSets.m && h in st
    ensures r.Success? ==> r.value.Keys == st.Keys
    decreases |keys|
  {
    if keys == [] then Success(st)
    else
      var h := keys[0];
      var imm :- ImmActions(t, lv, h, st[h].immUtility, 0);
      ImmAll(t, lv, st[h := st[h].(immUtility := imm)], keys[1..])
  }

  /** `get_imm_utility(tree)` over the information sets in the dictionary's order. */
  ghost function GetImm(t: CfrTrees.CFRTree, lv: IcfrDraft.Flags, st: IcfrDraft.DraftState): (r: Result<IcfrDraft.DraftState>)
    requires Ready(t) && t.informationSets.m.Keys <= st.Keys
    ensures r.Success? ==> r.value.Keys == st.Keys
  {
    assert forall h :: h in t.informationSets.keys ==> h in t.informationSets.m;
    ImmAll(t, lv, st, t.informationSets.keys)
  }

  /** No player of `width` but `p` takes, on the path `x`, a child other than the stored action
      of the information set deciding there. */
  ghost predicate OthersFollow(root: Node, x: seq<int>, st: IcfrDraft.DraftState, p: int, width: nat)
    requires ValidPath(root, x)
  {
    forall j :: 0 <= j < width && j != p ==> !IcfrDraft.Deviates(root, x, st, j, width)
  }

  /** After `calcReachability(root, v)` with every flag of `v` set, a leaf counts for a
      player `p` of the game exactly when no other player deviates from their stored action
      on the leaf's path: `imm_utility` collects the leaves the others' sampled actions lead
      to. */
  lemma CountsAfterCalc(root: Node, st: IcfrDraft.DraftState, v: seq<bool>, lv: IcfrDraft.Flags, x: seq<int>, p: int)
    requires Icfr.Labels(root) <= st.Keys && AllSet(v)
    requires IcfrDraft.CalcReach(root, [], st, v, lv).Success?
    requires ValidPath(root, x) && At(root, x).Leaf? && 0 <= p < |v|
    ensures Counts(IcfrDraft.CalcReach(root, [], st, v, lv).value, p, x) <==> OthersFollow(root, x, st, p, |v|)
  {
    assert v == seq(|v|, _ => true);
    var r := IcfrDraft.CalcReach(root, [], st, v, lv).value;
    IcfrDraft.LeafPathsAre(root, [], x);
    assert [] + x == x;
    IcfrDraft.LeafFlags(root, st, |v|, lv);
    assert x in IcfrDraft.LeafPaths(root, []);
    assert x in r && |r[x]| == |v|;
    assert forall j :: 0 <= j < |v| ==> (r[x][j] <==> !IcfrDraft.Deviates(root, x, st, j, |v|));
    assert RegretMinimizers.PyIndex(|r[x]|, p) == p;
    var f := r[x][p := true];
    if OthersFollow(root, x, st, p, |v|) {
      forall j | 0 <= j < |v|
        ensures f[j]
      {
        if j != p {
          assert r[x][j];
        }
      }
      assert AllSet(f);
    }
    if Counts(r, p, x) {
      assert AllSet(f);
      forall j | 0 <= j < |v| && j != p
        ensures !IcfrDraft.Deviates(root, x, st, j, |v|)
      {
        assert f[j];
      }
    }
  }

  /** `get_imm_utility` on one set: it succeeds exactly when the leaves below every action
      do, keeps the length of `imm_utility`, and adds to each entry the sum below its action. */
  lemma {:induction false} ImmActionsEffect(t: CfrTrees.CFRTree, lv: IcfrDraft.Flags, h: int, imm: seq<real>, a: nat)
    requires Ready(t) && h in t.informationSets.m && a <= t.informationSets.m[h].actionCount
    ensures var s := t.informationSets.m[h];
      ImmActions(t, lv, h, imm, a).Success? <==>
        forall b :: a <= b < s.actionCount ==> GainSum(t.root, lv, s.player, b, |imm|, t.childrenLeaves[h][b]).Success?
    ensures var s := t.informationSets.m[h];
      ImmActions(t, lv, h, imm, a).Success? ==>
        |ImmActions(t, lv, h, imm, a).value| == |imm| &&
        forall b :: 0 <= b < |imm| ==>
          ImmActions(t, lv, h, imm, a).value[b] ==
            if a <= b < s.actionCount then imm[b] + GainSum(t.root, lv, s.player, b, |imm|, t.childrenLeaves[h][b]).value.1
            else imm[b]
    decreases t.informationSets.m[h].actionCount - a
  {
    var s := t.informationSets.m[h];
    if a < s.actionCount {
      var g := GainSum(t.root, lv, s.player, a, |imm|, t.childrenLeaves[h][a]);
      if g.Success? {
        GainSumCounts(t.root, lv, s.player, a, |imm|, t.childrenLeaves[h][a]);
        var imm' := ImmAction(t, lv, h, imm, a).value;
        ImmActionsEffect(t, lv, h, imm', a + 1);
        assert |imm'| == |imm|;
        forall b | a + 1 <= b < s.actionCount
          ensures GainSum(t.root, lv, s.player, b, |imm'|, t.childrenLeaves[h][b]) ==
            GainSum(t.root, lv, s.player, b, |imm|, t.childrenLeaves[h][b])
        {
        }
      }
    }
  }

  /** The tail of a list of distinct keys is distinct and lacks the head. */
  lemma DistinctTail(keys: seq<int>)
    requires Dicts.Distinct(keys) && keys != []
    ensures Dicts.Distinct(keys[1..]) && keys[0] !in keys[1..]
    ensures forall g :: g in keys <==> g == keys[0] || g in keys[1..]
  {
    forall i, j | 0 <= i < j < |keys[1..]| ensures keys[1..][i] != keys[1..][j] {
      assert keys[1..][i] == keys[i + 1] && keys[1..][j] == keys[j + 1];
    }
    forall i | 0 <= i < |keys[1..]| ensures keys[1..][i] != keys[0] {
      assert keys[1..][i] == keys[i + 1];
    }
    assert keys == [keys[0]] + keys[1..];
  }

  /** The walk over the information sets of `keys`, listed once each, succeeds exactly when
      every one of them does. */
  lemma {:induction false} ImmAllOk(t: CfrTrees.CFRTree, lv: IcfrDraft.Flags, st: IcfrDraft.DraftState, keys: seq<int>)
    requires Ready(t) && Dicts.Distinct(keys)
    requires forall h :: h in keys ==> h in t.informationSets.m && h in st
    ensures ImmAll(t, lv, st, keys).Success? <==>
      forall h :: h in keys ==> ImmActions(t, lv, h, st[h].immUtility, 0).Success?
    decreases |keys|
  {
    if keys != [] {
      var h := keys[0];
      var a := ImmActions(t, lv, h, st[h].immUtility, 0);
      DistinctTail(keys);
      if a.Success? {
        var st1 := st[h := st[h].(immUtility := a.value)];
        ImmAllOk(t, lv, st1, keys[1..]);
        assert forall g :: g in keys[1..] ==> st1[g] == st[g];
      }
    }
  }

  /** The new state: the sets of `keys` with their new `imm_utility`, the rest unchanged. */
  ghost predicate ImmDone(t: CfrTrees.CFRTree, lv: IcfrDraft.Flags, st: IcfrDraft.DraftState, keys: seq<int>, r: IcfrDraft.DraftState)
    requires Ready(t)
    requires forall h :: h in keys ==> h in t.informationSets.m && h in st
  {
    (forall h :: h in keys ==> ImmActions(t, lv, h, st[h].immUtility, 0).Success?) &&
    r.Keys == st.Keys &&
    forall h :: h in st ==>
      r[h] == if h in keys then st[h].(immUtility := ImmActions(t, lv, h, st[h].immUtility, 0).value) else st[h]
  }

  /** When the walk over distinct `keys` succeeds, it changes only their `imm_utility`. */
  lemma {:induction false} ImmAllValue(t: CfrTrees.CFRTree, lv: IcfrDraft.Flags, st: IcfrDraft.DraftState, keys: seq<int>)
    requires Ready(t) && Dicts.Distinct(keys)
    requires forall h :: h in keys ==> h in t.informationSets.m && h in st
    requires ImmAll(t, lv, st, keys).Success?
    ensures ImmDone(t, lv, st, keys, ImmAll(t, lv, st, keys).value)
    decreases |keys|
  {
    if keys != [] {
      var h := keys[0];
      var a := ImmActions(t, lv, h, st[h].immUtility, 0).value;
      DistinctTail(keys);
      var st1 := st[h := st[h].(immUtility := a)];
      assert ImmAll(t, lv, st, keys) == ImmAll(t, lv, st1, keys[1..]);
      ImmAllOk(t, lv, st, keys);
      ImmAllValue(t, lv, st1, keys[1..]);
      var r := ImmAll(t, lv, st1, keys[1..]).value;
      forall g | g in st
        ensures r[g] == if g in keys && ImmActions(t, lv, g, st[g].immUtility, 0).Success? then st[g].(immUtility := ImmActions(t, lv, g, st[g].immUtility, 0).value) else st[g]
      {
        if g != h {
          assert st1[g] == st[g];
        }
      }
    }
  }

  /** `get_imm_utility(tree)` succeeds exactly when every information set's leaves do, and
      then gives every information set its new `imm_utility` and changes nothing else. */
  lemma GetImmEffect(t: CfrTrees.CFRTree, lv: IcfrDraft.Flags, st: IcfrDraft.DraftState)
    requires Ready(t) && t.informationSets.m.Keys <= st.Keys
    ensures GetImm(t, lv, st).Success? <==>
      forall h :: h in t.informationSets.m ==> ImmActions(t, lv, h, st[h].immUtility, 0).Success?
    ensures GetImm(t, lv, st).Success? ==>
      var r := GetImm(t, lv, st).value;
      r.Keys == st.Keys &&
      forall h :: h in st ==>
        r[h] == if h in t.informationSets.m then st[h].(immUtility := ImmActions(t, lv, h, st[h].immUtility, 0).value) else st[h]
  {
    var keys := t.informationSets.keys;
    assert forall h :: h in keys <==> h in t.informationSets.m;
    ImmAllOk(t, lv, st, keys);
    if GetImm(t, lv, st).Success? {
      ImmAllValue(t, lv, st, keys);
    }
  }

  /** Moving one leaf from the rest of the sum to the part already added. */
  lemma GainStep(root: Node, lv: IcfrDraft.Flags, p: int, a: nat, width: nat, s: set<seq<int>>, acc: (bool, real),
    remaining: set<seq<int>>, x: seq<int>)
    requires x in remaining
    requires Joins(GainSum(root, lv, p, a, width, s), Success(acc), GainSum(root, lv, p, a, width, remaining))
    ensures Gain(root, lv, p, a, width, x).Failure? ==> GainSum(root, lv, p, a, width, s).Failure?
    ensures Gain(root, lv, p, a, width, x).Success? ==>
      Joins(GainSum(root, lv, p, a, width, s), Success(Plus(acc, Gain(root, lv, p, a, width, x).value)),
        GainSum(root, lv, p, a, width, remaining - {x}))
  {
    GainSumAny(root, lv, p, a, width, remaining, x);
    JoinsShift(GainSum(root, lv, p, a, width, s), acc, GainSum(root, lv, p, a, width, remaining),
      Gain(root, lv, p, a, width, x), GainSum(root, lv, p, a, width, remaining - {x}));
  }

  lemma JoinsShift(all: Result<(bool, real)>, acc: (bool, real), rest: Result<(bool, real)>, g: Result<(bool, real)>,
    rest': Result<(bool, real)>)
    requires Joins(all, Success(acc), rest) && Joins(rest, g, rest')
    ensures g.Failure? ==> all.Failure?
    ensures g.Success? ==> Joins(all, Success(Plus(acc, g.value)), rest')
  {
  }

  /** The innermost loop of `get_imm_utility`, over the leaves below action `a`, in whatever
      order the set yields them. */
  method LeafGains(root: Node, lv: IcfrDraft.Flags, p: int, a: nat, width: nat, s: set<seq<int>>) returns (r: Result<(bool, real)>)
    ensures Same(r, GainSum(root, lv, p, a, width, s))
  {
    var acc := (false, 0.0);
    var remaining := s;
    while remaining != {}
      invariant Joins(GainSum(root, lv, p, a, width, s), Success(acc), GainSum(root, lv, p, a, width, remaining))
      decreases remaining
    {
      ghost var w := Dicts.Pick(remaining);
      assert w in remaining;
      var x :| x in remaining;
      var g := Gain(root, lv, p, a, width, x);
      GainStep(root, lv, p, a, width, s, acc, remaining, x);
      if g.Failure? {
        return Failure(g.error);
      }
      acc := Plus(acc, g.value);
      remaining := remaining - {x};
    }
    r := Success(acc);
  }

  /** `get_imm_utility` on the information set `h`: `for a in range(iset.action_count)`. */
  method ImmForSet(t: CfrTrees.CFRTree, lv: IcfrDraft.Flags, h: int, imm: seq<real>) returns (r: Result<seq<real>>)
    requires Ready(t) && h in t.informationSets.m
    ensures Same(r, ImmActions(t, lv, h, imm, 0))
  {
    var s := t.informationSets.m[h];
    var cur := imm;
    var a := 0;
    while a < s.actionCount
      invariant a <= s.actionCount
      invariant Same(ImmActions(t, lv, h, imm, 0), ImmActions(t, lv, h, cur, a))
      decreases s.actionCount - a
    {
      var g := LeafGains(t.root, lv, s.player, a, |cur|, t.childrenLeaves[h][a]);
      if g.Failure? {
        return Failure(g.error);
      }
      if g.value.0 && a < |cur| {
        cur := cur[a := cur[a] + g.value.1];
      }
      a := a + 1;
    }
    r := Success(cur);
  }

  /** `get_imm_utility(tree)`: the information sets in the dictionary's order. */
  method GetImmUtility(t: CfrTrees.CFRTree, lv: IcfrDraft.Flags, st: IcfrDraft.DraftState) returns (r: Result<IcfrDraft.DraftState>)
    requires Ready(t) && t.informationSets.m.Keys <= st.Keys
    ensures Same(r, GetImm(t, lv, st))
  {
    var keys := t.informationSets.keys;
    assert forall h :: h in keys ==> h in t.informationSets.m;
    var cur := st;
    var k := 0;
    while k < |keys|
      invariant k <= |keys| && cur.Keys == st.Keys
      invariant Same(GetImm(t, lv, st), ImmAll(t, lv, cur, keys[k..]))
      decreases |keys| - k
    {
      var h := keys[k];
      assert keys[k..][0] == h && keys[k..][1..] == keys[k + 1..];
      var imm := ImmForSet(t, lv, h, cur[h].immUtility);
      if imm.Failure? {
        return Failure(imm.error);
      }
      cur := cur[h := cur[h].(immUtility := imm.value)];
      k := k + 1;
    }
    r := Success(cur);
  }

  // ---------------------------------------------------------------------------------------
  // `get_cum_utility`.

  /** What `get_cum_utility` needs of the tree besides `Ready`: one set of child information
      sets per action, each deeper than its parent. */
  ghost predicate Walkable(t: CfrTrees.CFRTree)
  {
    Ready(t) && CfrIsets.Layered(t)
  }

  lemma ShapeWalkable(t: CfrTrees.CFRTree)
    requires t.Shape()
    ensures Walkable(t)
  {
    CfrIsets.ShapeLayered(t);
  }

  /** `get_cum_utility(iset, action, plan)` on the set `h`, with every set's `imm_utility` in
      `imm`. It reads `imm_utility[action]` first (a Python index: an `IndexError` out of
      range). A negative action makes every node of the set name the set itself as its child
      set, so the walk goes on at `h` with the plan's action for `h`, and a negative one there
      recurses for ever. An action outside the nodes' children is an `IndexError`. Otherwise
      each child information set below `action` adds its cumulative utility, taken at the
      action the plan gives `h`, the parent; a set missing from the plan is a `KeyError`. */
  ghost function Cum(t: CfrTrees.CFRTree, imm: map<int, seq<real>>, plan: map<int, int>, h: int, action: int): (r: Result<real>)
    requires Walkable(t) && h in t.informationSets.m && t.informationSets.m.Keys <= imm.Keys
    decreases CfrIsets.Height(t.root) - CfrIsets.Depth(t, h), if action < 0 then 2 else 1
  {
    var u := imm[h];
    var j := RegretMinimizers.PyIndex(|u|, action);
    if !(0 <= j < |u|) then Failure("IndexError")
    else if action < 0 then
      if h !in plan then Failure("KeyError")
      else if plan[h] < 0 then
        if 0 <= RegretMinimizers.PyIndex(|u|, plan[h]) < |u| then Failure("RecursionError") else Failure("IndexError")
      else
        var below :- Cum(t, imm, plan, h, plan[h]);
        Success(u[j] + below)
    else if action >= t.informationSets.m[h].actionCount then Failure("IndexError")
    else
      var kids := t.childrenInfoset[h][action];
      if kids == {} then Success(u[j])
      else if h !in plan then Failure("KeyError")
      else
        var below :- CumAll(t, imm, plan, kids, plan[h], CfrIsets.Depth(t, h));
        Success(u[j] + below)
  }

  /** `Cum` at `action` over the information sets of `s`, all deeper than `d`, added up. */
  ghost function CumAll(t: CfrTrees.CFRTree, imm: map<int, seq<real>>, plan: map<int, int>, s: set<int>, action: int, d: int): (r: Result<real>)
    requires Walkable(t) && t.informationSets.m.Keys <= imm.Keys
    requires forall x :: x in s ==> x in t.informationSets.m && d < CfrIsets.Depth(t, x)
    decreases CfrIsets.Height(t.root) - d, 0, |s|
  {
    if s == {} then Success(0.0)
    else
      var x := Dicts.Pick(s);
      var here :- Cum(t, imm, plan, x, action);
      var rest :- CumAll(t, imm, plan, s - {x}, action, d);
      Success(here + rest)
  }

  /** `r` succeeds exactly when `r1` and `r2` do, and then is their sum. */
  ghost predicate Adds(r: Result<real>, r1: Result<real>, r2: Result<real>)
  {
    (r.Success? <==> r1.Success? && r2.Success?) && (r.Success? ==> r.value == r1.value + r2.value)
  }

  lemma CumAllUnfold(t: CfrTrees.CFRTree, imm: map<int, seq<real>>, plan: map<int, int>, s: set<int>, action: int, d: int)
    requires Walkable(t) && t.informationSets.m.Keys <= imm.Keys && s != {}
    requires forall x :: x in s ==> x in t.informationSets.m && d < CfrIsets.Depth(t, x)
    ensures Adds(CumAll(t, imm, plan, s, action, d), Cum(t, imm, plan, Dicts.Pick(s), action),
      CumAll(t, imm, plan, s - {Dicts.Pick(s)}, action, d))
  {
  }

  lemma AddsSwap(a: Result<real>, b: Result<real>, c: Result<real>, d: Result<real>, gz: Result<real>, gy: Result<real>)
    requires Adds(a, gz, b) && Adds(b, gy, c) && Adds(d, gz, c)
    ensures Adds(a, gy, d)
  {
  }

  /** Any member of `s` may be taken first: the sum does not depend on the set's order. */
  lemma {:induction false} CumAllAny(t: CfrTrees.CFRTree, imm: map<int, seq<real>>, plan: map<int, int>, s: set<int>, action: int, d: int, y: int)
    requires Walkable(t) && t.informationSets.m.Keys <= imm.Keys && y in s
    requires forall x :: x in s ==> x in t.informationSets.m && d < CfrIsets.Depth(t, x)
    ensures Adds(CumAll(t, imm, plan, s, action, d), Cum(t, imm, plan, y, action), CumAll(t, imm, plan, s - {y}, action, d))
    decreases |s|
  {
    var z := Dicts.Pick(s);
    CumAllUnfold(t, imm, plan, s, action, d);
    if z != y {
      CumAllAny(t, imm, plan, s - {z}, action, d, y);
      CumAllAny(t, imm, plan, s - {y}, action, d, z);
      assert s - {z} - {y} == s - {y} - {z};
      AddsSwap(CumAll(t, imm, plan, s, action, d), CumAll(t, imm, plan, s - {z}, action, d),
        CumAll(t, imm, plan, s - {z} - {y}, action, d), CumAll(t, imm, plan, s - {y}, action, d),
        Cum(t, imm, plan, z, action), Cum(t, imm, plan, y, action));
    }
  }

  /** The sum over `s` succeeds exactly when every member's cumulative utility does. */
  lemma {:induction false} CumAllOk(t: CfrTrees.CFRTree, imm: map<int, seq<real>>, plan: map<int, int>, s: set<int>, action: int, d: int)
    requires Walkable(t) && t.informationSets.m.Keys <= imm.Keys
    requires forall x :: x in s ==> x in t.informationSets.m && d < CfrIsets.Depth(t, x)
    ensures CumAll(t, imm, plan, s, action, d).Success? <==> forall x :: x in s ==> Cum(t, imm, plan, x, action).Success?
    decreases |s|
  {
    if s != {} {
      var x := Dicts.Pick(s);
      CumAllUnfold(t, imm, plan, s, action, d);
      CumAllOk(t, imm, plan, s - {x}, action, d);
      assert forall y :: y in s ==> y == x || y in s - {x};
    }
  }

  /** Two tables of `imm_utility` for the same sets, of the same lengths. */
  ghost predicate SameShape(imm1: map<int, seq<real>>, imm2: map<int, seq<real>>)
  {
    imm1.Keys == imm2.Keys && forall h :: h in imm1 ==> |imm1[h]| == |imm2[h]|
  }

  /** The entrywise sum of two tables of `imm_utility`. */
  function AddImm(imm1: map<int, seq<real>>, imm2: map<int, seq<real>>): (r: map<int, seq<real>>)
    ensures r.Keys == imm1.Keys * imm2.Keys
    ensures forall h :: h in r ==> |r[h]| == |imm1[h]|
  {
    map h | h in imm1 && h in imm2 ::
      seq(|imm1[h]|, i => if 0 <= i < |imm1[h]| && i < |imm2[h]| then imm1[h][i] + imm2[h][i] else 0.0)
  }

  /** `r` is the sum of `r1` and `r2`, which succeed together. */
  ghost predicate Linear(r: Result<real>, r1: Result<real>, r2: Result<real>)
  {
    Adds(r, r1, r2) && (r1.Success? <==> r2.Success?)
  }

  /** The cumulative utility is linear in the immediate utilities: whether it succeeds depends
      only on their lengths, and on the entrywise sum of two tables it is the sum of the two
      cumulative utilities. */
  lemma {:induction false} CumLinear(t: CfrTrees.CFRTree, imm1: map<int, seq<real>>, imm2: map<int, seq<real>>, plan: map<int, int>,
    h: int, action: int)
    requires Walkable(t) && h in t.informationSets.m && t.informationSets.m.Keys <= imm1.Keys && SameShape(imm1, imm2)
    ensures Linear(Cum(t, AddImm(imm1, imm2), plan, h, action), Cum(t, imm1, plan, h, action), Cum(t, imm2, plan, h, action))
    decreases CfrIsets.Height(t.root) - CfrIsets.Depth(t, h), if action < 0 then 2 else 1
  {
    var sum := AddImm(imm1, imm2);
    var j := RegretMinimizers.PyIndex(|imm1[h]|, action);
    if 0 <= j < |imm1[h]| {
      assert sum[h][j] == imm1[h][j] + imm2[h][j];
      if action < 0 {
        if h in plan && plan[h] >= 0 {
          CumLinear(t, imm1, imm2, plan, h, plan[h]);
        }
      } else if action < t.informationSets.m[h].actionCount {
        var kids := t.childrenInfoset[h][action];
        if kids != {} && h in plan {
          CumAllLinear(t, imm1, imm2, plan, kids, plan[h], CfrIsets.Depth(t, h));
        }
      }
    }
  }

  lemma {:induction false} CumAllLinear(t: CfrTrees.CFRTree, imm1: map<int, seq<real>>, imm2: map<int, seq<real>>, plan: map<int, int>,
    s: set<int>, action: int, d: int)
    requires Walkable(t) && t.informationSets.m.Keys <= imm1.Keys && SameShape(imm1, imm2)
    requires forall x :: x in s ==> x in t.informationSets.m && d < CfrIsets.Depth(t, x)
    ensures Linear(CumAll(t, AddImm(imm1, imm2), plan, s, action, d), CumAll(t, imm1, plan, s, action, d),
      CumAll(t, imm2, plan, s, action, d))
    decreases CfrIsets.Height(t.root) - d, 0, |s|
  {
    if s != {} {
      var x := Dicts.Pick(s);
      CumLinear(t, imm1, imm2, plan, x, action);
      CumAllLinear(t, imm1, imm2, plan, s - {x}, action, d);
    }
  }

  /** Moving one child set from the rest of the sum to the part already added. */
  lemma AddsShift(all: Result<real>, acc: real, rest: Result<real>, g: Result<real>, rest': Result<real>)
    requires Adds(all, Success(acc), rest) && Adds(rest, g, rest')
    ensures g.Failure? ==> all.Failure?
    ensures g.Success? ==> Adds(all, Success(acc + g.value), rest')
  {
  }

  /** One unfolding of `Cum` at a non-negative action in range: its own entry plus the child
      sets, if there are any and the plan has `h`. */
  lemma CumKids(t: CfrTrees.CFRTree, imm: map<int, seq<real>>, plan: map<int, int>, h: int, action: int)
    requires Walkable(t) && h in t.informationSets.m && t.informationSets.m.Keys <= imm.Keys
    requires 0 <= action < |imm[h]| && action < t.informationSets.m[h].actionCount
    ensures var kids := t.childrenInfoset[h][action];
      (forall x :: x in kids ==> x in t.informationSets.m && CfrIsets.Depth(t, h) < CfrIsets.Depth(t, x)) &&
      (kids == {} ==> Cum(t, imm, plan, h, action) == Success(imm[h][action])) &&
      (kids != {} && h !in plan ==> Cum(t, imm, plan, h, action).Failure?) &&
      (h in plan ==> Adds(Cum(t, imm, plan, h, action), Success(imm[h][action]),
        CumAll(t, imm, plan, kids, plan[h], CfrIsets.Depth(t, h))))
  {
  }

  /** `get_cum_utility(iset, action, action_plan)`. */
  method GetCumUtility(t: CfrTrees.CFRTree, imm: map<int, seq<real>>, plan: map<int, int>, h: int, action: int) returns (r: Result<real>)
    requires Walkable(t) && h in t.informationSets.m && t.informationSets.m.Keys <= imm.Keys
    ensures Same(r, Cum(t, imm, plan, h, action))
    decreases CfrIsets.Height(t.root) - CfrIsets.Depth(t, h), if action < 0 then 2 else 1
  {
    var u := imm[h];
    var j := RegretMinimizers.PyIndex(|u|, action);
    if !(0 <= j < |u|) {
      return Failure("IndexError");
    }
    var utility := u[j];
    if action < 0 {
      // The set is its own child set, and the walk goes on there at the planned action.
      if h !in plan {
        return Failure("KeyError");
      }
      if plan[h] < 0 {
        // The call would be this one again, after the same index check.
        if 0 <= RegretMinimizers.PyIndex(|u|, plan[h]) < |u| {
          return Failure("RecursionError");
        }
        return Failure("IndexError");
      }
      var below := GetCumUtility(t, imm, plan, h, plan[h]);
      if below.Failure? {
        return below;
      }
      return Success(utility + below.value);
    }
    if action >= t.informationSets.m[h].actionCount {
      return Failure("IndexError");
    }
    var kids := t.childrenInfoset[h][action];
    CumKids(t, imm, plan, h, action);
    var remaining := kids;
    while remaining != {}
      invariant remaining <= kids
      invariant h !in plan ==> remaining == kids && utility == u[j]
      invariant h in plan ==> Adds(Cum(t, imm, plan, h, action), Success(utility),
        CumAll(t, imm, plan, remaining, plan[h], CfrIsets.Depth(t, h)))
      decreases remaining
    {
      ghost var w := Dicts.Pick(remaining);
      assert w in remaining;
      var x :| x in remaining;
      if h !in plan {
        return Failure("KeyError");
      }
      CumAllAny(t, imm, plan, remaining, plan[h], CfrIsets.Depth(t, h), x);
      AddsShift(Cum(t, imm, plan, h, action), utility, CumAll(t, imm, plan, remaining, plan[h], CfrIsets.Depth(t, h)),
        Cum(t, imm, plan, x, plan[h]), CumAll(t, imm, plan, remaining - {x}, plan[h], CfrIsets.Depth(t, h)));
      var c := GetCumUtility(t, imm, plan, x, plan[h]);
      if c.Failure? {
        return c;
      }
      utility := utility + c.value;
      remaining := remaining - {x};
    }
    if h in plan {
      assert CumAll(t, imm, plan, remaining, plan[h], CfrIsets.Depth(t, h)) == Success(0.0);
    }
    r := Success(utility);
  }

  // ---------------------------------------------------------------------------------------
  // `get_utility`.

  /** `imm_utility` of every information set. */
  function ImmOf(st: IcfrDraft.DraftState): (r: map<int, seq<real>>)
    ensures r.Keys == st.Keys
  {
    map h | h in st :: st[h].immUtility
  }

  /** `utility` of set `h` after actions `a ..` of `for a in range(iset.action_count)`, each
      adding the cumulative utility of its action (`utility[a]` is read first, an
      `IndexError` out of range). */
  ghost function UtilActions(t: CfrTrees.CFRTree, imm: map<int, seq<real>>, plan: map<int, int>, h: int, util: seq<real>, a: nat): (r: Result<seq<real>>)
    requires Walkable(t) && h in t.informationSets.m && t.informationSets.m.Keys <= imm.Keys
    requires a <= t.informationSets.m[h].actionCount
    decreases t.informationSets.m[h].actionCount - a
  {
    if a == t.informationSets.m[h].actionCount then Success(util)
    else if a >= |util| then Failure("IndexError")
    else
      var c :- Cum(t, imm, plan, h, a);
      UtilActions(t, imm, plan, h, util[a := util[a] + c], a + 1)
  }

  /** The sets of `keys`, in order, each given its new `utility`. */
  ghost function UtilAll(t: CfrTrees.CFRTree, imm: map<int, seq<real>>, plan: map<int, int>, st: IcfrDraft.DraftState, keys: seq<int>): (r: Result<IcfrDraft.DraftState>)
    requires Walkable(t) && t.informationSets.m.Keys <= imm.Keys
    requires forall h :: h in keys ==> h in t.informationSets.m && h in st
    ensures r.Success? ==> r.value.Keys == st.Keys
    decreases |keys|
  {
    if keys == [] then Success(st)
    else
      var h := keys[0];
      var util :- UtilActions(t, imm, plan, h, st[h].utility, 0);
      UtilAll(t, imm, plan, st[h := st[h].(utility := util)], keys[1..])
  }

  /** `get_utility(tree, action_plan)`: `get_imm_utility`, then every information set adds the
      cumulative utility of each of its actions to `utility`. The second walk leaves
      `imm_utility` alone, so it reads the table the first one left. */
  ghost function GetUtil(t: CfrTrees.CFRTree, lv: IcfrDraft.Flags, plan: map<int, int>, st: IcfrDraft.DraftState): (r: Result<IcfrDraft.DraftState>)
    requires Walkable(t) && t.informationSets.m.Keys <= st.Keys
  {
    var st1 :- GetImm(t, lv, st);
    assert forall h :: h in t.informationSets.keys ==> h in t.informationSets.m;
    UtilAll(t, ImmOf(st1), plan, st1, t.informationSets.keys)
  }

  /** Action `b` of `h` is inside a `utility` of `width` entries and has a cumulative
      utility. */
  ghost predicate CumOk(t: CfrTrees.CFRTree, imm: map<int, seq<real>>, plan: map<int, int>, h: int, width: nat, b: int)
    requires Walkable(t) && h in t.informationSets.m && t.informationSets.m.Keys <= imm.Keys
  {
    b < width && Cum(t, imm, plan, h, b).Success?
  }

  /** One set's loop succeeds exactly when every action is inside `utility` and has a
      cumulative utility, and then adds that to each entry and keeps the length. */
  lemma {:induction false} UtilActionsEffect(t: CfrTrees.CFRTree, imm: map<int, seq<real>>, plan: map<int, int>, h: int, util: seq<real>, a: nat)
    requires Walkable(t) && h in t.informationSets.m && t.informationSets.m.Keys <= imm.Keys
    requires a <= t.informationSets.m[h].actionCount
    ensures UtilActions(t, imm, plan, h, util, a).Success? <==>
      forall b :: a <= b < t.informationSets.m[h].actionCount ==> CumOk(t, imm, plan, h, |util|, b)
    ensures UtilActions(t, imm, plan, h, util, a).Success? ==>
      |UtilActions(t, imm, plan, h, util, a).value| == |util| &&
      forall b :: 0 <= b < |util| ==>
        UtilActions(t, imm, plan, h, util, a).value[b] ==
          if a <= b < t.informationSets.m[h].actionCount && CumOk(t, imm, plan, h, |util|, b)
          then util[b] + Cum(t, imm, plan, h, b).value else util[b]
    decreases t.informationSets.m[h].actionCount - a
  {
    if a < t.informationSets.m[h].actionCount {
      if CumOk(t, imm, plan, h, |util|, a) {
        var util' := util[a := util[a] + Cum(t, imm, plan, h, a).value];
        assert UtilActions(t, imm, plan, h, util, a) == UtilActions(t, imm, plan, h, util', a + 1);
        UtilActionsEffect(t, imm, plan, h, util', a + 1);
        assert |util'| == |util|;
      }
    }
  }

  /** The walk over distinct `keys` succeeds exactly when every one of them does. */
  lemma {:induction false} UtilAllOk(t: CfrTrees.CFRTree, imm: map<int, seq<real>>, plan: map<int, int>, st: IcfrDraft.DraftState, keys: seq<int>)
    requires Walkable(t) && t.informationSets.m.Keys <= imm.Keys && Dicts.Distinct(keys)
    requires forall h :: h in keys ==> h in t.informationSets.m && h in st
    ensures UtilAll(t, imm, plan, st, keys).Success? <==>
      forall h :: h in keys ==> UtilActions(t, imm, plan, h, st[h].utility, 0).Success?
    decreases |keys|
  {
    if keys != [] {
      var h := keys[0];
      var a := UtilActions(t, imm, plan, h, st[h].utility, 0);
      DistinctTail(keys);
      if a.Success? {
        var st1 := st[h := st[h].(utility := a.value)];
        UtilAllOk(t, imm, plan, st1, keys[1..]);
        assert forall g :: g in keys[1..] ==> st1[g] == st[g];
      }
    }
  }

  /** The new state: the sets of `keys` with their new `utility`, the rest unchanged. */
  ghost predicate UtilDone(t: CfrTrees.CFRTree, imm: map<int, seq<real>>, plan: map<int, int>, st: IcfrDraft.DraftState, keys: seq<int>,
    r: IcfrDraft.DraftState)
    requires Walkable(t) && t.informationSets.m.Keys <= imm.Keys
    requires forall h :: h in keys ==> h in t.informationSets.m && h in st
  {
    (forall h :: h in keys ==> UtilActions(t, imm, plan, h, st[h].utility, 0).Success?) &&
    r.Keys == st.Keys &&
    forall h :: h in st ==>
      r[h] == if h in keys then st[h].(utility := UtilActions(t, imm, plan, h, st[h].utility, 0).value) else st[h]
  }

  /** When the walk over distinct `keys` succeeds, it changes only their `utility`. */
  lemma {:induction false} UtilAllValue(t: CfrTrees.CFRTree, imm: map<int, seq<real>>, plan: map<int, int>, st: IcfrDraft.DraftState, keys: seq<int>)
    requires Walkable(t) && t.informationSets.m.Keys <= imm.Keys && Dicts.Distinct(keys)
    requires forall h :: h in keys ==> h in t.informationSets.m && h in st
    requires UtilAll(t, imm, plan, st, keys).Success?
    ensures UtilDone(t, imm, plan, st, keys, UtilAll(t, imm, plan, st, keys).value)
    decreases |keys|
  {
    if keys != [] {
      var h := keys[0];
      var a := UtilActions(t, imm, plan, h, st[h].utility, 0).value;
      DistinctTail(keys);
      var st1 := st[h := st[h].(utility := a)];
      assert UtilAll(t, imm, plan, st, keys) == UtilAll(t, imm, plan, st1, keys[1..]);
      UtilAllOk(t, imm, plan, st, keys);
      UtilAllValue(t, imm, plan, st1, keys[1..]);
      var r := UtilAll(t, imm, plan, st1, keys[1..]).value;
      forall g | g in st
        ensures r[g] == if g in keys && UtilActions(t, imm, plan, g, st[g].utility, 0).Success? then
          st[g].(utility := UtilActions(t, imm, plan, g, st[g].utility, 0).value) else st[g]
      {
        if g != h {
          assert st1[g] == st[g];
        }
      }
    }
  }

  /** `get_utility` succeeds exactly when `get_imm_utility` does and then every information
      set's loop over its actions does. The state after it is `get_imm_utility`'s, with every
      information set's `utility` grown by the cumulative utilities; nothing else changes. */
  lemma GetUtilEffect(t: CfrTrees.CFRTree, lv: IcfrDraft.Flags, plan: map<int, int>, st: IcfrDraft.DraftState)
    requires Walkable(t) && t.informationSets.m.Keys <= st.Keys
    ensures GetUtil(t, lv, plan, st).Success? <==>
      GetImm(t, lv, st).Success? &&
      forall h :: h in t.informationSets.m ==>
        UtilActions(t, ImmOf(GetImm(t, lv, st).value), plan, h, GetImm(t, lv, st).value[h].utility, 0).Success?
    ensures GetUtil(t, lv, plan, st).Success? ==>
      ImmDone(t, lv, st, t.informationSets.keys, GetImm(t, lv, st).value) &&
      UtilDone(t, ImmOf(GetImm(t, lv, st).value), plan, GetImm(t, lv, st).value, t.informationSets.keys,
        GetUtil(t, lv, plan, st).value)
  {
    var keys := t.informationSets.keys;
    assert forall h :: h in keys <==> h in t.informationSets.m;
    if GetImm(t, lv, st).Success? {
      var st1 := GetImm(t, lv, st).value;
      ImmAllValue(t, lv, st, keys);
      UtilAllOk(t, ImmOf(st1), plan, st1, keys);
      if GetUtil(t, lv, plan, st).Success? {
        UtilAllValue(t, ImmOf(st1), plan, st1, keys);
      }
    }
  }

  /** `get_utility` on the information set `h`: `for a in range(iset.action_count)`. */
  method UtilForSet(t: CfrTrees.CFRTree, imm: map<int, seq<real>>, plan: map<int, int>, h: int, util: seq<real>) returns (r: Result<seq<real>>)
    requires Walkable(t) && h in t.informationSets.m && t.informationSets.m.Keys <= imm.Keys
    ensures Same(r, UtilActions(t, imm, plan, h, util, 0))
  {
    var s := t.informationSets.m[h];
    var cur := util;
    var a := 0;
    while a < s.actionCount
      invariant a <= s.actionCount
      invariant Same(UtilActions(t, imm, plan, h, util, 0), UtilActions(t, imm, plan, h, cur, a))
      decreases s.actionCount - a
    {
      if a >= |cur| {
        return Failure("IndexError");
      }
      var c := GetCumUtility(t, imm, plan, h, a);
      if c.Failure? {
        return Failure(c.error);
      }
      cur := cur[a := cur[a] + c.value];
      a := a + 1;
    }
    r := Success(cur);
  }

  /** After the first `k` sets of the second loop of `get_utility`, with the state `cur`, the
      rest of the loop ends where the whole loop from `st` does. */
  ghost predicate UtilRest(t: CfrTrees.CFRTree, imm: map<int, seq<real>>, plan: map<int, int>, st: IcfrDraft.DraftState,
                           cur: IcfrDraft.DraftState, k: nat)
  {
    Walkable(t) && t.informationSets.m.Keys <= imm.Keys && t.informationSets.m.Keys <= st.Keys &&
    cur.Keys == st.Keys && k <= |t.informationSets.keys| &&
    (forall h :: h in t.informationSets.keys ==> h in t.informationSets.m) &&
    Same(UtilAll(t, imm, plan, st, t.informationSets.keys), UtilAll(t, imm, plan, cur, t.informationSets.keys[k..]))
  }

  lemma UtilRestStep(t: CfrTrees.CFRTree, imm: map<int, seq<real>>, plan: map<int, int>, st: IcfrDraft.DraftState,
                     cur: IcfrDraft.DraftState, k: nat, util: Result<seq<real>>)
    requires UtilRest(t, imm, plan, st, cur, k) && k < |t.informationSets.keys|
    requires Same(util, UtilActions(t, imm, plan, t.informationSets.keys[k], cur[t.informationSets.keys[k]].utility, 0))
    ensures util.Failure? ==> UtilAll(t, imm, plan, st, t.informationSets.keys).Failure?
    ensures util.Success? ==> UtilRest(t, imm, plan, st, cur[t.informationSets.keys[k] := cur[t.informationSets.keys[k]].(utility := util.value)], k + 1)
  {
    var keys := t.informationSets.keys;
    assert keys[k..][0] == keys[k] && keys[k..][1..] == keys[k + 1..];
  }

  /** The second loop of `get_utility(tree, action_plan)`: the information sets in the
      dictionary's order. */
  method UtilForSets(t: CfrTrees.CFRTree, imm: map<int, seq<real>>, plan: map<int, int>, st: IcfrDraft.DraftState)
    returns (r: Result<IcfrDraft.DraftState>)
    requires Walkable(t) && t.informationSets.m.Keys <= imm.Keys && t.informationSets.m.Keys <= st.Keys
    ensures Same(r, UtilAll(t, imm, plan, st, t.informationSets.keys))
  {
    var keys := t.informationSets.keys;
    assert forall h :: h in keys ==> h in t.informationSets.m;
    assert keys[0..] == keys;
    var cur := st;
    var k := 0;
    while k < |keys|
      invariant UtilRest(t, imm, plan, st, cur, k)
      decreases |keys| - k
    {
      var h := keys[k];
      var util := UtilForSet(t, imm, plan, h, cur[h].utility);
      UtilRestStep(t, imm, plan, st, cur, k, util);
      if util.Failure? {
        return Failure(util.error);
      }
      cur := cur[h := cur[h].(utility := util.value)];
      k := k + 1;
    }
    assert keys[k..] == [];
    r := Success(cur);
  }

  /** `get_utility(tree, action_plan)`: `get_imm_utility`, then the information sets in the
      dictionary's order. */
  method GetUtility(t: CfrTrees.CFRTree, lv: IcfrDraft.Flags, plan: map<int, int>, st: IcfrDraft.DraftState) returns (r: Result<IcfrDraft.DraftState>)
    requires Walkable(t) && t.informationSets.m.Keys <= st.Keys
    ensures Same(r, GetUtil(t, lv, plan, st))
  {
    var st1 := GetImmUtility(t, lv, st);
    if st1.Failure? {
      return st1;
    }
    assert forall h :: h in t.informationSets.keys ==> h in t.informationSets.m;
    r := UtilForSets(t, ImmOf(st1.value), plan, st1.value);
  }
}
