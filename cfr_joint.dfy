/** `CFRJointStrategy`: a weighted collection of joint action plans, each stored under its
    string form, with an optional cap on the number of distinct plans. */
module CfrJoint {
  import opened Wrappers
  import opened Strings
  import opened Dicts

  // ---------------------------------------------------------------------------------------
  // `actionPlanToString` and `stringToActionPlan`.

  /** The text of one binding, without its leading `a`: `str(infoset) + "." + str(action)`. */
  function Body(h: int, a: int): string
  {
    IntToString(h) + "." + IntToString(a)
  }

  /** The bodies of the bindings of `keys`, in order. */
  function Bodies(keys: seq<int>, m: map<int, int>): (r: seq<string>)
    requires forall i :: 0 <= i < |keys| ==> keys[i] in m
  {
    seq(|keys|, i requires 0 <= i < |keys| => Body(keys[i], m[keys[i]]))
  }

  /** Each body after an `a`. */
  function Tagged(bs: seq<string>): string
  {
    if bs == [] then "" else "a" + bs[0] + Tagged(bs[1..])
  }

  /** The string form of the bindings of `keys`, in that order: `a<infoset>.<action>` each. */
  function Render(keys: seq<int>, m: map<int, int>): string
    requires forall i :: 0 <= i < |keys| ==> keys[i] in m
  {
    Tagged(Bodies(keys, m))
  }

  lemma {:induction false} TaggedSnoc(bs: seq<string>, b: string)
    ensures Tagged(bs + [b]) == Tagged(bs) + "a" + b
  {
    if bs == [] {
      assert bs + [b] == [b];
      assert [b][1..] == [];
    } else {
      assert (bs + [b])[0] == bs[0] && (bs + [b])[1..] == bs[1..] + [b];
      TaggedSnoc(bs[1..], b);
    }
  }

  lemma RenderSnoc(keys: seq<int>, m: map<int, int>, k: int)
    requires forall i :: 0 <= i < |keys| ==> keys[i] in m
    requires k in m
    ensures Render(keys + [k], m) == Render(keys, m) + "a" + Body(k, m[k])
  {
    assert Bodies(keys + [k], m) == Bodies(keys, m) + [Body(k, m[k])];
    TaggedSnoc(Bodies(keys, m), Body(k, m[k]));
  }

  /** `actionPlanToString`: one piece per binding, in the plan's key order. */
  method ActionPlanToString(plan: Dict<int, int>) returns (s: string)
    requires Valid(plan)
    ensures s == Render(plan.keys, plan.m)
  {
    s := "";
    for i := 0 to |plan.keys|
      invariant s == Render(plan.keys[..i], plan.m)
    {
      var k := plan.keys[i];
      assert plan.keys[..i + 1] == plan.keys[..i] + [k];
      RenderSnoc(plan.keys[..i], plan.m, k);
      s := s + "a" + Body(k, plan.m[k]);
    }
    assert plan.keys[..|plan.keys|] == plan.keys;
  }

  /** `(infoset, action) = x.split(".")` and `int(...)` of both halves: anything but exactly
      two integers is a `ValueError`. */
  function ParsePiece(x: string): Result<(int, int)>
  {
    var parts := Split(x, '.');
    if |parts| != 2 then Failure("ValueError")
    else
      match (ParseInt(parts[0]), ParseInt(parts[1]))
      case (Some(h), Some(a)) => Success((h, a))
      case _ => Failure("ValueError")
  }

  /** The loop of `stringToActionPlan` from the plan `d` built so far: each piece is parsed
      and written into the plan, the first bad piece ends it with its error. */
  function ParsePieces(ps: seq<string>, d: Dict<int, int>): Result<Dict<int, int>>
    requires Valid(d)
  {
    if ps == [] then Success(d)
    else
      var ha :- ParsePiece(ps[0]);
      ParsePieces(ps[1..], Put(d, ha.0, ha.1))
  }

  /** What `stringToActionPlan(s)` returns: the pieces after each `a` (anything before the
      first `a` is dropped), parsed into a plan. */
  function PlanOfString(s: string): Result<Dict<int, int>>
  {
    ParsePieces(Split(s, 'a')[1..], Empty())
  }

  /** `stringToActionPlan` without its cache. */
  method StringToActionPlan(s: string) returns (r: Result<Dict<int, int>>)
    ensures r == PlanOfString(s)
  {
    var pieces := Split(s, 'a')[1..];
    var d: Dict<int, int> := Empty();
    for i := 0 to |pieces|
      invariant Valid(d)
      invariant ParsePieces(pieces, Empty()) == ParsePieces(pieces[i..], d)
    {
      assert pieces[i..][0] == pieces[i] && pieces[i..][1..] == pieces[i + 1..];
      var ha := ParsePiece(pieces[i]);
      if ha.Failure? {
        return Failure(ha.error);
      }
      d := Put(d, ha.value.0, ha.value.1);
    }
    assert pieces[|pieces|..] == [];
    return Success(d);
  }

  lemma IntToStringPlain(i: int)
    ensures 'a' !in IntToString(i) && '.' !in IntToString(i)
  {
    var s := IntToString(i);
    assert forall k :: 0 <= k < |s| ==> s[k] != 'a' && s[k] != '.';
  }

  lemma BodyPlain(h: int, a: int)
    ensures 'a' !in Body(h, a)
    ensures ParsePiece(Body(h, a)) == Success((h, a))
  {
    IntToStringPlain(h);
    IntToStringPlain(a);
    SplitAfterPiece(IntToString(h), IntToString(a), '.');
    SplitOfPiece(IntToString(a), '.');
    assert IntToString(h) + ['.'] + IntToString(a) == Body(h, a);
    ParseIntOfIntToString(h);
    ParseIntOfIntToString(a);
  }

  /** Splitting at `a` the tagged bodies that follow a piece `x` gives `x` and then the
      bodies, when no `a` occurs in any of them. */
  lemma {:induction false} SplitTagged(x: string, bs: seq<string>)
    requires 'a' !in x && forall i :: 0 <= i < |bs| ==> 'a' !in bs[i]
    ensures Split(x + Tagged(bs), 'a') == [x] + bs
    decreases |bs|
  {
    if bs == [] {
      assert x + "" == x;
      SplitOfPiece(x, 'a');
    } else {
      var b := bs[0];
      assert x + Tagged(bs) == x + ['a'] + (b + Tagged(bs[1..]));
      SplitAfterPiece(x, b + Tagged(bs[1..]), 'a');
      SplitTagged(b, bs[1..]);
      assert [x] + ([b] + bs[1..]) == [x] + bs;
    }
  }

  lemma SplitRender(keys: seq<int>, m: map<int, int>)
    requires forall i :: 0 <= i < |keys| ==> keys[i] in m
    ensures Split(Render(keys, m), 'a') == [""] + Bodies(keys, m)
  {
    var bs := Bodies(keys, m);
    forall i | 0 <= i < |bs| ensures 'a' !in bs[i] {
      BodyPlain(keys[i], m[keys[i]]);
    }
    SplitTagged("", bs);
    assert "" + Tagged(bs) == Tagged(bs);
  }

  /** Every piece parsed, or the error of the first bad one. */
  function ParseAll(ps: seq<string>): Result<seq<(int, int)>>
  {
    if ps == [] then Success([])
    else
      var first :- ParsePiece(ps[0]);
      var rest :- ParseAll(ps[1..]);
      Success([first] + rest)
  }

  /** The bindings written into `d` one after the other. */
  function PutAll(d: Dict<int, int>, prs: seq<(int, int)>): (r: Dict<int, int>)
    requires Valid(d)
    ensures Valid(r)
    decreases |prs|
  {
    if prs == [] then d else PutAll(Put(d, prs[0].0, prs[0].1), prs[1..])
  }

  /** The bindings of `m` on the keys of `ks`. */
  function Restrict(ks: seq<int>, m: map<int, int>): map<int, int>
  {
    map k | k in ks && k in m :: m[k]
  }

  /** The bindings of `ks`, in order. */
  function Pairs(ks: seq<int>, m: map<int, int>): (r: seq<(int, int)>)
    requires forall i :: 0 <= i < |ks| ==> ks[i] in m
  {
    seq(|ks|, i requires 0 <= i < |ks| => (ks[i], m[ks[i]]))
  }

  /** The parsing loop is parsing every piece and then writing the bindings in order. */
  lemma {:induction false} ParsePiecesAll(ps: seq<string>, d: Dict<int, int>)
    requires Valid(d)
    ensures ParsePieces(ps, d) ==
      if ParseAll(ps).Success? then Success(PutAll(d, ParseAll(ps).value)) else Failure(ParseAll(ps).error)
  {
    if ps != [] {
      var first := ParsePiece(ps[0]);
      if first.Success? {
        ParsePiecesAll(ps[1..], Put(d, first.value.0, first.value.1));
        if ParseAll(ps[1..]).Success? {
          var rest := ParseAll(ps[1..]).value;
          assert ([first.value] + rest)[0] == first.value && ([first.value] + rest)[1..] == rest;
        }
      }
    }
  }

  lemma {:induction false} ParseAllBodies(keys: seq<int>, m: map<int, int>)
    requires forall i :: 0 <= i < |keys| ==> keys[i] in m
    ensures ParseAll(Bodies(keys, m)) == Success(Pairs(keys, m))
  {
    if keys != [] {
      var bs := Bodies(keys, m);
      var first := (keys[0], m[keys[0]]);
      BodyPlain(keys[0], m[keys[0]]);
      BodiesCons(keys, m);
      ParseAllBodies(keys[1..], m);
      ParseAllCons(bs, first, Pairs(keys[1..], m));
      PairsCons(keys, m);
    } else {
      assert Bodies(keys, m) == [] && Pairs(keys, m) == [];
    }
  }

  lemma BodiesCons(keys: seq<int>, m: map<int, int>)
    requires keys != [] && forall i :: 0 <= i < |keys| ==> keys[i] in m
    ensures Bodies(keys, m)[0] == Body(keys[0], m[keys[0]]) && Bodies(keys, m)[1..] == Bodies(keys[1..], m)
  {
    var bs := Bodies(keys, m);
    var lhs, rhs := bs[1..], Bodies(keys[1..], m);
    forall i | 0 <= i < |lhs| ensures lhs[i] == rhs[i] {
      assert lhs[i] == bs[i + 1];
      assert keys[1..][i] == keys[i + 1];
    }
  }

  lemma PairsCons(keys: seq<int>, m: map<int, int>)
    requires keys != [] && forall i :: 0 <= i < |keys| ==> keys[i] in m
    ensures Pairs(keys, m) == [(keys[0], m[keys[0]])] + Pairs(keys[1..], m)
  {
    var lhs, rhs := Pairs(keys, m), [(keys[0], m[keys[0]])] + Pairs(keys[1..], m);
    forall i | 0 <= i < |lhs| ensures lhs[i] == rhs[i] {
      if i > 0 {
        assert keys[1..][i - 1] == keys[i];
      }
    }
  }

  lemma ParseAllCons(bs: seq<string>, first: (int, int), rest: seq<(int, int)>)
    requires bs != [] && ParsePiece(bs[0]) == Success(first) && ParseAll(bs[1..]) == Success(rest)
    ensures ParseAll(bs) == Success([first] + rest)
  {
  }

  lemma FreshTail(ks: seq<int>, seen: set<int>)
    requires ks != [] && Distinct(ks) && Elems(ks) !! seen
    ensures Distinct(ks[1..]) && Elems(ks[1..]) !! seen + {ks[0]}
  {
    forall i, j | 0 <= i < j < |ks[1..]| ensures ks[1..][i] != ks[1..][j] {
      assert ks[1..][i] == ks[i + 1] && ks[1..][j] == ks[j + 1];
    }
    forall x | x in Elems(ks[1..]) ensures x !in seen + {ks[0]} {
      var i :| 0 <= i < |ks[1..]| && ks[1..][i] == x;
      assert ks[i + 1] == x;
      assert x in Elems(ks);
    }
  }

  lemma PutAllStep(d: Dict<int, int>, ks: seq<int>, m: map<int, int>)
    requires Valid(d) && ks != [] && forall i :: 0 <= i < |ks| ==> ks[i] in m
    ensures ks[0] in m
    ensures PutAll(d, Pairs(ks, m)) == PutAll(Put(d, ks[0], m[ks[0]]), Pairs(ks[1..], m))
  {
    var prs := Pairs(ks, m);
    assert prs[0] == (ks[0], m[ks[0]]);
    assert prs[1..] == Pairs(ks[1..], m);
  }

  lemma AppendStep(d: Dict<int, int>, ks: seq<int>, m: map<int, int>)
    requires ks != [] && forall i :: 0 <= i < |ks| ==> ks[i] in m
    ensures ks[0] in m
    ensures Dict((d.keys + [ks[0]]) + ks[1..], d.m[ks[0] := m[ks[0]]] + (Restrict(ks[1..], m))) ==
            Dict(d.keys + ks, d.m + (Restrict(ks, m)))
  {
    assert (d.keys + [ks[0]]) + ks[1..] == d.keys + ks;
    MapAppendCons(d.m, ks, m);
  }

  /** Writing the bindings of fresh distinct keys `ks` appends them, in order, to `d`. */
  lemma {:induction false} PutAllFresh(d: Dict<int, int>, ks: seq<int>, m: map<int, int>)
    requires Valid(d) && Distinct(ks) && Elems(ks) !! d.m.Keys
    requires forall i :: 0 <= i < |ks| ==> ks[i] in m
    ensures PutAll(d, Pairs(ks, m)) == Dict(d.keys + ks, d.m + (Restrict(ks, m)))
    decreases |ks|
  {
    if ks == [] {
      assert d.keys + ks == d.keys;
      assert d.m + (Restrict(ks, m)) == d.m;
    } else {
      assert ks[0] in Elems(ks);
      FreshTail(ks, d.m.Keys);
      PutAllStep(d, ks, m);
      var d' := Put(d, ks[0], m[ks[0]]);
      PutAllFresh(d', ks[1..], m);
      AppendStep(d, ks, m);
    }
  }

  lemma MapAppendCons(dm: map<int, int>, ks: seq<int>, m: map<int, int>)
    requires ks != [] && forall i :: 0 <= i < |ks| ==> ks[i] in m
    ensures ks[0] in m
    ensures dm[ks[0] := m[ks[0]]] + (Restrict(ks[1..], m)) == dm + (Restrict(ks, m))
  {
    var l := dm[ks[0] := m[ks[0]]] + (Restrict(ks[1..], m));
    var r := dm + (Restrict(ks, m));
    forall x ensures x in l <==> x in r {
      assert x in ks <==> x == ks[0] || x in ks[1..];
    }
    forall x | x in l ensures l[x] == r[x] {
      assert x in ks <==> x == ks[0] || x in ks[1..];
    }
  }

  /** The round trip: the string form of a plan parses back to the same plan, bindings and
      key order alike. */
  lemma PlanStringRoundTrip(plan: Dict<int, int>)
    requires Valid(plan)
    ensures PlanOfString(Render(plan.keys, plan.m)) == Success(plan)
  {
    SplitRender(plan.keys, plan.m);
    var bs := Bodies(plan.keys, plan.m);
    assert ([""] + bs)[1..] == bs;
    ParsePiecesAll(bs, Empty());
    ParseAllBodies(plan.keys, plan.m);
    PutAllFresh(Empty(), plan.keys, plan.m);
    assert [] + plan.keys == plan.keys;
    assert map[] + Restrict(plan.keys, plan.m) == plan.m;
  }

  /** Two plans with the same string form are the same plan, so the store of a joint strategy
      never merges different plans. */
  lemma PlanStringInjective(p1: Dict<int, int>, p2: Dict<int, int>)
    requires Valid(p1) && Valid(p2) && Render(p1.keys, p1.m) == Render(p2.keys, p2.m)
    ensures p1 == p2
  {
    PlanStringRoundTrip(p1);
    PlanStringRoundTrip(p2);
  }

  // ---------------------------------------------------------------------------------------
  // The store of plans.

  /** The sum of the weights of `keys`, in order. */
  function Total(keys: seq<string>, m: map<string, real>): real
    requires forall i :: 0 <= i < |keys| ==> keys[i] in m
  {
    if keys == [] then 0.0 else m[keys[0]] + Total(keys[1..], m)
  }

  function TotalOf(d: Dict<string, real>): real
    requires Valid(d)
  {
    assert forall i :: 0 <= i < |d.keys| ==> d.keys[i] in Elems(d.keys);
    Total(d.keys, d.m)
  }

  /** The index of the first key of least weight: `min(plans, key = ...)`. */
  function FirstMin(keys: seq<string>, m: map<string, real>): (i: nat)
    requires keys != [] && forall j :: 0 <= j < |keys| ==> keys[j] in m
    ensures i < |keys|
    ensures forall j :: 0 <= j < |keys| ==> m[keys[i]] <= m[keys[j]]
    ensures forall j :: 0 <= j < i ==> m[keys[i]] < m[keys[j]]
  {
    if |keys| == 1 then 0
    else
      var j := FirstMin(keys[..|keys| - 1], m);
      if m[keys[|keys| - 1]] < m[keys[j]] then |keys| - 1 else j
  }

  /** The cap on the number of stored plans; every negative cap but -1 (no cap) leaves no room. */
  function Room(maxPlanCount: int): nat
  {
    if maxPlanCount < 0 then 0 else maxPlanCount
  }

  /** `addActionPlan(plan, weight)` on the stored plans, with `s` the plan's string: a stored
      plan gains the weight; a new plan is stored when there is room; otherwise the first plan
      of least weight makes way for it, and with nothing stored `min` raises `ValueError`. */
  function Added(plans: Dict<string, real>, maxPlanCount: int, s: string, w: real): Result<Dict<string, real>>
    requires Valid(plans)
  {
    if s in plans.m then Success(Put(plans, s, plans.m[s] + w))
    else if maxPlanCount == -1 || |plans.keys| < maxPlanCount then Success(Put(plans, s, w))
    else if plans.keys == [] then Failure("ValueError")
    else
      assert forall i :: 0 <= i < |plans.keys| ==> plans.keys[i] in Elems(plans.keys);
      var k := plans.keys[FirstMin(plans.keys, plans.m)];
      Success(Put(Remove(plans, k), s, w))
  }

  /** A joint strategy: `plans` maps the string of each stored plan to its weight and
      `frequencyCount` is their sum. */
  class CFRJointStrategy {
    var maxPlanCount: int
    var frequencyCount: real
    var plans: Dict<string, real>

    /** The stored plans are a dict, `frequencyCount` is their total weight, and a cap other
        than -1 bounds their number. */
    ghost predicate Valid()
      reads this
    {
      Dicts.Valid(plans) && frequencyCount == TotalOf(plans) &&
      (maxPlanCount != -1 ==> |plans.keys| <= Room(maxPlanCount))
    }

    constructor(maxPlanCount: int)
      ensures Valid()
      ensures this.maxPlanCount == maxPlanCount && frequencyCount == 0.0 && plans == Empty()
    {
      this.maxPlanCount := maxPlanCount;
      frequencyCount := 0.0;
      plans := Empty();
    }

    /** `addActionPlan`: the stored plans become `Added(...)`, or stay as they were when
        `min` raises (`ok` false); the invariant is kept. */
    method AddActionPlan(actionPlan: Dict<int, int>, weight: real) returns (ok: bool)
      requires Valid() && Dicts.Valid(actionPlan)
      modifies this
      ensures Valid() && maxPlanCount == old(maxPlanCount)
      ensures var r := Added(old(plans), maxPlanCount, Render(actionPlan.keys, actionPlan.m), weight);
        ok == r.Success? && plans == if ok then r.value else old(plans)
    {
      var s := ActionPlanToString(actionPlan);
      ghost var before := plans;
      ghost var r := Added(plans, maxPlanCount, s, weight);
      if s in plans.m {
        TotalBump(plans, s, weight);
        plans := Put(plans, s, plans.m[s] + weight);
        frequencyCount := frequencyCount + weight;
        assert r == Success(plans);
      } else if maxPlanCount == -1 || |plans.keys| < maxPlanCount {
        TotalAppend(plans, s, weight);
        plans := Put(plans, s, weight);
        frequencyCount := frequencyCount + weight;
        assert r == Success(plans);
      } else if plans.keys == [] {
        return false;
      } else {
        assert forall i :: 0 <= i < |plans.keys| ==> plans.keys[i] in Elems(plans.keys);
        var k := plans.keys[FirstMin(plans.keys, plans.m)];
        assert k in Elems(plans.keys);
        TotalRemove(plans, k);
        frequencyCount := frequencyCount - plans.m[k];
        plans := Remove(plans, k);
        TotalAppend(plans, s, weight);
        plans := Put(plans, s, weight);
        frequencyCount := frequencyCount + weight;
        RemoveLength(before, k);
        assert r == Success(plans);
      }
      ok := true;
    }

    /** `addJointDistribution`: every plan of the distribution is added with its probability,
        in order; the first `ValueError` ends it. */
    method AddJointDistribution(dist: seq<(Dict<int, int>, real)>) returns (ok: bool)
      requires Valid() && forall i :: 0 <= i < |dist| ==> Dicts.Valid(dist[i].0)
      modifies this
      ensures Valid() && maxPlanCount == old(maxPlanCount)
      ensures var r := AddedAll(old(plans), maxPlanCount, dist);
        ok == r.Success? && (ok ==> plans == r.value)
    {
      ghost var start := plans;
      for i := 0 to |dist|
        invariant Valid() && maxPlanCount == old(maxPlanCount)
        invariant AddedAll(start, maxPlanCount, dist) == AddedAll(plans, maxPlanCount, dist[i..])
      {
        assert dist[i..][0] == dist[i] && dist[i..][1..] == dist[i + 1..];
        var added := AddActionPlan(dist[i].0, dist[i].1);
        if !added {
          return false;
        }
      }
      assert dist[|dist|..] == [];
      ok := true;
    }
  }

  /** The stored plans after adding each plan of `dist` in turn. */
  function AddedAll(plans: Dict<string, real>, maxPlanCount: int, dist: seq<(Dict<int, int>, real)>): Result<Dict<string, real>>
    requires Valid(plans) && forall i :: 0 <= i < |dist| ==> Valid(dist[i].0)
    decreases |dist|
  {
    if dist == [] then Success(plans)
    else
      var d := dist[0].0;
      assert Valid(d);
      assert forall i :: 0 <= i < |d.keys| ==> d.keys[i] in Elems(d.keys);
      var next :- Added(plans, maxPlanCount, Render(d.keys, d.m), dist[0].1);
      AddedValid(plans, maxPlanCount, Render(d.keys, d.m), dist[0].1);
      AddedAll(next, maxPlanCount, dist[1..])
  }

  lemma AddedValid(plans: Dict<string, real>, maxPlanCount: int, s: string, w: real)
    requires Valid(plans)
    ensures Added(plans, maxPlanCount, s, w).Success? ==> Valid(Added(plans, maxPlanCount, s, w).value)
  {
  }

  lemma RemoveLength(d: Dict<string, real>, k: string)
    requires Valid(d) && k in d.m
    ensures |Remove(d, k).keys| == |d.keys| - 1
  {
    FreshLength(d.keys, k);
  }

  lemma {:induction false} FreshLength(ks: seq<string>, k: string)
    requires Distinct(ks) && k in ks
    ensures |Fresh(ks, {k})| == |ks| - 1
  {
    if ks[0] == k {
      DistinctHead(ks);
      FreshNone(ks[1..], k);
    } else {
      DistinctTail(ks);
      FreshLength(ks[1..], k);
    }
  }

  lemma {:induction false} FreshNone(ks: seq<string>, k: string)
    requires k !in ks
    ensures Fresh(ks, {k}) == ks
  {
    if ks != [] {
      FreshNone(ks[1..], k);
      assert [ks[0]] + ks[1..] == ks;
    }
  }

  lemma DistinctHead<K>(ks: seq<K>)
    requires ks != [] && Distinct(ks)
    ensures ks[0] !in ks[1..]
  {
  }

  lemma DistinctTail<K>(ks: seq<K>)
    requires ks != [] && Distinct(ks)
    ensures Distinct(ks[1..])
  {
    forall i, j | 0 <= i < j < |ks[1..]| ensures ks[1..][i] != ks[1..][j] {
      assert ks[1..][i] == ks[i + 1] && ks[1..][j] == ks[j + 1];
    }
  }

  lemma {:induction false} TotalFrame(keys: seq<string>, m1: map<string, real>, m2: map<string, real>)
    requires forall i :: 0 <= i < |keys| ==> keys[i] in m1 && keys[i] in m2 && m1[keys[i]] == m2[keys[i]]
    ensures Total(keys, m1) == Total(keys, m2)
  {
    if keys != [] {
      TotalFrame(keys[1..], m1, m2);
    }
  }

  /** Adding to a stored weight adds to the total. */
  lemma {:induction false} TotalBumpKeys(keys: seq<string>, m: map<string, real>, k: string, w: real)
    requires Distinct(keys) && forall i :: 0 <= i < |keys| ==> keys[i] in m
    requires k in m
    ensures Total(keys, m[k := m[k] + w]) == Total(keys, m) + (if k in keys then w else 0.0)
  {
    if keys != [] {
      DistinctTail(keys);
      TotalBumpKeys(keys[1..], m, k, w);
      assert k in keys <==> k == keys[0] || k in keys[1..];
      if keys[0] == k {
        DistinctHead(keys);
      }
    }
  }

  lemma TotalBump(d: Dict<string, real>, k: string, w: real)
    requires Valid(d) && k in d.m
    ensures TotalOf(Put(d, k, d.m[k] + w)) == TotalOf(d) + w
  {
    assert forall i :: 0 <= i < |d.keys| ==> d.keys[i] in Elems(d.keys);
    TotalBumpKeys(d.keys, d.m, k, w);
  }

  lemma {:induction false} TotalSnoc(keys: seq<string>, m: map<string, real>, k: string)
    requires (forall i :: 0 <= i < |keys| ==> keys[i] in m) && k in m
    ensures Total(keys + [k], m) == Total(keys, m) + m[k]
  {
    if keys == [] {
      assert keys + [k] == [k];
      assert [k][1..] == [];
    } else {
      assert (keys + [k])[0] == keys[0] && (keys + [k])[1..] == keys[1..] + [k];
      TotalSnoc(keys[1..], m, k);
    }
  }

  /** Storing a new plan adds its weight to the total. */
  lemma TotalAppend(d: Dict<string, real>, k: string, w: real)
    requires Valid(d) && k !in d.m
    ensures TotalOf(Put(d, k, w)) == TotalOf(d) + w
  {
    var r := Put(d, k, w);
    assert forall i :: 0 <= i < |d.keys| ==> d.keys[i] in Elems(d.keys);
    TotalFrame(d.keys, d.m, r.m);
    TotalSnoc(d.keys, r.m, k);
  }

  lemma {:induction false} TotalFresh(keys: seq<string>, m: map<string, real>, k: string)
    requires Distinct(keys) && (forall i :: 0 <= i < |keys| ==> keys[i] in m) && k in keys
    ensures forall i :: 0 <= i < |Fresh(keys, {k})| ==> Fresh(keys, {k})[i] in m
    ensures Total(Fresh(keys, {k}), m) == Total(keys, m) - m[k]
  {
    assert forall i :: 0 <= i < |Fresh(keys, {k})| ==> Fresh(keys, {k})[i] in Elems(Fresh(keys, {k}));
    if keys[0] == k {
      DistinctHead(keys);
      FreshNone(keys[1..], k);
    } else {
      DistinctTail(keys);
      TotalFresh(keys[1..], m, k);
    }
  }

  /** Removing a stored plan takes its weight off the total. */
  /** An unbounded joint strategy takes every plan, and its frequency count grows by the weight. */
  lemma AddedUnbounded(plans: Dict<string, real>, s: string, w: real)
    requires Valid(plans)
    ensures Added(plans, -1, s, w).Success?
    ensures TotalOf(Added(plans, -1, s, w).value) == TotalOf(plans) + w
  {
    if s in plans.m {
      TotalBump(plans, s, w);
    } else {
      TotalAppend(plans, s, w);
    }
  }

  lemma TotalRemove(d: Dict<string, real>, k: string)
    requires Valid(d) && k in d.m
    ensures TotalOf(Remove(d, k)) == TotalOf(d) - d.m[k]
  {
    var r := Remove(d, k);
    assert forall i :: 0 <= i < |d.keys| ==> d.keys[i] in Elems(d.keys);
    assert forall i :: 0 <= i < |r.keys| ==> r.keys[i] in Elems(r.keys);
    TotalFresh(d.keys, d.m, k);
    TotalFrame(r.keys, d.m, r.m);
  }

  // ---------------------------------------------------------------------------------------
  // What `addActionPlan` does to the stored plans.

  /** With the cap respected, adding fails exactly when the plan is new and a cap other than
      -1 leaves no room at all. */
  lemma AddedFails(plans: Dict<string, real>, maxPlanCount: int, s: string, w: real)
    requires Valid(plans) && (maxPlanCount != -1 ==> |plans.keys| <= Room(maxPlanCount))
    ensures Added(plans, maxPlanCount, s, w).Failure? <==> s !in plans.m && maxPlanCount != -1 && maxPlanCount <= 0
  {
    if s !in plans.m && maxPlanCount > 0 && |plans.keys| >= maxPlanCount {
      assert plans.keys != [];
    }
  }

  /** Adding keeps the cap. */
  lemma AddedKeepsRoom(plans: Dict<string, real>, maxPlanCount: int, s: string, w: real)
    requires Valid(plans) && (maxPlanCount != -1 ==> |plans.keys| <= Room(maxPlanCount))
    requires Added(plans, maxPlanCount, s, w).Success?
    ensures var r := Added(plans, maxPlanCount, s, w).value;
      maxPlanCount != -1 ==> |r.keys| <= Room(maxPlanCount)
  {
    if s !in plans.m && !(maxPlanCount == -1 || |plans.keys| < maxPlanCount) {
      var k := plans.keys[FirstMin(plans.keys, plans.m)];
      assert k in Elems(plans.keys);
      RemoveLength(plans, k);
    }
  }

  /** Without an eviction, the plan's weight grows by `w` (from 0 for a new plan), every
      other weight stays, and the total grows by `w`. */
  lemma AddedWithoutEviction(plans: Dict<string, real>, maxPlanCount: int, s: string, w: real)
    requires Valid(plans)
    requires s in plans.m || maxPlanCount == -1 || |plans.keys| < maxPlanCount
    ensures Added(plans, maxPlanCount, s, w).Success?
    ensures var r := Added(plans, maxPlanCount, s, w).value;
      r.m == plans.m[s := (if s in plans.m then plans.m[s] else 0.0) + w] &&
      TotalOf(r) == TotalOf(plans) + w
  {
    if s in plans.m {
      TotalBump(plans, s, w);
    } else {
      TotalAppend(plans, s, w);
    }
  }

  /** A new plan with no room left evicts `k`, the first plan of least weight: `k` leaves,
      the new plan comes in with weight `w`, the rest stay, and the total loses `k`'s weight
      and gains `w`. */
  lemma AddedEvicts(plans: Dict<string, real>, maxPlanCount: int, s: string, w: real) returns (k: string)
    requires Valid(plans) && plans.keys != []
    requires s !in plans.m && maxPlanCount != -1 && |plans.keys| >= maxPlanCount
    ensures Added(plans, maxPlanCount, s, w).Success?
    ensures k in plans.m && forall x :: x in plans.m ==> plans.m[k] <= plans.m[x]
    ensures forall j :: 0 <= j < |plans.keys| && plans.keys[j] == k ==>
      forall i :: 0 <= i < j ==> plans.m[k] < plans.m[plans.keys[i]]
    ensures var r := Added(plans, maxPlanCount, s, w).value;
      r.m == (plans.m - {k})[s := w] && TotalOf(r) == TotalOf(plans) - plans.m[k] + w
  {
    assert forall i :: 0 <= i < |plans.keys| ==> plans.keys[i] in Elems(plans.keys);
    var i := FirstMin(plans.keys, plans.m);
    k := plans.keys[i];
    forall x | x in plans.m ensures plans.m[k] <= plans.m[x] {
      var j :| 0 <= j < |plans.keys| && plans.keys[j] == x;
    }
    forall j | 0 <= j < |plans.keys| && plans.keys[j] == k
      ensures forall i' :: 0 <= i' < j ==> plans.m[k] < plans.m[plans.keys[i']]
    {
      assert j == i;
    }
    TotalRemove(plans, k);
    TotalAppend(Remove(plans, k), s, w);
  }
}
