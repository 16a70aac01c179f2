/** Python's insertion-ordered `dict`: a map plus the order in which its keys were
    first inserted. Two dicts are equal in Python exactly when their maps are equal. */
module Dicts {

  datatype Dict<K, V> = Dict(keys: seq<K>, m: map<K, V>)

  function Elems<K>(s: seq<K>): set<K>
  {
    set x | x in s
  }

  ghost predicate Distinct<K>(s: seq<K>)
  {
    forall i, j :: 0 <= i < j < |s| ==> s[i] != s[j]
  }

  lemma Inhabited<T>(s: set<T>)
    requires s != {}
    ensures exists y :: y in s
  {
    if forall y :: y !in s {
      assert false;
    }
  }

  /** A fixed element of a non-empty set, so that a definition and the lemmas about it take the
      same one: a loop over a Python set visits its elements in an order of the set's own, and
      the model folds over the set one fixed element at a time. */
  ghost function Pick<T>(s: set<T>): (x: T)
    requires s != {}
    ensures x in s
  {
    Inhabited(s);
    var y :| y in s; y
  }

  /** The keys are listed once each, and exactly the keys of the map are listed. */
  ghost predicate Valid<K, V>(d: Dict<K, V>)
  {
    Distinct(d.keys) && d.m.Keys == Elems(d.keys)
  }

  function Empty<K, V>(): (d: Dict<K, V>)
    ensures Valid(d) && d.m == map[] && d.keys == []
  {
    Dict([], map[])
  }

  /** `d[k] = v`: an existing key keeps its place, a new key goes last. */
  function Put<K, V>(d: Dict<K, V>, k: K, v: V): (r: Dict<K, V>)
    requires Valid(d)
    ensures Valid(r)
    ensures r.m == d.m[k := v]
    ensures k in d.m ==> r.keys == d.keys
    ensures k !in d.m ==> r.keys == d.keys + [k]
  {
    if k in d.m then Dict(d.keys, d.m[k := v])
    else
      var r := Dict(d.keys + [k], d.m[k := v]);
      assert Elems(r.keys) == Elems(d.keys) + {k};
      r
  }

  /** The elements of `ks` outside `seen`, in order. */
  function Fresh<K>(ks: seq<K>, seen: set<K>): (r: seq<K>)
    ensures Elems(r) == Elems(ks) - seen
    ensures Distinct(ks) ==> Distinct(r)
  {
    if ks == [] then []
    else
      var rest := Fresh(ks[1..], seen);
      assert Elems(ks) == {ks[0]} + Elems(ks[1..]);
      if ks[0] in seen then rest
      else
        assert Elems([ks[0]] + rest) == {ks[0]} + Elems(rest);
        ConsDistinct(ks, rest);
        [ks[0]] + rest
  }

  /** `del d[k]`: the key leaves the map and the order; the others keep theirs. */
  function Remove<K, V>(d: Dict<K, V>, k: K): (r: Dict<K, V>)
    requires Valid(d)
    ensures Valid(r)
    ensures r.m == d.m - {k}
    ensures r.keys == Fresh(d.keys, {k})
  {
    Dict(Fresh(d.keys, {k}), d.m - {k})
  }

  /** `d2.update(d1)`: every binding of `d1` is written into `d2`, so `d1` wins on the keys the
      two share; shared keys keep `d2`'s position and new ones follow in `d1`'s order. */
  function Update<K, V>(d2: Dict<K, V>, d1: Dict<K, V>): (r: Dict<K, V>)
    requires Valid(d2) && Valid(d1)
    ensures Valid(r)
    ensures r.m == d2.m + d1.m
    ensures r.keys == d2.keys + Fresh(d1.keys, d2.m.Keys)
  {
    var added := Fresh(d1.keys, d2.m.Keys);
    var r := Dict(d2.keys + added, d2.m + d1.m);
    assert Elems(r.keys) == Elems(d2.keys) + Elems(added);
    DistinctConcat(d2.keys, added);
    r
  }

  lemma ConsDistinct<K>(ks: seq<K>, rest: seq<K>)
    requires ks != []
    requires Elems(rest) <= Elems(ks[1..])
    requires Distinct(ks[1..]) ==> Distinct(rest)
    ensures Distinct(ks) ==> Distinct([ks[0]] + rest)
  {
    if Distinct(ks) {
      assert Distinct(ks[1..]) by {
        forall i, j | 0 <= i < j < |ks[1..]| ensures ks[1..][i] != ks[1..][j] {
          assert ks[1..][i] == ks[i + 1] && ks[1..][j] == ks[j + 1];
        }
      }
      DistinctConcat([ks[0]], rest);
    }
  }

  lemma DistinctConcat<K>(a: seq<K>, b: seq<K>)
    requires Distinct(a) && Distinct(b) && Elems(a) !! Elems(b)
    ensures Distinct(a + b)
  {
    forall i, j | 0 <= i < j < |a + b| ensures (a + b)[i] != (a + b)[j] {
      if i < |a| && j >= |a| {
        assert (a + b)[i] in Elems(a) && (a + b)[j] in Elems(b);
      }
    }
  }

  /** One more element of a prefix. */
  lemma TakeSnoc<T>(s: seq<T>, k: nat)
    requires k < |s|
    ensures s[..k + 1] == s[..k] + [s[k]]
  {
  }

  /** One more key at the end of `ks`. */
  lemma {:induction false} FreshSnoc<K>(ks: seq<K>, k: K, seen: set<K>)
    ensures Fresh(ks + [k], seen) == Fresh(ks, seen) + (if k in seen then [] else [k])
    decreases |ks|
  {
    if ks == [] {
      assert ([] + [k])[1..] == [];
    } else {
      assert (ks + [k])[0] == ks[0] && (ks + [k])[1..] == ks[1..] + [k];
      FreshSnoc(ks[1..], k, seen);
    }
  }

  /** A prefix of a list of distinct keys has distinct keys. */
  lemma DistinctPrefix<K>(ks: seq<K>, i: nat)
    requires Distinct(ks) && i <= |ks|
    ensures Distinct(ks[..i])
  {
    forall a, b | 0 <= a < b < i ensures ks[..i][a] != ks[..i][b] {
      assert ks[..i][a] == ks[a] && ks[..i][b] == ks[b];
    }
  }
}
