/** The sequence-form data `tree_to_colgen_dat_file` emits for the column-generation LP:
    the names of sequences (optionally compressed to numeric ids), each player's set `Q` of
    sequences, the constraint matrix `F` and vector `f`, and, for every terminal, a joint
    sequence of least total length reaching it. */
module Colgen {
  import opened Wrappers
  import opened Dicts
  import opened Strings
  import opened GameTree
  import opened CfrTrees

  // ---------------------------------------------------------------------------------------
  // `sequence_to_string`.

  /** One entry `h: a` of a sequence, written `a<h>.<a>`. */
  function EntryText(h: int, a: int): string
  {
    "a" + IntToString(h) + "." + IntToString(a)
  }

  /** The entries `ks` of `m`, written one after the other. */
  function EntriesText(ks: seq<int>, m: map<int, int>): string
    requires forall i :: 0 <= i < |ks| ==> ks[i] in m
  {
    if ks == [] then "" else EntryText(ks[0], m[ks[0]]) + EntriesText(ks[1..], m)
  }

  /** The uncompressed name of a sequence of `player`: `empty_seq_<player>` for the empty
      sequence, otherwise its entries in insertion order. */
  function SequenceText(q: Dict<int, int>, player: int): string
    requires Valid(q)
  {
    KeysIn(q);
    if q.keys == [] then "empty_seq_" + IntToString(player) else EntriesText(q.keys, q.m)
  }

  lemma KeysIn(q: Dict<int, int>)
    requires Valid(q)
    ensures forall i :: 0 <= i < |q.keys| ==> q.keys[i] in q.m
  {
    assert forall i :: 0 <= i < |q.keys| ==> q.keys[i] in Elems(q.keys);
  }

  /** The entries of a sequence as pairs, in insertion order. */
  function Pairs(ks: seq<int>, m: map<int, int>): (r: seq<(int, int)>)
    requires forall i :: 0 <= i < |ks| ==> ks[i] in m
    ensures |r| == |ks|
    ensures forall i :: 0 <= i < |ks| ==> r[i] == (ks[i], m[ks[i]])
  {
    if ks == [] then [] else [(ks[0], m[ks[0]])] + Pairs(ks[1..], m)
  }

  /** The entries of a sequence as pairs, in insertion order. */
  function PairsOf(q: Dict<int, int>): seq<(int, int)>
    requires Valid(q)
  {
    KeysIn(q);
    Pairs(q.keys, q.m)
  }

  /** The pieces between the `a`s of an entries text, each `<h>.<a>`. */
  function EntryPieces(ks: seq<int>, m: map<int, int>): (r: seq<string>)
    requires forall i :: 0 <= i < |ks| ==> ks[i] in m
    ensures |r| == |ks|
    ensures forall i :: 0 <= i < |ks| ==> r[i] == IntToString(ks[i]) + "." + IntToString(m[ks[i]])
  {
    if ks == [] then [] else [IntToString(ks[0]) + "." + IntToString(m[ks[0]])] + EntryPieces(ks[1..], m)
  }

  /** Reads the pairs back from `<h>.<a>` pieces; `None` when a piece is not two integers. */
  function ReadPairs(ps: seq<string>): Option<seq<(int, int)>>
  {
    if ps == [] then Some([])
    else
      var e := Split(ps[0], '.');
      if |e| != 2 then None
      else match (ParseInt(e[0]), ParseInt(e[1]), ReadPairs(ps[1..]))
        case (Some(h), Some(a), Some(rest)) => Some([(h, a)] + rest)
        case _ => None
  }

  /** Reads the pairs back from an entries text: an empty first piece, then the entries. */
  function ReadEntries(s: string): Option<seq<(int, int)>>
  {
    var pieces := Split(s, 'a');
    if pieces[0] != "" then None else ReadPairs(pieces[1..])
  }

  /** An integer's text holds neither `a` nor `.`. */
  lemma NumberAvoids(i: int)
    ensures 'a' !in IntToString(i) && '.' !in IntToString(i)
  {
    var t := IntToString(i);
    forall c | c in t ensures c != 'a' && c != '.' {
      var k :| 0 <= k < |t| && t[k] == c;
    }
  }

  /** Pieces each written after an `a`. */
  function AfterA(ps: seq<string>): string
  {
    if ps == [] then "" else "a" + ps[0] + AfterA(ps[1..])
  }

  /** Pieces each written after an `a` are those pieces joined by `a`, after an empty one. */
  lemma {:induction false} AfterAJoin(ps: seq<string>)
    requires ps != []
    ensures AfterA(ps) == Join([""] + ps, 'a')
    decreases |ps|
  {
    JoinCons("", ps, 'a');
    assert Join([""] + ps, 'a') == "a" + Join(ps, 'a');
    if |ps| == 1 {
      assert Join(ps, 'a') == ps[0];
    } else {
      var rest := ps[1..];
      AfterAJoin(rest);
      JoinCons("", rest, 'a');
      assert [ps[0]] + rest == ps;
      JoinCons(ps[0], rest, 'a');
      AfterAStep(ps[0], AfterA(rest), Join(rest, 'a'));
    }
  }

  lemma AfterAStep(p0: string, after: string, joined: string)
    requires after == "" + "a" + joined
    ensures "a" + p0 + after == "a" + (p0 + "a" + joined)
  {
  }

  /** An entries text is its `<h>.<a>` pieces, each after an `a`. */
  lemma {:induction false} EntriesPieces(ks: seq<int>, m: map<int, int>)
    requires forall i :: 0 <= i < |ks| ==> ks[i] in m
    ensures EntriesText(ks, m) == AfterA(EntryPieces(ks, m))
    decreases |ks|
  {
    if ks != [] {
      var rest := ks[1..];
      EntriesPieces(rest, m);
      var piece := IntToString(ks[0]) + "." + IntToString(m[ks[0]]);
      var ps := EntryPieces(ks, m);
      assert ps == [piece] + EntryPieces(rest, m);
      assert ps[1..] == EntryPieces(rest, m);
      EntryAssoc(IntToString(ks[0]), IntToString(m[ks[0]]), EntriesText(rest, m));
    }
  }

  lemma EntryAssoc(h: string, a: string, tail: string)
    ensures "a" + h + "." + a + tail == "a" + (h + "." + a) + tail
  {
  }

  /** Each piece splits at its `.` into two integers that read back. */
  lemma {:induction false} PiecesRead(ks: seq<int>, m: map<int, int>)
    requires forall i :: 0 <= i < |ks| ==> ks[i] in m
    ensures ReadPairs(EntryPieces(ks, m)) == Some(Pairs(ks, m))
    decreases |ks|
  {
    if ks != [] {
      var x := IntToString(ks[0]);
      var y := IntToString(m[ks[0]]);
      NumberAvoids(ks[0]);
      NumberAvoids(m[ks[0]]);
      assert Join([x, y], '.') == x + "." + y;
      JoinSplit([x, y], '.');
      ParseIntOfIntToString(ks[0]);
      ParseIntOfIntToString(m[ks[0]]);
      PiecesRead(ks[1..], m);
      assert EntryPieces(ks, m)[1..] == EntryPieces(ks[1..], m);
    }
  }

  /** The name of a non-empty sequence reads back as its entries, in order. */
  lemma EntriesRoundTrip(q: Dict<int, int>, player: int)
    requires Valid(q) && q.keys != []
    ensures ReadEntries(SequenceText(q, player)) == Some(PairsOf(q))
  {
    KeysIn(q);
    var ps := EntryPieces(q.keys, q.m);
    EntriesPieces(q.keys, q.m);
    AfterAJoin(ps);
    forall k | 0 <= k < |[""] + ps| ensures 'a' !in ([""] + ps)[k] {
      if k > 0 {
        NumberAvoids(q.keys[k - 1]);
        NumberAvoids(q.m[q.keys[k - 1]]);
      }
    }
    JoinSplit([""] + ps, 'a');
    assert ([""] + ps)[1..] == ps;
    PiecesRead(q.keys, q.m);
  }

  /** A non-empty sequence's name starts with `a`; the empty one's with `e`. */
  lemma FirstLetter(q: Dict<int, int>, player: int)
    requires Valid(q)
    ensures |SequenceText(q, player)| > 0
    ensures SequenceText(q, player)[0] == if q.keys == [] then 'e' else 'a'
  {
    KeysIn(q);
    if q.keys != [] {
      assert EntriesText(q.keys, q.m) == EntryText(q.keys[0], q.m[q.keys[0]]) + EntriesText(q.keys[1..], q.m);
    }
  }

  /** Two sequences with the same pairs in the same order are the same dict. */
  lemma PairsDetermine(q1: Dict<int, int>, q2: Dict<int, int>)
    requires Valid(q1) && Valid(q2)
    requires PairsOf(q1) == PairsOf(q2)
    ensures q1 == q2
  {
    KeysIn(q1);
    KeysIn(q2);
    SameKeys(q1.keys, q1.m, q2.keys, q2.m);
    SameMaps(q1.keys, q1.m, q2.m);
  }

  lemma SameKeys(ks1: seq<int>, m1: map<int, int>, ks2: seq<int>, m2: map<int, int>)
    requires forall i :: 0 <= i < |ks1| ==> ks1[i] in m1
    requires forall i :: 0 <= i < |ks2| ==> ks2[i] in m2
    requires Pairs(ks1, m1) == Pairs(ks2, m2)
    ensures ks1 == ks2 && forall i :: 0 <= i < |ks1| ==> m1[ks1[i]] == m2[ks1[i]]
  {
    var p := Pairs(ks1, m1);
    forall i | 0 <= i < |ks1| ensures ks1[i] == ks2[i] && m1[ks1[i]] == m2[ks1[i]] {
      assert p[i] == (ks1[i], m1[ks1[i]]) == (ks2[i], m2[ks2[i]]);
    }
  }

  lemma SameMaps(ks: seq<int>, m1: map<int, int>, m2: map<int, int>)
    requires m1.Keys == Elems(ks) && m2.Keys == Elems(ks)
    requires forall i :: 0 <= i < |ks| ==> m1[ks[i]] == m2[ks[i]]
    ensures m1 == m2
  {
    forall k | k in m1 ensures m1[k] == m2[k] {
      var i :| 0 <= i < |ks| && ks[i] == k;
    }
  }

  /** `sequence_to_string` without compression names different sequences of a player
      differently: the name determines the sequence, entries and insertion order alike. */
  lemma SequenceTextInjective(q1: Dict<int, int>, q2: Dict<int, int>, player: int)
    requires Valid(q1) && Valid(q2)
    ensures SequenceText(q1, player) == SequenceText(q2, player) <==> q1 == q2
  {
    if SequenceText(q1, player) == SequenceText(q2, player) {
      FirstLetter(q1, player);
      FirstLetter(q2, player);
      if q1.keys == [] {
        assert q2.keys == [];
        assert q1.m.Keys == {} && q2.m.Keys == {};
      } else {
        EntriesRoundTrip(q1, player);
        EntriesRoundTrip(q2, player);
        PairsDetermine(q1, q2);
      }
    }
  }

  // ---------------------------------------------------------------------------------------
  // The compression of names to ids (`sequence_string_to_id`, `max_sequence_id`).

  /** Different names never share an id. */
  ghost predicate Injective(ids: map<string, nat>)
  {
    forall s, t :: s in ids && t in ids && s != t ==> ids[s] != ids[t]
  }

  /** The compressed names of two recorded names agree exactly when the names do. */
  lemma CompressedDistinct(ids: map<string, nat>, s: string, t: string)
    requires Injective(ids) && s in ids && t in ids
    ensures IntToString(ids[s]) == IntToString(ids[t]) <==> s == t
  {
    ParseIntOfIntToString(ids[s]);
    ParseIntOfIntToString(ids[t]);
  }

  /** `ids2` keeps every id `ids1` handed out. */
  ghost predicate IdsGrow(ids1: map<string, nat>, ids2: map<string, nat>)
  {
    forall s :: s in ids1 ==> s in ids2 && ids2[s] == ids1[s]
  }

  lemma IdsGrowTrans(ids1: map<string, nat>, ids2: map<string, nat>, ids3: map<string, nat>)
    requires IdsGrow(ids1, ids2) && IdsGrow(ids2, ids3)
    ensures IdsGrow(ids1, ids3)
  {
  }

  /** `r` is the name written for `text`: its id under compression, else the text itself. */
  ghost predicate NamedAs(compress: bool, ids: map<string, nat>, text: string, r: string)
  {
    if compress then text in ids && r == IntToString(ids[text]) else r == text
  }

  lemma NamedAsGrows(compress: bool, ids1: map<string, nat>, ids2: map<string, nat>, text: string, r: string)
    requires IdsGrow(ids1, ids2) && NamedAs(compress, ids1, text, r)
    ensures NamedAs(compress, ids2, text, r)
  {
  }

  /** Names written for `qs`, compressed through `ids` or not, agree exactly when the
      sequences do. */
  lemma NamesDistinct(compress: bool, ids: map<string, nat>, qs: seq<Dict<int, int>>, rs: seq<string>, player: int)
    requires Injective(ids) && |rs| == |qs| && forall i :: 0 <= i < |qs| ==> Valid(qs[i])
    requires forall i :: 0 <= i < |qs| ==> NamedAs(compress, ids, SequenceText(qs[i], player), rs[i])
    ensures forall i, j :: 0 <= i < |qs| && 0 <= j < |qs| ==> (rs[i] == rs[j] <==> qs[i] == qs[j])
  {
    forall i, j | 0 <= i < |qs| && 0 <= j < |qs| ensures rs[i] == rs[j] <==> qs[i] == qs[j] {
      SequenceTextInjective(qs[i], qs[j], player);
      if compress {
        CompressedDistinct(ids, SequenceText(qs[i], player), SequenceText(qs[j], player));
      }
    }
  }

  /** The state `sequence_to_string` closes over: whether names are compressed, the ids handed
      out so far and the next free id. */
  class SequenceNames {
    const compress: bool
    var ids: map<string, nat>
    var next: nat

    /** The ids handed out are `0 .. next - 1`, one per name. */
    ghost predicate Valid()
      reads this
    {
      |ids| == next && (forall s :: s in ids ==> ids[s] < next) && Injective(ids)
    }

    constructor (compress: bool)
      ensures Valid() && this.compress == compress && ids == map[] && next == 0
    {
      this.compress := compress;
      ids := map[];
      next := 0;
    }

    /** `sequence_to_string(q, player)`: the uncompressed name, or the id of that name, a fresh
        one (the next free id) the first time the name is seen. */
    method Name(q: Dict<int, int>, player: int) returns (r: string)
      requires Valid() && Dicts.Valid(q)
      modifies this
      ensures Valid() && IdsGrow(old(ids), ids) && NamedAs(compress, ids, SequenceText(q, player), r)
      ensures var text := SequenceText(q, player);
        if !compress then r == text && ids == old(ids) && next == old(next)
        else if text in old(ids) then ids == old(ids) && next == old(next) && r == IntToString(ids[text])
        else r == IntToString(old(next)) && ids == old(ids)[text := old(next)] && next == old(next) + 1
    {
      var text := SequenceText(q, player);
      if !compress {
        return text;
      }
      if text in ids {
        return IntToString(ids[text]);
      }
      ids := ids[text := next];
      next := next + 1;
      return IntToString(next - 1);
    }

    /** The names written for the sequences `qs` in order (the `set Q` line): with compression
        every name gets an id, and two entries get the same name exactly when they are the
        same sequence. */
    method NameAll(qs: seq<Dict<int, int>>, player: int) returns (rs: seq<string>)
      requires Valid() && forall i :: 0 <= i < |qs| ==> Dicts.Valid(qs[i])
      modifies this
      ensures Valid() && |rs| == |qs| && IdsGrow(old(ids), ids)
      ensures forall i :: 0 <= i < |qs| ==> NamedAs(compress, ids, SequenceText(qs[i], player), rs[i])
      ensures forall i, j :: 0 <= i < |qs| && 0 <= j < |qs| ==> (rs[i] == rs[j] <==> qs[i] == qs[j])
    {
      ghost var texts := Texts(qs, player);
      rs := [];
      for i := 0 to |qs|
        invariant Valid() && IdsGrow(old(ids), ids)
        invariant AllNamed(compress, ids, texts[..i], rs)
      {
        ghost var before := ids;
        var r := Name(qs[i], player);
        IdsGrowTrans(old(ids), before, ids);
        AllNamedStep(compress, before, ids, texts, i, rs, r);
        rs := rs + [r];
      }
      assert texts[..|qs|] == texts;
      NamesDistinct(compress, ids, qs, rs, player);
    }
  }

  /** The uncompressed names of `qs`. */
  function Texts(qs: seq<Dict<int, int>>, player: int): (r: seq<string>)
    requires forall i :: 0 <= i < |qs| ==> Dicts.Valid(qs[i])
    ensures |r| == |qs| && forall i :: 0 <= i < |qs| ==> r[i] == SequenceText(qs[i], player)
  {
    if qs == [] then [] else [SequenceText(qs[0], player)] + Texts(qs[1..], player)
  }

  /** `rs` are the names written for `texts`. */
  ghost predicate AllNamed(compress: bool, ids: map<string, nat>, texts: seq<string>, rs: seq<string>)
  {
    |texts| == |rs| && forall j :: 0 <= j < |rs| ==> NamedAs(compress, ids, texts[j], rs[j])
  }

  lemma AllNamedStep(compress: bool, before: map<string, nat>, ids: map<string, nat>, texts: seq<string>, i: nat,
                     rs: seq<string>, r: string)
    requires i < |texts| && AllNamed(compress, before, texts[..i], rs) && IdsGrow(before, ids)
    requires NamedAs(compress, ids, texts[i], r)
    ensures AllNamed(compress, ids, texts[..i + 1], rs + [r])
  {
    forall j | 0 <= j < i ensures NamedAs(compress, ids, texts[j], rs[j]) {
      assert texts[..i][j] == texts[j];
      NamedAsGrows(compress, before, ids, texts[j], rs[j]);
    }
  }

  // ---------------------------------------------------------------------------------------
  // The nodes whose sequences make up `Q`.

  /** The nodes of the information sets `keys`, set after set. */
  function IsetNodes(root: Node, keys: seq<int>, m: map<int, InfoSet>): (r: seq<seq<int>>)
    requires forall i :: 0 <= i < |keys| ==> keys[i] in m && AllValid(root, m[keys[i]].nodes)
    ensures AllValid(root, r)
  {
    if keys == [] then []
    else
      var rest := IsetNodes(root, keys[1..], m);
      var first := m[keys[0]].nodes;
      assert AllValid(root, first);
      var r := first + rest;
      forall i | 0 <= i < |r| ensures ValidPath(root, r[i]) {
        if i < |first| {
          assert r[i] == first[i];
        } else {
          assert r[i] == rest[i - |first|];
        }
      }
      r
  }

  lemma {:induction false} IsetNodesHas(root: Node, keys: seq<int>, m: map<int, InfoSet>, i: nat, x: seq<int>)
    requires forall i :: 0 <= i < |keys| ==> keys[i] in m && AllValid(root, m[keys[i]].nodes)
    requires i < |keys| && x in m[keys[i]].nodes
    ensures x in IsetNodes(root, keys, m)
    decreases i
  {
    if i > 0 {
      IsetNodesHas(root, keys[1..], m, i - 1, x);
    }
  }

  /** The children of the node at `x`, from the `k`-th on, that are leaves. */
  function LeavesBelow(root: Node, x: seq<int>, k: nat): (r: seq<seq<int>>)
    requires ValidPath(root, x)
    ensures forall i :: 0 <= i < |r| ==> ValidPath(root, r[i]) && At(root, r[i]).Leaf?
    decreases |ChildrenOf(At(root, x))| - k
  {
    if k >= |ChildrenOf(At(root, x))| then []
    else
      var rest := LeavesBelow(root, x, k + 1);
      if ChildrenOf(At(root, x))[k].Leaf? then
        ValidPathSnoc(root, x, k);
        [x + [k]] + rest
      else rest
  }

  /** The children of the nodes `ns` that are leaves, node after node. */
  function LeafChildren(root: Node, ns: seq<seq<int>>): (r: seq<seq<int>>)
    requires AllValid(root, ns)
    ensures AllValid(root, r)
  {
    if ns == [] then []
    else
      var a := LeavesBelow(root, ns[0], 0);
      var rest := LeafChildren(root, ns[1..]);
      assert forall i :: 0 <= i < |a + rest| ==> (a + rest)[i] == if i < |a| then a[i] else rest[i - |a|];
      a + rest
  }

  /** `all_nodes`: the nodes of every information set in creation order, then their children
      that are leaves. */
  function AllNodes(root: Node, isets: Dict<int, InfoSet>): (r: seq<seq<int>>)
    requires Dicts.Valid(isets) && NodesValid(root, isets)
    ensures AllValid(root, r)
  {
    KeysAreSets(root, isets);
    var ns := IsetNodes(root, isets.keys, isets.m);
    var r := ns + LeafChildren(root, ns);
    assert forall i :: 0 <= i < |r| ==> r[i] == if i < |ns| then ns[i] else LeafChildren(root, ns)[i - |ns|];
    r
  }

  lemma KeysAreSets(root: Node, isets: Dict<int, InfoSet>)
    requires Dicts.Valid(isets) && NodesValid(root, isets)
    ensures forall i :: 0 <= i < |isets.keys| ==> isets.keys[i] in isets.m && AllValid(root, isets.m[isets.keys[i]].nodes)
  {
    forall i | 0 <= i < |isets.keys| ensures isets.keys[i] in isets.m && AllValid(root, isets.m[isets.keys[i]].nodes) {
      var h := isets.keys[i];
      assert h in Elems(isets.keys);
      assert AllValid(root, isets.m[h].nodes);
    }
  }

  /** Every node of every information set is among `all_nodes`. */
  lemma AllNodesHas(root: Node, isets: Dict<int, InfoSet>, h: int, x: seq<int>)
    requires Dicts.Valid(isets) && NodesValid(root, isets)
    requires h in isets.m && x in isets.m[h].nodes
    ensures x in AllNodes(root, isets)
  {
    KeysAreSets(root, isets);
    assert h in Elems(isets.keys);
    var i :| 0 <= i < |isets.keys| && isets.keys[i] == h;
    IsetNodesHas(root, isets.keys, isets.m, i, x);
  }

  // ---------------------------------------------------------------------------------------
  // `Q`: the empty sequence, then the distinct non-empty sequences of the nodes.

  /** `Q_raw`: the non-empty sequences of `p` at the nodes `ns`, in order. */
  function RawSequences(root: Node, ns: seq<seq<int>>, p: int): (r: seq<Dict<int, int>>)
    requires AllValid(root, ns)
    ensures forall i :: 0 <= i < |ns| && Sequence(root, ns[i], Some(p)).m != map[] ==> Sequence(root, ns[i], Some(p)) in r
    ensures forall q :: q in r ==> q.m != map[] && exists i :: 0 <= i < |ns| && q == Sequence(root, ns[i], Some(p))
  {
    if ns == [] then []
    else
      var rest := RawSequences(root, ns[1..], p);
      assert forall i :: 1 <= i < |ns| ==> ns[i] == ns[1..][i - 1];
      var q := Sequence(root, ns[0], Some(p));
      if q.m != map[] then [q] + rest else rest
  }

  /** The elements of `s` in order of first appearance, each once. This order stands for the
      hash order in which Python's set comprehension yields them. */
  function Dedup<T(==)>(s: seq<T>): (r: seq<T>)
    ensures Elems(r) == Elems(s) && Distinct(r)
  {
    if s == [] then []
    else
      var rest := Dedup(s[..|s| - 1]);
      var x := s[|s| - 1];
      assert Elems(s) == Elems(s[..|s| - 1]) + {x};
      if x in rest then rest
      else
        assert Elems(rest + [x]) == Elems(rest) + {x};
        rest + [x]
  }

  /** `Q` for player `p` over the nodes `ns`. */
  function QOf(root: Node, ns: seq<seq<int>>, p: int): (r: seq<Dict<int, int>>)
    requires AllValid(root, ns)
    ensures forall i :: 0 <= i < |r| ==> Dicts.Valid(r[i])
  {
    var d := Dedup(RawSequences(root, ns, p));
    assert forall i :: 0 <= i < |d| ==> d[i] in Elems(d);
    [Empty()] + d
  }

  /** `Q` starts with the empty sequence, lists each sequence once, holds the sequence of
      every node of `ns`, and holds nothing else. */
  lemma QMembers(root: Node, ns: seq<seq<int>>, p: int)
    requires AllValid(root, ns)
    ensures QOf(root, ns, p) != [] && QOf(root, ns, p)[0] == Empty() && Distinct(QOf(root, ns, p))
    ensures forall i :: 0 <= i < |ns| ==> Sequence(root, ns[i], Some(p)) in QOf(root, ns, p)
    ensures forall j :: 1 <= j < |QOf(root, ns, p)| ==>
      exists i :: 0 <= i < |ns| && QOf(root, ns, p)[j] == Sequence(root, ns[i], Some(p))
  {
    var raw := RawSequences(root, ns, p);
    var d := Dedup(raw);
    var q := QOf(root, ns, p);
    assert forall j :: 1 <= j < |q| ==> q[j] == d[j - 1];
    forall j | 1 <= j < |q| ensures exists i :: 0 <= i < |ns| && q[j] == Sequence(root, ns[i], Some(p)) {
      assert q[j] in Elems(d);
    }
    forall i, j | 0 <= i < j < |q| ensures q[i] != q[j] {
      assert q[j] in Elems(d) && q[j] in raw;
    }
    forall i | 0 <= i < |ns| ensures Sequence(root, ns[i], Some(p)) in q {
      var s := Sequence(root, ns[i], Some(p));
      if s.m == map[] {
        EmptyIsEmpty(s);
      } else {
        assert s in Elems(d);
      }
    }
  }

  lemma EmptyIsEmpty(s: Dict<int, int>)
    requires Dicts.Valid(s)
    ensures s.m == map[] ==> s == Empty()
  {
    if s.keys != [] {
      assert s.keys[0] in Elems(s.keys);
    }
  }

  // ---------------------------------------------------------------------------------------
  // The rows of `F`.

  /** The entry of `F` in the row of information set `h` (sequence `hseq`, `count` actions) and
      the column of sequence `q`: -1 at `h`'s own sequence, 1 at each extension of it by an
      action at `h`, 0 elsewhere; sequences compare by content. */
  function Coefficient(q: Dict<int, int>, hseq: Dict<int, int>, h: int, count: nat): int
  {
    if q.m == hseq.m then -1
    else if exists a :: 0 <= a < count && q.m == Extended(hseq, h, a) then 1
    else 0
  }

  /** The content of `h_seq` extended by `h: a`. */
  function Extended(hseq: Dict<int, int>, h: int, a: int): map<int, int>
  {
    hseq.m[h := a]
  }

  /** One row of `F`: builds the `count` extensions of `hseq` (`h_next_sequences`), then
      compares each sequence of `Q` with `hseq` and with the extensions. */
  method FRow(q: seq<Dict<int, int>>, hseq: Dict<int, int>, h: int, count: nat) returns (row: seq<int>)
    requires Dicts.Valid(hseq)
    ensures |row| == |q|
    ensures forall j :: 0 <= j < |q| ==> row[j] == Coefficient(q[j], hseq, h, count)
  {
    var next: seq<Dict<int, int>> := [];
    for a := 0 to count
      invariant |next| == a
      invariant forall b :: 0 <= b < a ==> next[b].m == Extended(hseq, h, b)
    {
      next := next + [Put(hseq, h, a)];
    }
    row := [];
    for j := 0 to |q|
      invariant |row| == j
      invariant forall k :: 0 <= k < j ==> row[k] == Coefficient(q[k], hseq, h, count)
    {
      var c;
      if q[j].m == hseq.m {
        c := -1;
      } else if exists b :: 0 <= b < |next| && next[b].m == q[j].m {
        c := 1;
      } else {
        c := 0;
      }
      row := row + [c];
    }
  }

  // ---------------------------------------------------------------------------------------
  // The joint sequences: `itertools.product` of the players' `Q`s.

  /** Each of `xs` put in front of each of `rs`: `xs[0]` with all of `rs`, then `xs[1]`, ... */
  function Prepend<T>(xs: seq<T>, rs: seq<seq<T>>): (r: seq<seq<T>>)
    ensures |r| == |xs| * |rs|
  {
    if xs == [] then []
    else seq(|rs|, i requires 0 <= i < |rs| => [xs[0]] + rs[i]) + Prepend(xs[1..], rs)
  }

  /** `itertools.product(*qs)`: every choice of one element per factor, the first factor
      varying slowest. */
  function Product<T>(qs: seq<seq<T>>): seq<seq<T>>
  {
    if qs == [] then [[]] else Prepend(qs[0], Product(qs[1..]))
  }

  lemma {:induction false} PrependMembers<T>(xs: seq<T>, rs: seq<seq<T>>, js: seq<T>)
    ensures js in Prepend(xs, rs) <==> |js| > 0 && js[0] in xs && js[1..] in rs
  {
    if xs != [] {
      PrependMembers(xs[1..], rs, js);
      var front := seq(|rs|, i requires 0 <= i < |rs| => [xs[0]] + rs[i]);
      if js in front {
        var i :| 0 <= i < |rs| && front[i] == js;
        assert js[1..] == rs[i];
      }
      if |js| > 0 && js[0] == xs[0] && js[1..] in rs {
        var i :| 0 <= i < |rs| && rs[i] == js[1..];
        assert front[i] == js;
      }
      if |js| > 0 && js[0] in xs {
        var i :| 0 <= i < |xs| && xs[i] == js[0];
        if i > 0 {
          assert xs[1..][i - 1] == js[0];
        }
      }
    }
  }

  /** The joint sequences are exactly the tuples with one element of each factor. */
  lemma {:induction false} ProductMembers<T>(qs: seq<seq<T>>, js: seq<T>)
    ensures js in Product(qs) <==> |js| == |qs| && forall p :: 0 <= p < |qs| ==> js[p] in qs[p]
    decreases |qs|
  {
    if qs == [] {
      assert js in Product(qs) <==> js == [];
    } else {
      PrependMembers(qs[0], Product(qs[1..]), js);
      if |js| > 0 {
        ProductMembers(qs[1..], js[1..]);
        if |js| == |qs| {
          assert (forall p :: 0 <= p < |qs| ==> js[p] in qs[p]) <==>
            js[0] in qs[0] && forall p :: 0 <= p < |qs| - 1 ==> js[1..][p] in qs[1..][p] by {
            forall p | 0 <= p < |qs| - 1 ensures js[1..][p] == js[p + 1] && qs[1..][p] == qs[p + 1] {
              assert js[1..][p] == js[p + 1] && qs[1..][p] == qs[p + 1];
            }
          }
        }
      }
    }
  }

  // ---------------------------------------------------------------------------------------
  // `reachableTerminals`.

  /** The terminals reachable from `n` under the joint sequence `js`, as paths below `n`: a
      leaf reaches itself; a decision node whose label its player's sequence holds reaches
      what the chosen child reaches, and one whose label is missing reaches nothing; a chance
      node reaches what any child reaches. A player or action index out of range is Python's
      IndexError (negative indices count from the end). */
  function Reach(n: Node, js: seq<Dict<int, int>>): Result<set<seq<int>>>
    decreases n, 1
  {
    match n
    case Leaf(_) => Success({[]})
    case Decision(player, h, ch) =>
      var who := PyIndex(|js|, player);
      if !(0 <= who < |js|) then Failure("IndexError")
      else if h !in js[who].m then Success({})
      else
        var k := PyIndex(|ch|, js[who].m[h]);
        if !(0 <= k < |ch|) then Failure("IndexError")
        else Below(k, Reach(ch[k], js))
    case Chance(_, ch) => ReachKids(n, js, |ch|)
  }

  /** The paths of `r`, each after `k`. */
  function Below(k: int, r: Result<set<seq<int>>>): Result<set<seq<int>>>
  {
    match r
    case Failure(e) => Failure(e)
    case Success(ts) => Success(set t | t in ts :: [k] + t)
  }

  /** The union of what the first `k` children of the chance node `n` reach, each child tried
      in order. */
  function ReachKids(n: Node, js: seq<Dict<int, int>>, k: nat): Result<set<seq<int>>>
    requires n.Chance? && k <= |n.children|
    decreases n, 0, k
  {
    if k == 0 then Success({})
    else
      match ReachKids(n, js, k - 1)
      case Failure(e) => Failure(e)
      case Success(before) =>
        match Below(k - 1, Reach(n.children[k - 1], js))
        case Failure(e) => Failure(e)
        case Success(ts) => Success(before + ts)
  }

  /** `reachableTerminals(js)` at the node `n`: recursive at decision nodes, a loop taking the
      union over the children at chance nodes. */
  method ReachableTerminals(n: Node, js: seq<Dict<int, int>>) returns (r: Result<set<seq<int>>>)
    ensures r == Reach(n, js)
    decreases n
  {
    match n {
      case Leaf(_) =>
        return Success({[]});
      case Decision(player, h, ch) =>
        var who := PyIndex(|js|, player);
        if !(0 <= who < |js|) {
          return Failure("IndexError");
        }
        if h !in js[who].m {
          return Success({});
        }
        var k := PyIndex(|ch|, js[who].m[h]);
        if !(0 <= k < |ch|) {
          return Failure("IndexError");
        }
        var below := ReachableTerminals(ch[k], js);
        return Below(k, below);
      case Chance(_, ch) =>
        var cum: set<seq<int>> := {};
        for i := 0 to |ch|
          invariant ReachKids(n, js, i) == Success(cum)
        {
          var t := ReachableTerminals(ch[i], js);
          if t.Failure? {
            KidsFailure(n, js, i + 1, |ch|);
            return Failure(t.error);
          }
          var ts := set x | x in t.value :: [i] + x;
          cum := cum + ts;
        }
        return Success(cum);
    }
  }

  /** Once a child fails, so does the whole chance node, with the same error. */
  lemma {:induction false} KidsFailure(n: Node, js: seq<Dict<int, int>>, i: nat, k: nat)
    requires n.Chance? && i <= k <= |n.children| && ReachKids(n, js, i).Failure?
    ensures ReachKids(n, js, k) == ReachKids(n, js, i)
    decreases k
  {
    if i < k {
      KidsFailure(n, js, i, k - 1);
    }
  }

  /** `t` leads from `n` to a leaf, each decision on the way taking the action its player's
      sequence in `js` prescribes, each chance move being free. */
  ghost predicate Reaches(n: Node, t: seq<int>, js: seq<Dict<int, int>>)
    decreases |t|
  {
    if t == [] then n.Leaf?
    else
      !n.Leaf? && 0 <= t[0] < |n.children| &&
      (n.Decision? ==>
        var who := PyIndex(|js|, n.player);
        0 <= who < |js| && n.infoset in js[who].m && PyIndex(|n.children|, js[who].m[n.infoset]) == t[0]) &&
      Reaches(n.children[t[0]], t[1..], js)
  }

  /** When no index fails, the reachable terminals are exactly the leaves reached by
      following `js`. */
  lemma {:induction false} ReachMeaning(n: Node, js: seq<Dict<int, int>>, t: seq<int>)
    requires Reach(n, js).Success?
    ensures t in Reach(n, js).value <==> Reaches(n, t, js)
    decreases n, 1
  {
    match n
    case Leaf(_) =>
    case Decision(player, h, ch) =>
      var who := PyIndex(|js|, player);
      if h in js[who].m {
        var k := PyIndex(|ch|, js[who].m[h]);
        if t != [] {
          ReachMeaning(ch[k], js, t[1..]);
          assert t == [t[0]] + t[1..];
        }
        if t in Reach(n, js).value {
          var x :| x in Reach(ch[k], js).value && t == [k] + x;
          assert t[1..] == x;
        }
      }
    case Chance(_, ch) =>
      KidsMeaning(n, js, |ch|, t);
  }

  lemma {:induction false} KidsMeaning(n: Node, js: seq<Dict<int, int>>, k: nat, t: seq<int>)
    requires n.Chance? && k <= |n.children| && ReachKids(n, js, k).Success?
    ensures t in ReachKids(n, js, k).value <==> t != [] && 0 <= t[0] < k && Reaches(n.children[t[0]], t[1..], js)
    decreases n, 0, k
  {
    if k > 0 {
      KidsMeaning(n, js, k - 1, t);
      var c := n.children[k - 1];
      if t != [] && t[0] == k - 1 {
        ReachMeaning(c, js, t[1..]);
        assert t == [k - 1] + t[1..];
      }
      if t in Below(k - 1, Reach(c, js)).value {
        var x :| x in Reach(c, js).value && t == [k - 1] + x;
        assert t[1..] == x;
        ReachMeaning(c, js, x);
      }
    }
  }

  // ---------------------------------------------------------------------------------------
  // `minimal_sequences`.

  /** The total number of entries over the players' sequences of a joint sequence. */
  function TotalLength(js: seq<Dict<int, int>>): nat
  {
    if js == [] then 0 else TotalLength(js[..|js| - 1]) + |js[|js| - 1].m|
  }

  /** `__js_len`: adds up the lengths of the players' sequences. */
  method JsLength(js: seq<Dict<int, int>>) returns (len: nat)
    ensures len == TotalLength(js)
  {
    len := 0;
    for p := 0 to |js|
      invariant len == TotalLength(js[..p])
    {
      assert js[..p + 1][..p] == js[..p];
      len := len + |js[p].m|;
    }
    assert js[..|js|] == js;
  }

  /** One pass of the loop with `js`, which reaches `ts`: each terminal of `ts` takes `js` if it
      had no joint sequence yet or if `js` is strictly shorter than the one it had. */
  function Improve(ms: map<seq<int>, seq<Dict<int, int>>>, js: seq<Dict<int, int>>, ts: set<seq<int>>)
    : map<seq<int>, seq<Dict<int, int>>>
  {
    map t | t in ms.Keys + ts :: if t in ts && (t !in ms || TotalLength(js) < TotalLength(ms[t])) then js else ms[t]
  }

  /** The loop over the joint sequences `jss`, in order; the first failing
      `reachableTerminals` ends it. */
  function MinimalFold(root: Node, jss: seq<seq<Dict<int, int>>>): Result<map<seq<int>, seq<Dict<int, int>>>>
  {
    if jss == [] then Success(map[])
    else
      match MinimalFold(root, jss[..|jss| - 1])
      case Failure(e) => Failure(e)
      case Success(ms) =>
        match Reach(root, jss[|jss| - 1])
        case Failure(e) => Failure(e)
        case Success(ts) => Success(Improve(ms, jss[|jss| - 1], ts))
  }

  lemma {:induction false} FoldFailure(root: Node, jss: seq<seq<Dict<int, int>>>, i: nat, k: nat)
    requires i <= k <= |jss| && MinimalFold(root, jss[..i]).Failure?
    ensures MinimalFold(root, jss[..k]) == MinimalFold(root, jss[..i])
    decreases k
  {
    if i < k {
      FoldFailure(root, jss, i, k - 1);
      assert jss[..k][..k - 1] == jss[..k - 1];
    }
  }

  lemma ImproveStep(ms0: map<seq<int>, seq<Dict<int, int>>>, js: seq<Dict<int, int>>, done: set<seq<int>>, t: seq<int>)
    requires t !in done
    ensures var ms := Improve(ms0, js, done);
      Improve(ms0, js, done + {t}) == if t !in ms || TotalLength(js) < TotalLength(ms[t]) then ms[t := js] else ms
  {
    var ms := Improve(ms0, js, done);
    assert t in ms <==> t in ms0;
    assert t in ms ==> ms[t] == ms0[t];
  }

  /** The pass of the loop over the terminals `ts` one joint sequence `js` (of length `len`)
      reaches. */
  method ImprovePass(ms: map<seq<int>, seq<Dict<int, int>>>, js: seq<Dict<int, int>>, len: nat, ts: set<seq<int>>)
    returns (r: map<seq<int>, seq<Dict<int, int>>>)
    requires len == TotalLength(js)
    ensures r == Improve(ms, js, ts)
  {
    r := ms;
    ghost var done: set<seq<int>> := {};
    var rest := ts;
    while rest != {}
      invariant rest !! done && rest + done == ts
      invariant r == Improve(ms, js, done)
      decreases |rest|
    {
      var t :| t in rest;
      ImproveStep(ms, js, done, t);
      if t !in r {
        r := r[t := js];
      } else {
        var other := JsLength(r[t]);
        if len < other {
          r := r[t := js];
        }
      }
      MoveOne(rest, done, t);
      rest := rest - {t};
      done := done + {t};
    }
  }

  lemma MoveOne<T>(rest: set<T>, done: set<T>, t: T)
    requires t in rest && rest !! done
    ensures (rest - {t}) !! (done + {t}) && (rest - {t}) + (done + {t}) == rest + done
  {
  }

  /** One step of the fold over `jss`. */
  lemma FoldStep(root: Node, jss: seq<seq<Dict<int, int>>>, i: nat)
    requires i < |jss|
    ensures var prev := MinimalFold(root, jss[..i]);
      MinimalFold(root, jss[..i + 1]) ==
        if prev.Failure? then prev
        else if Reach(root, jss[i]).Failure? then Failure(Reach(root, jss[i]).error)
        else Success(Improve(prev.value, jss[i], Reach(root, jss[i]).value))
  {
    assert jss[..i + 1][..i] == jss[..i] && jss[..i + 1][i] == jss[i];
  }

  /** The `minimal_sequences` loop: for each joint sequence in turn, its reachable terminals
      and its length, then a pass over the terminals (a set, in any order). */
  method MinimalSequences(root: Node, jss: seq<seq<Dict<int, int>>>) returns (r: Result<map<seq<int>, seq<Dict<int, int>>>>)
    ensures r == MinimalFold(root, jss)
  {
    var ms: map<seq<int>, seq<Dict<int, int>>> := map[];
    for i := 0 to |jss|
      invariant MinimalFold(root, jss[..i]) == Success(ms)
    {
      var js := jss[i];
      FoldStep(root, jss, i);
      var terminals := ReachableTerminals(root, js);
      if terminals.Failure? {
        FoldFailure(root, jss, i + 1, |jss|);
        assert jss[..|jss|] == jss;
        return Failure(terminals.error);
      }
      var len := JsLength(js);
      ms := ImprovePass(ms, js, len, terminals.value);
    }
    assert jss[..|jss|] == jss;
    return Success(ms);
  }

  /** `js` reaches the terminal `t` and no index fails on the way. */
  ghost predicate ReachedBy(root: Node, js: seq<Dict<int, int>>, t: seq<int>)
  {
    Reach(root, js).Success? && t in Reach(root, js).value
  }

  /** If the loop ends normally, every joint sequence's `reachableTerminals` succeeded. */
  lemma {:induction false} FoldSucceeds(root: Node, jss: seq<seq<Dict<int, int>>>, i: nat)
    requires MinimalFold(root, jss).Success? && i < |jss|
    ensures Reach(root, jss[i]).Success?
    decreases |jss|
  {
    var n := |jss| - 1;
    if i < n {
      FoldSucceeds(root, jss[..n], i);
      assert jss[..n][i] == jss[i];
    }
  }

  /** The terminals of a normal end of the loop are those of all but the last joint sequence
      and those the last one reaches. */
  lemma FoldKeys(root: Node, jss: seq<seq<Dict<int, int>>>)
    requires MinimalFold(root, jss).Success? && jss != []
    ensures var n := |jss| - 1;
      MinimalFold(root, jss[..n]).Success? && Reach(root, jss[n]).Success? &&
      MinimalFold(root, jss).value.Keys == MinimalFold(root, jss[..n]).value.Keys + Reach(root, jss[n]).value
  {
    FoldLast(root, jss);
  }

  /** The terminals with a minimal joint sequence are exactly those some joint sequence reaches. */
  lemma {:induction false} MinimalDomain(root: Node, jss: seq<seq<Dict<int, int>>>, t: seq<int>)
    requires MinimalFold(root, jss).Success?
    ensures t in MinimalFold(root, jss).value <==> exists k :: 0 <= k < |jss| && ReachedBy(root, jss[k], t)
    decreases |jss|
  {
    if jss != [] {
      var n := |jss| - 1;
      var pre := jss[..n];
      FoldKeys(root, jss);
      MinimalDomain(root, pre, t);
      if exists k :: 0 <= k < |jss| && ReachedBy(root, jss[k], t) {
        var k :| 0 <= k < |jss| && ReachedBy(root, jss[k], t);
        if k < n {
          assert pre[k] == jss[k];
          assert ReachedBy(root, pre[k], t);
        }
      }
      if t in MinimalFold(root, pre).value {
        var k :| 0 <= k < n && ReachedBy(root, pre[k], t);
        assert pre[k] == jss[k];
      }
    }
  }

  /** `i` is the first of the joint sequences reaching `t` with the least total length. */
  ghost predicate FirstShortest(root: Node, jss: seq<seq<Dict<int, int>>>, t: seq<int>, i: nat)
  {
    i < |jss| && ReachedBy(root, jss[i], t) &&
    (forall k :: 0 <= k < |jss| && ReachedBy(root, jss[k], t) ==> TotalLength(jss[i]) <= TotalLength(jss[k])) &&
    (forall k :: 0 <= k < i && ReachedBy(root, jss[k], t) ==> TotalLength(jss[i]) < TotalLength(jss[k]))
  }

  /** A normal end of the loop over `jss` is a normal end over all but the last joint sequence,
      followed by the last one's pass. */
  lemma FoldLast(root: Node, jss: seq<seq<Dict<int, int>>>)
    requires MinimalFold(root, jss).Success? && jss != []
    ensures var n := |jss| - 1;
      MinimalFold(root, jss[..n]).Success? && Reach(root, jss[n]).Success? &&
      MinimalFold(root, jss).value == Improve(MinimalFold(root, jss[..n]).value, jss[n], Reach(root, jss[n]).value)
  {
  }

  /** The first shortest stays first shortest after a joint sequence no shorter than it. */
  lemma KeptShortest(root: Node, pre: seq<seq<Dict<int, int>>>, last: seq<Dict<int, int>>, t: seq<int>, i: nat)
    requires FirstShortest(root, pre, t, i)
    requires ReachedBy(root, last, t) ==> TotalLength(pre[i]) <= TotalLength(last)
    ensures FirstShortest(root, pre + [last], t, i)
  {
    var jss := pre + [last];
    assert forall k :: 0 <= k < |pre| ==> jss[k] == pre[k];
  }

  /** A joint sequence strictly shorter than every earlier one reaching `t` is the first
      shortest. */
  lemma LastShortest(root: Node, pre: seq<seq<Dict<int, int>>>, last: seq<Dict<int, int>>, t: seq<int>)
    requires ReachedBy(root, last, t)
    requires forall k :: 0 <= k < |pre| && ReachedBy(root, pre[k], t) ==> TotalLength(last) < TotalLength(pre[k])
    ensures FirstShortest(root, pre + [last], t, |pre|)
  {
    var jss := pre + [last];
    assert forall k :: 0 <= k < |pre| ==> jss[k] == pre[k];
  }

  /** Each terminal is mapped to the first joint sequence of least total length among those
      reaching it: a later one replaces the kept one only when strictly shorter. */
  lemma {:induction false} MinimalChosen(root: Node, jss: seq<seq<Dict<int, int>>>, t: seq<int>) returns (i: nat)
    requires MinimalFold(root, jss).Success? && t in MinimalFold(root, jss).value
    ensures FirstShortest(root, jss, t, i) && MinimalFold(root, jss).value[t] == jss[i]
    decreases |jss|
  {
    var n := |jss| - 1;
    var pre := jss[..n];
    var last := jss[n];
    FoldLast(root, jss);
    assert jss == pre + [last];
    var ms := MinimalFold(root, pre).value;
    var ts := Reach(root, last).value;
    if t in ms {
      var i' := MinimalChosen(root, pre, t);
      if t in ts && TotalLength(last) < TotalLength(ms[t]) {
        i := n;
        LastShortest(root, pre, last, t);
      } else {
        i := i';
        KeptShortest(root, pre, last, t, i');
        assert jss[i] == pre[i'];
      }
    } else {
      i := n;
      MinimalDomain(root, pre, t);
      LastShortest(root, pre, last, t);
    }
  }

  // ---------------------------------------------------------------------------------------
  // One player's block, and the whole file's data.

  /** `h_seq`: the sequence of `p` at the first node of information set `h`. */
  function HSeq(root: Node, isets: Dict<int, InfoSet>, h: int, p: int): Dict<int, int>
    requires IsetsMatch(root, isets) && h in isets.m
  {
    Sequence(root, isets.m[h].nodes[0], Some(p))
  }

  /** Every row of `F` has its -1: the sequence of an information set's first node is in `Q`. */
  lemma OwnColumn(root: Node, isets: Dict<int, InfoSet>, h: int, p: int)
    requires Dicts.Valid(isets) && NodesValid(root, isets) && IsetsMatch(root, isets) && h in isets.m
    ensures var q := QOf(root, AllNodes(root, isets), p);
      exists j :: 0 <= j < |q| && Coefficient(q[j], HSeq(root, isets, h, p), h, isets.m[h].actionCount) == -1
  {
    var all := AllNodes(root, isets);
    AllNodesHas(root, isets, h, isets.m[h].nodes[0]);
    QMembers(root, all, p);
    var q := QOf(root, all, p);
    var j :| 0 <= j < |q| && q[j] == HSeq(root, isets, h, p);
  }

  /** What is written for one player: `Q`, the names on the `set Q` line and on the header of
      `F`, the information sets `H`, the rows of `F` (the `empty_is` row first) and `f`. */
  datatype PlayerBlock = PlayerBlock(
    q: seq<Dict<int, int>>, qNames: seq<string>, header: seq<string>, h: seq<int>,
    f: seq<seq<int>>, fVector: seq<int>)

  /** The rows of `F`: the `empty_is` row (1 at the empty sequence, 0 elsewhere), then one row
      per information set of `hs`. */
  method FMatrix(root: Node, isets: Dict<int, InfoSet>, q: seq<Dict<int, int>>, hs: seq<int>, p: int)
    returns (f: seq<seq<int>>)
    requires IsetsMatch(root, isets) && q != [] && forall i :: 0 <= i < |hs| ==> hs[i] in isets.m
    ensures |f| == |hs| + 1 && f[0] == [1] + seq(|q| - 1, _ => 0)
    ensures forall i :: 1 <= i < |f| ==> |f[i]| == |q|
    ensures forall i, j :: 1 <= i < |f| && 0 <= j < |q| ==>
      f[i][j] == Coefficient(q[j], HSeq(root, isets, hs[i - 1], p), hs[i - 1], isets.m[hs[i - 1]].actionCount)
  {
    f := [[1] + seq(|q| - 1, _ => 0)];
    for i := 0 to |hs|
      invariant |f| == i + 1 && f[0] == [1] + seq(|q| - 1, _ => 0)
      invariant forall k :: 1 <= k < |f| ==> |f[k]| == |q|
      invariant forall k, j :: 1 <= k < |f| && 0 <= j < |q| ==>
        f[k][j] == Coefficient(q[j], HSeq(root, isets, hs[k - 1], p), hs[k - 1], isets.m[hs[k - 1]].actionCount)
    {
      var h := hs[i];
      var row := FRow(q, HSeq(root, isets, h, p), h, isets.m[h].actionCount);
      f := f + [row];
    }
  }

  /** `f`: 1 for `empty_is`, 0 for each information set of `hs`. */
  method FVector(hs: seq<int>) returns (v: seq<int>)
    ensures |v| == |hs| + 1 && v[0] == 1 && forall i :: 1 <= i < |v| ==> v[i] == 0
  {
    v := [1];
    for i := 0 to |hs|
      invariant |v| == i + 1 && v[0] == 1 && forall k :: 1 <= k < |v| ==> v[k] == 0
    {
      v := v + [0];
    }
  }

  /** What a block promises: the names on the `set Q` line and on the header of `F` are the
      same, and two sequences get the same name exactly when they are the same sequence; `F`
      has the `empty_is` row (1 at the empty sequence, 0 elsewhere) and then, for each
      information set of `H`, its row of coefficients; `f` is 1 for `empty_is`, 0 elsewhere. */
  ghost predicate BlockFits(b: PlayerBlock, root: Node, isets: Dict<int, InfoSet>, p: int)
  {
    IsetsMatch(root, isets) && (forall i :: 0 <= i < |b.h| ==> b.h[i] in isets.m) &&
    |b.q| > 0 && |b.qNames| == |b.q| && b.header == b.qNames &&
    (forall i, j :: 0 <= i < |b.q| && 0 <= j < |b.q| ==> (b.qNames[i] == b.qNames[j] <==> b.q[i] == b.q[j])) &&
    |b.f| == |b.h| + 1 && b.f[0] == [1] + seq(|b.q| - 1, _ => 0) &&
    (forall i :: 1 <= i < |b.f| ==> |b.f[i]| == |b.q|) &&
    (forall i, j :: 1 <= i < |b.f| && 0 <= j < |b.q| ==>
      b.f[i][j] == Coefficient(b.q[j], HSeq(root, isets, b.h[i - 1], p), b.h[i - 1], isets.m[b.h[i - 1]].actionCount)) &&
    |b.fVector| == |b.h| + 1 && b.fVector[0] == 1 && (forall i :: 1 <= i < |b.fVector| ==> b.fVector[i] == 0)
  }

  /** The body of the per-player loop of `tree_to_colgen_dat_file`. */
  method Block(names: SequenceNames, root: Node, isets: Dict<int, InfoSet>, all: seq<seq<int>>, hs: seq<int>, p: int)
    returns (b: PlayerBlock)
    requires names.Valid() && AllValid(root, all) && IsetsMatch(root, isets)
    requires forall i :: 0 <= i < |hs| ==> hs[i] in isets.m
    modifies names
    ensures names.Valid() && IdsGrow(old(names.ids), names.ids)
    ensures b.q == QOf(root, all, p) && b.h == hs && BlockFits(b, root, isets, p)
  {
    var q := QOf(root, all, p);
    var qNames := names.NameAll(q, p);
    ghost var ids1 := names.ids;
    var header := names.NameAll(q, p);
    IdsGrowTrans(old(names.ids), ids1, names.ids);
    forall j | 0 <= j < |q| ensures header[j] == qNames[j] {
      NamedAsGrows(names.compress, ids1, names.ids, SequenceText(q[j], p), qNames[j]);
    }
    var f := FMatrix(root, isets, q, hs, p);
    var v := FVector(hs);
    b := PlayerBlock(q, qNames, header, hs, f, v);
  }

  /** Block `p` is player `p`'s: its `Q` over the nodes `all`, its `H`, and what a block
      promises. */
  ghost predicate BlocksFit(blocks: seq<PlayerBlock>, root: Node, isets: Dict<int, InfoSet>, all: seq<seq<int>>,
                            byPlayer: seq<seq<int>>)
  {
    AllValid(root, all) && |blocks| <= |byPlayer| &&
    forall p :: 0 <= p < |blocks| ==>
      blocks[p].q == QOf(root, all, p) && blocks[p].h == byPlayer[p] && BlockFits(blocks[p], root, isets, p)
  }

  lemma BlocksFitSnoc(blocks: seq<PlayerBlock>, b: PlayerBlock, root: Node, isets: Dict<int, InfoSet>, all: seq<seq<int>>,
                      byPlayer: seq<seq<int>>)
    requires BlocksFit(blocks, root, isets, all, byPlayer) && |blocks| < |byPlayer|
    requires b.q == QOf(root, all, |blocks|) && b.h == byPlayer[|blocks|] && BlockFits(b, root, isets, |blocks|)
    ensures BlocksFit(blocks + [b], root, isets, all, byPlayer)
  {
    var bs := blocks + [b];
    forall p | 0 <= p < |bs|
      ensures bs[p].q == QOf(root, all, p) && bs[p].h == byPlayer[p] && BlockFits(bs[p], root, isets, p)
    {
      if p < |blocks| {
        assert bs[p] == blocks[p];
      }
    }
  }

  lemma PlayerSetsKnown(isets: Dict<int, InfoSet>, players: nat, p: nat)
    requires Dicts.Valid(isets) && p < players
    ensures forall i :: 0 <= i < |ByPlayer(isets, players)[p]| ==> ByPlayer(isets, players)[p][i] in isets.m
  {
    var hs := ByPlayer(isets, players)[p];
    forall i | 0 <= i < |hs| ensures hs[i] in isets.m {
      assert hs[i] in hs;
    }
  }

  /** `tree_to_colgen_dat_file` without the text layout: one block per player over the nodes
      of every information set and their leaf children, then the joint sequences (the product
      of the players' `Q`s) and the least joint sequence reaching each terminal. */
  method ColgenData(tree: CFRTree, compress: bool) returns (blocks: seq<PlayerBlock>, minimal: Result<map<seq<int>, seq<Dict<int, int>>>>)
    requires Dicts.Valid(tree.informationSets) && NodesValid(tree.root, tree.informationSets)
    requires IsetsMatch(tree.root, tree.informationSets)
    requires tree.infosetsByPlayer == ByPlayer(tree.informationSets, tree.numOfPlayers)
    ensures |blocks| == tree.numOfPlayers
    ensures BlocksFit(blocks, tree.root, tree.informationSets, AllNodes(tree.root, tree.informationSets), tree.infosetsByPlayer)
    ensures minimal == MinimalFold(tree.root, Product(seq(|blocks|, p requires 0 <= p < |blocks| => blocks[p].q)))
  {
    var root := tree.root;
    var isets := tree.informationSets;
    var names := new SequenceNames(compress);
    var all := AllNodes(root, isets);
    blocks := [];
    for p := 0 to tree.numOfPlayers
      invariant names.Valid() && |blocks| == p
      invariant BlocksFit(blocks, root, isets, all, tree.infosetsByPlayer)
    {
      var hs := tree.infosetsByPlayer[p];
      PlayerSetsKnown(isets, tree.numOfPlayers, p);
      var b := Block(names, root, isets, all, hs, p);
      BlocksFitSnoc(blocks, b, root, isets, all, tree.infosetsByPlayer);
      blocks := blocks + [b];
    }
    var qs := seq(|blocks|, p requires 0 <= p < |blocks| => blocks[p].q);
    var jss := Product(qs);
    minimal := MinimalSequences(root, jss);
  }
}
