// The configuration as the chart sees it: a tree of mappings whose leaves are scalars, lists or
// null. Every file of the configuration, the merged Helm values and the JSON objects of the
// cluster are such trees.
module Values {
  datatype Option<+T> = None | Some(value: T)

  datatype Kind = Bool | Number | String

  datatype Value =
    | Null
    | Scalar(kind: Kind, text: string)
    | List(items: seq<Value>)
    | Map(m: Tree)

  type Tree = map<string, Value>

  type Path = seq<string>

  type KeyPath = p: Path | p != [] witness [""]

  /** The mapping stored under `k`, or an empty one where there is none. */
  function SubTree(m: Tree, k: string): Tree {
    if k in m && m[k].Map? then m[k].m else map[]
  }

  function At(m: Tree, k: string): Option<Value> {
    if k in m then Some(m[k]) else None
  }

  function Get(m: Tree, p: Path): Option<Value>
    requires p != []
    decreases |p|
  {
    if p[0] !in m then None
    else if |p| == 1 then Some(m[p[0]])
    else Get(SubTree(m, p[0]), p[1..])
  }

  /** Writes `v` at `p`, creating the mappings on the way and replacing any leaf that stands there. */
  function Set(m: Tree, p: Path, v: Value): Tree
    requires p != []
    decreases |p|
  {
    m[p[0] := if |p| == 1 then v else Map(Set(SubTree(m, p[0]), p[1..], v))]
  }

  /** Removes `p` and every mapping on the way that is empty afterwards. */
  function Delete(m: Tree, p: Path): Tree
    requires p != []
    decreases |p|
  {
    if p[0] !in m then m
    else if |p| == 1 then m - {p[0]}
    else if !m[p[0]].Map? then m
    else
      var c := Delete(m[p[0]].m, p[1..]);
      if c == map[] then m - {p[0]} else m[p[0] := Map(c)]
  }

  /** `s` laid over `d`: mappings are merged key by key, everything else is replaced. */
  function DeepMerge(d: Tree, s: Tree): Tree
    decreases Map(s)
  {
    map k | k in d.Keys + s.Keys ::
      if k !in s then d[k]
      else if k in d && d[k].Map? && s[k].Map? then
        assert s[k] in s.Values;
        Map(DeepMerge(d[k].m, s[k].m))
      else s[k]
  }

  /** Neither path lies on the way to the other: at some key they part. */
  predicate Apart(p: Path, q: Path)
    decreases |p|
  {
    p != [] && q != [] && (p[0] == q[0] ==> Apart(p[1..], q[1..]))
  }

  lemma {:induction false} ApartIsNoPrefix(p: Path, q: Path)
    ensures Apart(p, q) <==> !(p <= q) && !(q <= p)
    decreases |p|
  {
    if p != [] && q != [] && p[0] == q[0] {
      ApartIsNoPrefix(p[1..], q[1..]);
      assert p == [p[0]] + p[1..] && q == [q[0]] + q[1..];
    } else if p == [] {
      assert p <= q;
    } else if q == [] {
      assert q <= p;
    }
  }

  lemma {:induction false} ApartFromItself(p: Path)
    ensures !Apart(p, p)
    decreases |p|
  {
    if p != [] {
      ApartFromItself(p[1..]);
    }
  }

  lemma SameTree(a: Tree, b: Tree)
    requires forall k :: At(a, k) == At(b, k)
    ensures a == b
  {
    assert forall k :: k in a <==> At(a, k).Some?;
    assert forall k :: k in b <==> At(b, k).Some?;
    assert forall k | k in a :: Some(a[k]) == At(a, k) == At(b, k) == Some(b[k]);
  }

  // ---- Laws of the edits --------------------------------------------------------------------

  lemma {:induction false} GetSet(m: Tree, p: Path, v: Value)
    requires p != []
    ensures Get(Set(m, p, v), p) == Some(v)
    decreases |p|
  {
    if |p| > 1 {
      GetSet(SubTree(m, p[0]), p[1..], v);
    }
  }

  /** A write is seen at no path apart from its own. */
  lemma {:induction false} SetFrame(m: Tree, p: Path, v: Value, q: Path)
    requires Apart(p, q)
    ensures q != [] && p != [] && Get(Set(m, p, v), q) == Get(m, q)
    decreases |p|
  {
    if p[0] == q[0] {
      SetFrame(SubTree(m, p[0]), p[1..], v, q[1..]);
    }
  }

  lemma {:induction false} SetSet(m: Tree, p: Path, v: Value, w: Value)
    requires p != []
    ensures Set(Set(m, p, v), p, w) == Set(m, p, w)
    decreases |p|
  {
    if |p| > 1 {
      SetSet(SubTree(m, p[0]), p[1..], v, w);
    }
  }

  lemma {:induction false} SetsCommute(m: Tree, p: Path, v: Value, q: Path, w: Value)
    requires Apart(p, q)
    ensures p != [] && q != [] && Set(Set(m, p, v), q, w) == Set(Set(m, q, w), p, v)
    decreases |p|
  {
    if p[0] == q[0] {
      SetsCommute(SubTree(m, p[0]), p[1..], v, q[1..], w);
      SetTwiceBelow(m, p, v, q, w);
      SetTwiceBelow(m, q, w, p, v);
    } else {
      SetTwiceBeside(m, p, v, q, w);
      SetTwiceBeside(m, q, w, p, v);
    }
  }

  lemma SetTwiceBelow(m: Tree, p: Path, v: Value, q: Path, w: Value)
    requires |p| > 1 && |q| > 1 && p[0] == q[0]
    ensures Set(Set(m, p, v), q, w) == m[p[0] := Map(Set(Set(SubTree(m, p[0]), p[1..], v), q[1..], w))]
  {
    assert SubTree(Set(m, p, v), q[0]) == Set(SubTree(m, p[0]), p[1..], v);
  }

  lemma SetTwiceBeside(m: Tree, p: Path, v: Value, q: Path, w: Value)
    requires p != [] && q != [] && p[0] != q[0]
    ensures Set(Set(m, p, v), q, w) == m[p[0] := Set(m, p, v)[p[0]]][q[0] := Set(m, q, w)[q[0]]]
  {
    assert SubTree(Set(m, p, v), q[0]) == SubTree(m, q[0]);
  }

  lemma {:induction false} GetDelete(m: Tree, p: Path)
    requires p != []
    ensures Get(Delete(m, p), p) == None
    decreases |p|
  {
    if p[0] in m && |p| > 1 && m[p[0]].Map? {
      GetDelete(m[p[0]].m, p[1..]);
    }
  }

  /** A removal is seen at no path apart from its own: pruning takes only mappings that hold nothing. */
  lemma {:induction false} DeleteFrame(m: Tree, p: Path, q: Path)
    requires Apart(p, q)
    ensures p != [] && q != [] && Get(Delete(m, p), q) == Get(m, q)
    decreases |p|
  {
    if p[0] == q[0] && p[0] in m && m[p[0]].Map? {
      DeleteFrame(m[p[0]].m, p[1..], q[1..]);
    }
  }

  /** A leaf stands where a mapping would have to be for `p` to lead anywhere. */
  predicate LeafOnTheWay(m: Tree, p: Path)
    requires p != []
    decreases |p|
  {
    |p| > 1 && p[0] in m && (m[p[0]].Map? ==> LeafOnTheWay(m[p[0]].m, p[1..]))
  }

  /** Writing a value and removing it again is the same as removing it at once, unless the write
      had to replace a leaf by a mapping: that leaf does not come back. */
  lemma {:induction false} DeleteUndoesSet(m: Tree, p: Path, v: Value)
    requires p != []
    ensures Delete(Set(m, p, v), p) == Delete(m, p) <==> !LeafOnTheWay(m, p)
    decreases |p|
  {
    if |p| > 1 {
      var sub := SubTree(m, p[0]);
      DeleteUndoesSet(sub, p[1..], v);
      var undone := Delete(Set(m, p, v), p);
      var c := Delete(Set(sub, p[1..], v), p[1..]);
      assert undone == if c == map[] then m - {p[0]} else m[p[0] := Map(c)];
      if p[0] !in m {
        assert sub == map[];
        DeleteNothing(p[1..]);
      } else if m[p[0]].Map? && LeafOnTheWay(sub, p[1..]) {
        LeafStays(sub, p[1..]);
        assert Delete(m, p)[p[0]] == Map(sub) && c != sub;
      }
    }
  }

  lemma {:induction false} DeleteNothing(p: Path)
    requires p != []
    ensures Delete(map[], p) == map[] && !LeafOnTheWay(map[], p)
  {
  }

  lemma {:induction false} LeafStays(m: Tree, p: Path)
    requires p != [] && LeafOnTheWay(m, p)
    ensures m != map[] && Delete(m, p) == m
    decreases |p|
  {
    if m[p[0]].Map? {
      LeafStays(m[p[0]].m, p[1..]);
    }
  }

  // ---- Laws of the merge --------------------------------------------------------------------

  lemma {:induction false} MergeNothing(d: Tree)
    ensures DeepMerge(d, map[]) == d && DeepMerge(map[], d) == d
  {
  }

  /** Merging the same tree a second time changes nothing. */
  lemma {:induction false} MergeTwice(d: Tree, s: Tree)
    ensures DeepMerge(DeepMerge(d, s), s) == DeepMerge(d, s)
    decreases Map(s)
  {
    var once := DeepMerge(d, s);
    forall k | k in s && s[k].Map?
      ensures DeepMerge(once, s)[k] == once[k]
    {
      assert s[k] in s.Values;
      if k in d && d[k].Map? {
        MergeTwice(d[k].m, s[k].m);
      } else {
        MergeSelf(s[k].m);
      }
    }
  }

  lemma {:induction false} MergeSelf(s: Tree)
    ensures DeepMerge(s, s) == s
    decreases Map(s)
  {
    forall k | k in s && s[k].Map?
      ensures DeepMerge(s, s)[k] == s[k]
    {
      assert s[k] in s.Values;
      MergeSelf(s[k].m);
    }
  }

  /** What a merge shows at a path: the override's leaf, or what stood there before. */
  lemma {:induction false} MergeGet(d: Tree, s: Tree, p: Path)
    requires p != []
    ensures Get(s, p).Some? && !Get(s, p).value.Map? ==> Get(DeepMerge(d, s), p) == Get(s, p)
    decreases |p|
  {
    if |p| > 1 && p[0] in s && s[p[0]].Map? {
      MergeGet(SubTree(d, p[0]), s[p[0]].m, p[1..]);
      if !(p[0] in d && d[p[0]].Map?) {
        MergeNothing(s[p[0]].m);
      }
    }
  }
}
