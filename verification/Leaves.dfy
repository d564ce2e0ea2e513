// An override file is applied leaf by leaf, in whatever order a map yields its keys. This module
// shows that the order cannot be seen, and when the result is the deep merge of the override.
module Leaves {
  import opened Values

  /** A path with the value to be written there. */
  type Entry = e: (Path, Value) | e.0 != [] witness ([""], Null)

  /** What `FlattenLeaves` does not descend into: scalars, lists, null and the empty mapping. */
  predicate IsLeaf(v: Value) {
    v.Map? ==> v.m == map[]
  }

  predicate LeafAt(s: Tree, p: Path, v: Value)
    decreases |p|
  {
    && p != [] && p[0] in s
    && if IsLeaf(s[p[0]]) then |p| == 1 && v == s[p[0]]
       else |p| > 1 && LeafAt(s[p[0]].m, p[1..], v)
  }

  /** `ls` holds the leaves of `s` and nothing else, in any order. */
  ghost predicate Lists(ls: seq<Entry>, s: Tree) {
    && (forall l | l in ls :: LeafAt(s, l.0, l.1))
    && (forall p, v | LeafAt(s, p, v) :: (p, v) in ls)
  }

  /** The leaves of `m` below `prefix`, the keys taken in any order. */
  method FlattenLeaves(m: Tree, prefix: Path) returns (out: seq<Entry>)
    ensures forall l | l in out :: prefix <= l.0 && LeafAt(m, l.0[|prefix|..], l.1)
    ensures forall p, v | LeafAt(m, p, v) :: (prefix + p, v) in out
    decreases Map(m)
  {
    out := [];
    var todo := m.Keys;
    while todo != {}
      invariant todo <= m.Keys
      invariant forall l | l in out :: prefix <= l.0 && LeafAt(m, l.0[|prefix|..], l.1)
      invariant forall p, v | LeafAt(m, p, v) && p[0] !in todo :: (prefix + p, v) in out
    {
      var k :| k in todo;
      var p := prefix + [k];
      ghost var before := out;
      if IsLeaf(m[k]) {
        assert p[|prefix|..] == [k];
        out := out + [(p, m[k])];
        forall q, v | LeafAt(m, q, v) && q[0] == k
          ensures (prefix + q, v) in out
        {
          assert q == [k];
        }
      } else {
        assert m[k] in m.Values;
        var below := FlattenLeaves(m[k].m, p);
        forall l | l in below
          ensures prefix <= l.0 && LeafAt(m, l.0[|prefix|..], l.1)
        {
          assert l.0[|prefix|..][0] == k && l.0[|prefix|..][1..] == l.0[|p|..];
        }
        out := out + below;
        forall q, v | LeafAt(m, q, v) && q[0] == k
          ensures (prefix + q, v) in out
        {
          assert prefix + q == p + q[1..];
        }
      }
      todo := todo - {k};
    }
  }

  /** The entries written one after the other. */
  function FoldSet(d: Tree, ls: seq<Entry>): Tree {
    if ls == [] then d
    else Set(FoldSet(d, ls[..|ls| - 1]), ls[|ls| - 1].0, ls[|ls| - 1].1)
  }

  /** `s` laid over `d` the way its leaves are written: an empty mapping replaces what is there. */
  function Overlay(d: Tree, s: Tree): Tree
    decreases Map(s)
  {
    map k | k in d.Keys + s.Keys ::
      if k !in s then d[k]
      else if IsLeaf(s[k]) then s[k]
      else
        assert s[k] in s.Values;
        Map(Overlay(SubTree(d, k), s[k].m))
  }

  /** The entries below key `k`, with that key taken off. */
  function Below(ls: seq<Entry>, k: string): seq<Entry> {
    if ls == [] then []
    else Below(ls[..|ls| - 1], k) + BelowOne(ls[|ls| - 1], k)
  }

  function BelowOne(l: Entry, k: string): seq<Entry> {
    if l.0[0] == k && |l.0| > 1 then [(l.0[1..], l.1)] else []
  }

  lemma {:induction false} BelowHolds(ls: seq<Entry>, k: string, e: Entry)
    ensures e in Below(ls, k) <==> ([k] + e.0, e.1) in ls
  {
    if ls != [] {
      var init, l := ls[..|ls| - 1], ls[|ls| - 1];
      BelowHolds(init, k, e);
      assert ls == init + [l];
      assert l.0 == [l.0[0]] + l.0[1..];
    }
  }

  /** What a series of writes leaves at key `k` depends on the writes below that key alone. */
  lemma {:induction false} FoldAt(d: Tree, ls: seq<Entry>, k: string)
    requires forall v: Value :: ([k], v) !in ls
    ensures At(FoldSet(d, ls), k) == AtAfter(d, Below(ls, k), k)
  {
    if ls != [] {
      var init, l := ls[..|ls| - 1], ls[|ls| - 1];
      assert ls == init + [l];
      FoldAt(d, init, k);
      assert l == (l.0, l.1) && l in ls;
      assert |l.0| == 1 ==> l.0 == [l.0[0]];
      FoldAtStep(d, init, l, k);
    }
  }

  function AtAfter(d: Tree, below: seq<Entry>, k: string): Option<Value> {
    if below == [] then At(d, k) else Some(Map(FoldSet(SubTree(d, k), below)))
  }

  lemma FoldAtStep(d: Tree, init: seq<Entry>, l: Entry, k: string)
    requires At(FoldSet(d, init), k) == AtAfter(d, Below(init, k), k)
    requires l.0[0] == k ==> |l.0| > 1
    ensures At(FoldSet(d, init + [l]), k) == AtAfter(d, Below(init + [l], k), k)
  {
    var f, below := FoldSet(d, init), Below(init, k);
    assert (init + [l])[..|init|] == init;
    assert FoldSet(d, init + [l]) == Set(f, l.0, l.1);
    SetAt(f, l, k);
    FoldBelowSnoc(SubTree(d, k), init, l, k);
    if l.0[0] == k {
      SubTreeAfter(d, f, below, k);
    } else {
      assert below + [] == below;
    }
  }

  lemma SubTreeAfter(d: Tree, f: Tree, below: seq<Entry>, k: string)
    requires At(f, k) == AtAfter(d, below, k)
    ensures SubTree(f, k) == FoldSet(SubTree(d, k), below)
  {
  }

  lemma SetAt(m: Tree, l: Entry, k: string)
    requires l.0[0] == k ==> |l.0| > 1
    ensures At(Set(m, l.0, l.1), k) ==
      if l.0[0] == k then Some(Map(Set(SubTree(m, k), l.0[1..], l.1))) else At(m, k)
  {
  }

  lemma FoldBelowSnoc(d: Tree, init: seq<Entry>, l: Entry, k: string)
    ensures Below(init + [l], k) == Below(init, k) + BelowOne(l, k)
    ensures l.0[0] == k && |l.0| > 1 ==>
      FoldSet(d, Below(init + [l], k)) == Set(FoldSet(d, Below(init, k)), l.0[1..], l.1)
  {
    assert (init + [l])[..|init|] == init;
    var b := Below(init, k);
    if l.0[0] == k && |l.0| > 1 {
      assert (b + [(l.0[1..], l.1)])[..|b|] == b;
    }
  }

  lemma {:induction false} FoldAtLeaf(d: Tree, ls: seq<Entry>, k: string, v: Value)
    requires forall l | l in ls && l.0[0] == k :: l == ([k], v)
    requires ([k], v) in ls
    ensures k in FoldSet(d, ls) && FoldSet(d, ls)[k] == v
  {
    var init, l := ls[..|ls| - 1], ls[|ls| - 1];
    assert ls == init + [l];
    if l.0[0] != k {
      FoldAtLeaf(d, init, k, v);
    }
  }

  lemma {:induction false} HasLeaf(s: Tree) returns (p: Path, v: Value)
    requires s != map[]
    ensures LeafAt(s, p, v)
    decreases Map(s)
  {
    var k :| k in s;
    if IsLeaf(s[k]) {
      p, v := [k], s[k];
    } else {
      assert s[k] in s.Values;
      p, v := HasLeaf(s[k].m);
      p := [k] + p;
    }
  }

  lemma {:induction false} ListsBelow(ls: seq<Entry>, s: Tree, k: string)
    requires Lists(ls, s) && k in s && !IsLeaf(s[k])
    ensures Lists(Below(ls, k), s[k].m) && Below(ls, k) != []
  {
    forall b | b in Below(ls, k)
      ensures LeafAt(s[k].m, b.0, b.1)
    {
      BelowHolds(ls, k, b);
      assert LeafAt(s, [k] + b.0, b.1) && ([k] + b.0)[1..] == b.0;
    }
    forall p, v | LeafAt(s[k].m, p, v)
      ensures (p, v) in Below(ls, k)
    {
      assert ([k] + p)[1..] == p && LeafAt(s, [k] + p, v);
      BelowHolds(ls, k, (p, v));
    }
    var p, v := HasLeaf(s[k].m);
    assert (p, v) in Below(ls, k);
  }

  lemma NoneBelow(ls: seq<Entry>, s: Tree, k: string)
    requires Lists(ls, s) && k !in s
    ensures Below(ls, k) == []
  {
    if Below(ls, k) != [] {
      var b := Below(ls, k)[0];
      assert !LeafAt(s, [k] + b.0, b.1);
      BelowHolds(ls, k, b);
    }
  }

  /** Whatever the order, writing the leaves of `s` into `d` lays `s` over `d`. */
  lemma {:induction false} FoldIsOverlay(d: Tree, ls: seq<Entry>, s: Tree)
    requires Lists(ls, s)
    ensures FoldSet(d, ls) == Overlay(d, s)
    decreases Map(s)
  {
    var f, o := FoldSet(d, ls), Overlay(d, s);
    forall k
      ensures At(f, k) == At(o, k)
    {
      if k in s && IsLeaf(s[k]) {
        assert LeafAt(s, [k], s[k]);
        forall l | l in ls && l.0[0] == k
          ensures l == ([k], s[k])
        {
          assert LeafAt(s, l.0, l.1) && l.0 == [k];
        }
        FoldAtLeaf(d, ls, k, s[k]);
      } else {
        forall v: Value
          ensures ([k], v) !in ls
        {
          assert !LeafAt(s, [k], v);
        }
        FoldAt(d, ls, k);
        if k in s {
          assert s[k] in s.Values;
          ListsBelow(ls, s, k);
          FoldIsOverlay(SubTree(d, k), Below(ls, k), s[k].m);
        } else {
          NoneBelow(ls, s, k);
        }
      }
    }
    SameTree(f, o);
  }

  /** The override `s` has an empty mapping where `d` holds a mapping that is not empty. */
  predicate Clobbers(d: Tree, s: Tree)
    decreases Map(s), 1
  {
    exists k | k in s :: ClobbersAt(d, s, k)
  }

  predicate ClobbersAt(d: Tree, s: Tree, k: string)
    requires k in s
    decreases Map(s), 0
  {
    && k in d && d[k].Map? && s[k].Map?
    && (assert s[k] in s.Values; if s[k].m == map[] then d[k].m != map[] else Clobbers(d[k].m, s[k].m))
  }

  lemma {:induction false} OverlayOnNothing(s: Tree)
    ensures Overlay(map[], s) == s
    decreases Map(s)
  {
    forall k | k in s && !IsLeaf(s[k])
      ensures Overlay(map[], s)[k] == s[k]
    {
      assert s[k] in s.Values;
      OverlayOnNothing(s[k].m);
    }
  }

  /** Writing the leaves of `s` is merging `s`, exactly when `s` clobbers nothing. */
  lemma {:induction false} OverlayIsMerge(d: Tree, s: Tree)
    ensures Overlay(d, s) == DeepMerge(d, s) <==> !Clobbers(d, s)
    decreases Map(s)
  {
    var o, g := Overlay(d, s), DeepMerge(d, s);
    forall k | k in s
      ensures o[k] == g[k] <==> !ClobbersAt(d, s, k)
    {
      assert s[k] in s.Values;
      if k in d && d[k].Map? && s[k].Map? {
        MergeNothing(d[k].m);
        OverlayIsMerge(d[k].m, s[k].m);
      } else if !IsLeaf(s[k]) {
        OverlayOnNothing(s[k].m);
      }
    }
    if Clobbers(d, s) {
      var k :| k in s && ClobbersAt(d, s, k);
      assert o[k] != g[k];
    }
  }

  // ---- What laying over and merging leave at a path -------------------------------------------

  /** What stands at a path, without what a mapping holds. */
  function View(v: Option<Value>): Option<Value> {
    if v.Some? && v.value.Map? then Some(Map(map[])) else v
  }

  /** A scalar, a list or null stands above `p`: nothing can stand at `p` itself. */
  predicate PlainAbove(m: Tree, p: Path)
    decreases |p|
  {
    |p| > 1 && p[0] in m && (m[p[0]].Map? ==> PlainAbove(m[p[0]].m, p[1..]))
  }

  /** An empty mapping stands above `p`. */
  predicate EmptyAbove(m: Tree, p: Path)
    decreases |p|
  {
    |p| > 1 && p[0] in m && m[p[0]].Map? && (m[p[0]].m == map[] || EmptyAbove(m[p[0]].m, p[1..]))
  }

  lemma {:induction false} NothingBelowALeaf(m: Tree, p: KeyPath)
    ensures PlainAbove(m, p) || EmptyAbove(m, p) ==> Get(m, p) == None
    ensures !(PlainAbove(m, p) && EmptyAbove(m, p))
    decreases |p|
  {
    if |p| > 1 && p[0] in m && m[p[0]].Map? {
      NothingBelowALeaf(m[p[0]].m, p[1..]);
    }
  }

  lemma {:induction false} MergeView(d: Tree, s: Tree, p: KeyPath)
    ensures View(Get(DeepMerge(d, s), p)) ==
      if Get(s, p).Some? then View(Get(s, p)) else if PlainAbove(s, p) then None else View(Get(d, p))
    decreases |p|
  {
    NothingBelowALeaf(s, p);
    if |p| > 1 && p[0] in s && s[p[0]].Map? {
      MergeView(SubTree(d, p[0]), s[p[0]].m, p[1..]);
      if !(p[0] in d && d[p[0]].Map?) {
        MergeNothing(s[p[0]].m);
      }
    }
  }

  lemma {:induction false} OverlayView(d: Tree, s: Tree, p: KeyPath)
    ensures View(Get(Overlay(d, s), p)) ==
      if Get(s, p).Some? then View(Get(s, p))
      else if PlainAbove(s, p) || EmptyAbove(s, p) then None
      else View(Get(d, p))
    decreases |p|
  {
    NothingBelowALeaf(s, p);
    if |p| > 1 && p[0] in s && !IsLeaf(s[p[0]]) {
      OverlayView(SubTree(d, p[0]), s[p[0]].m, p[1..]);
    }
  }

  /** Trees that show the same at every path are the same. */
  lemma {:induction false} SameViews(a: Tree, b: Tree)
    requires forall p: KeyPath :: View(Get(a, p)) == View(Get(b, p))
    ensures a == b
    decreases Map(a)
  {
    forall k
      ensures At(a, k) == At(b, k)
    {
      assert View(Get(a, [k])) == View(Get(b, [k]));
      if k in a && a[k].Map? {
        assert a[k] in a.Values;
        forall p: KeyPath
          ensures View(Get(a[k].m, p)) == View(Get(b[k].m, p))
        {
          assert View(Get(a, [k] + p)) == View(Get(b, [k] + p));
          assert ([k] + p)[1..] == p;
        }
        SameViews(a[k].m, b[k].m);
      }
    }
    SameTree(a, b);
  }
}
