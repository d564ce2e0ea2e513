// A batch of edits as the forms send it: values to write and paths to remove. When the order of the
// writes can be seen, and that what a batch makes of one top-level key depends on the edits below
// that key alone.
module Edits {
  import opened Values
  import opened Leaves

  /** The paths removed one after the other. */
  function DeleteAll(t: Tree, ps: seq<KeyPath>): Tree {
    if ps == [] then t else Delete(DeleteAll(t, ps[..|ps| - 1]), ps[|ps| - 1])
  }

  /** No path of the batch lies on the way to another. */
  ghost predicate PairwiseApart(ls: seq<Entry>) {
    forall i, j | 0 <= i < j < |ls| :: Apart(ls[i].0, ls[j].0)
  }

  /** The value written by `outer` already holds what `inner` writes below it. */
  predicate HoldsInner(outer: Entry, inner: Entry) {
    outer.0 < inner.0 && outer.1.Map? && Get(outer.1.m, inner.0[|outer.0|..]) == Some(inner.1)
  }

  /** Two writes whose order cannot be seen. */
  predicate Agree(a: Entry, b: Entry) {
    Apart(a.0, b.0) || HoldsInner(a, b) || HoldsInner(b, a)
  }

  ghost predicate PairwiseAgree(ls: seq<Entry>) {
    forall i, j | 0 <= i < j < |ls| :: Agree(ls[i], ls[j])
  }

  lemma AgreeIsSymmetric(a: Entry, b: Entry)
    ensures Agree(a, b) <==> Agree(b, a)
    ensures Agree(a, b) ==> a.0 != b.0
  {
    ApartIsNoPrefix(a.0, b.0);
    ApartIsNoPrefix(b.0, a.0);
  }

  lemma ApartAgree(ls: seq<Entry>)
    requires PairwiseApart(ls)
    ensures PairwiseAgree(ls)
  {
  }

  function Without(ls: seq<Entry>, i: nat): seq<Entry>
    requires i < |ls|
  {
    ls[..i] + ls[i + 1..]
  }

  lemma WithoutSnoc(ls: seq<Entry>, i: nat)
    requires i < |ls| - 1
    ensures
      var init, last := ls[..|ls| - 1], ls[|ls| - 1];
      Without(ls, i) == Without(init, i) + [last] && ls == init + [last]
  {
  }

  /** Any write of the batch may be the last one. */
  lemma {:induction false} MoveToEnd(d: Tree, ls: seq<Entry>, i: nat)
    requires PairwiseAgree(ls) && i < |ls|
    ensures FoldSet(d, ls) == Set(FoldSet(d, Without(ls, i)), ls[i].0, ls[i].1)
    decreases |ls|
  {
    var n := |ls| - 1;
    var init, last := ls[..n], ls[n];
    if i == n {
      assert Without(ls, i) == init;
    } else {
      MoveToEnd(d, init, i);
      WithoutSnoc(ls, i);
      MoveOver(d, init, Without(init, i), ls[i], last);
    }
  }

  lemma MoveOver(d: Tree, init: seq<Entry>, w: seq<Entry>, e: Entry, last: Entry)
    requires FoldSet(d, init) == Set(FoldSet(d, w), e.0, e.1) && Agree(e, last)
    ensures FoldSet(d, init + [last]) == Set(FoldSet(d, w + [last]), e.0, e.1)
  {
    FoldSnoc(d, init, last);
    FoldSnoc(d, w, last);
    AgreeIsSymmetric(e, last);
    AgreeCommute(FoldSet(d, w), e, last);
  }

  lemma FoldSnoc(d: Tree, ls: seq<Entry>, l: Entry)
    ensures FoldSet(d, ls + [l]) == Set(FoldSet(d, ls), l.0, l.1)
  {
    assert (ls + [l])[..|ls|] == ls;
  }

  lemma WithoutHolds(ls: seq<Entry>, i: nat, e: Entry)
    requires PairwiseAgree(ls) && i < |ls|
    ensures PairwiseAgree(Without(ls, i))
    ensures e in Without(ls, i) <==> e in ls && e != ls[i]
  {
    var w := Without(ls, i);
    assert forall j | 0 <= j < |w| :: w[j] == ls[if j < i then j else j + 1];
    if e in w {
      var j :| 0 <= j < |w| && w[j] == e;
      AgreeIsSymmetric(e, ls[i]);
      AgreeIsSymmetric(ls[i], e);
    }
    if e in ls && e != ls[i] {
      var j :| 0 <= j < |ls| && ls[j] == e;
      assert w[if j < i then j else j - 1] == e;
    }
  }

  /** Writes that agree give the same tree in any order. */
  lemma {:induction false} AnyOrder(d: Tree, a: seq<Entry>, b: seq<Entry>)
    requires PairwiseAgree(a) && PairwiseAgree(b)
    requires forall e: Entry :: e in a <==> e in b
    ensures FoldSet(d, a) == FoldSet(d, b)
    decreases |a|
  {
    assert b != [] ==> b[0] in b;
    if a != [] {
      var n := |a| - 1;
      assert a[n] in b;
      var i :| 0 <= i < |b| && b[i] == a[n];
      MoveToEnd(d, b, i);
      assert Without(a, n) == a[..n];
      forall e: Entry
        ensures PairwiseAgree(a[..n]) && PairwiseAgree(Without(b, i))
        ensures e in a[..n] <==> e in Without(b, i)
      {
        WithoutHolds(a, n, e);
        WithoutHolds(b, i, e);
      }
      AnyOrder(d, a[..n], Without(b, i));
    }
  }

  /** `a` writes what `ls` does, in an order of its own. */
  ghost predicate Rearranged(a: seq<Entry>, ls: seq<Entry>) {
    DistinctPaths(a) && forall e: Entry :: e in a <==> e in ls
  }

  predicate DistinctPaths(ls: seq<Entry>) {
    forall i, j | 0 <= i < j < |ls| :: ls[i].0 != ls[j].0
  }

  lemma RearrangedAgrees(a: seq<Entry>, ls: seq<Entry>)
    requires Rearranged(a, ls) && PairwiseAgree(ls)
    ensures PairwiseAgree(a)
  {
    forall i, j | 0 <= i < j < |a|
      ensures Agree(a[i], a[j])
    {
      assert a[i] in ls && a[j] in ls;
      var k, l :| 0 <= k < |ls| && 0 <= l < |ls| && ls[k] == a[i] && ls[l] == a[j];
      AgreeIsSymmetric(ls[k], ls[l]);
    }
  }

  lemma RestHolds(ls: seq<Entry>, i: nat, j: nat, x: Entry, y: Entry)
    requires DistinctPaths(ls) && i < j < |ls| && ((x == ls[i] && y == ls[j]) || (x == ls[j] && y == ls[i]))
    ensures Rearranged(ls[..i] + ls[i + 1..j] + ls[j + 1..] + [x, y], ls)
  {
    var rest := ls[..i] + ls[i + 1..j] + ls[j + 1..];
    assert forall k | 0 <= k < |rest| :: rest[k] == ls[if k < i then k else if k < j - 1 then k + 1 else k + 2];
    forall e: Entry
      ensures e in rest + [x, y] <==> e in ls
    {
      if e in ls {
        var k :| 0 <= k < |ls| && ls[k] == e;
        assert k < i ==> rest[k] == e;
        assert i < k < j ==> rest[k - 1] == e;
        assert j < k ==> rest[k - 2] == e;
      }
    }
  }

  lemma RearrangedSame(d: Tree, ls: seq<Entry>, a: seq<Entry>, b: seq<Entry>)
    requires PairwiseAgree(ls) && Rearranged(a, ls) && Rearranged(b, ls)
    ensures FoldSet(d, a) == FoldSet(d, b)
  {
    RearrangedAgrees(a, ls);
    RearrangedAgrees(b, ls);
    AnyOrder(d, a, b);
  }

  /** Two writes that do not agree, made last, in either order. */
  lemma TwoOrders(d: Tree, ls: seq<Entry>, i: nat, j: nat) returns (a: seq<Entry>, b: seq<Entry>)
    requires DistinctPaths(ls) && i < j < |ls| && !Agree(ls[i], ls[j])
    ensures Rearranged(a, ls) && Rearranged(b, ls) && FoldSet(d, a) != FoldSet(d, b)
  {
    var rest, x, y := ls[..i] + ls[i + 1..j] + ls[j + 1..], ls[i], ls[j];
    RestHolds(ls, i, j, x, y);
    RestHolds(ls, i, j, y, x);
    FoldTwo(d, rest, x, y);
    FoldTwo(d, rest, y, x);
    AgreeCommute(FoldSet(d, rest), x, y);
    a, b := rest + [x, y], rest + [y, x];
  }

  /** The order of a batch cannot be seen if and only if every outer value already holds every inner one. */
  lemma OrderCannotBeSeen(d: Tree, ls: seq<Entry>)
    requires DistinctPaths(ls)
    ensures
      (forall a, b | Rearranged(a, ls) && Rearranged(b, ls) :: FoldSet(d, a) == FoldSet(d, b)) <==> PairwiseAgree(ls)
  {
    if PairwiseAgree(ls) {
      forall a, b | Rearranged(a, ls) && Rearranged(b, ls)
        ensures FoldSet(d, a) == FoldSet(d, b)
      {
        RearrangedSame(d, ls, a, b);
      }
    } else {
      var i: nat, j: nat :| i < j < |ls| && !Agree(ls[i], ls[j]);
      var a, b := TwoOrders(d, ls, i, j);
    }
  }

  lemma FoldTwo(d: Tree, ls: seq<Entry>, x: Entry, y: Entry)
    ensures FoldSet(d, ls + [x, y]) == Set(Set(FoldSet(d, ls), x.0, x.1), y.0, y.1)
  {
    assert ls + [x, y] == (ls + [x]) + [y];
    FoldSnoc(d, ls + [x], y);
    FoldSnoc(d, ls, x);
  }

  /** Two writes commute, on any tree, exactly when they agree. */
  lemma AgreeCommute(d: Tree, a: Entry, b: Entry)
    requires a.0 != b.0
    ensures Set(Set(d, a.0, a.1), b.0, b.1) == Set(Set(d, b.0, b.1), a.0, a.1) <==> Agree(a, b)
  {
    ApartIsNoPrefix(a.0, b.0);
    if Apart(a.0, b.0) {
      SetsCommute(d, a.0, a.1, b.0, b.1);
    } else if a.0 <= b.0 {
      OrderMattersOnTheWay(d, a.0, a.1, b.0, b.1);
    } else {
      OrderMattersOnTheWay(d, b.0, b.1, a.0, a.1);
    }
  }

  /** Writes on the way to one another do depend on the order, unless the outer value already holds
      the inner one. */
  lemma OrderMattersOnTheWay(d: Tree, p: Path, v: Value, q: Path, w: Value)
    requires p != [] && p < q
    ensures Set(Set(d, p, v), q, w) == Set(Set(d, q, w), p, v)
      <==> v.Map? && Get(v.m, q[|p|..]) == Some(w)
  {
    SetOver(d, p, v, q, w);
    SetUnder(d, p, v, q, w);
    var sub := if v.Map? then v.m else map[];
    GetSet(d, p, v);
    GetSet(d, p, Map(Set(sub, q[|p|..], w)));
    if v.Map? {
      SetSame(v.m, q[|p|..], w);
    }
  }

  lemma {:induction false} SetOver(d: Tree, p: Path, v: Value, q: Path, w: Value)
    requires p != [] && p < q
    ensures Set(Set(d, q, w), p, v) == Set(d, p, v)
    decreases |p|
  {
    if |p| > 1 {
      assert q == [p[0]] + q[1..] && p == [p[0]] + p[1..];
      SetOver(SubTree(d, p[0]), p[1..], v, q[1..], w);
    }
  }

  lemma {:induction false} SetUnder(d: Tree, p: Path, v: Value, q: Path, w: Value)
    requires p != [] && p < q
    ensures Set(Set(d, p, v), q, w)
      == Set(d, p, Map(Set(if v.Map? then v.m else map[], q[|p|..], w)))
    decreases |p|
  {
    if |p| > 1 {
      assert q == [p[0]] + q[1..] && p == [p[0]] + p[1..];
      SetUnder(SubTree(d, p[0]), p[1..], v, q[1..], w);
      assert q[1..][|p[1..]|..] == q[|p|..];
    }
  }

  lemma {:induction false} SetSame(m: Tree, p: Path, w: Value)
    requires p != []
    ensures Set(m, p, w) == m <==> Get(m, p) == Some(w)
    decreases |p|
  {
    if |p| > 1 {
      SetSame(SubTree(m, p[0]), p[1..], w);
    }
  }

  // ---- One top-level key --------------------------------------------------------------------

  function OnTop(ls: seq<Entry>, k: string): seq<Entry> {
    if ls == [] then []
    else OnTop(ls[..|ls| - 1], k) + if ls[|ls| - 1].0[0] == k then [ls[|ls| - 1]] else []
  }

  function PathsOnTop(ps: seq<KeyPath>, k: string): seq<KeyPath> {
    if ps == [] then []
    else PathsOnTop(ps[..|ps| - 1], k) + if ps[|ps| - 1][0] == k then [ps[|ps| - 1]] else []
  }

  lemma {:induction false} OnTopBoth(a: seq<Entry>, b: seq<Entry>, k: string)
    ensures OnTop(a + b, k) == OnTop(a, k) + OnTop(b, k)
  {
    if b == [] {
      assert a + b == a;
    } else {
      var n := |b| - 1;
      OnTopBoth(a, b[..n], k);
      assert (a + b)[..|a + b| - 1] == a + b[..n];
    }
  }

  lemma {:induction false} WritesOnTop(d: Tree, e: Tree, ls: seq<Entry>, k: string)
    requires At(d, k) == At(e, k)
    ensures At(FoldSet(d, ls), k) == At(FoldSet(e, OnTop(ls, k)), k)
  {
    if ls != [] {
      var init, last := ls[..|ls| - 1], ls[|ls| - 1];
      WritesOnTop(d, e, init, k);
      var a, b := FoldSet(d, init), FoldSet(e, OnTop(init, k));
      if last.0[0] == k {
        FoldSnoc(e, OnTop(init, k), last);
        assert SubTree(a, k) == SubTree(b, k);
      } else {
        assert OnTop(ls, k) == OnTop(init, k);
      }
    }
  }

  lemma {:induction false} RemovalsOnTop(d: Tree, e: Tree, ps: seq<KeyPath>, k: string)
    requires At(d, k) == At(e, k)
    ensures At(DeleteAll(d, ps), k) == At(DeleteAll(e, PathsOnTop(ps, k)), k)
  {
    if ps != [] {
      var init, last := ps[..|ps| - 1], ps[|ps| - 1];
      RemovalsOnTop(d, e, init, k);
      var a, b := DeleteAll(d, init), DeleteAll(e, PathsOnTop(init, k));
      if last[0] == k {
        var top := PathsOnTop(init, k);
        assert (top + [last])[..|top|] == top;
        assert SubTree(a, k) == SubTree(b, k);
      } else {
        assert PathsOnTop(ps, k) == PathsOnTop(init, k);
      }
    }
  }

  /** What a batch makes of key `k`, whatever else it and the tree hold. */
  lemma BatchOnTop(d: Tree, a: seq<Entry>, e: Tree, b: seq<Entry>, ps: seq<KeyPath>, qs: seq<KeyPath>, k: string)
    requires At(d, k) == At(e, k)
    requires OnTop(a, k) == OnTop(b, k) && PathsOnTop(ps, k) == PathsOnTop(qs, k)
    ensures At(DeleteAll(FoldSet(d, a), ps), k) == At(DeleteAll(FoldSet(e, b), qs), k)
  {
    WritesOnTop(d, e, a, k);
    WritesOnTop(e, e, b, k);
    RemovalsOnTop(FoldSet(d, a), FoldSet(e, b), ps, k);
    RemovalsOnTop(FoldSet(e, b), FoldSet(e, b), qs, k);
  }
}
