// The store behind the settings form: edits go to the files that own them, one file at a time, and
// what comes of it is one edit of the whole configuration.
module Store {
  import opened Values
  import opened Leaves
  import opened Edits
  import opened Sections
  import Y = YamlNodes
  import E = YamlEdit

  /** Everything the files hold, listed or not. */
  ghost function Contents(files: Files): (t: Tree)
    requires Owned(files)
    ensures forall k :: At(t, k) == Stored(files, k)
  {
    var keys := set f, k | f in files && k in Y.Decoded(files[f]) :: k;
    map k | k in keys && Stored(files, k).Some? :: Stored(files, k).value
  }

  type Document = y: Y.Yaml | Y.WellFormed(y) witness Y.EMPTY

  /** The writes of a batch, in some order. */
  ghost predicate Orders(ls: seq<Entry>, sets: map<KeyPath, Document>) {
    && (forall i, j | 0 <= i < j < |ls| :: ls[i].0 != ls[j].0)
    && (forall l | l in ls :: l.0 in sets && l.1 == Y.Decode(sets[l.0]))
    && forall p | p in sets :: (p, Y.Decode(sets[p])) in ls
  }

  // ---- A batch of edits on one document ------------------------------------------------------

  predicate InSets(order: seq<Entry>, sets: map<KeyPath, Document>) {
    forall l | l in order :: l.0 in sets
  }

  /** The document after the writes, made one after the other. */
  function SetAllIn(y: Y.Yaml, order: seq<Entry>, sets: map<KeyPath, Document>): (r: Y.Yaml)
    requires y.Mapping? && InSets(order, sets)
    ensures r.Mapping?
  {
    if order == [] then y
    else
      assert order[|order| - 1] in order;
      var p := order[|order| - 1].0;
      Y.SetIn(SetAllIn(y, order[..|order| - 1], sets), p, sets[p])
  }

  /** The document after the removals, in their order. */
  function DeleteAllIn(y: Y.Yaml, ps: seq<KeyPath>): (r: Y.Yaml)
    requires y.Mapping?
    ensures r.Mapping?
  {
    if ps == [] then y else Y.DeleteIn(DeleteAllIn(y, ps[..|ps| - 1]), ps[|ps| - 1])
  }

  lemma {:induction false} SetAllWellFormed(y: Y.Yaml, order: seq<Entry>, sets: map<KeyPath, Document>)
    requires y.Mapping? && Y.WellFormed(y) && InSets(order, sets)
    ensures Y.WellFormed(SetAllIn(y, order, sets))
  {
    if order != [] {
      var front, p := order[..|order| - 1], order[|order| - 1].0;
      assert order[|order| - 1] in order;
      SetAllWellFormed(y, front, sets);
      Y.SetInWellFormed(SetAllIn(y, front, sets), p, sets[p]);
    }
  }

  lemma {:induction false} DeleteAllWellFormed(y: Y.Yaml, ps: seq<KeyPath>)
    requires y.Mapping? && Y.WellFormed(y)
    ensures Y.WellFormed(DeleteAllIn(y, ps))
  {
    if ps != [] {
      DeleteAllWellFormed(y, ps[..|ps| - 1]);
      Y.DeleteInWellFormed(DeleteAllIn(y, ps[..|ps| - 1]), ps[|ps| - 1]);
    }
  }

  /** No write replaces a value that `q` lies in. */
  predicate NotBelow(order: seq<Entry>, q: KeyPath) {
    forall l | l in order :: !(l.0 < q)
  }

  lemma {:induction false} SetAllKeeps(y: Y.Yaml, order: seq<Entry>, sets: map<KeyPath, Document>, q: KeyPath)
    requires y.Mapping? && InSets(order, sets) && NotBelow(order, q)
    ensures Y.PairAt(y, q).Some? ==> Y.PairAt(SetAllIn(y, order, sets), q).Some?
    ensures Y.KeptAt(y, SetAllIn(y, order, sets), q, forall l | l in order :: Apart(l.0, q))
  {
    if order != [] {
      var front, p := order[..|order| - 1], order[|order| - 1].0;
      assert order[|order| - 1] in order;
      SetAllKeeps(y, front, sets, q);
      Y.SetOneKeeps(SetAllIn(y, front, sets), p, sets[p], q);
    }
  }

  lemma {:induction false} DeleteAllKeeps(y: Y.Yaml, ps: seq<KeyPath>, q: KeyPath)
    requires y.Mapping? && Y.WellFormed(y)
    ensures Y.PairAt(DeleteAllIn(y, ps), q).Some? ==> Y.PairAt(y, q).Some?
    ensures Y.KeptAt(y, DeleteAllIn(y, ps), q, forall p | p in ps :: Apart(p, q))
  {
    if ps != [] {
      var front, p := ps[..|ps| - 1], ps[|ps| - 1];
      assert p in ps;
      DeleteAllKeeps(y, front, q);
      DeleteAllWellFormed(y, front);
      Y.DeleteInKeeps(DeleteAllIn(y, front), p, q);
      if Apart(p, q) {
        Y.DeleteInFrame(DeleteAllIn(y, front), p, q);
      }
    }
  }

  /** The document's own comments stay, and its style where nothing is written. */
  lemma {:induction false} DocumentStays(y: Y.Yaml, order: seq<Entry>, sets: map<KeyPath, Document>, ps: seq<KeyPath>)
    requires y.Mapping? && InSets(order, sets)
    ensures
      var r := DeleteAllIn(SetAllIn(y, order, sets), ps);
      r.comments == y.comments && r.flow == (y.flow && order == [])
    decreases |order| + |ps|
  {
    if ps != [] {
      DocumentStays(y, order, sets, ps[..|ps| - 1]);
    } else if order != [] {
      DocumentStays(y, order[..|order| - 1], sets, ps);
    }
  }

  /** A value written at a path apart from all the others of the batch stands there in the end, with the
      comments around the value it replaced. */
  lemma WrittenStands(y: Y.Yaml, order: seq<Entry>, sets: map<KeyPath, Document>, ps: seq<KeyPath>, i: nat)
    requires y.Mapping? && Y.WellFormed(y) && InSets(order, sets) && i < |order|
    requires forall j | 0 <= j < |order| && j != i :: Apart(order[j].0, order[i].0)
    requires forall p | p in ps :: Apart(p, order[i].0)
    ensures StandsAt(y, DeleteAllIn(SetAllIn(y, order, sets), ps), order[i].0, sets[order[i].0])
  {
    var p := order[i].0;
    var upto, later := order[..i], order[i + 1..];
    assert order[i] in order && order == upto + [order[i]] + later;
    forall l | l in upto
      ensures Apart(l.0, p) && !(l.0 < p)
    {
      ApartIsNoPrefix(l.0, p);
    }
    SetAllKeeps(y, upto, sets, p);
    SetAllSnoc(y, upto, order[i], sets);
    Y.SetInWritten(SetAllIn(y, upto, sets), p, sets[p]);
    LaterKeeps(y, upto + [order[i]], later, sets, p);
    SetAllWellFormed(y, order, sets);
    DeleteAllKeeps(SetAllIn(y, order, sets), ps, p);
  }

  lemma SetAllSnoc(y: Y.Yaml, order: seq<Entry>, e: Entry, sets: map<KeyPath, Document>)
    requires y.Mapping? && InSets(order, sets) && e.0 in sets
    ensures InSets(order + [e], sets)
    ensures SetAllIn(y, order + [e], sets) == Y.SetIn(SetAllIn(y, order, sets), e.0, sets[e.0])
  {
    assert (order + [e])[..|order|] == order;
  }

  /** Writes apart from `q` that come later leave what stands there. */
  lemma {:induction false} LaterKeeps(y: Y.Yaml, order: seq<Entry>, later: seq<Entry>, sets: map<KeyPath, Document>,
                                      q: KeyPath)
    requires y.Mapping? && InSets(order, sets) && InSets(later, sets) && forall l | l in later :: Apart(l.0, q)
    ensures InSets(order + later, sets)
    ensures Y.PairAt(SetAllIn(y, order + later, sets), q) == Y.PairAt(SetAllIn(y, order, sets), q)
  {
    if later == [] {
      assert order + later == order;
    } else {
      var front, last := later[..|later| - 1], later[|later| - 1];
      assert last in later && order + later == (order + front) + [last];
      LaterKeeps(y, order, front, sets, q);
      SetAllSnoc(y, order + front, last, sets);
      Y.SetInFrame(SetAllIn(y, order + front, sets), last.0, sets[last.0], q);
    }
  }

  datatype Edit = Edit(sets: map<KeyPath, Document>, removes: seq<KeyPath>)

  lemma OrdersSnoc(order: seq<Entry>, sets: map<KeyPath, Document>, todo: set<KeyPath>, p: KeyPath)
    requires Orders(order, sets - todo) && p in todo && todo <= sets.Keys
    ensures Orders(order + [(p, Y.Decode(sets[p]))], sets - (todo - {p}))
  {
    var longer := order + [(p, Y.Decode(sets[p]))];
    forall i | 0 <= i < |order|
      ensures order[i].0 != p
    {
      assert order[i] in order;
    }
    forall q | q in sets - (todo - {p})
      ensures (q, Y.Decode(sets[q])) in longer
    {
      assert longer[|order|] in longer;
      if q != p {
        assert q in sets - todo && (sets - todo)[q] == sets[q];
        assert (q, Y.Decode(sets[q])) in order;
      }
    }
  }

  /** One write more: the node decodes to one write more of the tree. */
  lemma WriteStep(start: Tree, y: Y.Yaml, sets: map<KeyPath, Document>, order: seq<Entry>, todo: set<KeyPath>,
                  p: KeyPath)
      returns (longer: seq<Entry>)
    requires y.Mapping? && Y.WellFormed(y) && Y.Decoded(y) == FoldSet(start, order)
    requires Orders(order, sets - todo) && p in todo && todo <= sets.Keys
    ensures
      var written := Y.SetIn(y, p, sets[p]);
      && Y.WellFormed(written) && Y.Decoded(written) == FoldSet(start, longer)
      && Orders(longer, sets - (todo - {p}))
    ensures longer != [] && longer[..|longer| - 1] == order && longer[|longer| - 1].0 == p
  {
    var e: Entry := (p, Y.Decode(sets[p]));
    longer := order + [e];
    Y.SetInIsSet(y, p, sets[p]);
    Y.SetInWellFormed(y, p, sets[p]);
    FoldSnoc(start, order, e);
    OrdersSnoc(order, sets, todo, p);
  }

  /** Writes the values of a batch, in any order. */
  method WriteAll(node: E.Node, sets: map<KeyPath, Document>) returns (ghost order: seq<Entry>)
    requires node.Valid() && node.mapping && Y.WellFormed(node.View)
    modifies node.Repr
    ensures node.Valid() && node.mapping && Y.WellFormed(node.View) && fresh(node.Repr - old(node.Repr))
    ensures Orders(order, sets)
    ensures InSets(order, sets) && node.View == SetAllIn(old(node.View), order, sets)
    ensures Y.Decoded(node.View) == FoldSet(Y.Decoded(old(node.View)), order)
  {
    ghost var start := Y.Decoded(node.View);
    order := [];
    var todo := sets.Keys;
    while todo != {}
      invariant todo <= sets.Keys
      invariant node.Valid() && node.mapping && fresh(node.Repr - old(node.Repr))
      invariant Y.WellFormed(node.View)
      invariant Orders(order, sets - todo)
      invariant Y.Decoded(node.View) == FoldSet(start, order)
      invariant InSets(order, sets) && node.View == SetAllIn(old(node.View), order, sets)
    {
      var p :| p in todo;
      var v := E.Node.Parse(sets[p]);
      order := WriteStep(start, node.View, sets, order, todo, p);
      node.SetIn(p, v);
      todo := todo - {p};
    }
    assert sets - {} == sets;
  }

  /** Removes the paths of a batch, in the order given. */
  method RemoveAll(node: E.Node, removes: seq<KeyPath>)
    requires node.Valid() && node.mapping && Y.WellFormed(node.View)
    modifies node.Repr
    ensures node.Valid() && node.mapping && Y.WellFormed(node.View) && fresh(node.Repr - old(node.Repr))
    ensures Y.Decoded(node.View) == DeleteAll(Y.Decoded(old(node.View)), removes)
    ensures node.View == DeleteAllIn(old(node.View), removes)
  {
    ghost var start := Y.Decoded(node.View);
    for i := 0 to |removes|
      invariant node.Valid() && node.mapping && fresh(node.Repr - old(node.Repr))
      invariant Y.WellFormed(node.View)
      invariant Y.Decoded(node.View) == DeleteAll(start, removes[..i])
      invariant node.View == DeleteAllIn(old(node.View), removes[..i])
    {
      Y.DeleteInIsDelete(node.View, removes[i]);
      Y.DeleteInWellFormed(node.View, removes[i]);
      assert removes[..i + 1][..i] == removes[..i];
      node.DeleteIn(removes[i]);
    }
    assert removes[..|removes|] == removes;
  }

  /** The document with its edits made: first the values, in the order given, then the removals. */
  ghost predicate WrittenAs(before: Y.Yaml, after: Y.Yaml, e: Edit, order: seq<Entry>) {
    && before.Mapping? && after.Mapping? && Y.WellFormed(after)
    && Orders(order, e.sets) && after == DeleteAllIn(SetAllIn(before, order, e.sets), e.removes)
    && Y.Decoded(after) == DeleteAll(FoldSet(Y.Decoded(before), order), e.removes)
  }

  /** What one file makes of its edits: first the values, then the removals. */
  method EditFile(doc: Y.Yaml, e: Edit) returns (r: Y.Yaml, ghost order: seq<Entry>)
    requires doc.Mapping? && Y.WellFormed(doc)
    ensures WrittenAs(doc, r, e, order)
  {
    var node := E.Node.Parse(doc);
    order := WriteAll(node, e.sets);
    RemoveAll(node, e.removes);
    r := node.ToYaml();
  }

  /** What an edited document keeps of the one before: its own comments; every pair at a path apart from all
      edited ones, with everything attached to it; the comments of every key that remains and was not part of a
      value that was replaced. A value written apart from the other edits stands in the end, with the comments
      around the one it replaced. */
  ghost predicate FileKept(before: Y.Yaml, after: Y.Yaml, sets: map<KeyPath, Document>, removes: seq<KeyPath>) {
    && after.Mapping? && after.comments == before.comments
    && after.flow == (before.Mapping? && before.flow && sets == map[])
    && (forall q: KeyPath | forall p | p in sets :: !(p < q) :: Y.KeptAt(before, after, q, ApartFrom(sets, removes, q)))
    && (forall p | p in sets && ApartFrom(sets - {p}, removes, p) :: StandsAt(before, after, p, sets[p]))
  }

  ghost predicate ApartFrom(sets: map<KeyPath, Document>, removes: seq<KeyPath>, q: KeyPath) {
    (forall p | p in sets :: Apart(p, q)) && (forall p | p in removes :: Apart(p, q))
  }

  predicate StandsAt(before: Y.Yaml, after: Y.Yaml, p: KeyPath, v: Y.Yaml) {
    var replaced, written := Y.PairAt(before, p), Y.PairAt(after, p);
    && written.Some?
    && written.value.value ==
         if replaced.None? then v
         else Y.SetComments(v, replaced.value.value.comments.head, replaced.value.value.comments.line)
  }

  lemma EditKeeps(before: Y.Yaml, after: Y.Yaml, e: Edit, order: seq<Entry>)
    requires WrittenAs(before, after, e, order) && Y.WellFormed(before)
    ensures FileKept(before, after, e.sets, e.removes)
  {
    DocumentStays(before, order, e.sets, e.removes);
    OrderIsEmpty(order, e.sets);
    forall q: KeyPath | forall p | p in e.sets :: !(p < q)
      ensures Y.KeptAt(before, after, q, ApartFrom(e.sets, e.removes, q))
    {
      SetAllKeeps(before, order, e.sets, q);
      SetAllWellFormed(before, order, e.sets);
      DeleteAllKeeps(SetAllIn(before, order, e.sets), e.removes, q);
    }
    forall p | p in e.sets && ApartFrom(e.sets - {p}, e.removes, p)
      ensures StandsAt(before, after, p, e.sets[p])
    {
      PathStands(before, after, e, order, p);
    }
  }

  lemma OrderIsEmpty(order: seq<Entry>, sets: map<KeyPath, Document>)
    requires Orders(order, sets)
    ensures order == [] <==> sets == map[]
  {
    assert forall p | p in sets :: (p, Y.Decode(sets[p])) in order;
    if order != [] {
      assert order[0] in order;
    }
  }

  lemma PathStands(before: Y.Yaml, after: Y.Yaml, e: Edit, order: seq<Entry>, p: KeyPath)
    requires WrittenAs(before, after, e, order) && Y.WellFormed(before)
    requires p in e.sets && ApartFrom(e.sets - {p}, e.removes, p)
    ensures StandsAt(before, after, p, e.sets[p])
  {
    var i :| 0 <= i < |order| && order[i] == (p, Y.Decode(e.sets[p]));
    forall j | 0 <= j < |order| && j != i
      ensures Apart(order[j].0, p)
    {
      assert order[j] in order && order[j].0 != order[i].0;
      assert order[j].0 in e.sets - {p};
    }
    WrittenStands(before, order, e.sets, e.removes, i);
  }

  /** The removals that concern one file. */
  function RemovesFor(removals: seq<KeyPath>, f: string): seq<KeyPath> {
    if removals == [] then []
    else
      var last := removals[|removals| - 1];
      RemovesFor(removals[..|removals| - 1], f) + if OwnerFile(last[0]) == f then [last] else []
  }

  function SetsFor(changes: map<KeyPath, Document>, f: string): map<KeyPath, Document> {
    map p | p in changes && OwnerFile(p[0]) == f :: changes[p]
  }

  /** The files a batch edits. */
  function Touched(changes: map<KeyPath, Document>, removals: seq<KeyPath>): set<string> {
    (set p | p in changes :: OwnerFile(p[0])) + (set p | p in removals :: OwnerFile(p[0]))
  }

  /** The edits sorted by the files that own them. */
  ghost predicate Grouped(byFile: map<string, Edit>, changes: map<KeyPath, Document>, removals: seq<KeyPath>) {
    && byFile.Keys == Touched(changes, removals)
    && forall f | f in byFile ::
         byFile[f] == Edit(SetsFor(changes, f), RemovesFor(removals, f))
  }

  method Group(changes: map<KeyPath, Document>, removals: seq<KeyPath>) returns (byFile: map<string, Edit>)
    ensures Grouped(byFile, changes, removals)
  {
    byFile := GroupSets(changes);
    for i := 0 to |removals|
      invariant Grouped(byFile, changes, removals[..i])
    {
      var f := OwnerFile(removals[i][0]);
      var e := if f in byFile then byFile[f] else Edit(map[], []);
      var grown := byFile[f := e.(removes := e.removes + [removals[i]])];
      GroupRemoval(byFile, changes, removals[..i], removals[i], grown);
      OneRemovalMore(removals, i);
      byFile := grown;
    }
    assert removals[..|removals|] == removals;
  }

  lemma OneRemovalMore(removals: seq<KeyPath>, i: nat)
    requires i < |removals|
    ensures removals[..i + 1] == removals[..i] + [removals[i]]
  {
  }

  method GroupSets(changes: map<KeyPath, Document>) returns (byFile: map<string, Edit>)
    ensures Grouped(byFile, changes, [])
  {
    byFile := map[];
    var todo := changes.Keys;
    while todo != {}
      invariant todo <= changes.Keys
      invariant Grouped(byFile, changes - todo, [])
    {
      var p :| p in todo;
      var f := OwnerFile(p[0]);
      var e := if f in byFile then byFile[f] else Edit(map[], []);
      GroupSet(byFile, changes, todo, p);
      byFile := byFile[f := e.(sets := e.sets[p := changes[p]])];
      todo := todo - {p};
    }
    assert changes - {} == changes;
  }

  lemma GroupSet(byFile: map<string, Edit>, changes: map<KeyPath, Document>, todo: set<KeyPath>, p: KeyPath)
    requires p in todo && todo <= changes.Keys && Grouped(byFile, changes - todo, [])
    ensures
      var f := OwnerFile(p[0]);
      var e := if f in byFile then byFile[f] else Edit(map[], []);
      Grouped(byFile[f := e.(sets := e.sets[p := changes[p]])], changes - (todo - {p}), [])
  {
    var f := OwnerFile(p[0]);
    var before, after := changes - todo, changes - (todo - {p});
    if f !in byFile {
      NothingFor(before, [], f);
    }
    var e := if f in byFile then byFile[f] else Edit(map[], []);
    var grown := byFile[f := e.(sets := e.sets[p := changes[p]])];
    assert after == before[p := changes[p]];
    forall g | g in grown
      ensures grown[g] == Edit(SetsFor(after, g), RemovesFor([], g))
    {
      SetsSnoc(before, p, changes[p], g);
    }
  }

  lemma SetsSnoc(before: map<KeyPath, Document>, p: KeyPath, v: Document, g: string)
    requires p !in before
    ensures
      var own := SetsFor(before, g);
      SetsFor(before[p := v], g) == if OwnerFile(p[0]) == g then own[p := v] else own
  {
  }

  lemma GroupRemoval(byFile: map<string, Edit>, changes: map<KeyPath, Document>, removals: seq<KeyPath>, p: KeyPath,
                     grown: map<string, Edit>)
    requires Grouped(byFile, changes, removals)
    requires
      var f := OwnerFile(p[0]);
      var e := if f in byFile then byFile[f] else Edit(map[], []);
      grown == byFile[f := e.(removes := e.removes + [p])]
    ensures Grouped(grown, changes, removals + [p])
  {
    var f := OwnerFile(p[0]);
    if f !in byFile {
      NothingFor(changes, removals, f);
    }
    forall g | g in grown
      ensures grown[g] == Edit(SetsFor(changes, g), RemovesFor(removals + [p], g))
    {
      RemovesSnoc(removals, p, g);
    }
    assert forall q :: q in removals + [p] <==> q in removals || q == p;
  }

  lemma RemovesSnoc(removals: seq<KeyPath>, p: KeyPath, g: string)
    ensures RemovesFor(removals + [p], g)
      == if OwnerFile(p[0]) == g then RemovesFor(removals, g) + [p] else RemovesFor(removals, g)
  {
    assert (removals + [p])[..|removals|] == removals;
  }

  lemma {:induction false} NothingFor(changes: map<KeyPath, Document>, removals: seq<KeyPath>, f: string)
    requires forall p | p in changes :: OwnerFile(p[0]) != f
    requires forall p | p in removals :: OwnerFile(p[0]) != f
    ensures SetsFor(changes, f) == map[] && RemovesFor(removals, f) == []
  {
    if removals != [] {
      NothingFor(changes, removals[..|removals| - 1], f);
    }
  }

  // ---- The batch, seen from the whole configuration ------------------------------------------

  /** Where a path written lies on the way to another, the outer value already holds the inner one. */
  ghost predicate Agreeing(changes: map<KeyPath, Document>) {
    forall p, q | p in changes && q in changes && p != q ::
      Agree((p, Y.Decode(changes[p])), (q, Y.Decode(changes[q])))
  }

  /** The orders of a batch agree exactly when its paths do. */
  lemma OrdersAgree(ls: seq<Entry>, sets: map<KeyPath, Document>)
    requires Orders(ls, sets)
    ensures DistinctPaths(ls) && (PairwiseAgree(ls) <==> Agreeing(sets))
  {
    if PairwiseAgree(ls) {
      forall p, q | p in sets && q in sets && p != q
        ensures Agree((p, Y.Decode(sets[p])), (q, Y.Decode(sets[q])))
      {
        var a: Entry, b: Entry := (p, Y.Decode(sets[p])), (q, Y.Decode(sets[q]));
        var i, j :| 0 <= i < |ls| && 0 <= j < |ls| && ls[i] == a && ls[j] == b;
        AgreeIsSymmetric(a, b);
      }
    } else {
      var i, j :| 0 <= i < j < |ls| && !Agree(ls[i], ls[j]);
      assert ls[i] in ls && ls[j] in ls;
      assert ls[i] == (ls[i].0, Y.Decode(sets[ls[i].0])) && ls[j] == (ls[j].0, Y.Decode(sets[ls[j].0]));
    }
  }

  /** The order in which a map yields the writes cannot be seen if and only if they agree. */
  lemma BatchOrder(d: Tree, changes: map<KeyPath, Document>, ls: seq<Entry>)
    requires Orders(ls, changes)
    ensures
      (forall a, b | Orders(a, changes) && Orders(b, changes) :: FoldSet(d, a) == FoldSet(d, b)) <==> Agreeing(changes)
  {
    OrdersAgree(ls, changes);
    OrderCannotBeSeen(d, ls);
    forall a
      ensures Orders(a, changes) <==> Rearranged(a, ls)
    {
      OrdersRearrange(a, ls, changes);
    }
  }

  lemma OrdersRearrange(a: seq<Entry>, ls: seq<Entry>, changes: map<KeyPath, Document>)
    requires Orders(ls, changes)
    ensures Orders(a, changes) <==> Rearranged(a, ls)
  {
    if Orders(a, changes) {
      forall e: Entry
        ensures e in a <==> e in ls
      {
        assert e == (e.0, e.1);
      }
    }
  }

  lemma {:induction false} PathsForOnTop(removals: seq<KeyPath>, k: string)
    ensures PathsOnTop(RemovesFor(removals, OwnerFile(k)), k) == PathsOnTop(removals, k)
  {
    if removals != [] {
      var init, last := removals[..|removals| - 1], removals[|removals| - 1];
      PathsForOnTop(init, k);
      var r := RemovesFor(init, OwnerFile(k));
      assert (r + [last])[..|r|] == r && r + [] == r;
      assert RemovesFor(removals, OwnerFile(k)) == if OwnerFile(last[0]) == OwnerFile(k) then r + [last] else r;
    }
  }

  /** A batch brings in no key but those its paths start with. */
  lemma {:induction false} KeysAfter(t: Tree, ls: seq<Entry>, ps: seq<KeyPath>, k: string)
    requires k in DeleteAll(FoldSet(t, ls), ps)
    ensures k in t || exists l | l in ls :: l.0[0] == k
    decreases |ls| + |ps|
  {
    if ps != [] {
      KeysAfter(t, ls, ps[..|ps| - 1], k);
    } else if ls != [] {
      var init, last := ls[..|ls| - 1], ls[|ls| - 1];
      assert last in ls;
      if last.0[0] != k {
        KeysAfter(t, init, [], k);
      }
    }
  }

  class Store {
    var files: Files
    var manifest: seq<string>

    constructor (files: Files, manifest: seq<string>)
      requires Owned(files)
      ensures this.files == files && this.manifest == manifest
    {
      this.files, this.manifest := files, manifest;
    }

    /** `unread` are the files of which reading fails; the source then starts from nothing. */
    method SetSectionValues(changes: map<KeyPath, Document>, removals: seq<KeyPath>, unread: set<string>)
      requires Owned(files)
      modifies this`files
      ensures Owned(files)
      ensures files.Keys == old(files).Keys + Touched(changes, removals)
      ensures forall f | f in old(files) && f !in Touched(changes, removals) :: files[f] == old(files)[f]
      ensures
        var read := Readable(old(files), unread, changes, removals);
        forall f | f in Touched(changes, removals) ::
          FileKept(DocumentOf(read, f), files[f], SetsFor(changes, f), RemovesFor(removals, f))
      ensures MadeOf(Contents(Readable(old(files), unread, changes, removals)), Contents(files), changes, removals)
    {
      var byFile := Group(changes, removals);
      ghost var read := Readable(files, unread, changes, removals);
      var written, orders := WriteFiles(files, byFile, unread);
      WrittenOwned(read, written, byFile, orders, changes, removals);
      WrittenDecodes(read, written, byFile, orders);
      BatchMade(read, written, byFile, orders, changes, removals);
      WrittenKeys(files, unread, written, byFile, orders, changes, removals);
      FilesKept(read, written, byFile, orders, changes, removals);
      files := written;
    }
  }

  /** All files together hold what the batch makes of them, written in some order, or in any that agree. */
  lemma BatchMade(before: Files, after: Files, byFile: map<string, Edit>, orders: map<string, seq<Entry>>,
                  changes: map<KeyPath, Document>, removals: seq<KeyPath>)
    requires Owned(before) && Owned(after) && Grouped(byFile, changes, removals)
    requires Decodes(before, after, byFile, orders)
    ensures MadeOf(Contents(before), Contents(after), changes, removals)
  {
    var all := WrittenContents(before, after, byFile, orders, changes, removals);
    if Agreeing(changes) {
      BatchOrder(Contents(before), changes, all);
    }
  }

  /** `after` is `before` with the batch made: the writes in some order, in every order if they agree, and then
      the removals. */
  ghost predicate MadeOf(before: Tree, after: Tree, changes: map<KeyPath, Document>, removals: seq<KeyPath>) {
    && (exists ls :: Orders(ls, changes) && after == DeleteAll(FoldSet(before, ls), removals))
    && (Agreeing(changes) ==> forall ls | Orders(ls, changes) :: after == DeleteAll(FoldSet(before, ls), removals))
  }

  lemma WrittenKeys(files: Files, unread: set<string>, after: Files, byFile: map<string, Edit>,
                    orders: map<string, seq<Entry>>, changes: map<KeyPath, Document>, removals: seq<KeyPath>)
    requires byFile.Keys == Touched(changes, removals)
    requires Written(Readable(files, unread, changes, removals), after, byFile, orders)
    ensures after.Keys == files.Keys + Touched(changes, removals)
    ensures forall f | f in files && f !in Touched(changes, removals) :: after[f] == files[f]
  {
    forall f
      ensures f in after <==> f in files || f in byFile
    {
    }
  }

  lemma FilesKept(before: Files, after: Files, byFile: map<string, Edit>, orders: map<string, seq<Entry>>,
                  changes: map<KeyPath, Document>, removals: seq<KeyPath>)
    requires Owned(before) && Grouped(byFile, changes, removals) && Written(before, after, byFile, orders)
    ensures forall f | f in Touched(changes, removals) ::
      f in after && FileKept(DocumentOf(before, f), after[f], SetsFor(changes, f), RemovesFor(removals, f))
  {
    forall f | f in byFile
      ensures FileKept(DocumentOf(before, f), after[f], SetsFor(changes, f), RemovesFor(removals, f))
    {
      EditKeeps(DocumentOf(before, f), after[f], byFile[f], orders[f]);
    }
  }

  /** What the batch starts from: the files it edits and cannot read count as empty. */
  function Readable(files: Files, unread: set<string>, changes: map<KeyPath, Document>, removals: seq<KeyPath>): Files {
    files - (unread * Touched(changes, removals))
  }

  /** The files still to do aside, those edited carry their edits and the others are as they were. */
  ghost predicate WrittenBut(todo: set<string>, before: Files, after: Files, byFile: map<string, Edit>,
                             orders: map<string, seq<Entry>>)
  {
    && orders.Keys == byFile.Keys - todo
    && (forall f | f !in byFile :: (f in after <==> f in before) && (f in after ==> after[f] == before[f]))
    && forall f | f in byFile && f !in todo ::
         f in after && WrittenAs(DocumentOf(before, f), after[f], byFile[f], orders[f])
  }

  lemma WrittenNext(todo: set<string>, before: Files, after: Files, byFile: map<string, Edit>,
                    orders: map<string, seq<Entry>>, f: string, edited: Y.Yaml, order: seq<Entry>)
    requires f in todo && todo <= byFile.Keys && WrittenBut(todo, before, after, byFile, orders)
    requires WrittenAs(DocumentOf(before, f), edited, byFile[f], order)
    ensures WrittenBut(todo - {f}, before, after[f := edited], byFile, orders[f := order])
  {
  }

  /** Writes the edited files, in any order. */
  method WriteFiles(files: Files, byFile: map<string, Edit>, unread: set<string>)
    returns (written: Files, ghost orders: map<string, seq<Entry>>)
    requires Owned(files)
    ensures Written(files - (unread * byFile.Keys), written, byFile, orders)
  {
    ghost var read := files - (unread * byFile.Keys);
    written, orders := files, map[];
    var todo := byFile.Keys;
    while todo != {}
      invariant todo <= byFile.Keys && WrittenBut(todo, read, written, byFile, orders)
      invariant forall f | f in todo :: DocumentOf(written, f) == DocumentOf(files, f)
    {
      var f :| f in todo;
      var existing := if f in unread then Y.EMPTY else DocumentOf(written, f);
      assert existing == DocumentOf(read, f);
      var edited, order := EditFile(existing, byFile[f]);
      WrittenNext(todo, read, written, byFile, orders, f, edited, order);
      written := written[f := edited];
      orders := orders[f := order];
      todo := todo - {f};
    }
  }

  /** The edited files carry their edits, the others are as they were. */
  ghost predicate Written(before: Files, after: Files, byFile: map<string, Edit>, orders: map<string, seq<Entry>>) {
    WrittenBut({}, before, after, byFile, orders)
  }

  /** The same, seen through a decoder. */
  ghost predicate Decodes(before: Files, after: Files, byFile: map<string, Edit>, orders: map<string, seq<Entry>>)
    requires Owned(before) && Owned(after)
  {
    && orders.Keys == byFile.Keys
    && (forall f | f !in byFile :: DocumentOf(after, f) == DocumentOf(before, f))
    && (forall f | f in byFile :: Orders(orders[f], byFile[f].sets))
    && forall f | f in byFile ::
         Y.Decoded(DocumentOf(after, f)) ==
           DeleteAll(FoldSet(Y.Decoded(DocumentOf(before, f)), orders[f]), byFile[f].removes)
  }

  lemma WrittenDecodes(before: Files, after: Files, byFile: map<string, Edit>, orders: map<string, seq<Entry>>)
    requires Owned(before) && Owned(after) && Written(before, after, byFile, orders)
    ensures Decodes(before, after, byFile, orders)
  {
  }

  lemma WrittenOwned(before: Files, after: Files, byFile: map<string, Edit>, orders: map<string, seq<Entry>>,
                     changes: map<KeyPath, Document>, removals: seq<KeyPath>)
    requires Owned(before) && Grouped(byFile, changes, removals)
    requires Written(before, after, byFile, orders)
    ensures Owned(after)
  {
    forall f, k | f in byFile && k in Y.Decoded(after[f])
      ensures OwnerFile(k) == f
    {
      KeysAfter(Y.Decoded(DocumentOf(before, f)), orders[f], byFile[f].removes, k);
    }
  }

  /** The orders of the files `fs`, one after the other. */
  function Joined(orders: map<string, seq<Entry>>, fs: seq<string>): seq<Entry>
    requires forall f | f in fs :: f in orders
  {
    if fs == [] then []
    else
      assert fs[|fs| - 1] in fs;
      Joined(orders, fs[..|fs| - 1]) + orders[fs[|fs| - 1]]
  }

  function Shares(changes: map<KeyPath, Document>, fs: seq<string>): map<KeyPath, Document> {
    map p | p in changes && OwnerFile(p[0]) in fs :: changes[p]
  }

  predicate DistinctNames(fs: seq<string>) {
    forall i, j | 0 <= i < j < |fs| :: fs[i] != fs[j]
  }

  lemma {:induction false} ListOf(s: set<string>) returns (fs: seq<string>)
    ensures DistinctNames(fs) && forall f :: f in fs <==> f in s
    decreases s
  {
    if s == {} {
      fs := [];
    } else {
      var f :| f in s;
      var rest := ListOf(s - {f});
      fs := rest + [f];
    }
  }

  lemma {:induction false} JoinedOnTop(orders: map<string, seq<Entry>>, fs: seq<string>, k: string, owner: string)
    requires DistinctNames(fs) && forall f | f in fs :: f in orders && (f != owner ==> OnTop(orders[f], k) == [])
    ensures OnTop(Joined(orders, fs), k) == if owner in fs then OnTop(orders[owner], k) else []
  {
    if fs != [] {
      var front, f := fs[..|fs| - 1], fs[|fs| - 1];
      assert f in fs && f !in front;
      JoinedOnTop(orders, front, k, owner);
      OnTopBoth(Joined(orders, front), orders[f], k);
      assert owner in fs <==> owner in front || owner == f;
    }
  }

  lemma {:induction false} JoinedOrders(changes: map<KeyPath, Document>, orders: map<string, seq<Entry>>,
                                        fs: seq<string>)
    requires DistinctNames(fs) && forall f | f in fs :: f in orders && Orders(orders[f], SetsFor(changes, f))
    ensures Orders(Joined(orders, fs), Shares(changes, fs))
  {
    if fs == [] {
      assert Shares(changes, fs) == map[];
    } else {
      var front, f := fs[..|fs| - 1], fs[|fs| - 1];
      assert f in fs && f !in front;
      JoinedOrders(changes, orders, front);
      SharesSnoc(changes, front, f);
      assert fs == front + [f];
      OrdersBoth(Joined(orders, front), Shares(changes, front), orders[f], SetsFor(changes, f));
    }
  }

  lemma SharesSnoc(changes: map<KeyPath, Document>, front: seq<string>, f: string)
    requires f !in front
    ensures Shares(changes, front + [f]) == Shares(changes, front) + SetsFor(changes, f)
    ensures Shares(changes, front).Keys !! SetsFor(changes, f).Keys
  {
  }

  lemma OrdersBoth(a: seq<Entry>, own: map<KeyPath, Document>, b: seq<Entry>, more: map<KeyPath, Document>)
    requires Orders(a, own) && Orders(b, more) && own.Keys !! more.Keys
    ensures Orders(a + b, own + more)
  {
    var all := a + b;
    forall i, j | 0 <= i < j < |all|
      ensures all[i].0 != all[j].0
    {
      if i < |a| <= j {
        assert a[i] in a && b[j - |a|] in b;
      }
    }
    assert forall l :: l in all <==> l in a || l in b;
  }

  lemma {:induction false} NothingOnTop(ls: seq<Entry>, k: string)
    requires forall l | l in ls :: l.0[0] != k
    ensures OnTop(ls, k) == []
  {
    if ls != [] {
      assert ls[|ls| - 1] in ls;
      NothingOnTop(ls[..|ls| - 1], k);
    }
  }

  lemma OthersOnTop(changes: map<KeyPath, Document>, order: seq<Entry>, f: string, k: string)
    requires Orders(order, SetsFor(changes, f)) && OwnerFile(k) != f
    ensures OnTop(order, k) == []
  {
    NothingOnTop(order, k);
  }

  lemma WrittenContents(before: Files, after: Files, byFile: map<string, Edit>, orders: map<string, seq<Entry>>,
                        changes: map<KeyPath, Document>, removals: seq<KeyPath>)
      returns (all: seq<Entry>)
    requires Owned(before) && Owned(after) && Grouped(byFile, changes, removals)
    requires Decodes(before, after, byFile, orders)
    ensures Orders(all, changes) && Contents(after) == DeleteAll(FoldSet(Contents(before), all), removals)
  {
    var fs := ListOf(byFile.Keys);
    JoinedOrders(changes, orders, fs);
    all := Joined(orders, fs);
    AllShares(changes, removals, fs);
    var t := DeleteAll(FoldSet(Contents(before), all), removals);
    forall k
      ensures At(Contents(after), k) == At(t, k)
    {
      OwnOnTop(byFile, orders, changes, removals, fs, k);
      WrittenKey(before, after, byFile, orders, changes, removals, all, k);
    }
    SameTree(Contents(after), t);
  }

  lemma AllShares(changes: map<KeyPath, Document>, removals: seq<KeyPath>, fs: seq<string>)
    requires forall f :: f in fs <==> f in Touched(changes, removals)
    ensures Shares(changes, fs) == changes
  {
  }

  lemma StoredIs(files: Files, k: string)
    requires Owned(files)
    ensures Stored(files, k) == At(Contents(files), k) == At(Y.Decoded(DocumentOf(files, OwnerFile(k))), k)
  {
  }

  /** What a file makes of its own share of the batch is, at a key it owns, what the batch makes of all. */
  lemma ShareAtKey(t: Tree, doc: Tree, all: seq<Entry>, own: seq<Entry>, removals: seq<KeyPath>, k: string)
    requires At(t, k) == At(doc, k) && OnTop(all, k) == OnTop(own, k)
    ensures At(DeleteAll(FoldSet(doc, own), RemovesFor(removals, OwnerFile(k))), k)
      == At(DeleteAll(FoldSet(t, all), removals), k)
  {
    PathsForOnTop(removals, k);
    BatchOnTop(t, all, doc, own, removals, RemovesFor(removals, OwnerFile(k)), k);
  }

  lemma WrittenKey(before: Files, after: Files, byFile: map<string, Edit>, orders: map<string, seq<Entry>>,
                   changes: map<KeyPath, Document>, removals: seq<KeyPath>, all: seq<Entry>, k: string)
    requires Owned(before) && Owned(after) && Grouped(byFile, changes, removals)
    requires Decodes(before, after, byFile, orders)
    requires OnTop(all, k) == if OwnerFile(k) in byFile then OnTop(orders[OwnerFile(k)], k) else []
    ensures Stored(after, k) == At(DeleteAll(FoldSet(Contents(before), all), removals), k)
  {
    var f := OwnerFile(k);
    StoredIs(before, k);
    StoredIs(after, k);
    var doc := Y.Decoded(DocumentOf(before, f));
    if f in byFile {
      ShareAtKey(Contents(before), doc, all, orders[f], removals, k);
    } else {
      NothingFor(changes, removals, f);
      ShareAtKey(Contents(before), doc, all, [], removals, k);
    }
  }

  lemma OwnOnTop(byFile: map<string, Edit>, orders: map<string, seq<Entry>>, changes: map<KeyPath, Document>,
                 removals: seq<KeyPath>, fs: seq<string>, k: string)
    requires Grouped(byFile, changes, removals) && orders.Keys == byFile.Keys
    requires forall f | f in byFile :: Orders(orders[f], byFile[f].sets)
    requires DistinctNames(fs) && forall f :: f in fs <==> f in byFile
    ensures OnTop(Joined(orders, fs), k) == if OwnerFile(k) in byFile then OnTop(orders[OwnerFile(k)], k) else []
  {
    forall g | g in fs && g != OwnerFile(k)
      ensures OnTop(orders[g], k) == []
    {
      OthersOnTop(changes, orders[g], g, k);
    }
    JoinedOnTop(orders, fs, k, OwnerFile(k));
  }

  /** What a read that failed costs: a key that a file of those owns has afterwards what the batch alone
      makes of it, and is gone if the batch writes nothing there. */
  lemma UnreadIsLost(files: Files, unread: set<string>, changes: map<KeyPath, Document>, removals: seq<KeyPath>,
                     ls: seq<Entry>, k: string)
    requires Owned(files) && Orders(ls, changes)
    ensures
      var read := Readable(files, unread, changes, removals);
      var lost := OwnerFile(k) in unread && OwnerFile(k) in Touched(changes, removals);
      && At(DeleteAll(FoldSet(Contents(read), ls), removals), k)
           == At(DeleteAll(FoldSet(if lost then map[] else Contents(files), ls), removals), k)
      && (lost && (forall p | p in changes :: p[0] != k) ==>
            k !in DeleteAll(FoldSet(Contents(read), ls), removals))
  {
    var read := Readable(files, unread, changes, removals);
    var lost := OwnerFile(k) in unread && OwnerFile(k) in Touched(changes, removals);
    BatchOnTop(Contents(read), ls, if lost then map[] else Contents(files), ls, removals, removals, k);
    if lost && k in DeleteAll(FoldSet(Contents(read), ls), removals) {
      assert At(Contents(read), k) == None;
      KeysAfter(Contents(read), ls, removals, k);
    }
  }

  // ---- The batch, seen from the configuration in effect --------------------------------------

  /** What is in effect is what the files hold under keys whose owner is listed. */
  lemma EffectiveFromContents(manifest: seq<string>, files: Files, k: string)
    requires Owned(files)
    ensures At(Effective(manifest, files), k)
      == if OwnerFile(k) in manifest then At(Contents(files), k) else None
  {
    EffectiveAt(manifest, files, k);
  }

  /** As long as the manifest lists every file written to, the batch changes the configuration in
      effect exactly as one edit of the whole would: the writes in any order, then the removals. */
  lemma BatchInEffect(manifest: seq<string>, before: Files, after: Files, changes: map<KeyPath, Document>,
                      removals: seq<KeyPath>, ls: seq<Entry>)
    requires Owned(before) && Owned(after) && Orders(ls, changes)
    requires Contents(after) == DeleteAll(FoldSet(Contents(before), ls), removals)
    requires forall p | p in changes :: OwnerFile(p[0]) in manifest
    ensures Effective(manifest, after) == DeleteAll(FoldSet(Effective(manifest, before), ls), removals)
  {
    var e, t := Effective(manifest, before), DeleteAll(FoldSet(Effective(manifest, before), ls), removals);
    forall k
      ensures At(Effective(manifest, after), k) == At(t, k)
    {
      EffectiveFromContents(manifest, before, k);
      EffectiveFromContents(manifest, after, k);
      if OwnerFile(k) in manifest {
        BatchOnTop(Contents(before), ls, e, ls, removals, removals, k);
      } else if k in t {
        KeysAfter(e, ls, removals, k);
      }
    }
    SameTree(Effective(manifest, after), t);
  }

  /** Key by key: the batch shows as it was meant if and only if the owner of the key is listed or the
      batch, run on nothing at all, leaves nothing under that key. */
  lemma BatchAtKey(manifest: seq<string>, before: Files, after: Files, removals: seq<KeyPath>,
                   ls: seq<Entry>, k: string)
    requires Owned(before) && Owned(after)
    requires Contents(after) == DeleteAll(FoldSet(Contents(before), ls), removals)
    ensures
      var meant := DeleteAll(FoldSet(Effective(manifest, before), ls), removals);
      (At(Effective(manifest, after), k) == At(meant, k)) <==>
      (OwnerFile(k) in manifest || k !in DeleteAll(FoldSet(map[], ls), removals))
  {
    EffectiveFromContents(manifest, before, k);
    EffectiveFromContents(manifest, after, k);
    var d := if OwnerFile(k) in manifest then Contents(before) else map[];
    BatchOnTop(d, ls, Effective(manifest, before), ls, removals, removals, k);
  }

  /** The whole batch is in effect as it was meant if and only if every key it brings in is owned by a
      listed file; every other part of it is in effect all the same. */
  lemma BatchIsMeant(manifest: seq<string>, before: Files, after: Files, changes: map<KeyPath, Document>,
                     removals: seq<KeyPath>, ls: seq<Entry>)
    requires Owned(before) && Owned(after) && Orders(ls, changes)
    requires Contents(after) == DeleteAll(FoldSet(Contents(before), ls), removals)
    ensures
      (Effective(manifest, after) == DeleteAll(FoldSet(Effective(manifest, before), ls), removals)) <==>
      (forall k | k in DeleteAll(FoldSet(map[], ls), removals) :: OwnerFile(k) in manifest)
    ensures forall k | k in DeleteAll(FoldSet(map[], ls), removals) :: exists p | p in changes :: p[0] == k
  {
    var shown, meant := Effective(manifest, after), DeleteAll(FoldSet(Effective(manifest, before), ls), removals);
    var brought := DeleteAll(FoldSet(map[], ls), removals);
    forall k
      ensures At(shown, k) == At(meant, k) <==> OwnerFile(k) in manifest || k !in brought
    {
      BatchAtKey(manifest, before, after, removals, ls, k);
    }
    if forall k | k in brought :: OwnerFile(k) in manifest {
      SameTree(shown, meant);
    }
    forall k | k in brought
      ensures exists p | p in changes :: p[0] == k
    {
      KeysAfter(map[], ls, removals, k);
    }
  }

  /** A value written to a file the manifest does not list is not in effect; that is the only way a
      write can be lost. */
  lemma WriteInEffect(manifest: seq<string>, before: Files, after: Files, p: KeyPath, v: Value)
    requires Owned(before) && Owned(after) && Contents(after) == Set(Contents(before), p, v)
    ensures Effective(manifest, after) == Set(Effective(manifest, before), p, v) <==> OwnerFile(p[0]) in manifest
    ensures OwnerFile(p[0]) !in manifest ==> Effective(manifest, after) == Effective(manifest, before)
  {
    var e, f := Effective(manifest, before), Effective(manifest, after);
    forall k
      ensures At(f, k) == if OwnerFile(p[0]) in manifest then At(Set(e, p, v), k) else At(e, k)
    {
      WriteAtKey(manifest, before, after, p, v, k);
    }
    EffectiveFromContents(manifest, before, p[0]);
    if OwnerFile(p[0]) in manifest {
      SameTree(f, Set(e, p, v));
    } else {
      SameTree(f, e);
      assert p[0] !in e && p[0] in Set(e, p, v);
    }
  }

  lemma SetAtKey(d: Tree, e: Tree, p: KeyPath, v: Value, k: string)
    requires At(d, k) == At(e, k)
    ensures At(Set(d, p, v), k) == At(Set(e, p, v), k)
    ensures k != p[0] ==> At(Set(d, p, v), k) == At(d, k)
  {
    if k == p[0] {
      assert SubTree(d, k) == SubTree(e, k);
    }
  }

  lemma WriteAtKey(manifest: seq<string>, before: Files, after: Files, p: KeyPath, v: Value, k: string)
    requires Owned(before) && Owned(after) && Contents(after) == Set(Contents(before), p, v)
    ensures
      var e := Effective(manifest, before);
      At(Effective(manifest, after), k) == if OwnerFile(p[0]) in manifest then At(Set(e, p, v), k) else At(e, k)
  {
    EffectiveFromContents(manifest, before, k);
    EffectiveFromContents(manifest, after, k);
    if OwnerFile(k) in manifest {
      SetAtKey(Contents(before), Effective(manifest, before), p, v, k);
    } else {
      SetAtKey(Effective(manifest, before), Effective(manifest, before), p, v, k);
    }
  }
}
