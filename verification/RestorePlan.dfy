// The order in which an archive's tables are filled, and the set that is emptied first, worked out
// from the foreign keys of the database that is restored into.
module RestorePlan {
  type Table = string

  type Parents = map<Table, set<Table>>

  function ParentsOf(parents: Parents, n: Table): set<Table> {
    if n in parents then parents[n] else {}
  }

  /** Every name once. */
  predicate Distinct(s: seq<Table>) {
    forall i, j | 0 <= i < j < |s| :: s[i] != s[j]
  }

  /** No chain of parents above `n` is longer than `height`. */
  predicate Grounded(parents: Parents, n: Table, height: nat)
    decreases height
  {
    forall p | p in ParentsOf(parents, n) :: height > 0 && Grounded(parents, p, height - 1)
  }

  /** A walk from table to parent. */
  predicate Walk(parents: Parents, w: seq<Table>) {
    forall i | 0 <= i < |w| - 1 :: w[i + 1] in ParentsOf(parents, w[i])
  }

  /** Some table is its own ancestor, and `n` descends from it. */
  ghost predicate OverCycle(parents: Parents, n: Table) {
    exists w: seq<Table>, i, j :: 0 <= i < j < |w| && w[0] == n && Walk(parents, w) && w[i] == w[j]
  }

  /** All parents of `n` stand before it. */
  predicate AfterParents(parents: Parents, out: seq<Table>, n: Table) {
    forall p | p in ParentsOf(parents, n) :: Before(out, p, n)
  }

  predicate Before(out: seq<Table>, p: Table, n: Table) {
    exists i, j | 0 <= i < j < |out| :: out[i] == p && out[j] == n
  }

  lemma BeforeSnoc(out: seq<Table>, p: Table, n: Table, m: Table)
    ensures Before(out, p, n) ==> Before(out + [m], p, n)
    ensures p in out ==> Before(out + [m], p, m)
  {
    var more := out + [m];
    if Before(out, p, n) {
      var i, j :| 0 <= i < j < |out| && out[i] == p && out[j] == n;
      assert more[i] == p && more[j] == n;
    }
    if p in out {
      var i :| 0 <= i < |out| && out[i] == p;
      assert more[i] == p && more[|out|] == m;
    }
  }

  /** What has been placed: each name once, and whatever stands over no cycle after its parents. */
  ghost predicate Placed(names: seq<Table>, parents: Parents, out: seq<Table>) {
    && Distinct(out)
    && (forall n | n in out :: n in names)
    && (forall n, h: nat | n in out && Grounded(parents, n, h) :: AfterParents(parents, out, n))
  }

  lemma Place(names: seq<Table>, parents: Parents, out: seq<Table>, n: Table)
    requires Placed(names, parents, out) && n in names && n !in out
    requires (forall p | p in ParentsOf(parents, n) :: p in out) || (forall h: nat :: !Grounded(parents, n, h))
    ensures Placed(names, parents, out + [n])
  {
    var more := out + [n];
    assert forall m :: m in more <==> m in out || m == n;
    forall m, h: nat | m in more && Grounded(parents, m, h)
      ensures AfterParents(parents, more, m)
    {
      assert m in out ==> AfterParents(parents, out, m);
      forall p | p in ParentsOf(parents, m)
        ensures Before(more, p, m)
      {
        BeforeSnoc(out, p, m, n);
        if m !in out {
          assert m == n && Grounded(parents, n, h);
          assert p in out;
        }
      }
    }
  }

  /** When no table can be placed, every table left stands over a cycle. */
  lemma {:induction false} Stuck(names: seq<Table>, parents: Parents, done: set<Table>, n: Table, height: nat)
    requires forall m | m in names && m !in done :: ParentsOf(parents, m) - done != {}
    requires forall m | m in names :: forall p | p in ParentsOf(parents, m) :: p in names
    requires n in names && n !in done
    ensures !Grounded(parents, n, height)
    decreases height
  {
    var p :| p in ParentsOf(parents, n) - done;
    if height > 0 {
      Stuck(names, parents, done, p, height - 1);
    }
  }

  lemma {:induction false} SizeOfDistinct(s: seq<Table>)
    requires Distinct(s)
    ensures |set n | n in s| == |s|
  {
    if s != [] {
      var init, last := s[..|s| - 1], s[|s| - 1];
      SizeOfDistinct(init);
      assert s == init + [last];
      assert (set n | n in s) == (set n | n in init) + {last};
    }
  }

  lemma SubsetSize(a: set<Table>, b: set<Table>)
    requires a <= b
    ensures |a| <= |b| && (|a| == |b| ==> a == b)
  {
    assert |b - a| == |b| - |a|;
    assert b == a + (b - a);
  }

  /** Distinct tables taken from `names` are all of them when there are as many. */
  lemma AllPlaced(names: seq<Table>, out: seq<Table>)
    requires Distinct(names) && Distinct(out) && forall n | n in out :: n in names
    ensures |out| <= |names|
    ensures |out| == |names| <==> forall n | n in names :: n in out
  {
    var a, b := set n | n in out, set n | n in names;
    assert forall n :: (n in a <==> n in out) && (n in b <==> n in names);
    SizeOfDistinct(names);
    SizeOfDistinct(out);
    SubsetSize(a, b);
    assert (forall n | n in names :: n in out) <==> a == b;
  }

  /** One pass over the names: places every table whose parents are placed. */
  method Pass(names: seq<Table>, parents: Parents, start: seq<Table>) returns (out: seq<Table>, progress: bool)
    requires Placed(names, parents, start)
    ensures Placed(names, parents, out) && (progress <==> |out| > |start|)
    ensures !progress ==> out == start
    ensures !progress ==> forall n | n in names && n !in out :: exists p :: p in ParentsOf(parents, n) && p !in out
  {
    out, progress := start, false;
    for i := 0 to |names|
      invariant Placed(names, parents, out)
      invariant |start| <= |out| && (progress <==> |out| > |start|) && (!progress ==> out == start)
      invariant !progress ==> forall k | 0 <= k < i && names[k] !in out ::
        exists p :: p in ParentsOf(parents, names[k]) && p !in out
    {
      var n := names[i];
      if n !in out && forall p | p in ParentsOf(parents, n) :: p in out {
        Place(names, parents, out, n);
        out, progress := out + [n], true;
      }
    }
  }

  /** What cannot be ordered is appended as it comes. */
  method AppendRest(names: seq<Table>, parents: Parents, start: seq<Table>) returns (out: seq<Table>)
    requires Placed(names, parents, start)
    requires forall n, h: nat | n in names && n !in start :: !Grounded(parents, n, h)
    ensures Placed(names, parents, out) && forall n | n in names :: n in out
  {
    out := start;
    for i := 0 to |names|
      invariant Placed(names, parents, out) && start <= out
      invariant forall k | 0 <= k < i :: names[k] in out
    {
      if names[i] !in out {
        assert names[i] !in start;
        Place(names, parents, out, names[i]);
        out := out + [names[i]];
      }
    }
  }

  lemma AllStuck(names: seq<Table>, parents: Parents, out: seq<Table>)
    requires forall n | n in names && n !in out :: exists p :: p in ParentsOf(parents, n) && p !in out
    requires forall n | n in names :: forall p | p in ParentsOf(parents, n) :: p in names
    ensures forall n, h: nat | n in names && n !in out :: !Grounded(parents, n, h)
  {
    var placed := set n | n in out;
    forall m | m in names && m !in placed
      ensures ParentsOf(parents, m) - placed != {}
    {
      var p :| p in ParentsOf(parents, m) && p !in out;
      assert p in ParentsOf(parents, m) - placed;
    }
    forall n, h: nat | n in names && n !in out
      ensures !Grounded(parents, n, h)
    {
      Stuck(names, parents, placed, n, h);
    }
  }

  /** A permutation of the names, in which whatever stands over no cycle comes after its parents. */
  method TopoSort(names: seq<Table>, parents: Parents) returns (out: seq<Table>)
    requires Distinct(names) && forall n | n in names :: forall p | p in ParentsOf(parents, n) :: p in names
    ensures Placed(names, parents, out) && forall n | n in names :: n in out
  {
    out := [];
    while |out| < |names|
      invariant Placed(names, parents, out)
      decreases |names| - |out|
    {
      var progress;
      out, progress := Pass(names, parents, out);
      if !progress {
        AllStuck(names, parents, out);
        out := AppendRest(names, parents, out);
        AllPlaced(names, out);
      }
    }
    AllPlaced(names, out);
  }

  // ---- Cycles -------------------------------------------------------------------------------

  /** A table of no height has a walk of any length above it. */
  lemma {:induction false} LongWalk(parents: Parents, n: Table, length: nat) returns (w: seq<Table>)
    requires !Grounded(parents, n, length)
    ensures |w| == length + 2 && w[0] == n && Walk(parents, w)
    decreases length
  {
    var p :| p in ParentsOf(parents, n) && !(length > 0 && Grounded(parents, p, length - 1));
    if length == 0 {
      w := [n, p];
    } else {
      w := LongWalk(parents, p, length - 1);
      w := [n] + w;
    }
  }

  lemma {:induction false} WalkStays(names: seq<Table>, parents: Parents, w: seq<Table>)
    requires forall n | n in names :: forall p | p in ParentsOf(parents, n) :: p in names
    requires w != [] && w[0] in names && Walk(parents, w)
    ensures forall n | n in w :: n in names
  {
    if |w| > 1 {
      var t := w[1..];
      assert w[1] in ParentsOf(parents, w[0]);
      assert forall i | 0 <= i < |t| - 1 :: t[i] == w[i + 1] && t[i + 1] in ParentsOf(parents, t[i]);
      WalkStays(names, parents, t);
      assert w == [w[0]] + t;
    } else {
      assert w == [w[0]];
    }
  }

  /** A table below a walk that returns has no height. */
  lemma {:induction false} NoHeight(parents: Parents, w: seq<Table>, i: nat, j: nat, k: nat, height: nat)
    requires Walk(parents, w) && i < j < |w| && w[i] == w[j] && k < j
    ensures !Grounded(parents, w[k], height)
    decreases height
  {
    assert w[k + 1] in ParentsOf(parents, w[k]);
    if height > 0 {
      NoHeight(parents, w, i, j, if k + 1 < j then k + 1 else i, height - 1);
    }
  }

  /** With more steps than tables a walk comes back to where it was. */
  lemma FindCycle(names: seq<Table>, parents: Parents, n: Table)
    requires Distinct(names) && forall m | m in names :: forall p | p in ParentsOf(parents, m) :: p in names
    requires n in names && !Grounded(parents, n, |names|)
    ensures OverCycle(parents, n)
  {
    var w := LongWalk(parents, n, |names|);
    WalkStays(names, parents, w);
    assert !Distinct(w) by {
      if Distinct(w) {
        AllPlaced(names, w);
      }
    }
    var i, j :| 0 <= i < j < |w| && w[i] == w[j];
  }

  /** Standing over a cycle and having no height are the same. */
  lemma CycleOrHeight(names: seq<Table>, parents: Parents, n: Table)
    requires Distinct(names) && forall m | m in names :: forall p | p in ParentsOf(parents, m) :: p in names
    requires n in names
    ensures OverCycle(parents, n) <==> forall h: nat :: !Grounded(parents, n, h)
  {
    var height: nat := |names|;
    if !Grounded(parents, n, height) {
      FindCycle(names, parents, n);
    } else {
      assert exists h: nat :: Grounded(parents, n, h);
    }
    if OverCycle(parents, n) {
      var w: seq<Table>, i, j :| 0 <= i < j < |w| && w[0] == n && Walk(parents, w) && w[i] == w[j];
      forall h: nat
        ensures !Grounded(parents, n, h)
      {
        NoHeight(parents, w, i, j, 0, h);
      }
    }
  }

  /** The order restated without heights: a table that stands over no cycle is filled after all of its
      parents. */
  lemma ParentsFirst(names: seq<Table>, parents: Parents, out: seq<Table>, n: Table)
    requires Distinct(names) && forall m | m in names :: forall p | p in ParentsOf(parents, m) :: p in names
    requires Placed(names, parents, out) && n in out && !OverCycle(parents, n)
    ensures AfterParents(parents, out, n)
  {
    CycleOrHeight(names, parents, n);
  }

  // ---- What is emptied ----------------------------------------------------------------------

  /** A foreign key: rows of `child` refer to rows of `parent`. */
  datatype Key = Key(child: Table, parent: Table)

  /** Tables whose contents never come from an archive. */
  const NEVER_RESTORED: set<Table> := {"schema_migrations"}

  /** Nothing outside the set refers to a table in it, but for what is never restored. */
  ghost predicate Closed(keys: set<Key>, live: set<Table>, s: set<Table>) {
    forall k | k in keys && k.child != k.parent && k.child in live && k.parent in live ::
      k.parent in s && k.child !in NEVER_RESTORED ==> k.child in s
  }

  /** The keys between live tables, by parent. */
  function Children(keys: set<Key>, live: set<Table>, p: Table): set<Table> {
    set k | k in keys && k.child != k.parent && k.child in live && k.parent in live && k.parent == p :: k.child
  }

  /** The tables to empty: the least set that holds the names and is closed under being referred to. */
  method ClearSet(names: set<Table>, keys: set<Key>, live: set<Table>) returns (clear: set<Table>)
    requires names <= live
    ensures names - NEVER_RESTORED <= clear <= live - NEVER_RESTORED && Closed(keys, live, clear)
    ensures forall s | names - NEVER_RESTORED <= s && Closed(keys, live, s) :: clear <= s
  {
    clear := {};
    var queue := names;
    while queue != {}
      invariant clear <= live - NEVER_RESTORED && queue <= live
      invariant names - NEVER_RESTORED <= clear + queue
      invariant forall t | t in clear :: Children(keys, live, t) - NEVER_RESTORED <= clear + queue
      invariant forall s | names - NEVER_RESTORED <= s && Closed(keys, live, s) ::
        clear <= s && queue - NEVER_RESTORED <= s
      decreases live - clear, queue
    {
      var n :| n in queue;
      queue := queue - {n};
      if n !in clear && n !in NEVER_RESTORED {
        ghost var before := clear;
        clear := clear + {n};
        queue := queue + Children(keys, live, n);
        assert n in live - before && n !in live - clear;
      }
    }
    forall k | k in keys && k.child != k.parent && k.child in live && k.parent in live && k.parent in clear
        && k.child !in NEVER_RESTORED
      ensures k.child in clear
    {
      assert k.child in Children(keys, live, k.parent);
    }
  }

  /** TRUNCATE of a set succeeds when no table outside refers into it. */
  predicate TruncateAccepted(keys: set<Key>, live: set<Table>, s: set<Table>) {
    forall k | k in keys :: k.child != k.parent && k.child in live && k.parent in live && k.parent in s ==> k.child in s
  }

  /** The set found can be emptied in one statement exactly when no table that is never restored
      refers to a table of it. */
  lemma ClearIsAccepted(keys: set<Key>, live: set<Table>, clear: set<Table>)
    requires Closed(keys, live, clear) && clear !! NEVER_RESTORED
    ensures TruncateAccepted(keys, live, clear) <==>
      forall k | k in keys && k.child in NEVER_RESTORED && k.child in live && k.parent in live :: k.parent !in clear
  {
  }

  function Elements(s: seq<Table>): set<Table> {
    set n | n in s
  }

  /** The parents among the tables to fill. A table that refers to itself waits for nobody. */
  function PendingParents(names: set<Table>, keys: set<Key>): Parents {
    map n | n in names :: set k | k in keys && k.child == n && k.child != k.parent && k.parent in names :: k.parent
  }

  /** The tables to fill, in order, and the tables to empty before: every table that is filled is emptied
      first, and every parent is filled before its children as far as that can be. */
  method Plan(want: seq<Table>, keys: set<Key>, live: set<Table>) returns (order: seq<Table>, clear: set<Table>)
    ensures Distinct(order) && forall n :: n in order <==> n in want && n in live
    ensures
      var parents := PendingParents(Elements(order), keys);
      forall n | n in order && !OverCycle(parents, n) :: AfterParents(parents, order, n)
    ensures Elements(order) - NEVER_RESTORED <= clear <= live - NEVER_RESTORED && Closed(keys, live, clear)
    ensures forall s | Elements(order) - NEVER_RESTORED <= s && Closed(keys, live, s) :: clear <= s
  {
    var names := [];
    for i := 0 to |want|
      invariant Distinct(names) && forall n :: n in names <==> n in want[..i] && n in live
    {
      assert want[..i + 1] == want[..i] + [want[i]];
      if want[i] in live && want[i] !in names {
        names := names + [want[i]];
      }
    }
    assert want[..|want|] == want;
    var parents := PendingParents(Elements(names), keys);
    order := TopoSort(names, parents);
    assert Elements(order) == Elements(names);
    forall n | n in order && !OverCycle(parents, n)
      ensures AfterParents(parents, order, n)
    {
      ParentsFirst(names, parents, order, n);
    }
    clear := ClearSet(Elements(order), keys, live);
  }

  // ---- The whole database while it is restored ----------------------------------------------

  /** A row and the rows it refers to. */
  datatype Row = Row(id: string, refs: set<(Table, string)>)

  type Content = map<Table, set<Row>>

  predicate HasRow(c: Content, t: Table, id: string) {
    t in c && exists r | r in c[t] :: r.id == id
  }

  /** No row of any table refers to a row that is not there. */
  predicate Consistent(c: Content) {
    forall t | t in c :: forall r | r in c[t] :: Resolved(c, r)
  }

  predicate Resolved(c: Content, r: Row) {
    forall f | f in r.refs :: HasRow(c, f.0, f.1)
  }

  lemma ConsistentIs(c: Content)
    ensures Consistent(c) <==>
      forall t, r, f | t in c && r in c[t] && f in r.refs :: f.0 in c && exists x :: x in c[f.0] && x.id == f.1
  {
    forall t, r, f | t in c && r in c[t] && f in r.refs
      ensures HasRow(c, f.0, f.1) <==> f.0 in c && exists x :: x in c[f.0] && x.id == f.1
    {
    }
    if Consistent(c) {
      forall t, r, f | t in c && r in c[t] && f in r.refs
        ensures f.0 in c && exists x :: x in c[f.0] && x.id == f.1
      {
        assert Resolved(c, r) && HasRow(c, f.0, f.1);
      }
    }
  }

  /** Every reference runs along a foreign key of the schema, from and to a live table. */
  ghost predicate AlongKeys(c: Content, keys: set<Key>, live: set<Table>) {
    forall t, r, f | t in c && t in live && r in c[t] && f in r.refs :: Key(t, f.0) in keys && f.0 in live
  }

  /** The database once `filled` have the archive's rows: the rest of `clear` is empty, every other table as
      it was. */
  function Midway(before: Content, archive: Content, filled: set<Table>, clear: set<Table>): Content {
    map t | t in before ::
      if t in filled && t in archive then archive[t] else if t in clear then {} else before[t]
  }

  /** What `Plan` promises of its result for tables that an archive may fill. */
  ghost predicate Planned(order: seq<Table>, clear: set<Table>, keys: set<Key>, live: set<Table>) {
    && Distinct(order)
    && Elements(order) <= clear <= live - NEVER_RESTORED && Closed(keys, live, clear)
    && forall n | n in order && !OverCycle(PendingParents(Elements(order), keys), n) ::
      AfterParents(PendingParents(Elements(order), keys), order, n)
  }

  lemma PlanIsPlanned(order: seq<Table>, clear: set<Table>, keys: set<Key>, live: set<Table>)
    requires Distinct(order) && Elements(order) !! NEVER_RESTORED
    requires
      var parents := PendingParents(Elements(order), keys);
      forall n | n in order && !OverCycle(parents, n) :: AfterParents(parents, order, n)
    requires Elements(order) - NEVER_RESTORED <= clear <= live - NEVER_RESTORED && Closed(keys, live, clear)
    ensures Planned(order, clear, keys, live)
  {
    assert Elements(order) - NEVER_RESTORED == Elements(order);
  }

  /** No table to fill descends from a circle of keys. */
  ghost predicate Acyclic(order: seq<Table>, keys: set<Key>) {
    forall n | n in order :: !OverCycle(PendingParents(Elements(order), keys), n)
  }

  lemma FilledIsLive(order: seq<Table>, clear: set<Table>, keys: set<Key>, live: set<Table>, t: Table)
    requires Planned(order, clear, keys, live) && t in order
    ensures t in clear && t in live && t !in NEVER_RESTORED
  {
    assert t in Elements(order);
  }

  lemma ParentIsFilled(order: seq<Table>, keys: set<Key>, i: nat, t: Table, p: Table)
    requires Distinct(order) && i <= |order| && t in order[..i]
    requires AfterParents(PendingParents(Elements(order), keys), order, t)
    requires Key(t, p) in keys && p in order
    ensures p in order[..i]
  {
    if p != t {
      assert p in ParentsOf(PendingParents(Elements(order), keys), t) by {
        var k := Key(t, p);
        assert k in keys && k.child == t && k.parent == p && k.parent in Elements(order);
      }
      var a, b :| 0 <= a < b < |order| && order[a] == p && order[b] == t;
      var c :| 0 <= c < i && order[..i][c] == t;
      assert order[c] == order[b];
      assert order[..i][a] == p;
    }
  }

  /** Some row refers to a table that is filled only later. */
  ghost predicate LooksAhead(archive: Content, order: seq<Table>) {
    exists a, b, r, f :: RefersAhead(archive, order, a, b, r, f)
  }

  predicate RefersAhead(archive: Content, order: seq<Table>, a: nat, b: nat, r: Row, f: (Table, string)) {
    a < b < |order| && order[a] in archive && r in archive[order[a]] && f in r.refs && f.0 == order[b]
  }

  /** Where no table descends from a circle of keys, no row looks ahead. */
  lemma NoneLooksAhead(before: Content, archive: Content, order: seq<Table>, clear: set<Table>, keys: set<Key>)
    requires Planned(order, clear, keys, before.Keys) && Acyclic(order, keys)
    requires AlongKeys(archive, keys, before.Keys)
    ensures !LooksAhead(archive, order)
  {
    if LooksAhead(archive, order) {
      var a: nat, b: nat, r, f :| RefersAhead(archive, order, a, b, r, f);
      FilledIsLive(order, clear, keys, before.Keys, order[a]);
      assert Key(order[a], f.0) in keys;
      ParentIsFilled(order, keys, a + 1, order[a], order[b]);
    }
  }

  lemma RefMidway(before: Content, archive: Content, order: seq<Table>, clear: set<Table>, keys: set<Key>,
                  i: nat, t: Table, r: Row, f: (Table, string))
    requires Planned(order, clear, keys, before.Keys) && !LooksAhead(archive, order) && i <= |order|
    requires forall n | n in order :: n in archive
    requires t in order[..i] && r in archive[t] && f in r.refs
    requires HasRow(Midway(before, archive, Elements(order), clear), f.0, f.1)
    ensures HasRow(Midway(before, archive, Elements(order[..i]), clear), f.0, f.1)
  {
    var end := Midway(before, archive, Elements(order), clear);
    var now := Midway(before, archive, Elements(order[..i]), clear);
    if f.0 in order {
      var a :| 0 <= a < i && order[..i][a] == t;
      var b :| 0 <= b < |order| && order[b] == f.0;
      assert !RefersAhead(archive, order, a, b, r, f);
      assert order[..i][b] == f.0;
    }
    assert now[f.0] == end[f.0];
  }

  /** A reference that is resolved when everything is filled is resolved from the moment its row is there. */
  lemma ResolvedMidway(before: Content, archive: Content, order: seq<Table>, clear: set<Table>, keys: set<Key>,
                       i: nat, t: Table, r: Row)
    requires Planned(order, clear, keys, before.Keys) && !LooksAhead(archive, order) && i <= |order|
    requires forall n | n in order :: n in archive
    requires t in order[..i] && r in archive[t]
    requires Resolved(Midway(before, archive, Elements(order), clear), r)
    ensures Resolved(Midway(before, archive, Elements(order[..i]), clear), r)
  {
    forall f | f in r.refs
      ensures HasRow(Midway(before, archive, Elements(order[..i]), clear), f.0, f.1)
    {
      RefMidway(before, archive, order, clear, keys, i, t, r, f);
    }
  }

  /** A row that stays keeps what it refers to: nothing that it can refer to is emptied. */
  lemma UntouchedStays(before: Content, archive: Content, filled: set<Table>, clear: set<Table>, keys: set<Key>,
                       t: Table, r: Row)
    requires Closed(keys, before.Keys, clear) && TruncateAccepted(keys, before.Keys, clear) && filled <= clear
    requires Consistent(before) && AlongKeys(before, keys, before.Keys)
    requires t in before && t !in clear && r in before[t]
    ensures Resolved(Midway(before, archive, filled, clear), r)
  {
    forall f | f in r.refs
      ensures HasRow(Midway(before, archive, filled, clear), f.0, f.1)
    {
      assert Resolved(before, r);
      var k := Key(t, f.0);
      assert k in keys && k.child in before && k.parent in before;
      assert f.0 !in clear;
      assert Midway(before, archive, filled, clear)[f.0] == before[f.0];
    }
  }

  /** The whole database is consistent after every table that was filled, if it is in the end and no row
      looks ahead: rows of the archive find what they refer to, emptied tables have none, and the rest never
      lost anything. */
  lemma PrefixIsConsistent(before: Content, archive: Content, order: seq<Table>, clear: set<Table>, keys: set<Key>,
                           i: nat)
    requires Planned(order, clear, keys, before.Keys) && !LooksAhead(archive, order) && i <= |order|
    requires TruncateAccepted(keys, before.Keys, clear) && forall n | n in order :: n in archive
    requires Consistent(before) && AlongKeys(before, keys, before.Keys)
    requires Consistent(Midway(before, archive, Elements(order), clear))
    ensures Consistent(Midway(before, archive, Elements(order[..i]), clear))
  {
    var end := Midway(before, archive, Elements(order), clear);
    var now := Midway(before, archive, Elements(order[..i]), clear);
    forall t, r | t in now && r in now[t]
      ensures Resolved(now, r)
    {
      if t in order[..i] {
        assert t in order && end[t] == archive[t];
        ResolvedMidway(before, archive, order, clear, keys, i, t, r);
      } else {
        UntouchedStays(before, archive, Elements(order[..i]), clear, keys, t, r);
      }
    }
  }

  /** For keys without circles that is after every table, whatever the archive holds. */
  lemma NoPrefixBreaksAKey(before: Content, archive: Content, order: seq<Table>, clear: set<Table>, keys: set<Key>,
                           i: nat)
    requires Planned(order, clear, keys, before.Keys) && Acyclic(order, keys) && i <= |order|
    requires TruncateAccepted(keys, before.Keys, clear) && forall n | n in order :: n in archive
    requires Consistent(before) && AlongKeys(before, keys, before.Keys) && AlongKeys(archive, keys, before.Keys)
    ensures Consistent(Midway(before, archive, Elements(order), clear)) ==>
      Consistent(Midway(before, archive, Elements(order[..i]), clear))
  {
    NoneLooksAhead(before, archive, order, clear, keys);
    if Consistent(Midway(before, archive, Elements(order), clear)) {
      PrefixIsConsistent(before, archive, order, clear, keys, i);
    }
  }

  /** A row that looks ahead is refused: what it refers to was emptied and is not filled yet. */
  lemma AheadIsRefused(before: Content, archive: Content, order: seq<Table>, clear: set<Table>, keys: set<Key>,
                       a: nat, b: nat, r: Row, f: (Table, string))
    requires Planned(order, clear, keys, before.Keys) && RefersAhead(archive, order, a, b, r, f)
    ensures !Consistent(Midway(before, archive, Elements(order[..a + 1]), clear))
  {
    var now := Midway(before, archive, Elements(order[..a + 1]), clear);
    FilledIsLive(order, clear, keys, before.Keys, order[a]);
    FilledIsLive(order, clear, keys, before.Keys, order[b]);
    assert order[..a + 1][a] == order[a];
    assert order[b] !in order[..a + 1];
    assert now[order[a]] == archive[order[a]] && now[order[b]] == {};
    assert !HasRow(now, f.0, f.1) && !Resolved(now, r);
  }

  /** Consistent in the end: every reference of a filled row is to a filled row, or to one that stayed. */
  ghost predicate ArchiveFits(before: Content, archive: Content, order: seq<Table>, clear: set<Table>) {
    forall t, r, f | t in order && t in archive && r in archive[t] && f in r.refs ::
      if f.0 in order then HasRow(archive, f.0, f.1) else f.0 !in clear && HasRow(before, f.0, f.1)
  }

  lemma FitsIsConsistent(before: Content, archive: Content, order: seq<Table>, clear: set<Table>, keys: set<Key>)
    requires Planned(order, clear, keys, before.Keys) && forall n | n in order :: n in archive
    requires TruncateAccepted(keys, before.Keys, clear)
    requires Consistent(before) && AlongKeys(before, keys, before.Keys)
    ensures Consistent(Midway(before, archive, Elements(order), clear)) <==> ArchiveFits(before, archive, order, clear)
  {
    var end := Midway(before, archive, Elements(order), clear);
    forall t, r, f | t in order && r in archive[t] && f in r.refs
      ensures HasRow(end, f.0, f.1) <==>
        if f.0 in order then HasRow(archive, f.0, f.1) else f.0 !in clear && HasRow(before, f.0, f.1)
    {
      if f.0 in order {
        FilledIsLive(order, clear, keys, before.Keys, f.0);
      }
      assert f.0 in before && f.0 !in order ==> end[f.0] == if f.0 in clear then {} else before[f.0];
    }
    if ArchiveFits(before, archive, order, clear) {
      forall t, r | t in end && r in end[t]
        ensures Resolved(end, r)
      {
        if t !in order {
          UntouchedStays(before, archive, Elements(order), clear, keys, t, r);
        }
      }
    }
    if Consistent(end) {
      forall t, r, f | t in order && r in archive[t] && f in r.refs
        ensures if f.0 in order then HasRow(archive, f.0, f.1) else f.0 !in clear && HasRow(before, f.0, f.1)
      {
        FilledIsLive(order, clear, keys, before.Keys, t);
        assert t in end && end[t] == archive[t] && Resolved(end, r);
      }
    }
  }

  /** What the archive says it holds and does hold, without the tables that are never restored. */
  method Wanted(listed: seq<Table>, archive: Content) returns (want: seq<Table>)
    ensures forall n :: n in want <==> n in listed && n in archive && n !in NEVER_RESTORED
  {
    want := [];
    for i := 0 to |listed|
      invariant forall n :: n in want <==> n in listed[..i] && n in archive && n !in NEVER_RESTORED
    {
      if listed[i] !in NEVER_RESTORED && listed[i] in archive {
        want := want + [listed[i]];
      }
    }
  }

  lemma LoadOneMore(before: Content, archive: Content, order: seq<Table>, clear: set<Table>, keys: set<Key>, i: nat)
    requires Planned(order, clear, keys, before.Keys) && i < |order| && order[i] in archive
    ensures order[i] in before
    ensures
      var now := Midway(before, archive, Elements(order[..i]), clear);
      now[order[i] := now[order[i]] + archive[order[i]]] == Midway(before, archive, Elements(order[..i + 1]), clear)
  {
    var n := order[i];
    FilledIsLive(order, clear, keys, before.Keys, n);
    assert n !in order[..i];
    assert order[..i + 1] == order[..i] + [n];
    assert Elements(order[..i + 1]) == Elements(order[..i]) + {n};
    var now := Midway(before, archive, Elements(order[..i]), clear);
    var later := Midway(before, archive, Elements(order[..i + 1]), clear);
    assert now[n] == {} && now[n] + archive[n] == archive[n];
    assert later[n] == archive[n];
    assert forall t | t in before && t != n :: later[t] == now[t];
    assert now[n := archive[n]] == later;
  }

  /** The database was consistent after each of the first `n` tables. */
  ghost predicate AllConsistent(before: Content, archive: Content, order: seq<Table>, clear: set<Table>, n: nat)
    requires n <= |order|
  {
    forall i: nat | 0 < i <= n :: Consistent(Midway(before, archive, Elements(order[..i]), clear))
  }

  /** Fills the tables in their order; Postgres refuses rows that refer to nothing. */
  method Fill(before: Content, archive: Content, order: seq<Table>, clear: set<Table>, ghost keys: set<Key>)
      returns (err: bool, after: Content)
    requires Planned(order, clear, keys, before.Keys) && forall n | n in order :: n in archive
    ensures !err ==> after == Midway(before, archive, Elements(order), clear)
    ensures !err ==> AllConsistent(before, archive, order, clear, |order|)
    ensures err ==> exists i: nat :: i <= |order| && !Consistent(Midway(before, archive, Elements(order[..i]), clear))
  {
    after := Midway(before, archive, {}, clear);
    assert Elements(order[..0]) == {};
    for i := 0 to |order|
      invariant after == Midway(before, archive, Elements(order[..i]), clear)
      invariant AllConsistent(before, archive, order, clear, i)
    {
      LoadOneMore(before, archive, order, clear, keys, i);
      after := after[order[i] := after[order[i]] + archive[order[i]]];
      if !Consistent(after) {
        return true, after;
      }
      assert AllConsistent(before, archive, order, clear, i + 1);
    }
    assert order[..|order|] == order;
    err := false;
  }

  /** A refusal on the way means that the archive does not fit, or that some row looks ahead. */
  lemma RefusalMeans(before: Content, archive: Content, order: seq<Table>, clear: set<Table>, keys: set<Key>, i: nat)
    requires Planned(order, clear, keys, before.Keys) && i <= |order|
    requires TruncateAccepted(keys, before.Keys, clear) && forall n | n in order :: n in archive
    requires Consistent(before) && AlongKeys(before, keys, before.Keys)
    requires !Consistent(Midway(before, archive, Elements(order[..i]), clear))
    ensures !ArchiveFits(before, archive, order, clear) || LooksAhead(archive, order)
  {
    FitsIsConsistent(before, archive, order, clear, keys);
    if ArchiveFits(before, archive, order, clear) && !LooksAhead(archive, order) {
      PrefixIsConsistent(before, archive, order, clear, keys, i);
    }
  }

  lemma AcceptedMeans(before: Content, archive: Content, order: seq<Table>, clear: set<Table>, keys: set<Key>)
    requires Planned(order, clear, keys, before.Keys) && forall n | n in order :: n in archive
    requires TruncateAccepted(keys, before.Keys, clear)
    requires Consistent(before) && AlongKeys(before, keys, before.Keys)
    requires AllConsistent(before, archive, order, clear, |order|)
    ensures ArchiveFits(before, archive, order, clear) && !LooksAhead(archive, order)
  {
    FitsIsConsistent(before, archive, order, clear, keys);
    assert order[..|order|] == order;
    if LooksAhead(archive, order) {
      var a: nat, b: nat, r, f :| RefersAhead(archive, order, a, b, r, f);
      AheadIsRefused(before, archive, order, clear, keys, a, b, r, f);
    }
  }

  /**
   * The restore in one transaction. Postgres refuses to empty a table that another one still refers to, and
   * rows that refer to nothing; a refusal undoes everything.
   */
  method RestoreDatabase(before: Content, listed: seq<Table>, archive: Content, keys: set<Key>)
      returns (err: bool, after: Content, ghost order: seq<Table>, ghost clear: set<Table>)
    requires Consistent(before) && AlongKeys(before, keys, before.Keys) && AlongKeys(archive, keys, before.Keys)
    ensures Planned(order, clear, keys, before.Keys)
    ensures forall n :: n in order <==> n in listed && n in archive && n in before && n !in NEVER_RESTORED
    ensures after == if err then before else Midway(before, archive, Elements(order), clear)
    ensures
      var fits := ArchiveFits(before, archive, order, clear);
      err <==> !TruncateAccepted(keys, before.Keys, clear) || !fits || LooksAhead(archive, order)
    ensures Acyclic(order, keys) ==> !LooksAhead(archive, order)
  {
    var want := Wanted(listed, archive);
    var out, emptied := Plan(want, keys, before.Keys);
    order, clear := out, emptied;
    PlanIsPlanned(out, emptied, keys, before.Keys);
    if Acyclic(out, keys) {
      NoneLooksAhead(before, archive, out, emptied, keys);
    }
    if !TruncateAccepted(keys, before.Keys, emptied) {
      return true, before, order, clear;
    }
    err, after := Fill(before, archive, out, emptied, keys);
    if err {
      ghost var i: nat :| i <= |out| && !Consistent(Midway(before, archive, Elements(out[..i]), emptied));
      RefusalMeans(before, archive, out, emptied, keys, i);
      after := before;
    } else {
      AcceptedMeans(before, archive, out, emptied, keys);
    }
  }
}
