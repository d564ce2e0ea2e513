// The upgrade history of a release: the slow answer decodes every revision; the fast one lists labels,
// and takes what never changes from memory, then from the database, then from a decode of what is left.
module History {
  import opened Maxima
  import opened Values

  /** What needs a decode and never changes again; the time in nanoseconds, 0 for the zero time. */
  datatype Facts = Facts(chart: string, deployedAt: nat)

  datatype Entry = Entry(revision: nat, status: string, facts: Facts)

  type Revisions = map<nat, Facts>

  /** The labels of a release as they are listed: the status of each revision. */
  type Listed = map<nat, string>

  const BULK_DECODE_THRESHOLD := 10

  // ----- The slow answer -----

  /** The numbers of a set, highest first: what sorting by revision gives, in whatever order they came. */
  function Descending(s: set<nat>): (r: seq<nat>)
    ensures forall x :: x in r <==> x in s
    ensures forall i, j | 0 <= i < j < |r| :: r[i] > r[j]
  {
    if s == {} then []
    else
      HasMax(s);
      var m: nat :| Max(s, m);
      [m] + Descending(s - {m})
  }

  function FirstOf<T>(s: seq<T>, max: int): seq<T> {
    if max > 0 && |s| > max then s[..max] else s
  }

  /** The revisions of a call with `max`: the newest ones, highest first. */
  function Window(listed: Listed, max: int): (r: seq<nat>)
    ensures forall x | x in r :: x in listed
  {
    FirstOf(Descending(listed.Keys), max)
  }

  function Rows(revs: seq<nat>, listed: Listed, facts: Revisions): (r: seq<Entry>)
    requires forall x | x in revs :: x in listed && x in facts
    ensures |r| == |revs| && forall i | 0 <= i < |r| :: r[i] == Entry(revs[i], listed[revs[i]], facts[revs[i]])
  {
    if revs == [] then []
    else [Entry(revs[0], listed[revs[0]], facts[revs[0]])] + Rows(revs[1..], listed, facts)
  }

  /** Decode everything, sort, cut. */
  function SlowHistory(listed: Listed, written: Revisions, max: int): seq<Entry>
    requires listed.Keys <= written.Keys
  {
    FirstOf(Rows(Descending(listed.Keys), listed, written), max)
  }

  /** Cutting before decoding gives the same rows. */
  lemma CutFirst(listed: Listed, written: Revisions, max: int)
    requires listed.Keys <= written.Keys
    ensures SlowHistory(listed, written, max) == Rows(Window(listed, max), listed, written)
  {
  }

  // ----- The database's rows -----

  /** The column keeps whole microseconds, and null for the zero time. */
  function Column(t: nat): Option<nat> {
    if t == 0 then None else Some(t / 1000)
  }

  function FromColumn(c: Option<nat>): nat {
    if c.None? then 0 else c.value * 1000
  }

  function Stored(f: Facts): Facts {
    Facts(f.chart, FromColumn(Column(f.deployedAt)))
  }

  /** A row reads back as what was written exactly when the time was a whole number of microseconds. */
  lemma StoredIsExact(f: Facts)
    ensures Stored(f) == f <==> f.deployedAt % 1000 == 0
    ensures Stored(Stored(f)) == Stored(f)
    ensures RowOf(f).deployedAt.None? <==> f.deployedAt == 0
  {
  }

  datatype Row = Row(chart: string, deployedAt: Option<nat>)

  function RowOf(f: Facts): Row {
    Row(f.chart, Column(f.deployedAt))
  }

  function FactsOf(r: Row): Facts {
    Facts(r.chart, FromColumn(r.deployedAt))
  }

  function Of<T>(m: map<string, map<nat, T>>, name: string): (r: map<nat, T>)
    ensures forall rev :: rev in r <==> name in m && rev in m[name]
    ensures forall rev | rev in r :: r[rev] == m[name][rev]
  {
    if name in m then m[name] else map[]
  }

  /** Facts as decoded, or as a row gave them back. */
  predicate Right(f: Facts, written: Facts) {
    f == written || f == Stored(written)
  }

  /** Every row is what saving the revision it names leaves. */
  predicate RowsOk(rows: map<nat, Row>, written: Revisions) {
    forall rev | rev in rows :: rev in written && FactsOf(rows[rev]) == Stored(written[rev])
  }

  lemma NoRowsOk(written: Revisions)
    ensures RowsOk(map[], written)
  {
  }

  lemma InsertedOk(rows: map<nat, Row>, facts: Revisions, written: Revisions)
    requires RowsOk(rows, written)
    requires forall rev | rev in facts :: rev in written && Right(facts[rev], written[rev])
    ensures RowsOk(Inserted(rows, facts), written)
  {
    forall rev | rev in facts
      ensures FactsOf(RowOf(facts[rev])) == Stored(written[rev])
    {
      StoredIsExact(written[rev]);
    }
  }

  /** The table of revision facts; it outlives the process. */
  class RevisionFacts {
    var rows: map<string, map<nat, Row>>
    /** Calls that reported an error. */
    ghost var failed: nat

    /** The empty table is as any process would have left it. */
    constructor (ghost written: map<string, Revisions>)
      ensures rows == map[] && failed == 0 && Valid(written)
    {
      rows, failed := map[], 0;
    }

    ghost predicate Valid(written: map<string, Revisions>)
      reads this
    {
      forall name :: RowsOk(Of(rows, name), Of(written, name))
    }

    method Load(release: string) returns (err: bool, out: Revisions)
      modifies this`failed
      ensures failed == old(failed) + if err then 1 else 0
      ensures !err ==>
        && out.Keys == Of(rows, release).Keys
        && forall rev | rev in out :: out[rev] == FactsOf(Of(rows, release)[rev])
    {
      err, out := *, map[];
      if err {
        failed := failed + 1;
      } else {
        out := map rev | rev in Of(rows, release) :: FactsOf(Of(rows, release)[rev]);
      }
    }

    /** Rows that exist are left alone. The batch is one transaction; its outcome may be misreported. */
    method Save(release: string, facts: Revisions, ghost written: map<string, Revisions>) returns (err: bool)
      requires Valid(written)
      requires forall rev | rev in facts :: rev in Of(written, release) && Right(facts[rev], Of(written, release)[rev])
      modifies this
      ensures Valid(written) && failed == old(failed) + if err then 1 else 0
      ensures err ==> rows == old(rows) || rows == old(rows)[release := Inserted(Of(old(rows), release), facts)]
      ensures !err ==> rows == old(rows)[release := Inserted(Of(old(rows), release), facts)]
    {
      err := *;
      var lost: bool := *;
      InsertedOk(Of(rows, release), facts, Of(written, release));
      failed := if err then failed + 1 else failed;
      if !err || !lost {
        rows := rows[release := Inserted(Of(rows, release), facts)];
      }
    }
  }

  /** No row is lost or changed. */
  ghost predicate RowsStay(before: map<string, map<nat, Row>>, after: map<string, map<nat, Row>>) {
    forall name, rev | rev in Of(before, name) ::
      rev in Of(after, name) && Of(after, name)[rev] == Of(before, name)[rev]
  }

  function Inserted(rows: map<nat, Row>, facts: Revisions): map<nat, Row> {
    (map rev | rev in facts :: RowOf(facts[rev])) + rows
  }

  /** A row that exists stays; a revision without one gets its own. */
  lemma InsertedKeeps(rows: map<nat, Row>, facts: Revisions, rev: nat)
    ensures rev in rows ==> rev in Inserted(rows, facts) && Inserted(rows, facts)[rev] == rows[rev]
    ensures rev !in rows && rev in facts ==>
      rev in Inserted(rows, facts) && Inserted(rows, facts)[rev].chart == facts[rev].chart
    ensures rev in Inserted(rows, facts) ==> rev in rows || rev in facts
  {
  }

  // ----- The fast answer -----

  /** Helm's storage: every revision ever written, of which some may be gone or unreadable. */
  class Storage {
    const written: map<string, Revisions>
    /** Single and bulk reads so far, and those that failed or lacked something. */
    ghost var gets: nat
    ghost var bulks: nat
    ghost var failed: nat

    method Get(name: string, rev: nat) returns (err: bool, f: Facts)
      requires rev in Of(written, name)
      modifies this
      ensures !err ==> f == Of(written, name)[rev]
      ensures gets == old(gets) + 1 && bulks == old(bulks) && failed == old(failed) + if err then 1 else 0
    {
      err := *;
      f := Of(written, name)[rev];
      gets, failed := gets + 1, if err then failed + 1 else failed;
    }

    method History(name: string) returns (err: bool, rels: Revisions)
      modifies this
      ensures forall rev | rev in rels :: rev in Of(written, name) && rels[rev] == Of(written, name)[rev]
      ensures gets == old(gets) && bulks == old(bulks) + 1
      ensures failed == old(failed) + if err || rels.Keys != Of(written, name).Keys then 1 else 0
    {
      err := *;
      var gone: set<nat> := *;
      rels := Of(written, name) - gone;
      bulks := bulks + 1;
      failed := if err || rels.Keys != Of(written, name).Keys then failed + 1 else failed;
    }
  }

  /** The revisions of `revs` that `have` lacks. */
  function Lacking(revs: seq<nat>, have: set<nat>): (r: seq<nat>)
    ensures forall x :: x in r <==> x in revs && x !in have
  {
    if revs == [] then []
    else
      var front := Lacking(revs[..|revs| - 1], have);
      var last := revs[|revs| - 1];
      if last in have then front else front + [last]
  }

  lemma RowsAgree(revs: seq<nat>, listed: Listed, a: Revisions, b: Revisions)
    requires forall x | x in revs :: x in listed && x in a && x in b
    ensures Rows(revs, listed, a) == Rows(revs, listed, b) <==> forall x | x in revs :: a[x] == b[x]
  {
    if Rows(revs, listed, a) == Rows(revs, listed, b) {
      forall x | x in revs
        ensures a[x] == b[x]
      {
        var i :| 0 <= i < |revs| && revs[i] == x;
        assert Rows(revs, listed, a)[i] == Rows(revs, listed, b)[i];
      }
    }
  }

  /** The rows the slow answer has, up to the part of a time that the database does not keep. */
  predicate Faithful(entries: seq<Entry>, revs: seq<nat>, listed: Listed, written: Revisions)
    requires forall x | x in revs :: x in listed && x in written
  {
    && |entries| == |revs|
    && forall i | 0 <= i < |revs| ::
      && entries[i].revision == revs[i] && entries[i].status == listed[revs[i]]
      && Right(entries[i].facts, written[revs[i]])
  }

  /** The newest revisions are shown, as many as were asked for, highest first, each with its own status, chart
      and time, the time to the microsecond at least. */
  ghost predicate ShowsNewest(entries: seq<Entry>, listed: Listed, max: int, written: Revisions)
    requires listed.Keys <= written.Keys
  {
    && |entries| == (if 0 < max < |listed| then max else |listed|)
    && (forall i, j | 0 <= i < j < |entries| :: entries[i].revision > entries[j].revision)
    && (forall i | 0 <= i < |entries| :: ShowsRevision(entries[i], listed, written))
    && forall rev | rev in listed ::
         (exists e :: e in entries && e.revision == rev) || forall e | e in entries :: rev < e.revision
  }

  predicate ShowsRevision(e: Entry, listed: Listed, written: Revisions)
    requires listed.Keys <= written.Keys
  {
    && e.revision in listed && e.status == listed[e.revision] && e.facts.chart == written[e.revision].chart
    && (var t := written[e.revision].deployedAt;
        e.facts.deployedAt == t || e.facts.deployedAt == t / 1000 * 1000)
  }

  lemma DescendingSize(s: set<nat>)
    ensures |Descending(s)| == |s|
  {
    SameSize(Descending(s), s);
  }

  lemma {:induction false} SameSize(d: seq<nat>, s: set<nat>)
    requires (forall x :: x in d <==> x in s) && forall i, j | 0 <= i < j < |d| :: d[i] > d[j]
    ensures |d| == |s|
  {
    if d == [] {
      assert s == {};
    } else {
      assert d[0] in s;
      forall x
        ensures x in d[1..] <==> x in s - {d[0]}
      {
        if x in s - {d[0]} {
          var i :| 0 <= i < |d| && d[i] == x;
          assert d[1..][i - 1] == x;
        }
      }
      SameSize(d[1..], s - {d[0]});
    }
  }

  lemma CutIsHighest(all: seq<nat>, n: nat, x: nat, y: nat)
    requires n <= |all| && forall i, j | 0 <= i < j < |all| :: all[i] > all[j]
    requires x in all && y in all[..n]
    ensures x in all[..n] || x < y
  {
    var i :| 0 <= i < |all| && all[i] == x;
    if i < n {
      assert all[..n][i] == x;
    }
  }

  lemma CutShows(all: seq<nat>, s: set<nat>, n: nat)
    requires (forall x :: x in all <==> x in s) && forall i, j | 0 <= i < j < |all| :: all[i] > all[j]
    requires n <= |all|
    ensures IsNewest(all[..n], s, n)
  {
    forall x, y | x in s && x !in all[..n] && y in all[..n]
      ensures x < y
    {
      CutIsHighest(all, n, x, y);
    }
  }

  /** `revs` are `n` of the numbers in `s`, highest first, and none is left out for a lower one. */
  predicate IsNewest(revs: seq<nat>, s: set<nat>, n: nat) {
    && |revs| == n
    && (forall i, j | 0 <= i < j < |revs| :: revs[i] > revs[j])
    && forall x | x in s :: x in revs || forall y | y in revs :: x < y
  }

  /** The window holds as many revisions as asked for, the newest. */
  lemma WindowIsNewest(listed: Listed, max: int)
    ensures IsNewest(Window(listed, max), listed.Keys, if 0 < max < |listed| then max else |listed|)
  {
    var s := listed.Keys;
    DescendingSize(s);
    CutIsNewest(Descending(s), s, max);
    assert |s| == |listed|;
  }

  lemma CutIsNewest(all: seq<nat>, s: set<nat>, max: int)
    requires (forall x :: x in all <==> x in s) && forall i, j | 0 <= i < j < |all| :: all[i] > all[j]
    ensures IsNewest(FirstOf(all, max), s, if 0 < max < |all| then max else |all|)
  {
    var n := if 0 < max < |all| then max else |all|;
    assert FirstOf(all, max) == all[..n];
    CutShows(all, s, n);
  }

  lemma RightShows(e: Entry, rev: nat, listed: Listed, written: Revisions)
    requires listed.Keys <= written.Keys && rev in listed
    requires e.revision == rev && e.status == listed[rev] && Right(e.facts, written[rev])
    ensures ShowsRevision(e, listed, written)
  {
  }

  /** An answer that shows the window faithfully shows the newest revisions. */
  lemma FaithfulShowsNewest(entries: seq<Entry>, listed: Listed, max: int, written: Revisions)
    requires listed.Keys <= written.Keys && Faithful(entries, Window(listed, max), listed, written)
    ensures ShowsNewest(entries, listed, max, written)
  {
    var revs := Window(listed, max);
    WindowIsNewest(listed, max);
    forall i | 0 <= i < |entries|
      ensures ShowsRevision(entries[i], listed, written)
    {
      RightShows(entries[i], revs[i], listed, written);
    }
    ShowsAll(entries, revs, listed.Keys);
  }

  lemma ShowsAll(entries: seq<Entry>, revs: seq<nat>, all: set<nat>)
    requires |entries| == |revs| && forall i | 0 <= i < |revs| :: entries[i].revision == revs[i]
    requires forall rev | rev in all :: rev in revs || forall x | x in revs :: rev < x
    ensures forall rev | rev in all ::
      (exists e :: e in entries && e.revision == rev) || forall e | e in entries :: rev < e.revision
  {
    forall rev | rev in all && rev in revs
      ensures exists e :: e in entries && e.revision == rev
    {
      var i :| 0 <= i < |revs| && revs[i] == rev;
      assert entries[i] in entries;
    }
    forall e | e in entries
      ensures e.revision in revs
    {
      var i :| 0 <= i < |entries| && entries[i] == e;
      assert revs[i] == e.revision;
    }
  }

  predicate Covers(keys: set<nat>, revs: seq<nat>) {
    forall x | x in revs :: x in keys
  }

  /** `after` is `before` with `more` written over it. */
  predicate Grown(before: Revisions, more: Revisions, after: Revisions) {
    && after.Keys == before.Keys + more.Keys
    && forall rev | rev in after :: after[rev] == if rev in more then more[rev] else before[rev]
  }

  /** Memory after rows were taken over and revisions decoded. */
  predicate Came(before: Revisions, taken: Revisions, decoded: Revisions, after: Revisions) {
    && after.Keys == before.Keys + taken.Keys + decoded.Keys
    && forall rev | rev in after ::
      after[rev] == if rev in decoded then decoded[rev] else if rev in taken then taken[rev] else before[rev]
  }

  predicate DecodedFrom(decoded: Revisions, written: Revisions) {
    forall rev | rev in decoded :: rev in written && decoded[rev] == written[rev]
  }

  predicate TakenFrom(taken: Revisions, written: Revisions) {
    forall rev | rev in taken :: rev in written && taken[rev] == Stored(written[rev])
  }

  lemma GrownOne(before: Revisions, more: Revisions, after: Revisions, rev: nat, f: Facts)
    requires Grown(before, more, after)
    ensures Grown(before, more[rev := f], after[rev := f])
  {
  }

  lemma GrownTwice(before: Revisions, taken: Revisions, between: Revisions, decoded: Revisions, after: Revisions)
    requires Grown(before, taken, between) && Grown(between, decoded, after)
    ensures Came(before, taken, decoded, after)
  {
  }

  /** A call gives the exact facts of `rev`: its time is whole, or the call decoded it, or it was remembered
      exactly and the call did not take the row over it. */
  predicate ExactAt(rev: nat, before: Revisions, taken: Revisions, decoded: Revisions, written: Revisions)
    requires rev in written
  {
    || written[rev].deployedAt % 1000 == 0
    || rev in decoded
    || (rev !in taken && rev in before && before[rev] == written[rev])
  }

  lemma ExactIs(rev: nat, before: Revisions, taken: Revisions, decoded: Revisions, written: Revisions, after: Revisions)
    requires Came(before, taken, decoded, after) && DecodedFrom(decoded, written) && TakenFrom(taken, written)
    requires rev in after && rev in written && (rev in before ==> Right(before[rev], written[rev]))
    ensures after[rev] == written[rev] <==> ExactAt(rev, before, taken, decoded, written)
  {
    StoredIsExact(written[rev]);
  }

  /** How an answer built from memory compares with the slow one. */
  lemma Compare(listed: Listed, max: int, before: Revisions, taken: Revisions, decoded: Revisions, written: Revisions,
                after: Revisions)
    requires listed.Keys <= written.Keys
    requires Came(before, taken, decoded, after) && DecodedFrom(decoded, written) && TakenFrom(taken, written)
    requires forall x | x in Window(listed, max) :: x in after && Right(after[x], written[x])
    requires forall x | x in Window(listed, max) && x in before :: Right(before[x], written[x])
    ensures
      var revs := Window(listed, max);
      && Faithful(Rows(revs, listed, after), revs, listed, written)
      && (Rows(revs, listed, after) == SlowHistory(listed, written, max) <==>
          forall x | x in revs :: ExactAt(x, before, taken, decoded, written))
  {
    var revs := Window(listed, max);
    CutFirst(listed, written, max);
    RowsAgree(revs, listed, after, written);
    AllRight(revs, listed, after, written);
    forall x | x in revs
      ensures after[x] == written[x] <==> ExactAt(x, before, taken, decoded, written)
    {
      ExactIs(x, before, taken, decoded, written, after);
    }
  }

  lemma {:induction false} LackingSame(revs: seq<nat>, a: set<nat>, b: set<nat>)
    requires forall x | x in revs :: x in a <==> x in b
    ensures Lacking(revs, a) == Lacking(revs, b)
  {
    if revs != [] {
      LackingSame(revs[..|revs| - 1], a, b);
      assert revs[|revs| - 1] in revs;
    }
  }

  /** Pruning what is no longer listed cannot be seen from the window. */
  lemma PrunedIsSame(revs: seq<nat>, before: Revisions, pruned: Revisions, taken: Revisions, decoded: Revisions,
                     written: Revisions)
    requires forall x | x in revs ::
      x in written && (x in before <==> x in pruned) && (x in before ==> before[x] == pruned[x])
    ensures forall x | x in revs ::
      ExactAt(x, before, taken, decoded, written) <==> ExactAt(x, pruned, taken, decoded, written)
    ensures Lacking(revs, before.Keys + taken.Keys) == Lacking(revs, pruned.Keys + taken.Keys)
    ensures Covers(before.Keys, revs) <==> Covers(pruned.Keys, revs)
  {
    LackingSame(revs, before.Keys + taken.Keys, pruned.Keys + taken.Keys);
  }

  lemma AllRight(revs: seq<nat>, listed: Listed, have: Revisions, written: Revisions)
    requires forall x | x in revs :: x in listed && x in have && x in written && Right(have[x], written[x])
    ensures Faithful(Rows(revs, listed, have), revs, listed, written)
  {
  }

  class Client {
    var revCache: map<string, Revisions>
    const storage: Storage
    const facts: RevisionFacts?

    /** A new process: an empty memory over whatever the database holds. */
    constructor (storage: Storage, facts: RevisionFacts?)
      requires facts != null ==> facts.Valid(storage.written)
      ensures Valid() && revCache == map[] && this.storage == storage && this.facts == facts
    {
      revCache, this.storage, this.facts := map[], storage, facts;
    }

    ghost predicate CacheOk()
      reads this
    {
      forall name, rev | rev in Of(revCache, name) ::
        rev in Of(storage.written, name) && Right(Of(revCache, name)[rev], Of(storage.written, name)[rev])
    }

    ghost predicate Valid()
      reads this, facts
    {
      CacheOk() && (facts != null ==> facts.Valid(storage.written))
    }

    method StoreRevisionFacts(name: string, rev: nat, f: Facts)
      requires CacheOk() && rev in Of(storage.written, name) && Right(f, Of(storage.written, name)[rev])
      modifies this
      ensures CacheOk() && revCache == old(revCache)[name := Of(old(revCache), name)[rev := f]]
    {
      revCache := revCache[name := Of(revCache, name)[rev := f]];
    }

    method PruneRevisionFacts(name: string, live: set<nat>)
      requires CacheOk()
      modifies this
      ensures CacheOk()
      ensures Of(revCache, name) ==
        (map rev | rev in Of(old(revCache), name) && rev in live :: Of(old(revCache), name)[rev])
      ensures forall other | other != name :: Of(revCache, other) == Of(old(revCache), other)
    {
      if name !in revCache {
        return;
      }
      var byRev := revCache[name];
      var rest := byRev.Keys;
      while rest != {}
        invariant rest <= byRev.Keys <= revCache[name].Keys
        invariant forall rev | rev in byRev :: byRev[rev] == revCache[name][rev]
        invariant forall rev | rev in revCache[name] :: rev in byRev <==> rev in rest || rev in live
        decreases rest
      {
        var rev :| rev in rest;
        if rev !in live {
          byRev := byRev - {rev};
        }
        rest := rest - {rev};
      }
      revCache := revCache[name := byRev];
    }

    method MissingRevisions(name: string, revs: seq<nat>) returns (out: seq<nat>)
      ensures out == Lacking(revs, Of(revCache, name).Keys)
    {
      out := [];
      for k := 0 to |revs|
        invariant out == Lacking(revs[..k], Of(revCache, name).Keys)
      {
        assert revs[..k + 1][..k] == revs[..k];
        if revs[k] !in Of(revCache, name) {
          out := out + [revs[k]];
        }
      }
      assert revs[..|revs|] == revs;
    }

    /** Takes over what the database has, for every revision it has. */
    method TakeStored(name: string, stored: Revisions)
      requires Valid() && TakenFrom(stored, Of(storage.written, name))
      modifies this
      ensures Valid() && Grown(Of(old(revCache), name), stored, Of(revCache, name))
      ensures forall other | other != name :: Of(revCache, other) == Of(old(revCache), other)
    {
      var rest := stored.Keys;
      while rest != {}
        invariant CacheOk() && rest <= stored.Keys
        invariant Grown(Of(old(revCache), name), stored - rest, Of(revCache, name))
        invariant forall other | other != name :: Of(revCache, other) == Of(old(revCache), other)
        decreases rest
      {
        var rev :| rev in rest;
        StoreRevisionFacts(name, rev, stored[rev]);
        rest := rest - {rev};
      }
    }

    /** Decodes what is missing: one at a time while that is few, everything at once otherwise. */
    method FillRevisionFacts(name: string, missing: seq<nat>) returns (err: bool, ghost decoded: Revisions)
      requires Valid() && forall rev | rev in missing :: rev in Of(storage.written, name)
      modifies this, storage
      ensures Valid() && DecodedFrom(decoded, Of(storage.written, name))
      ensures Grown(Of(old(revCache), name), decoded, Of(revCache, name))
      ensures |missing| <= 10 ==> forall rev | rev in decoded :: rev in missing
      ensures !err && |missing| <= 10 ==> forall rev | rev in missing :: rev in decoded
      ensures |missing| <= 10 ==> storage.bulks == old(storage.bulks) && storage.gets <= old(storage.gets) + |missing|
      ensures |missing| > 10 ==> storage.bulks == old(storage.bulks) + 1 && storage.gets == old(storage.gets)
      ensures storage.failed == old(storage.failed) ==> !err && forall rev | rev in missing :: rev in decoded
      ensures forall other | other != name :: Of(revCache, other) == Of(old(revCache), other)
    {
      decoded := map[];
      if |missing| <= BULK_DECODE_THRESHOLD {
        err, decoded := FillOneByOne(name, missing);
        return;
      }
      err, decoded := FillAtOnce(name);
    }

    method FillAtOnce(name: string) returns (err: bool, ghost decoded: Revisions)
      requires Valid()
      modifies this, storage
      ensures Valid() && DecodedFrom(decoded, Of(storage.written, name))
      ensures Grown(Of(old(revCache), name), decoded, Of(revCache, name))
      ensures storage.bulks == old(storage.bulks) + 1 && storage.gets == old(storage.gets)
      ensures storage.failed == old(storage.failed) ==> !err && decoded.Keys == Of(storage.written, name).Keys
      ensures forall other | other != name :: Of(revCache, other) == Of(old(revCache), other)
    {
      decoded := map[];
      var rels;
      err, rels := storage.History(name);
      if err {
        return;
      }
      var rest := rels.Keys;
      while rest != {}
        invariant CacheOk() && rest <= rels.Keys && DecodedFrom(decoded, Of(storage.written, name))
        invariant Grown(Of(old(revCache), name), decoded, Of(revCache, name)) && decoded.Keys == rels.Keys - rest
        invariant forall other | other != name :: Of(revCache, other) == Of(old(revCache), other)
        modifies this
        decreases rest
      {
        var rev :| rev in rest;
        GrownOne(Of(old(revCache), name), decoded, Of(revCache, name), rev, rels[rev]);
        StoreRevisionFacts(name, rev, rels[rev]);
        decoded := decoded[rev := rels[rev]];
        rest := rest - {rev};
      }
    }

    method FillOneByOne(name: string, missing: seq<nat>) returns (err: bool, ghost decoded: Revisions)
      requires Valid() && forall rev | rev in missing :: rev in Of(storage.written, name)
      modifies this, storage
      ensures Valid() && DecodedFrom(decoded, Of(storage.written, name))
      ensures Grown(Of(old(revCache), name), decoded, Of(revCache, name))
      ensures forall rev | rev in decoded :: rev in missing
      ensures !err ==> forall rev | rev in missing :: rev in decoded
      ensures storage.bulks == old(storage.bulks) && storage.gets <= old(storage.gets) + |missing|
      ensures storage.failed == old(storage.failed) <==> !err
      ensures forall other | other != name :: Of(revCache, other) == Of(old(revCache), other)
    {
      err, decoded := false, map[];
      for k := 0 to |missing|
        invariant CacheOk() && DecodedFrom(decoded, Of(storage.written, name))
        invariant Grown(Of(old(revCache), name), decoded, Of(revCache, name))
        invariant forall rev | rev in decoded :: rev in missing
        invariant forall rev | rev in missing[..k] :: rev in decoded
        invariant !err && storage.failed == old(storage.failed)
        invariant storage.bulks == old(storage.bulks) && storage.gets == old(storage.gets) + k
        invariant forall other | other != name :: Of(revCache, other) == Of(old(revCache), other)
      {
        var f;
        err, f := storage.Get(name, missing[k]);
        if err {
          return;
        }
        GrownOne(Of(old(revCache), name), decoded, Of(revCache, name), missing[k], f);
        StoreRevisionFacts(name, missing[k], f);
        decoded := decoded[missing[k] := f];
      }
    }

    /** Writes to the database what was just decoded; a failure is not reported. */
    method PersistRevisions(name: string, revs: seq<nat>)
      requires Valid()
      modifies facts
      ensures Valid() && revCache == old(revCache)
      ensures facts != null ==> facts.failed >= old(facts.failed) && (facts.failed == old(facts.failed) ==>
        forall rev | rev in revs && rev in Of(revCache, name) :: rev in Of(facts.rows, name))
      ensures facts != null ==> RowsStay(old(facts.rows), facts.rows)
    {
      if facts == null || revs == [] {
        return;
      }
      var out := map rev | rev in revs && rev in Of(revCache, name) :: Of(revCache, name)[rev];
      if out == map[] {
        assert forall rev | rev in revs :: rev in Of(revCache, name) ==> rev in out;
        return;
      }
      var err := facts.Save(name, out, storage.written);
    }

    /** The database's facts of a release; none when it cannot be read. */
    method LoadStored(name: string) returns (stored: Revisions, ghost read: bool)
      requires Valid() && facts != null
      modifies facts`failed
      ensures TakenFrom(stored, Of(storage.written, name))
      ensures stored.Keys == if read then Of(facts.rows, name).Keys else {}
      ensures facts.failed == old(facts.failed) + if read then 0 else 1
    {
      var failed;
      failed, stored := facts.Load(name);
      read := !failed;
      if failed {
        stored := map[];
      }
    }

    /** Brings the facts of `metas` into memory, or fails. */
    method Complete(name: string, metas: seq<nat>) returns (err: bool, ghost taken: Revisions, ghost decoded: Revisions)
      requires Valid() && forall rev | rev in metas :: rev in Of(storage.written, name)
      modifies this, facts, storage
      ensures Valid() && Came(Of(old(revCache), name), taken, decoded, Of(revCache, name))
      ensures forall other | other != name :: Of(revCache, other) == Of(old(revCache), other)
      ensures TakenFrom(taken, Of(storage.written, name)) && DecodedFrom(decoded, Of(storage.written, name))
      ensures taken != map[] ==> facts != null && taken.Keys == Of(old(facts.rows), name).Keys
      ensures Covers(Of(old(revCache), name).Keys, metas) ==> !err && taken == map[] && decoded == map[]
      ensures
        var missing := Lacking(metas, Of(old(revCache), name).Keys + taken.Keys);
        && (!err && |missing| <= 10 ==> forall rev :: rev in decoded <==> rev in missing)
        && storage.bulks == old(storage.bulks) + (if |missing| > 10 then 1 else 0)
        && storage.gets <= old(storage.gets) + (if |missing| > 10 then 0 else |missing|)
      ensures storage.failed == old(storage.failed) ==>
        !err && forall rev | rev in metas :: rev in Of(revCache, name)
      ensures facts != null ==> facts.failed >= old(facts.failed) && RowsStay(old(facts.rows), facts.rows)
      ensures facts != null && facts.failed == old(facts.failed) ==>
        && taken.Keys == (if Covers(Of(old(revCache), name).Keys, metas) then {} else Of(old(facts.rows), name).Keys)
        && (!err ==> forall rev | rev in metas && rev in Of(revCache, name) ::
              rev in Of(old(revCache), name) || rev in Of(facts.rows, name))
    {
      err, taken, decoded := false, map[], map[];
      var missing := MissingRevisions(name, metas);
      assert missing != [] ==> missing[0] in missing && missing[0] in metas;
      if missing != [] && facts != null {
        var stored;
        ghost var read;
        stored, read := LoadStored(name);
        taken := stored;
        TakeStored(name, stored);
        missing := MissingRevisions(name, metas);
      }
      ghost var between := Of(revCache, name);
      assert Grown(Of(old(revCache), name), taken, between);
      GrownTwice(Of(old(revCache), name), taken, between, map[], between);
      if missing != [] {
        assert missing[0] in missing;
        err, decoded := FillRevisionFacts(name, missing);
        GrownTwice(Of(old(revCache), name), taken, between, decoded, Of(revCache, name));
        if err {
          return;
        }
        PersistRevisions(name, missing);
      }
    }

    /** The rows of the answer, from memory; an error where something is still missing. */
    method Compose(name: string, metas: seq<nat>, listed: Listed) returns (err: bool, entries: seq<Entry>)
      requires forall x | x in metas :: x in listed
      ensures err <==> exists x :: x in metas && x !in Of(revCache, name)
      ensures !err ==> entries == Rows(metas, listed, Of(revCache, name))
    {
      entries := [];
      for k := 0 to |metas|
        invariant forall x | x in metas[..k] :: x in Of(revCache, name)
        invariant |entries| == k
        invariant forall i | 0 <= i < k :: entries[i] == Entry(metas[i], listed[metas[i]], Of(revCache, name)[metas[i]])
      {
        if metas[k] !in Of(revCache, name) {
          return true, [];
        }
        entries := entries + [Entry(metas[k], listed[metas[k]], Of(revCache, name)[metas[k]])];
      }
      err := false;
    }

    /**
     * The fast answer, or an error. `listed` is what the API server lists; none when it cannot be asked.
     * `taken` are the rows this call took over from the database, `decoded` what it decoded.
     */
    method ListHistoryFast(name: string, max: int, listed: Option<Listed>)
        returns (err: bool, entries: seq<Entry>, ghost taken: Revisions, ghost decoded: Revisions)
      requires Valid() && (listed.Some? ==> listed.value.Keys <= Of(storage.written, name).Keys)
      modifies this, facts, storage
      ensures Valid() && (listed.None? ==> err)
      ensures listed.Some? && listed.value != map[] && storage.failed == old(storage.failed) ==> !err
      ensures
        var remembered := listed.Some? && Covers(Of(old(revCache), name).Keys, Window(listed.value, max));
        remembered && listed.value != map[] ==> !err && taken == map[] && decoded == map[]
      ensures !err ==> Covers(Of(revCache, name).Keys, Window(listed.value, max))
      ensures !err ==> ShowsNewest(entries, listed.value, max, Of(storage.written, name))
      ensures !err ==> Faithful(entries, Window(listed.value, max), listed.value, Of(storage.written, name))
      ensures !err ==>
        (entries == SlowHistory(listed.value, Of(storage.written, name), max) <==>
         forall rev | rev in Window(listed.value, max) ::
           ExactAt(rev, Of(old(revCache), name), taken, decoded, Of(storage.written, name)))
      ensures taken != map[] ==> facts != null && taken.Keys == Of(old(facts.rows), name).Keys
      ensures TakenFrom(taken, Of(storage.written, name)) && DecodedFrom(decoded, Of(storage.written, name))
      ensures !err ==>
        var missing := Lacking(Window(listed.value, max), Of(old(revCache), name).Keys + taken.Keys);
        |missing| <= 10 ==> forall rev :: rev in decoded <==> rev in missing
      ensures listed.Some? ==>
        var missing := Lacking(Window(listed.value, max), Of(old(revCache), name).Keys + taken.Keys);
        && storage.bulks <= old(storage.bulks) + (if |missing| > 10 then 1 else 0)
        && storage.gets <= old(storage.gets) + (if |missing| > 10 then 0 else |missing|)
      ensures facts != null ==> RowsStay(old(facts.rows), facts.rows)
      ensures facts != null && facts.failed == old(facts.failed) && !err ==>
        && (!Covers(Of(old(revCache), name).Keys, Window(listed.value, max)) ==>
              taken.Keys == Of(old(facts.rows), name).Keys)
        && forall rev | rev in Window(listed.value, max) ::
             rev in Of(old(revCache), name) || rev in Of(facts.rows, name)
      ensures listed.Some? && listed.value != map[] ==> forall rev | rev in Of(revCache, name) ::
        rev in listed.value || rev in taken || rev in decoded
      ensures listed.Some? ==> forall rev | rev in listed.value && rev in Of(old(revCache), name) ::
        rev in Of(revCache, name)
      ensures forall other | other != name :: Of(revCache, other) == Of(old(revCache), other)
    {
      entries, taken, decoded := [], map[], map[];
      if listed.None? || listed.value == map[] {
        return true, [], map[], map[];
      }
      PruneRevisionFacts(name, listed.value.Keys);
      ghost var before := Of(revCache, name);
      var metas := Window(listed.value, max);
      err, taken, decoded := Complete(name, metas);
      PrunedIsSame(metas, Of(old(revCache), name), before, taken, decoded, Of(storage.written, name));
      if err {
        return;
      }
      err, entries := Compose(name, metas, listed.value);
      if !err {
        Compare(listed.value, max, before, taken, decoded, Of(storage.written, name), Of(revCache, name));
        FaithfulShowsNewest(entries, listed.value, max, Of(storage.written, name));
      }
    }
  }
}
