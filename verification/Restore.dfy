// Putting a homeserver's database back from an archive. The live database is renamed aside, an empty
// one takes its name, the service builds its schema there, the archive goes in, and only then does
// the service run again; every failure before that is undone by renaming back.
module Restore {
  import opened Values
  import opened Homeserver

  /** One restore: the database it is about, the name the old one goes to, and what was there. */
  datatype Case = Case(name: string, aside: string, before: Catalog, schema: Schema)
  {
    /** The other name is free. */
    predicate Valid() {
      aside != name && aside != "" && aside !in before
    }

    predicate Existed() {
      name in before
    }

    /** The old database under its own name. A service that starts may build its schema there if the
        database was empty; it changes nothing else. */
    predicate Home(c: Catalog) {
      c == before || (Existed() && c == before[name := Build(before[name], schema)])
    }

    /** The catalog with the old database under the other name and its own name free. */
    function Moved(): Catalog {
      if Existed() then (before - {name})[aside := before[name]] else before
    }

    /** The name is free, or a database the restore made itself stands there. */
    predicate Aside(c: Catalog) {
      c - {name} == Moved() && (name in c && Existed() ==> c[name].oid != before[name].oid)
    }

    /** The old database is there under exactly one of the two names, and every other is untouched. */
    ghost predicate OriginalKept(c: Catalog) {
      && (forall n | n != name && n != aside :: (n in c <==> n in before) && (n in c ==> c[n] == before[n]))
      && (Existed() ==> (HoldsOriginal(c, name) <==> !HoldsOriginal(c, aside)))
    }

    predicate HoldsOriginal(c: Catalog, n: string)
      requires Existed()
    {
      n in c && (c[n] == before[name] || c[n] == Build(before[name], schema))
    }

    /** A moment in which nothing of the old data is lost or in danger. */
    ghost predicate Safe(m: Moment) {
      && OriginalKept(m.catalog)
      && (Destructive(m.call) ==> m.quiet && (Existed() ==> m.hits != Some(before[name].oid)))
    }

    ghost predicate SafeLog(log: seq<Moment>) {
      forall m | m in log :: Safe(m)
    }
  }

  lemma PlacesAreSafe(k: Case, c: Catalog)
    requires k.Valid()
    ensures k.Home(c) || k.Aside(c) ==> k.OriginalKept(c)
  {
    if k.Aside(c) && !k.Home(c) {
      forall n | n != k.name && n != k.aside
        ensures (n in c <==> n in k.before) && (n in c ==> c[n] == k.before[n])
      {
        assert n in c <==> n in c - {k.name};
      }
      if k.Existed() {
        assert k.aside in c - {k.name} && c[k.aside] == k.before[k.name];
      }
    }
  }

  // ---- The archive --------------------------------------------------------------------------

  /** One table of the archive, in the order they stream past; `version` is what its rows say about
      the schema version, if they can be read that way. */
  datatype Entry = Entry(table: string, rows: seq<Row>, version: Option<nat>)

  /** The archive's rows for a table; none where it has no such table. */
  function RowsFor(entries: seq<Entry>, t: string): seq<Row> {
    if entries == [] then []
    else
      var e := entries[|entries| - 1];
      if e.table == t then e.rows else RowsFor(entries[..|entries| - 1], t)
  }

  function ArchiveVersion(entries: seq<Entry>): nat {
    if entries == [] then 0
    else
      var e := entries[|entries| - 1];
      if e.table == "schema_version" && e.version.Some? then e.version.value
      else ArchiveVersion(entries[..|entries| - 1])
  }

  predicate Distinct(entries: seq<Entry>) {
    forall i, j | 0 <= i < j < |entries| :: entries[i].table != entries[j].table
  }

  /** How many rows the archive sends to a table. */
  function Sent(entries: seq<Entry>, t: string): nat {
    if entries == [] then 0
    else
      var e := entries[|entries| - 1];
      Sent(entries[..|entries| - 1], t) + if e.table == t then |e.rows| else 0
  }

  /** Counting a table again can find what was counted last when it was loaded. */
  predicate Countable(entries: seq<Entry>) {
    forall e | e in entries && e.table !in BOOKKEEPING :: Sent(entries, e.table) == |RowsFor(entries, e.table)|
  }

  function Bookkept(t: string, rows: seq<Row>, dependents: set<string>): seq<Row> {
    if t in dependents then [] else rows
  }

  /** What a database holds after a restore that reports success. */
  predicate Content(db: Database, schema: Schema, dependents: set<string>, entries: seq<Entry>,
                    counters: seq<Counter>)
  {
    && db.tables.Keys == schema.tables.Keys
    && db.counters == WithCounters(schema.counters, counters)
    && (forall t | t in db.tables && t in BOOKKEEPING :: db.tables[t] == Bookkept(t, schema.tables[t], dependents))
    && (Distinct(entries) ==> forall t | t in db.tables && t !in BOOKKEEPING ::
          db.tables[t] == RowsFor(entries, t) +
            if t == MERGED && 0 < ArchiveVersion(entries) < VersionLeft(schema.version, dependents)
            then Extras(schema.tables[t], RowsFor(entries, t)) else [])
  }

  datatype Result = Result(previousName: string, rows: map<string, nat>, totalRows: nat)

  datatype Verdict =
    | Restored          // the archive is in place and the service runs
    | NotReady          // the archive is in place, the service does not come up
    | NotStarted        // failed before anything was moved
    | RenameFailed      // the old database could not be renamed
    | RolledBack        // failed, and the previous state stands again
    | BackButDown       // failed, the previous data are back, the service does not come up
    | Blocked           // failed, and the way back failed too

  predicate Undone(v: Verdict) {
    v in {RolledBack, BackButDown, Blocked}
  }

  // ---- The steps ----------------------------------------------------------------------------

  /** The calls made since `past` only stop the service. */
  ghost predicate Harmless(past: seq<Moment>, now: seq<Moment>, c: Catalog) {
    && past <= now
    && forall i | |past| <= i < |now| ::
         now[i].catalog == c && now[i].call in {Scale, WaitGone}
  }

  ghost predicate AllOk(log: seq<Moment>, from: nat) {
    forall i | from <= i < |log| && log[i].call != Terminate :: log[i].ok
  }

  /** Every call since `from` was one that the other side could carry out. */
  ghost predicate AllPossible(log: seq<Moment>, from: nat) {
    forall i | from <= i < |log| :: log[i].possible
  }

  method Stop(s: Server, k: Case) returns (err: bool)
    requires k.Valid() && k.SafeLog(s.log) && (k.Home(s.w.catalog) || k.Aside(s.w.catalog))
    modifies s
    ensures Harmless(old(s.log), s.log, old(s.w).catalog) && k.SafeLog(s.log)
    ensures err <==> !AllOk(s.log, |old(s.log)|)
    ensures AllPossible(s.log, |old(s.log)|)
    ensures s.w.catalog == old(s.w).catalog && s.w.nextOid == old(s.w).nextOid && s.w.sink == old(s.w).sink
    ensures !err ==> s.w.Quiet()
  {
    PlacesAreSafe(k, s.w.catalog);
    var took;
    took, err := s.Scale(0);
    if !err {
      took, err := s.WaitGone();
    }
    assert s.log[|s.log| - 1].ok == !err && s.log[|s.log| - 1].possible;
  }

  /** The service builds its schema in an empty database; nothing else changes. */
  ghost predicate BuiltOrNot(k: Case, before: Catalog, after: Catalog) {
    after == before || (k.name in before && after == before[k.name := Build(before[k.name], k.schema)])
  }

  lemma BuildKeepsPlace(k: Case, before: Catalog, after: Catalog)
    requires k.Valid() && BuiltOrNot(k, before, after)
    ensures k.Home(before) ==> k.Home(after)
    ensures k.Aside(before) ==> k.Aside(after)
  {
    assert after - {k.name} == before - {k.name};
  }

  method Start(s: Server, k: Case, n: int) returns (err: bool)
    requires s.home == k.name && s.schema == k.schema && n > 0
    requires k.Valid() && k.SafeLog(s.log) && (k.Home(s.w.catalog) || k.Aside(s.w.catalog))
    modifies s
    ensures old(s.log) <= s.log && k.SafeLog(s.log)
    ensures forall i | |old(s.log)| <= i < |s.log| :: s.log[i].call in {Scale, WaitReady}
    ensures |s.log| > |old(s.log)| && s.log[|old(s.log)|].call == Scale && AllPossible(s.log, |old(s.log)|)
    ensures err <==> !AllOk(s.log, |old(s.log)|)
    ensures s.w.nextOid == old(s.w).nextOid && s.w.sink == old(s.w).sink
    ensures k.Home(old(s.w).catalog) ==> k.Home(s.w.catalog)
    ensures k.Aside(old(s.w).catalog) ==> k.Aside(s.w.catalog)
    ensures BuiltOrNot(k, old(s.w).catalog, s.w.catalog)
    ensures !err ==> s.w.replicas == n && s.w.ready
    ensures !err && k.name in old(s.w).catalog ==>
      s.w.catalog == old(s.w).catalog[k.name := Build(old(s.w).catalog[k.name], k.schema)]
  {
    PlacesAreSafe(k, s.w.catalog);
    var took;
    took, err := s.Scale(n);
    if !err {
      took, err := s.WaitReady();
      BuildKeepsPlace(k, old(s.w).catalog, s.w.catalog);
      PlacesAreSafe(k, s.w.catalog);
    }
    assert s.log[|s.log| - 1].ok == !err && s.log[|s.log| - 1].possible;
  }

  /** What the result says about the old data is true: it names the place they were moved to, or none
      when they are in their own. */
  ghost predicate Truthful(k: Case, previousName: string, c: Catalog) {
    k.Existed() ==> if previousName == "" then k.HoldsOriginal(c, k.name)
                    else previousName == k.aside && k.HoldsOriginal(c, k.aside)
  }

  /** No rename took effect while it reported an error. */
  ghost predicate RenamesHonest(log: seq<Moment>, from: nat) {
    forall i | from <= i < |log| && log[i].call == Rename && log[i].took :: log[i].ok
  }

  /** The old database is aside: the result that says so is true. */
  lemma AsideIsTruthful(k: Case, c: Catalog)
    requires k.Valid() && k.Aside(c)
    ensures Truthful(k, if k.Existed() then k.aside else "", c)
  {
    assert k.Existed() ==> k.aside in c - {k.name} && c[k.aside] == k.before[k.name];
  }

  lemma RenameBack(k: Case)
    requires k.Valid() && k.Existed()
    ensures k.aside in k.Moved() && k.Moved()[k.aside] == k.before[k.name]
    ensures (k.Moved() - {k.aside})[k.name := k.Moved()[k.aside]] == k.before
  {
  }

  /** The connection to be filled, if there is one, leads to the database being restored. */
  ghost predicate OwnSink(s: Server, k: Case)
    reads s
  {
    s.w.sink.Some? ==> s.w.sink.value.database == k.name
  }

  /** If the database is in use, that is because ending its sessions, just tried, did not take effect. */
  ghost predicate Freed(s: Server, k: Case)
    reads s
  {
    s.Busy(k.name) ==> s.log != [] && s.log[|s.log| - 1].call == Terminate && !s.log[|s.log| - 1].took
  }

  /** The call at `i` could be carried out, or it is a drop of a database whose sessions could not be ended. */
  ghost predicate Sensible(log: seq<Moment>, i: nat)
    requires i < |log|
  {
    log[i].possible || (log[i].call == Drop && i > 0 && log[i - 1].call == Terminate && !log[i - 1].took)
  }

  /** No call since `from` was made in vain: the other side could carry each out, except for a table of the
      archive that the schema does not have, and for a drop on the way back when the sessions could not be
      ended. */
  ghost predicate Sound(log: seq<Moment>, from: nat) {
    forall i | from <= i < |log| :: log[i].call == LoadCSV || Sensible(log, i)
  }

  lemma SoundStays(past: seq<Moment>, now: seq<Moment>, from: nat)
    requires past <= now && from <= |past| && Sound(past, from) && Sound(now, |past|)
    ensures Sound(now, from)
  {
    forall i | from <= i < |past|
      ensures now[i].call == LoadCSV || Sensible(now, i)
    {
      assert past[i] == now[i] && (past[i].call == LoadCSV || Sensible(past, i));
    }
  }

  /** Gives the old database its name back. */
  method RenameHome(s: Server, k: Case) returns (err: bool)
    requires k.Valid() && k.Existed() && s.w.Quiet() && s.w.catalog == k.Moved() && k.SafeLog(s.log)
    requires s.home == k.name && OwnSink(s, k)
    modifies s
    ensures |s.log| == |old(s.log)| + 1 && old(s.log) <= s.log && k.SafeLog(s.log)
    ensures s.log[|old(s.log)|].call == Rename && s.log[|old(s.log)|].ok == !err && s.log[|old(s.log)|].possible
    ensures !err ==> s.log[|old(s.log)|].took
    ensures s.w.catalog == if s.log[|old(s.log)|].took then k.before else k.Moved()
  {
    RenameBack(k);
    PlacesAreSafe(k, k.before);
    PlacesAreSafe(k, k.Moved());
    var took;
    took, err := s.Rename(k.aside, k.name);
  }

  lemma MovedIsAside(k: Case)
    requires k.Valid()
    ensures k.Aside(k.Moved()) && k.OriginalKept(k.Moved()) && k.OriginalKept(k.before)
    ensures k.Existed() ==> !Truthful(k, k.aside, k.before) && Truthful(k, k.aside, k.Moved())
  {
    PlacesAreSafe(k, k.before);
    PlacesAreSafe(k, k.Moved());
  }

  /** Takes the half-built database away. */
  method DropBuilt(s: Server, k: Case) returns (err: bool)
    requires k.Valid() && s.w.Quiet() && k.Aside(s.w.catalog) && k.SafeLog(s.log)
    requires OwnSink(s, k) && Freed(s, k)
    modifies s
    ensures |s.log| == |old(s.log)| + 1 && old(s.log) <= s.log && k.SafeLog(s.log)
    ensures s.log[|old(s.log)|].call == Drop && s.log[|old(s.log)|].ok == !err
    ensures Sensible(s.log, |old(s.log)|) && OwnSink(s, k)
    ensures s.w.Quiet() && k.Aside(s.w.catalog) && (!err ==> s.w.catalog == k.Moved())
  {
    MovedIsAside(k);
    PlacesAreSafe(k, s.w.catalog);
    var took;
    took, err := s.Drop(k.name);
    assert k.Moved() - {k.name} == k.Moved();
  }

  lemma OneCall(past: seq<Moment>, now: seq<Moment>)
    requires past <= now && |now| == |past| + 1 && Sensible(now, |past|) && now[|past|].call != Terminate
    ensures Sound(now, |past|)
    ensures AllOk(now, |past|) <==> now[|past|].ok
    ensures now[|past|].call != Rename ==> RenamesHonest(now, |past|)
  {
  }

  lemma OneCallMore(past: seq<Moment>, mid: seq<Moment>, now: seq<Moment>)
    requires past <= mid <= now && |now| == |mid| + 1 && Sound(mid, |past|) && now[|mid|].possible
    requires now[|mid|].call == Rename && AllOk(mid, |past|) && RenamesHonest(mid, |past|)
    ensures Sound(now, |past|)
    ensures AllOk(now, |past|) <==> now[|mid|].ok
    ensures RenamesHonest(now, |past|) <==> (now[|mid|].took ==> now[|mid|].ok)
  {
    forall i | |past| <= i < |mid|
      ensures now[i] == mid[i] && (now[i].call == LoadCSV || Sensible(now, i))
    {
      assert mid[i].call == LoadCSV || Sensible(mid, i);
    }
  }

  /** Takes the half-built database away and gives the old one its name back. */
  method PutBack(s: Server, k: Case, previousName: string) returns (err: bool, name: string)
    requires k.Valid()
    requires s.w.Quiet() && k.Aside(s.w.catalog) && k.SafeLog(s.log)
    requires previousName == if k.Existed() then k.aside else ""
    requires s.home == k.name && OwnSink(s, k) && Freed(s, k)
    modifies s
    ensures old(s.log) <= s.log && k.SafeLog(s.log)
    ensures Sound(s.log, |old(s.log)|)
    ensures err <==> !AllOk(s.log, |old(s.log)|)
    ensures k.Home(s.w.catalog) || k.Aside(s.w.catalog)
    ensures !err ==> k.Home(s.w.catalog) && name == ""
    ensures Truthful(k, name, s.w.catalog) <==> RenamesHonest(s.log, |old(s.log)|)
  {
    name := previousName;
    MovedIsAside(k);
    err := DropBuilt(s, k);
    OneCall(old(s.log), s.log);
    AsideIsTruthful(k, s.w.catalog);
    if !err && name != "" {
      ghost var mid := s.log;
      err := RenameHome(s, k);
      OneCallMore(old(s.log), mid, s.log);
      if !err {
        name := "";
      }
    }
  }

  /** The way back, from wherever the restore failed after the rename. */
  method Rollback(s: Server, k: Case, want: int, previousName: string) returns (verdict: Verdict, name: string)
    requires s.home == k.name && s.schema == k.schema && want > 0
    requires k.Valid()
    requires k.Aside(s.w.catalog) && k.SafeLog(s.log) && OwnSink(s, k)
    requires previousName == if k.Existed() then k.aside else ""
    modifies s
    ensures old(s.log) <= s.log && k.SafeLog(s.log) && k.OriginalKept(s.w.catalog)
    ensures Sound(s.log, |old(s.log)|)
    ensures Undone(verdict)
    ensures verdict == RolledBack <==> AllOk(s.log, |old(s.log)|)
    ensures verdict == RolledBack ==> s.w.replicas == want && s.w.ready
    ensures verdict in {RolledBack, BackButDown} ==> k.Home(s.w.catalog) && name == ""
    ensures Truthful(k, name, s.w.catalog) <==> RenamesHonest(s.log, |old(s.log)|)
  {
    name := previousName;
    var err := Quiesce(s, k);
    if err {
      PlacesAreSafe(k, s.w.catalog);
      AsideIsTruthful(k, s.w.catalog);
      return Blocked, name;
    }
    ghost var stopped := s.log;
    err, name := PutBack(s, k, name);
    PlacesAreSafe(k, s.w.catalog);
    SoundStays(stopped, s.log, |old(s.log)|);
    if err {
      return Blocked, name;
    }
    ghost var back := s.log;
    err := Start(s, k, want);
    PlacesAreSafe(k, s.w.catalog);
    SoundStays(back, s.log, |old(s.log)|);
    return if err then BackButDown else RolledBack, name;
  }

  /** Stops the service; its sessions are ended whether or not that is reported to have worked. */
  method Quiesce(s: Server, k: Case) returns (err: bool)
    requires s.home == k.name && k.Valid() && k.Aside(s.w.catalog) && k.SafeLog(s.log) && OwnSink(s, k)
    modifies s
    ensures old(s.log) <= s.log && k.SafeLog(s.log) && s.w.catalog == old(s.w).catalog
    ensures forall i | |old(s.log)| <= i < |s.log| :: s.log[i].call in {Scale, WaitGone, Terminate}
    ensures err <==> !AllOk(s.log, |old(s.log)|)
    ensures AllPossible(s.log, |old(s.log)|)
    ensures !err ==> s.w.Quiet() && OwnSink(s, k) && Freed(s, k)
  {
    PlacesAreSafe(k, s.w.catalog);
    err := Stop(s, k);
    if !err {
      var took, ignored := s.Terminate(k.name);
    }
  }

  /** No call since `from` renames or creates a database. */
  ghost predicate NoneMoves(log: seq<Moment>, from: nat) {
    forall i | from <= i < |log| :: log[i].call != Rename && log[i].call != Create
  }

  lemma NothingMovedIsSafe(k: Case, w: World)
    requires w.Valid() && k.before == w.catalog && k.aside != k.name
    ensures k.OriginalKept(w.catalog) && Truthful(k, "", w.catalog)
  {
  }

  /** Some call since `from` failed that could have been carried out. */
  ghost predicate SomeFailed(log: seq<Moment>, from: nat) {
    exists i :: from <= i < |log| && !log[i].ok && log[i].possible
  }

  /** Some table did not get all the rows it was sent. */
  ghost predicate SomeShort(log: seq<Moment>, from: nat) {
    exists i :: from <= i < |log| && log[i].short
  }

  /** What happened since `from` has happened however the log grows. */
  lemma TroubleStays(past: seq<Moment>, now: seq<Moment>, from: nat)
    requires past <= now && from <= |past|
    ensures SomeFailed(past, from) || SomeFailed(now, |past|) ==> SomeFailed(now, from)
    ensures SomeShort(past, from) || SomeShort(now, |past|) ==> SomeShort(now, from)
  {
    if SomeFailed(past, from) {
      var i :| from <= i < |past| && !past[i].ok && past[i].possible;
      assert now[i] == past[i];
    }
    if SomeShort(past, from) {
      var i :| from <= i < |past| && past[i].short;
      assert now[i] == past[i];
    }
  }

  /** An archive that a database with these tables can take: it does not break off, has no other tables,
      and sends none twice so that counting could not come out. */
  predicate Takeable(entries: seq<Entry>, broken: bool, names: set<string>) {
    !broken && Known(entries, names) && Countable(entries)
  }

  /** Why a restore may be undone: a call failed that could have been carried out, a table did not get all
      its rows, or the archive is not one to take. */
  ghost predicate Cause(log: seq<Moment>, from: nat, entries: seq<Entry>, broken: bool, names: set<string>) {
    SomeFailed(log, from) || SomeShort(log, from) || !Takeable(entries, broken, names)
  }

  method AsideIsFree(s: Server, ghost k: Case, aside: string) returns (free: bool)
    requires s.w.Valid() && k.before == s.w.catalog && k.aside == aside && k.aside != k.name && s.log == []
    modifies s
    ensures s.w == old(s.w) && k.SafeLog(s.log) && NoneMoves(s.log, 0) && AllPossible(s.log, 0)
    ensures free ==> aside !in k.before && forall i | 0 <= i < |s.log| :: s.log[i].ok
    ensures !free ==> aside in k.before || SomeFailed(s.log, 0)
  {
    NothingMovedIsSafe(k, s.w);
    var taken, err := s.Exists(aside);
    free := !err && !taken;
    assert s.log[0].ok == !err && s.log[0].possible;
  }

  datatype Step = Go | Fail(verdict: Verdict)

  /** The calls since `past` concern the service only, over a catalog that stays as it is; they all
      succeeded if `ok`. */
  ghost predicate Undisturbed(past: seq<Moment>, s: Server, k: Case, c: Catalog, ok: bool)
    reads s
  {
    && past <= s.log && k.SafeLog(s.log) && s.w.catalog == c
    && forall i | |past| <= i < |s.log| ::
         (ok ==> s.log[i].ok) && s.log[i].possible && s.log[i].call in {Replicas, Scale, WaitGone, Terminate, Exists}
  }

  /** Stops the service and ends its sessions. */
  method Quieten(s: Server, k: Case) returns (err: bool)
    requires s.home == k.name && OwnSink(s, k)
    requires k.Valid() && k.SafeLog(s.log) && (k.Home(s.w.catalog) || k.Aside(s.w.catalog))
    modifies s
    ensures Undisturbed(old(s.log), s, k, old(s.w).catalog, !err)
    ensures s.w.nextOid == old(s.w).nextOid && (old(s.w).sink.None? ==> s.w.sink.None?)
    ensures OwnSink(s, k)
    ensures !err ==> s.w.Quiet() && !s.Busy(k.name)
    ensures err ==> SomeFailed(s.log, |old(s.log)|)
  {
    PlacesAreSafe(k, s.w.catalog);
    err := Stop(s, k);
    if !err {
      var took;
      took, err := s.Terminate(k.name);
      assert s.log[|s.log| - 1].ok == !err && s.log[|s.log| - 1].possible;
    }
  }

  /** Everything before the rename. */
  method Prepare(s: Server, k: Case) returns (err: bool, want: int, existed: bool)
    requires s.home == k.name && OwnSink(s, k)
    requires k.Valid() && k.SafeLog(s.log) && k.Home(s.w.catalog)
    modifies s
    ensures Undisturbed(old(s.log), s, k, old(s.w).catalog, !err)
    ensures s.w.nextOid == old(s.w).nextOid && (old(s.w).sink.None? ==> s.w.sink.None?)
    ensures want == if old(s.w).replicas == 0 then 1 else old(s.w).replicas
    ensures !err ==> s.w.Quiet() && !s.Busy(k.name) && existed == (k.name in s.w.catalog)
    ensures err ==> SomeFailed(s.log, |old(s.log)|)
  {
    PlacesAreSafe(k, s.w.catalog);
    existed := false;
    want, err := s.Replicas();
    assert s.log[|s.log| - 1].ok == !err && s.log[|s.log| - 1].possible;
    if want == 0 {
      want := 1;
    }
    if err { return; }
    err := Quieten(s, k);
    if err { return; }
    existed, err := s.Exists(k.name);
    assert s.log[|s.log| - 1].ok == !err && s.log[|s.log| - 1].possible;
  }

  /** From the first check to the rename. */
  method MoveAside(s: Server, k: Case) returns (step: Step, want: int, previousName: string, ghost again: nat)
    requires s.home == k.name && s.schema == k.schema && k.Valid()
    requires s.w.Valid() && s.w.catalog == k.before && s.w.sink.None? && k.SafeLog(s.log) && NoneMoves(s.log, 0)
    modifies s
    ensures old(s.log) <= s.log && k.SafeLog(s.log)
    ensures want == if old(s.w).replicas == 0 then 1 else old(s.w).replicas
    ensures step.Go? ==> s.w.catalog == k.Moved() && s.w.Quiet() && s.w.sink.None? && s.w.nextOid == old(s.w).nextOid
    ensures step.Go? ==> previousName == if k.Existed() then k.aside else ""
    ensures step.Go? ==> forall i | |old(s.log)| <= i < |s.log| :: s.log[i].ok
    ensures step.Fail? ==> step.verdict in {NotStarted, RenameFailed} && k.OriginalKept(s.w.catalog)
    ensures step.Fail? ==> (Truthful(k, previousName, s.w.catalog) <==> RenamesHonest(s.log, 0))
    ensures step == Fail(NotStarted) ==> s.w.catalog == k.before
    ensures step.Fail? ==> SomeFailed(s.log, 0)
    ensures AllPossible(s.log, |old(s.log)|)
    ensures step == Fail(RenameFailed) ==> |old(s.log)| <= again < |s.log| && Restarted(s.w, s.log, again, want)
    ensures forall m | m in s.log :: m.call != Create
  {
    again := 0;
    PlacesAreSafe(k, k.before);
    var err, existed;
    err, want, existed := Prepare(s, k);
    if err {
      return Fail(NotStarted), want, "", 0;
    }
    if !existed {
      return Go, want, "", 0;
    }
    step, previousName, again := RenameAside(s, k, want);
  }

  /** From `again` on the service was started, and it runs if that went well. */
  ghost predicate Restarted(w: World, log: seq<Moment>, again: nat, want: int) {
    && again < |log| && log[again].call == Scale
    && (AllOk(log, again) ==> w.ready && w.replicas == want)
  }

  method RenameAside(s: Server, k: Case, want: int) returns (step: Step, previousName: string, ghost again: nat)
    requires s.home == k.name && s.schema == k.schema && k.Valid() && k.Existed() && want > 0
    requires s.w.catalog == k.before && s.w.Quiet() && k.SafeLog(s.log) && NoneMoves(s.log, 0)
    requires !s.Busy(k.name)
    modifies s
    ensures AllPossible(s.log, |old(s.log)|)
    ensures step.Fail? ==> again > |old(s.log)| && Restarted(s.w, s.log, again, want)
    ensures old(s.log) <= s.log && k.SafeLog(s.log)
    ensures step.Go? ==>
      && s.w.catalog == k.Moved() && s.w.Quiet() && s.w.sink == old(s.w).sink && s.w.nextOid == old(s.w).nextOid
      && previousName == k.aside
      && forall i | |old(s.log)| <= i < |s.log| :: s.log[i].ok
    ensures step.Fail? ==>
      && step.verdict == RenameFailed && k.OriginalKept(s.w.catalog) && SomeFailed(s.log, 0)
      && (Truthful(k, previousName, s.w.catalog) <==> RenamesHonest(s.log, 0))
    ensures forall m | m in s.log :: m.call != Create
  {
    var err := RenameAway(s, k);
    if !err {
      return Go, k.aside, 0;
    }
    again := |s.log|;
    ghost var log := s.log;
    PlacesAreSafe(k, k.before);
    PlacesAreSafe(k, k.Moved());
    var ignored := Start(s, k, want);
    PlacesAreSafe(k, s.w.catalog);
    step, previousName := Fail(RenameFailed), "";
    RenameTold(k, old(s.log), log, s.log, s.w.catalog);
  }

  method RenameAway(s: Server, k: Case) returns (err: bool)
    requires k.Valid() && k.Existed() && s.w.catalog == k.before && s.w.Quiet() && k.SafeLog(s.log)
    requires !s.Busy(k.name)
    modifies s
    ensures |s.log| == |old(s.log)| + 1 && old(s.log) <= s.log && k.SafeLog(s.log)
    ensures
      var m := s.log[|old(s.log)|];
      && m.call == Rename && m.ok == !err && m.possible && (m.ok ==> m.took)
      && s.w == old(s.w).(catalog := if m.took then k.Moved() else k.before)
  {
    PlacesAreSafe(k, k.before);
    PlacesAreSafe(k, k.Moved());
    var took;
    took, err := s.Rename(k.name, k.aside);
  }

  /** After a rename that reported an error, naming no place is true exactly if it did not take effect. */
  lemma RenameTold(k: Case, before: seq<Moment>, renamed: seq<Moment>, log: seq<Moment>, c: Catalog)
    requires k.Valid() && k.Existed() && NoneMoves(before, 0)
    requires before <= renamed <= log && |renamed| == |before| + 1
    requires renamed[|before|].call == Rename && !renamed[|before|].ok && renamed[|before|].possible
    requires forall i | |renamed| <= i < |log| :: log[i].call in {Scale, WaitReady}
    requires if renamed[|before|].took then k.Aside(c) else k.Home(c)
    ensures SomeFailed(log, 0) && (Truthful(k, "", c) <==> RenamesHonest(log, 0))
    ensures forall m | m in log && m !in before :: m.call != Create
  {
    assert log[|before|] == renamed[|before|];
    assert forall i | 0 <= i < |before| :: log[i] == before[i];
    assert k.Aside(c) ==> k.aside in c - {k.name};
  }

  /** The new database, as `BuildTarget` leaves it. */
  function Fresh(k: Case, oid: nat): Database {
    Build(Database(oid, false, map[], map[], 0), k.schema)
  }

  /** Creates the empty database and has the service build its schema there. */
  method BuildTarget(s: Server, k: Case, want: int) returns (err: bool)
    requires s.home == k.name && s.schema == k.schema && k.Valid() && want > 0
    requires s.w.catalog == k.Moved() && s.w.Quiet() && s.w.sink.None? && k.SafeLog(s.log)
    requires k.Existed() ==> k.before[k.name].oid < s.w.nextOid
    modifies s
    ensures old(s.log) <= s.log && k.SafeLog(s.log) && k.Aside(s.w.catalog)
    ensures forall i | |old(s.log)| <= i < |s.log| :: s.log[i].call != Rename && (!err ==> s.log[i].ok)
    ensures !err ==> s.w.catalog == k.Moved()[k.name := Fresh(k, old(s.w).nextOid)]
    ensures !err ==> s.w.Quiet() && s.w.sink == Some(Sink(k.name, map[]))
    ensures err ==> SomeFailed(s.log, |old(s.log)|)
    ensures AllPossible(s.log, |old(s.log)|) && OwnSink(s, k)
  {
    err := MakeSchema(s, k, want);
    if err { return; }
    PlacesAreSafe(k, s.w.catalog);
    err := Quieten(s, k);
    if err { return; }
    var took;
    took, err := s.Open(k.name);
    assert s.log[|s.log| - 1].ok == !err && s.log[|s.log| - 1].possible;
  }

  method MakeSchema(s: Server, k: Case, want: int) returns (err: bool)
    requires s.home == k.name && s.schema == k.schema && k.Valid() && want > 0
    requires s.w.catalog == k.Moved() && s.w.sink.None? && k.SafeLog(s.log)
    requires k.Existed() ==> k.before[k.name].oid < s.w.nextOid
    modifies s
    ensures old(s.log) <= s.log && k.SafeLog(s.log) && k.Aside(s.w.catalog) && s.w.sink.None?
    ensures forall i | |old(s.log)| <= i < |s.log| :: s.log[i].call != Rename && (!err ==> s.log[i].ok)
    ensures !err ==> s.w.catalog == k.Moved()[k.name := Fresh(k, old(s.w).nextOid)]
    ensures err ==> SomeFailed(s.log, |old(s.log)|)
    ensures AllPossible(s.log, |old(s.log)|)
  {
    PlacesAreSafe(k, k.Moved());
    assert k.name !in k.Moved();
    var took;
    took, err := s.Create(k.name);
    assert s.log[|s.log| - 1].ok == !err && s.log[|s.log| - 1].possible;
    assert took ==> s.w.catalog - {k.name} == k.Moved();
    PlacesAreSafe(k, s.w.catalog);
    if err { return; }
    err := Start(s, k, want);
  }

  // ---- Filling ------------------------------------------------------------------------------

  /** Everything is quiet and the connection leads to a database of the restore's own. */
  ghost predicate Filling(s: Server, k: Case)
    reads s
  {
    && s.w.Quiet()
    && s.w.sink.Some? && s.w.sink.value.database == k.name && k.name in s.w.catalog
    && s.w.catalog == k.Moved()[k.name := s.w.catalog[k.name]]
    && (k.Existed() ==> s.w.catalog[k.name].oid != k.before[k.name].oid)
  }

  lemma FillingIsSafe(s: Server, k: Case)
    requires k.Valid() && Filling(s, k)
    ensures k.Aside(s.w.catalog) && k.OriginalKept(s.w.catalog)
  {
    assert s.w.catalog - {k.name} == k.Moved();
    PlacesAreSafe(k, s.w.catalog);
  }

  /** What the calls of the filling have in common. */
  ghost predicate Filled(s: Server, k: Case, past: seq<Moment>, err: bool)
    reads s
  {
    Filling(s, k) && k.SafeLog(s.log) && Stretch(past, s.log, !err)
  }

  /** The calls since `past` neither rename nor create, could be carried out but for COPY, and all succeeded
      if `ok`. */
  ghost predicate Stretch(past: seq<Moment>, now: seq<Moment>, ok: bool) {
    past <= now && forall i | |past| <= i < |now| ::
      && now[i].call != Rename && now[i].call != Create
      && (now[i].call == LoadCSV || now[i].possible) && (ok ==> now[i].ok)
  }

  lemma StretchOn(past: seq<Moment>, mid: seq<Moment>, now: seq<Moment>, ok: bool)
    requires Stretch(past, mid, true) && Stretch(mid, now, ok)
    ensures Stretch(past, now, ok)
    ensures SomeFailed(mid, |past|) || SomeFailed(now, |mid|) ==> SomeFailed(now, |past|)
    ensures SomeShort(mid, |past|) || SomeShort(now, |mid|) ==> SomeShort(now, |past|)
  {
    TroubleStays(mid, now, |past|);
    forall i | |past| <= i < |now|
      ensures
        && now[i].call != Rename && now[i].call != Create
        && (now[i].call == LoadCSV || now[i].possible) && (ok ==> now[i].ok)
    {
      if i < |mid| {
        assert mid[i] == now[i];
      }
    }
  }

  /** The tables after some of the archive has been read: bookkeeping as it was, the others with what
      has arrived so far, which counting can tell from all of it. */
  ghost predicate Arrived(tables: Tables, base: Tables, entries: seq<Entry>, rows: map<string, nat>) {
    ArrivedBut(BOOKKEEPING, tables, base, entries, rows)
  }

  ghost predicate ArrivedBut(book: set<string>, tables: Tables, base: Tables, entries: seq<Entry>,
                             rows: map<string, nat>)
  {
    && tables.Keys == base.Keys
    && (forall t | t in tables && t in book :: tables[t] == base[t])
    && (Distinct(entries) ==>
          && (forall t | t in tables && t !in book :: tables[t] <= RowsFor(entries, t))
          && (forall t | t in tables && t !in book && tables[t] != [] :: t in rows)
          && (forall t | t in rows :: t !in book && rows[t] == |RowsFor(entries, t)|)
          && (forall e | e in entries && e.table !in book :: e.table in rows && e.table in tables))
  }

  /** Every table holds as many rows as it was sent, and for every table sent the last number is noted. */
  ghost predicate Tally(book: set<string>, tables: Tables, entries: seq<Entry>, rows: map<string, nat>) {
    && (forall t | t in tables && t !in book :: |tables[t]| == Sent(entries, t))
    && (forall t | t in rows :: t !in book && t in tables && rows[t] == |RowsFor(entries, t)|)
    && (forall e | e in entries && e.table !in book :: e.table in rows)
  }

  /** Every table noted has the number of rows noted. */
  ghost predicate Counted(tables: Tables, rows: map<string, nat>) {
    forall t | t in rows :: t in tables && |tables[t]| == rows[t]
  }

  lemma TallySnoc(book: set<string>, tables: Tables, entries: seq<Entry>, rows: map<string, nat>, e: Entry)
    requires Tally(book, tables, entries, rows) && (e.table !in book ==> e.table in tables)
    ensures
      if e.table in book then Tally(book, tables, entries + [e], rows)
      else Tally(book, tables[e.table := tables[e.table] + e.rows], entries + [e], rows[e.table := |e.rows|])
  {
    EntriesSnoc(entries, e);
    assert (entries + [e])[..|entries|] == entries;
    assert forall f :: f in entries + [e] <==> f in entries || f == e;
    assert forall t :: Sent(entries + [e], t) == Sent(entries, t) + if e.table == t then |e.rows| else 0;
  }

  lemma {:induction false} SomeEntry(entries: seq<Entry>, t: string)
    requires Sent(entries, t) > 0
    ensures exists e :: e in entries && e.table == t
  {
    var last := entries[|entries| - 1];
    if last.table == t {
      assert last in entries;
    } else {
      SomeEntry(entries[..|entries| - 1], t);
    }
  }

  /** What is counted again is what was noted, exactly when the archive is countable. */
  lemma TallyCounts(tables: Tables, entries: seq<Entry>, rows: map<string, nat>)
    requires Tally(BOOKKEEPING, tables, entries, rows)
    ensures Counted(tables, rows) <==> Countable(entries)
  {
    if Countable(entries) {
      forall t | t in rows
        ensures |tables[t]| == rows[t]
      {
        if Sent(entries, t) > 0 {
          SomeEntry(entries, t);
        } else {
          NoneSent(entries, t);
        }
      }
    }
  }

  lemma {:induction false} NoneSent(entries: seq<Entry>, t: string)
    requires Sent(entries, t) == 0
    ensures RowsFor(entries, t) == []
  {
    if entries != [] && entries[|entries| - 1].table != t {
      NoneSent(entries[..|entries| - 1], t);
    }
  }

  lemma {:induction false} NoRows(entries: seq<Entry>, t: string)
    requires forall e | e in entries :: e.table != t
    ensures RowsFor(entries, t) == []
  {
    if entries != [] {
      NoRows(entries[..|entries| - 1], t);
    }
  }

  lemma EntriesSnoc(entries: seq<Entry>, e: Entry)
    ensures forall t :: RowsFor(entries + [e], t) == if e.table == t then e.rows else RowsFor(entries, t)
    ensures ArchiveVersion(entries + [e])
      == if e.table == "schema_version" && e.version.Some? then e.version.value else ArchiveVersion(entries)
    ensures Distinct(entries + [e]) ==> Distinct(entries) && RowsFor(entries, e.table) == []
  {
    var more := entries + [e];
    assert more[..|entries|] == entries;
    if Distinct(more) {
      assert forall i | 0 <= i < |entries| :: more[i] == entries[i] && more[|entries|] == e;
      NoRows(entries, e.table);
    }
  }

  lemma ArrivedSkip(book: set<string>, tables: Tables, base: Tables, entries: seq<Entry>, rows: map<string, nat>,
                    e: Entry)
    requires ArrivedBut(book, tables, base, entries, rows) && e.table in book
    ensures ArrivedBut(book, tables, base, entries + [e], rows)
  {
    EntriesSnoc(entries, e);
    assert forall f :: f in entries + [e] <==> f in entries || f == e;
  }

  lemma ArrivedLoad(book: set<string>, tables: Tables, base: Tables, entries: seq<Entry>, rows: map<string, nat>,
                    e: Entry, arrived: nat)
    requires ArrivedBut(book, tables, base, entries, rows) && e.table !in book
    requires e.table in tables && arrived <= |e.rows|
    ensures ArrivedBut(book, tables[e.table := tables[e.table] + e.rows[..arrived]], base, entries + [e],
                       rows[e.table := |e.rows|])
  {
    EntriesSnoc(entries, e);
    assert forall f :: f in entries + [e] <==> f in entries || f == e;
    if Distinct(entries + [e]) {
      assert tables[e.table] + e.rows[..arrived] == e.rows[..arrived];
    }
  }

  /** One table through COPY. */
  method LoadOne(s: Server, k: Case, e: Entry) returns (n: nat, ghost arrived: nat, err: bool)
    requires k.Valid() && Filling(s, k) && k.SafeLog(s.log)
    modifies s
    ensures Filled(s, k, old(s.log), err) && s.w.sink == old(s.w).sink
    ensures n == |e.rows| && arrived <= n
    ensures s.w.catalog[k.name] == old(s.w).catalog[k.name].(tables := s.w.catalog[k.name].tables)
    ensures !err ==>
      var t := old(s.w).catalog[k.name].tables;
      e.table in t && s.w.catalog[k.name].tables == t[e.table := t[e.table] + e.rows[..arrived]]
    ensures !err && arrived < n ==> SomeShort(s.log, |old(s.log)|)
    ensures err ==> SomeFailed(s.log, |old(s.log)|) || e.table !in old(s.w).catalog[k.name].tables
  {
    FillingIsSafe(s, k);
    var a, took;
    n, a, took, err := s.LoadCSV(e.table, e.rows);
    assert s.log[|s.log| - 1].ok == !err && (!err ==> s.log[|s.log| - 1].short == (a < n));
    assert e.table in old(s.w).catalog[k.name].tables ==> s.log[|s.log| - 1].possible;
    arrived := a;
    FillingIsSafe(s, k);
  }

  lemma VersionSnoc(entries: seq<Entry>, e: Entry)
    ensures ArchiveVersion(entries + [e])
      == if e.table == "schema_version" && e.version.Some? then e.version.value else ArchiveVersion(entries)
  {
    EntriesSnoc(entries, e);
  }

  lemma TallyLoad(book: set<string>, tables: Tables, entries: seq<Entry>, rows: map<string, nat>, e: Entry,
                  arrived: nat)
    requires e.table !in book && e.table in tables && arrived == |e.rows|
    requires Tally(book, tables, entries, rows)
    ensures Tally(book, tables[e.table := tables[e.table] + e.rows[..arrived]], entries + [e],
                  rows[e.table := |e.rows|])
  {
    assert e.rows[..arrived] == e.rows;
    TallySnoc(book, tables, entries, rows, e);
  }

  /** One entry of the archive: bookkeeping is only looked at for its version, other tables are loaded. */
  method LoadEntry(s: Server, k: Case, e: Entry, ghost base: Tables, ghost seen: seq<Entry>, rows: map<string, nat>,
                   total: nat, version: nat)
    returns (err: bool, more: map<string, nat>, sum: nat, newer: nat)
    requires k.Valid() && Filling(s, k) && k.SafeLog(s.log)
    requires Arrived(s.w.catalog[k.name].tables, base, seen, rows) && version == ArchiveVersion(seen)
    requires Reported(rows, total, seen, base.Keys)
    modifies s
    ensures Filled(s, k, old(s.log), err) && s.w.sink == old(s.w).sink
    ensures s.w.catalog[k.name] == old(s.w).catalog[k.name].(tables := s.w.catalog[k.name].tables)
    ensures !err ==> Arrived(s.w.catalog[k.name].tables, base, seen + [e], more)
    ensures !err ==> newer == ArchiveVersion(seen + [e])
    ensures err ==> SomeFailed(s.log, |old(s.log)|) || !Known([e], base.Keys)
    ensures !err ==> Reported(more, sum, seen + [e], base.Keys)
    ensures
      var complete := Tally(BOOKKEEPING, old(s.w).catalog[k.name].tables, seen, rows);
      !err && complete ==>
        SomeShort(s.log, |old(s.log)|) || Tally(BOOKKEEPING, s.w.catalog[k.name].tables, seen + [e], more)
  {
    VersionSnoc(seen, e);
    if Known([e], base.Keys) {
      ReportedSnoc(rows, total, seen, e, base.Keys);
    }
    err, more, sum, newer := false, rows, total, version;
    if e.table in BOOKKEEPING {
      if e.table == "schema_version" && e.version.Some? {
        newer := e.version.value;
      }
      ArrivedSkip(BOOKKEEPING, s.w.catalog[k.name].tables, base, seen, rows, e);
      if Tally(BOOKKEEPING, s.w.catalog[k.name].tables, seen, rows) {
        TallySnoc(BOOKKEEPING, s.w.catalog[k.name].tables, seen, rows, e);
      }
      return;
    }
    assert e.table != "schema_version" by {
      assert "schema_version" in BOOKKEEPING;
    }
    ghost var tables := s.w.catalog[k.name].tables;
    var n;
    ghost var arrived;
    n, arrived, err := LoadOne(s, k, e);
    if !err {
      ArrivedLoad(BOOKKEEPING, tables, base, seen, rows, e, arrived);
      more, sum := rows[e.table := n], total + n;
      if arrived == n && Tally(BOOKKEEPING, tables, seen, rows) {
        TallyLoad(BOOKKEEPING, tables, seen, rows, e, arrived);
      }
    }
  }

  lemma KnownPart(entries: seq<Entry>, i: nat, names: set<string>)
    requires i < |entries| && !Known([entries[i]], names)
    ensures !Known(entries, names)
  {
    assert entries[i] in entries;
  }

  lemma OneEntryMore(entries: seq<Entry>, i: nat)
    requires i < |entries|
    ensures entries[..i + 1] == entries[..i] + [entries[i]]
  {
  }

  /** Every data table of the archive has been noted with the number of its rows. */
  ghost predicate Noted(rows: map<string, nat>, entries: seq<Entry>) {
    && rows.Keys == (set e | e in entries && e.table !in BOOKKEEPING :: e.table)
    && forall t | t in rows :: rows[t] == |RowsFor(entries, t)|
  }

  lemma NotedSnoc(rows: map<string, nat>, entries: seq<Entry>, e: Entry)
    requires Noted(rows, entries)
    ensures Noted(if e.table in BOOKKEEPING then rows else rows[e.table := |e.rows|], entries + [e])
  {
    EntriesSnoc(entries, e);
    assert forall f :: f in entries + [e] <==> f in entries || f == e;
  }

  /** What is reported of the rows fits the archive, and the schema has all its data tables. */
  ghost predicate Reported(rows: map<string, nat>, total: nat, entries: seq<Entry>, names: set<string>) {
    Noted(rows, entries) && total == TotalRows(entries) && Known(entries, names)
  }

  lemma ReportedSnoc(rows: map<string, nat>, total: nat, entries: seq<Entry>, e: Entry, names: set<string>)
    requires Reported(rows, total, entries, names) && Known([e], names)
    ensures
      Reported(if e.table in BOOKKEEPING then rows else rows[e.table := |e.rows|], total + DataRows(e),
               entries + [e], names)
  {
    NotedSnoc(rows, entries, e);
    assert (entries + [e])[..|entries|] == entries;
    assert forall f :: f in entries + [e] <==> f in entries || f == e;
  }

  function DataRows(e: Entry): nat {
    if e.table in BOOKKEEPING then 0 else |e.rows|
  }

  /** The rows of all data tables together. */
  function TotalRows(entries: seq<Entry>): nat {
    if entries == [] then 0 else TotalRows(entries[..|entries| - 1]) + DataRows(entries[|entries| - 1])
  }

  /** Every data table of the archive is one of `names`. */
  predicate Known(entries: seq<Entry>, names: set<string>) {
    forall e | e in entries && e.table !in BOOKKEEPING :: e.table in names
  }

  /** Streams the archive's tables in. */
  method Load(s: Server, k: Case, entries: seq<Entry>, broken: bool)
    returns (err: bool, rows: map<string, nat>, total: nat, version: nat)
    requires k.Valid() && Filling(s, k) && k.SafeLog(s.log)
    requires forall t | t in s.w.catalog[k.name].tables && t !in BOOKKEEPING :: s.w.catalog[k.name].tables[t] == []
    modifies s
    ensures Filled(s, k, old(s.log), err)
    ensures s.w.sink == old(s.w).sink
    ensures s.w.catalog[k.name] == old(s.w).catalog[k.name].(tables := s.w.catalog[k.name].tables)
    ensures !err ==> Arrived(s.w.catalog[k.name].tables, old(s.w).catalog[k.name].tables, entries, rows)
    ensures !err ==> version == ArchiveVersion(entries)
    ensures err ==>
      SomeFailed(s.log, |old(s.log)|) || broken || !Known(entries, old(s.w).catalog[k.name].tables.Keys)
    ensures !err ==> !broken && Reported(rows, total, entries, old(s.w).catalog[k.name].tables.Keys)
    ensures !err ==> SomeShort(s.log, |old(s.log)|) || Tally(BOOKKEEPING, s.w.catalog[k.name].tables, entries, rows)
  {
    ghost var base := s.w.catalog[k.name].tables;
    ghost var seen: seq<Entry> := [];
    err, rows, total, version := false, map[], 0, 0;
    for i := 0 to |entries|
      invariant Filled(s, k, old(s.log), false)
      invariant s.w.sink == old(s.w).sink
      invariant s.w.catalog[k.name] == old(s.w).catalog[k.name].(tables := s.w.catalog[k.name].tables)
      invariant seen == entries[..i]
      invariant Arrived(s.w.catalog[k.name].tables, base, seen, rows)
      invariant version == ArchiveVersion(seen)
      invariant Reported(rows, total, seen, base.Keys)
      invariant SomeShort(s.log, |old(s.log)|) || Tally(BOOKKEEPING, s.w.catalog[k.name].tables, seen, rows)
    {
      OneEntryMore(entries, i);
      if !Known([entries[i]], base.Keys) {
        KnownPart(entries, i, base.Keys);
      }
      ghost var past := s.log;
      err, rows, total, version := LoadEntry(s, k, entries[i], base, seen, rows, total, version);
      StretchOn(old(s.log), past, s.log, !err);
      seen := seen + [entries[i]];
      if err {
        return;
      }
    }
    assert seen == entries;
    err := broken;
  }

  /** Empties what the archive is to fill. */
  method Truncate(s: Server, k: Case) returns (err: bool)
    requires k.Valid() && Filling(s, k) && k.SafeLog(s.log)
    modifies s
    ensures Filled(s, k, old(s.log), err) && s.w.sink == old(s.w).sink
    ensures
      var db := old(s.w).catalog[k.name];
      !err ==> s.w.catalog[k.name] == Emptied(db, s.dependents)
    ensures err ==> SomeFailed(s.log, |old(s.log)|)
  {
    FillingIsSafe(s, k);
    var took;
    took, err := s.TruncateAll();
    assert s.log[|s.log| - 1].ok == !err && s.log[|s.log| - 1].possible;
    FillingIsSafe(s, k);
  }

  /** Sets the service's own rows aside. */
  method Keep(s: Server, k: Case) returns (err: bool)
    requires k.Valid() && Filling(s, k) && k.SafeLog(s.log)
    modifies s
    ensures Filled(s, k, old(s.log), err) && s.w.catalog == old(s.w).catalog
    ensures
      var t := old(s.w).catalog[k.name].tables;
      !err ==> s.w.sink.value.kept == if MERGED in t then map[MERGED := t[MERGED]] else map[]
    ensures err ==> SomeFailed(s.log, |old(s.log)|)
  {
    FillingIsSafe(s, k);
    var took;
    err := s.DeferConstraints();
    assert s.log[|s.log| - 1].ok == !err && s.log[|s.log| - 1].possible;
    if err { return; }
    took, err := s.KeepTargetOnly();
    assert s.log[|s.log| - 1].ok == !err && s.log[|s.log| - 1].possible;
  }

  /** Sets the service's own rows aside and empties what the archive is to fill. */
  method Empty(s: Server, k: Case) returns (err: bool)
    requires k.Valid() && Filling(s, k) && k.SafeLog(s.log)
    modifies s
    ensures Filled(s, k, old(s.log), err)
    ensures
      var db := old(s.w).catalog[k.name];
      !err ==>
        && s.w.catalog[k.name] == Emptied(db, s.dependents)
        && s.w.sink.value.kept == if MERGED in db.tables then map[MERGED := db.tables[MERGED]] else map[]
    ensures err ==> SomeFailed(s.log, |old(s.log)|)
  {
    err := Keep(s, k);
    if err { return; }
    err := Truncate(s, k);
  }

  /** Sets the counters and counts what arrived. */
  method Complete(s: Server, k: Case, counters: seq<Counter>, rows: map<string, nat>) returns (err: bool)
    requires k.Valid() && Filling(s, k) && k.SafeLog(s.log)
    modifies s
    ensures Filled(s, k, old(s.log), err) && s.w.sink == old(s.w).sink
    ensures
      var db := old(s.w).catalog[k.name];
      !err ==>
        && s.w.catalog[k.name] == db.(counters := WithCounters(db.counters, counters))
        && Counted(db.tables, rows)
    ensures
      var db := old(s.w).catalog[k.name];
      err ==> SomeFailed(s.log, |old(s.log)|) || !Counted(db.tables, rows)
  {
    FillingIsSafe(s, k);
    var done, bad;
    done, err := s.SetSequences(counters);
    assert s.log[|s.log| - 1].ok == !err && s.log[|s.log| - 1].possible;
    FillingIsSafe(s, k);
    assert counters[..|counters|] == counters;
    if err { return; }
    bad, err := s.Verify(rows);
    assert s.log[|s.log| - 1].ok == !err && s.log[|s.log| - 1].possible;
    if !err && bad != {} {
      ghost var t :| t in bad;
      err := true;
    }
    if !err {
      assert forall t | t in rows :: t !in bad;
    }
  }

  /** Puts back what only the target had, if it runs a newer schema than the archive's. */
  method Reconcile(s: Server, k: Case, version: nat) returns (err: bool)
    requires k.Valid() && Filling(s, k) && k.SafeLog(s.log)
    modifies s
    ensures Filled(s, k, old(s.log), err)
    ensures
      var db, kept := old(s.w).catalog[k.name], old(s.w).sink.value.kept;
      !err ==>
        s.w.catalog[k.name] == (
          if 0 < version < db.schemaVersion && MERGED in kept && MERGED in db.tables
          then db.(tables := db.tables[MERGED := db.tables[MERGED] + Extras(kept[MERGED], db.tables[MERGED])])
          else db)
    ensures err ==> SomeFailed(s.log, |old(s.log)|)
  {
    FillingIsSafe(s, k);
    var target, took;
    target, err := s.SchemaVersion();
    assert s.log[|s.log| - 1].ok == !err && s.log[|s.log| - 1].possible;
    if err || target == 0 || version == 0 {
      return;
    }
    if target > version {
      took, err := s.MergeKept();
      assert s.log[|s.log| - 1].ok == !err && s.log[|s.log| - 1].possible;
      FillingIsSafe(s, k);
    }
  }

  /** Everything after the rows: the counters, the counting, and the rows of the service's own. */
  method Settle(s: Server, k: Case, counters: seq<Counter>, rows: map<string, nat>, version: nat) returns (err: bool)
    requires k.Valid() && Filling(s, k) && k.SafeLog(s.log)
    modifies s
    ensures Filled(s, k, old(s.log), err)
    ensures
      var db, kept := old(s.w).catalog[k.name], old(s.w).sink.value.kept;
      var all := db.(counters := WithCounters(db.counters, counters));
      !err ==>
        && Counted(db.tables, rows)
        && s.w.catalog[k.name] == (
          if 0 < version < all.schemaVersion && MERGED in kept && MERGED in all.tables
          then all.(tables := all.tables[MERGED := all.tables[MERGED] + Extras(kept[MERGED], all.tables[MERGED])])
          else all)
    ensures
      var db := old(s.w).catalog[k.name];
      err ==> SomeFailed(s.log, |old(s.log)|) || !Counted(db.tables, rows)
  {
    err := Complete(s, k, counters, rows);
    if err { return; }
    ghost var completed := s.log;
    err := Reconcile(s, k, version);
    StretchOn(old(s.log), completed, s.log, !err);
  }

  /** Counting settles it: what arrived is all of the archive. */
  lemma AllArrived(tables: Tables, base: Tables, entries: seq<Entry>, rows: map<string, nat>)
    requires Arrived(tables, base, entries, rows)
    requires Counted(tables, rows)
    ensures Distinct(entries) ==> forall t | t in tables && t !in BOOKKEEPING :: tables[t] == RowsFor(entries, t)
  {
    if Distinct(entries) {
      forall t | t in tables && t !in BOOKKEEPING
        ensures tables[t] == RowsFor(entries, t)
      {
        if t !in rows {
          forall e | e in entries
            ensures e.table != t
          {
          }
          NoRows(entries, t);
        }
      }
    }
  }

  /** From the empty schema to the archive's content. */
  method Fill(s: Server, k: Case, entries: seq<Entry>, broken: bool, counters: seq<Counter>)
    returns (err: bool, rows: map<string, nat>, total: nat)
    requires k.Valid() && Filling(s, k) && k.SafeLog(s.log) && s.schema == k.schema
    requires s.w.catalog[k.name] == Fresh(k, s.w.catalog[k.name].oid)
    modifies s
    ensures Filled(s, k, old(s.log), err)
    ensures !err ==>
      Content(s.w.catalog[k.name], k.schema, s.dependents, entries, counters) && s.w.catalog[k.name].built
    ensures err ==> Cause(s.log, |old(s.log)|, entries, broken, k.schema.tables.Keys)
    ensures !err ==> SomeShort(s.log, |old(s.log)|) || Takeable(entries, broken, k.schema.tables.Keys)
    ensures !err ==> !broken && Reported(rows, total, entries, k.schema.tables.Keys)
  {
    rows, total := map[], 0;
    err := Empty(s, k);
    if err { return; }
    ghost var emptied := s.log;
    var version;
    err, rows, total, version := Load(s, k, entries, broken);
    StretchOn(old(s.log), emptied, s.log, !err);
    if err { return; }
    ghost var loaded, filled := s.w.catalog[k.name], s.log;
    if Tally(BOOKKEEPING, loaded.tables, entries, rows) {
      TallyCounts(loaded.tables, entries, rows);
    }
    err := Settle(s, k, counters, rows, version);
    StretchOn(old(s.log), filled, s.log, !err);
    if err { return; }
    FilledContent(k, s.dependents, entries, counters, rows, loaded, s.w.catalog[k.name]);
  }

  lemma FilledContent(k: Case, dependents: set<string>, entries: seq<Entry>, counters: seq<Counter>,
                      rows: map<string, nat>, loaded: Database, db: Database)
    requires loaded == Emptied(Fresh(k, loaded.oid), dependents).(tables := loaded.tables)
    requires Arrived(loaded.tables, Truncated(k.schema.tables, dependents), entries, rows)
    requires Counted(loaded.tables, rows)
    requires
      var t, all := k.schema.tables, loaded.(counters := WithCounters(loaded.counters, counters));
      db == if 0 < ArchiveVersion(entries) < VersionLeft(k.schema.version, dependents) && MERGED in t
            then all.(tables := all.tables[MERGED := all.tables[MERGED] + Extras(t[MERGED], all.tables[MERGED])])
            else all
    ensures Content(db, k.schema, dependents, entries, counters)
  {
    AllArrived(loaded.tables, Truncated(k.schema.tables, dependents), entries, rows);
    MergedIsData();
  }

  lemma MergedIsData()
    ensures MERGED !in BOOKKEEPING
  {
  }

  // ---- The whole restore --------------------------------------------------------------------

  /** What a restore of `k` promises of its calls from `first` on, however each of them turned out.
      `began` is where the way back begins, if it was taken; `loaded` where the final start does. */
  ghost predicate Promise(k: Case, w: World, log: seq<Moment>, first: nat, previousName: string, verdict: Verdict,
                          want: int, began: nat, loaded: nat)
  {
    && k.SafeLog(log) && k.OriginalKept(w.catalog)
    && (Truthful(k, previousName, w.catalog) <==> RenamesHonest(log, first))
    && (verdict in {NotStarted, RenameFailed} ==> forall m | m in log :: m.call != Create)
    && (verdict == NotStarted ==> w.catalog == k.before)
    && (verdict in {NotStarted, RenameFailed} ==> k.aside in k.before || SomeFailed(log, first))
    && (verdict == RenameFailed ==> Restarted(w, log, began, want))
    && (Undone(verdict) ==> Returned(k, w, log, first, previousName, verdict, want, began))
    && (verdict in {Restored, NotReady} ==> Arranged(k, w, log, first, previousName, verdict, want, loaded))
  }

  /** The restore failed between creating the database and the final start, and was undone. */
  ghost predicate Returned(k: Case, w: World, log: seq<Moment>, first: nat, previousName: string, verdict: Verdict,
                           want: int, began: nat)
  {
    && first <= began <= |log|
    && (verdict == RolledBack <==> AllOk(log, began))
    && (verdict == RolledBack ==> w.ready && w.replicas == want)
    && (verdict in {RolledBack, BackButDown} ==> k.Home(w.catalog) && previousName == "")
  }

  /** Every call up to the final start succeeded, and the archive's data are in place. */
  ghost predicate Arranged(k: Case, w: World, log: seq<Moment>, first: nat, previousName: string, verdict: Verdict,
                           want: int, loaded: nat)
  {
    && first <= loaded <= |log|
    && (forall i | first <= i < loaded :: log[i].ok)
    && (forall i | loaded <= i < |log| :: log[i].call in {Close, Scale, WaitReady})
    && (verdict == Restored <==> AllOk(log, first))
    && (verdict == Restored ==> w.ready && w.replicas == want)
    && previousName == (if k.Existed() then k.aside else "")
    && k.name in w.catalog && w.catalog == k.Moved()[k.name := w.catalog[k.name]]
  }

  /** The archive was one to take, as far as counting can tell, and its rows are reported. */
  ghost predicate Accepted(log: seq<Moment>, from: nat, entries: seq<Entry>, broken: bool, names: set<string>,
                           rows: map<string, nat>, total: nat)
  {
    && !broken && Reported(rows, total, entries, names)
    && (SomeShort(log, from) || Countable(entries))
  }

  /** The database is made, filled and put in service, or the way back is taken. */
  method Deliver(s: Server, k: Case, want: int, previousName: string, entries: seq<Entry>, broken: bool,
                 counters: seq<Counter>)
    returns (name: string, verdict: Verdict, rows: map<string, nat>, total: nat, ghost began: nat, ghost loaded: nat)
    requires s.home == k.name && s.schema == k.schema && k.Valid() && want > 0
    requires s.w.catalog == k.Moved() && s.w.Quiet() && s.w.sink.None? && k.SafeLog(s.log)
    requires k.Existed() ==> k.before[k.name].oid < s.w.nextOid
    requires previousName == if k.Existed() then k.aside else ""
    modifies s
    ensures old(s.log) <= s.log && verdict !in {NotStarted, RenameFailed}
    ensures Promise(k, s.w, s.log, |old(s.log)|, name, verdict, want, began, loaded)
    ensures verdict in {Restored, NotReady} ==> Content(s.w.catalog[k.name], k.schema, s.dependents, entries, counters)
    ensures Undone(verdict) ==> Cause(s.log[..began], |old(s.log)|, entries, broken, k.schema.tables.Keys)
    ensures !Undone(verdict) ==> Accepted(s.log, |old(s.log)|, entries, broken, k.schema.tables.Keys, rows, total)
    ensures Sound(s.log, |old(s.log)|)
  {
    name, verdict, rows, total, began, loaded := DeliverOpen(s, k, want, previousName, entries, broken, counters);
    ghost var w, log := s.w, s.log;
    s.CloseSink();
    ClosingKeeps(k, w, log, s.log[|log|], |old(s.log)|, name, verdict, want, began, loaded);
    TroubleStays(log, s.log, |old(s.log)|);
    SoundStays(log, s.log, |old(s.log)|);
    assert Undone(verdict) ==> s.log[..began] == log[..began];
  }

  lemma SoundAfter(past: seq<Moment>, mid: seq<Moment>, now: seq<Moment>)
    requires past <= mid <= now && Sound(now, |mid|)
    requires forall i | |past| <= i < |mid| :: mid[i].call == LoadCSV || mid[i].possible
    ensures Sound(now, |past|)
  {
    forall i | |past| <= i < |mid|
      ensures now[i].call == LoadCSV || Sensible(now, i)
    {
      assert now[i] == mid[i];
    }
  }

  /** The way back, as the whole sees it from `first` on. */
  method TurnBack(s: Server, k: Case, want: int, previousName: string, ghost first: seq<Moment>)
    returns (verdict: Verdict, name: string)
    requires s.home == k.name && s.schema == k.schema && want > 0 && k.Valid()
    requires k.Aside(s.w.catalog) && k.SafeLog(s.log) && OwnSink(s, k)
    requires previousName == if k.Existed() then k.aside else ""
    requires first <= s.log
    requires forall i | |first| <= i < |s.log| ::
      s.log[i].call != Rename && (s.log[i].call == LoadCSV || s.log[i].possible)
    modifies s
    ensures old(s.log) <= s.log && s.log[..|old(s.log)|] == old(s.log)
    ensures Undone(verdict) && Sound(s.log, |first|)
    ensures Promise(k, s.w, s.log, |first|, name, verdict, want, |old(s.log)|, 0)
  {
    verdict, name := Rollback(s, k, want, previousName);
    SoundAfter(first, old(s.log), s.log);
    ReturnedFrom(k, s.w, s.log, |first|, name, verdict, want, |old(s.log)|);
  }

  /** The same before the connection is closed. */
  method DeliverOpen(s: Server, k: Case, want: int, previousName: string, entries: seq<Entry>, broken: bool,
                     counters: seq<Counter>)
    returns (name: string, verdict: Verdict, rows: map<string, nat>, total: nat, ghost began: nat, ghost loaded: nat)
    requires s.home == k.name && s.schema == k.schema && k.Valid() && want > 0
    requires s.w.catalog == k.Moved() && s.w.Quiet() && s.w.sink.None? && k.SafeLog(s.log)
    requires k.Existed() ==> k.before[k.name].oid < s.w.nextOid
    requires previousName == if k.Existed() then k.aside else ""
    modifies s
    ensures old(s.log) <= s.log && verdict !in {NotStarted, RenameFailed}
    ensures Promise(k, s.w, s.log, |old(s.log)|, name, verdict, want, began, loaded)
    ensures verdict in {Restored, NotReady} ==> Content(s.w.catalog[k.name], k.schema, s.dependents, entries, counters)
    ensures Undone(verdict) ==> Cause(s.log[..began], |old(s.log)|, entries, broken, k.schema.tables.Keys)
    ensures !Undone(verdict) ==> Accepted(s.log, |old(s.log)|, entries, broken, k.schema.tables.Keys, rows, total)
    ensures Sound(s.log, |old(s.log)|)
  {
    name, began, loaded := previousName, 0, 0;
    var err;
    err, rows, total := Arrange(s, k, want, entries, broken, counters);
    if err {
      began := |s.log|;
      verdict, name := TurnBack(s, k, want, previousName, old(s.log));
    } else {
      loaded := |s.log|;
      ghost var arranged := s.log;
      verdict := PutInService(s, k, want);
      TroubleStays(arranged, s.log, |old(s.log)|);
      SoundAfter(old(s.log), arranged, s.log);
      ArrangedFrom(k, s.w, s.log, |old(s.log)|, name, verdict, want, loaded);
    }
  }

  /** Everything between the rename and the final start. */
  method Arrange(s: Server, k: Case, want: int, entries: seq<Entry>, broken: bool, counters: seq<Counter>)
    returns (err: bool, rows: map<string, nat>, total: nat)
    requires s.home == k.name && s.schema == k.schema && k.Valid() && want > 0
    requires s.w.catalog == k.Moved() && s.w.Quiet() && s.w.sink.None? && k.SafeLog(s.log)
    requires k.Existed() ==> k.before[k.name].oid < s.w.nextOid
    modifies s
    ensures old(s.log) <= s.log && k.SafeLog(s.log) && k.Aside(s.w.catalog)
    ensures forall i | |old(s.log)| <= i < |s.log| :: s.log[i].call != Rename && (!err ==> s.log[i].ok)
    ensures !err ==> Filling(s, k) && s.w.catalog[k.name].built
    ensures !err ==> Content(s.w.catalog[k.name], k.schema, s.dependents, entries, counters)
    ensures err ==> Cause(s.log, |old(s.log)|, entries, broken, k.schema.tables.Keys)
    ensures !err ==> SomeShort(s.log, |old(s.log)|) || Takeable(entries, broken, k.schema.tables.Keys)
    ensures !err ==> !broken && Reported(rows, total, entries, k.schema.tables.Keys)
    ensures OwnSink(s, k)
    ensures forall i | |old(s.log)| <= i < |s.log| :: s.log[i].call == LoadCSV || s.log[i].possible
  {
    rows, total := map[], 0;
    err := BuildTarget(s, k, want);
    if err { return; }
    ghost var built := s.log;
    err, rows, total := Fill(s, k, entries, broken, counters);
    TroubleStays(built, s.log, |old(s.log)|);
    FillingIsSafe(s, k);
  }

  lemma ReturnedFrom(k: Case, w: World, log: seq<Moment>, first: nat, name: string, verdict: Verdict, want: int,
                     began: nat)
    requires k.SafeLog(log) && k.OriginalKept(w.catalog) && Undone(verdict)
    requires first <= began <= |log|
    requires forall i | first <= i < began :: log[i].call != Rename
    requires verdict == RolledBack <==> AllOk(log, began)
    requires verdict == RolledBack ==> w.ready && w.replicas == want
    requires verdict in {RolledBack, BackButDown} ==> k.Home(w.catalog) && name == ""
    requires Truthful(k, name, w.catalog) <==> RenamesHonest(log, began)
    ensures Promise(k, w, log, first, name, verdict, want, began, 0)
  {
    assert RenamesHonest(log, first) <==> RenamesHonest(log, began);
  }

  lemma ArrangedFrom(k: Case, w: World, log: seq<Moment>, first: nat, name: string, verdict: Verdict, want: int,
                     loaded: nat)
    requires k.Valid() && k.SafeLog(log) && k.Aside(w.catalog) && name == if k.Existed() then k.aside else ""
    requires first <= loaded <= |log| && verdict in {Restored, NotReady}
    requires forall i | first <= i < loaded :: log[i].ok && log[i].call != Rename
    requires forall i | loaded <= i < |log| :: log[i].call in {Close, Scale, WaitReady}
    requires verdict == Restored <==> AllOk(log, loaded)
    requires verdict == Restored ==> w.ready && w.replicas == want
    requires k.name in w.catalog && w.catalog == k.Moved()[k.name := w.catalog[k.name]]
    ensures Promise(k, w, log, first, name, verdict, want, 0, loaded)
  {
    PlacesAreSafe(k, w.catalog);
    AsideIsTruthful(k, w.catalog);
    assert AllOk(log, first) <==> AllOk(log, loaded);
    assert RenamesHonest(log, first);
  }

  /** The deferred close at the end changes nothing the promise speaks of. */
  lemma ClosingKeeps(k: Case, w: World, log: seq<Moment>, m: Moment, first: nat, name: string, verdict: Verdict,
                     want: int, began: nat, loaded: nat)
    requires Promise(k, w, log, first, name, verdict, want, began, loaded) && verdict !in {NotStarted, RenameFailed}
    requires m.call == Close && m.ok && m.catalog == w.catalog
    ensures Promise(k, w.(sink := None), log + [m], first, name, verdict, want, began, loaded)
  {
    var more := log + [m];
    assert forall i | 0 <= i < |log| :: more[i] == log[i];
    assert forall from: nat :: AllOk(more, from) <==> AllOk(log, from);
    assert RenamesHonest(more, first) <==> RenamesHonest(log, first);
    assert forall x :: x in more <==> x in log || x == m;
  }

  method PutInService(s: Server, k: Case, want: int) returns (verdict: Verdict)
    requires s.home == k.name && s.schema == k.schema && k.Valid() && want > 0
    requires Filling(s, k) && k.SafeLog(s.log) && s.w.catalog[k.name].built
    modifies s
    ensures old(s.log) <= s.log && k.SafeLog(s.log) && k.Aside(s.w.catalog)
    ensures forall i | |old(s.log)| <= i < |s.log| :: s.log[i].call in {Close, Scale, WaitReady}
    ensures verdict in {Restored, NotReady} && (verdict == Restored <==> AllOk(s.log, |old(s.log)|))
    ensures AllPossible(s.log, |old(s.log)|)
    ensures verdict == Restored ==> s.w.ready && s.w.replicas == want
    ensures s.w.catalog == old(s.w).catalog
  {
    FillingIsSafe(s, k);
    s.CloseSink();
    var err := Start(s, k, want);
    verdict := if err then NotReady else Restored;
  }

  lemma WholePromise(k: Case, w: World, log: seq<Moment>, first: nat, previousName: string, verdict: Verdict,
                     want: int, began: nat, loaded: nat)
    requires Promise(k, w, log, first, previousName, verdict, want, began, loaded)
    requires first <= |log| && verdict !in {NotStarted, RenameFailed}
    requires forall i | 0 <= i < first :: log[i].ok
    ensures Promise(k, w, log, 0, previousName, verdict, want, began, loaded)
  {
  }

  /** Without a cause the verdict is settled by the archive. */
  lemma SmoothIsRestored(k: Case, w: World, log: seq<Moment>, previousName: string, verdict: Verdict, want: int,
                         began: nat, loaded: nat, entries: seq<Entry>, broken: bool, rows: map<string, nat>,
                         total: nat)
    requires Promise(k, w, log, 0, previousName, verdict, want, began, loaded) && Sound(log, 0)
    requires Undone(verdict) ==> Cause(log[..began], 0, entries, broken, k.schema.tables.Keys)
    requires verdict in {Restored, NotReady} ==>
      Accepted(log, 0, entries, broken, k.schema.tables.Keys, rows, total)
    requires !SomeFailed(log, 0) && !SomeShort(log, 0) && k.aside !in k.before
    ensures verdict == Restored <==> Takeable(entries, broken, k.schema.tables.Keys)
  {
    if Undone(verdict) {
      TroubleStays(log[..began], log, 0);
    }
  }

  method Restore(s: Server, entries: seq<Entry>, broken: bool, counters: seq<Counter>, stamp: string)
    returns (res: Result, verdict: Verdict, ghost began: nat, ghost loaded: nat)
    requires s.w.Valid() && s.w.sink.None? && s.log == []
    modifies s
    ensures
      var k := Case(s.home, s.home + "_vor_" + stamp, old(s.w).catalog, s.schema);
      var want := if old(s.w).replicas == 0 then 1 else old(s.w).replicas;
      Promise(k, s.w, s.log, 0, res.previousName, verdict, want, began, loaded)
    ensures verdict in {Restored, NotReady} ==>
      s.home in s.w.catalog && Content(s.w.catalog[s.home], s.schema, s.dependents, entries, counters)
    ensures Undone(verdict) ==>
      began <= |s.log| && Cause(s.log[..began], 0, entries, broken, s.schema.tables.Keys)
    ensures verdict in {Restored, NotReady} ==>
      Accepted(s.log, 0, entries, broken, s.schema.tables.Keys, res.rows, res.totalRows)
    ensures Sound(s.log, 0) && (verdict in {NotStarted, RenameFailed} ==> AllPossible(s.log, 0))
    ensures
      var smooth := !SomeFailed(s.log, 0) && !SomeShort(s.log, 0) && s.home + "_vor_" + stamp !in old(s.w).catalog;
      smooth ==> (verdict == Restored <==> Takeable(entries, broken, s.schema.tables.Keys))
  {
    var k := Case(s.home, s.home + "_vor_" + stamp, s.w.catalog, s.schema);
    assert |k.aside| > |k.name|;
    NothingMovedIsSafe(k, s.w);
    res, began, loaded := Result("", map[], 0), 0, 0;
    var free := AsideIsFree(s, k, k.aside);
    if !free {
      return res, NotStarted, 0, 0;
    }
    var step, want, previousName;
    step, want, previousName, began := MoveAside(s, k);
    if step.Fail? {
      return Result(previousName, map[], 0), step.verdict, began, 0;
    }
    ghost var moved := s.log;
    var name, rows, total;
    name, verdict, rows, total, began, loaded := Deliver(s, k, want, previousName, entries, broken, counters);
    res := Result(name, rows, total);
    Whole(k, s.w, s.log, moved, name, verdict, want, began, loaded, entries, broken, rows, total);
  }

  /** What holds from the rename on holds from the beginning. */
  lemma Whole(k: Case, w: World, log: seq<Moment>, moved: seq<Moment>, name: string, verdict: Verdict, want: int,
              began: nat, loaded: nat, entries: seq<Entry>, broken: bool, rows: map<string, nat>, total: nat)
    requires Promise(k, w, log, |moved|, name, verdict, want, began, loaded)
    requires moved <= log && verdict !in {NotStarted, RenameFailed}
    requires forall i | 0 <= i < |moved| :: moved[i].ok && moved[i].possible
    requires Undone(verdict) ==> Cause(log[..began], |moved|, entries, broken, k.schema.tables.Keys)
    requires !Undone(verdict) ==>
      Accepted(log, |moved|, entries, broken, k.schema.tables.Keys, rows, total)
    requires Sound(log, |moved|)
    ensures Promise(k, w, log, 0, name, verdict, want, began, loaded) && Sound(log, 0)
    ensures Undone(verdict) ==> Cause(log[..began], 0, entries, broken, k.schema.tables.Keys)
    ensures !Undone(verdict) ==> Accepted(log, 0, entries, broken, k.schema.tables.Keys, rows, total)
    ensures !SomeFailed(log, 0) && !SomeShort(log, 0) && k.aside !in k.before ==>
      (verdict == Restored <==> Takeable(entries, broken, k.schema.tables.Keys))
  {
    TroubleStays(moved, log, 0);
    SoundStays(moved, log, 0);
    if Undone(verdict) {
      assert moved <= log[..began];
      TroubleStays(moved, log[..began], 0);
    }
    WholePromise(k, w, log, |moved|, name, verdict, want, began, loaded);
    if !SomeFailed(log, 0) && !SomeShort(log, 0) && k.aside !in k.before {
      SmoothIsRestored(k, w, log, name, verdict, want, began, loaded, entries, broken, rows, total);
    }
  }

  /** The case in which the result misleads: the rename was carried out, the answer was lost, and the
      result names no place for the old data while they lie under the other name. */
  lemma LostRenameIsNotTold(k: Case)
    requires k.Valid() && k.Existed()
    ensures !Truthful(k, "", k.Moved()) && k.OriginalKept(k.Moved())
  {
    PlacesAreSafe(k, k.Moved());
    assert k.name !in k.Moved();
  }
}
