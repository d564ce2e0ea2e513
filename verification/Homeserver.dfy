// The cluster and the database server a restore works against, as the restore can rely on them:
// every call may fail, and a call that reports an error may still have taken effect.
module Homeserver {
  import opened Values

  datatype Row = Row(key: string, fields: seq<string>)

  type Tables = map<string, seq<Row>>

  /** One database. `oid` is its identity, which a rename keeps; `built` says that the service has
      made its schema there. */
  datatype Database = Database(oid: nat, built: bool, tables: Tables,
                               counters: map<string, Option<int>>, schemaVersion: nat)

  type Catalog = map<string, Database>

  /** What the running version of the service makes of an empty database. */
  datatype Schema = Schema(tables: Tables, counters: map<string, Option<int>>, version: nat)

  function Build(db: Database, s: Schema): Database {
    if db.built then db else Database(db.oid, true, s.tables, s.counters, s.version)
  }

  /** The connection that fills a database, with the rows it keeps in temporary tables. */
  datatype Sink = Sink(database: string, kept: Tables)

  /** `pool`: sessions of the service, which outlive its pods until they are terminated. */
  datatype World = World(replicas: int, gone: bool, ready: bool, pool: bool,
                         catalog: Catalog, nextOid: nat, sink: Option<Sink>)
  {
    /** Nothing runs: no replicas wanted, and the pods are confirmed gone. */
    predicate Quiet() {
      replicas == 0 && gone
    }

    predicate Valid() {
      && replicas >= 0
      && (forall n | n in catalog :: catalog[n].oid < nextOid)
      && forall n, m | n in catalog && m in catalog && n != m :: catalog[n].oid != catalog[m].oid
    }
  }

  datatype Call =
    | Exists | Replicas | Scale | WaitGone | WaitReady
    | Create | Rename | Drop | Terminate | Open
    | DeferConstraints | KeepTargetOnly | TruncateAll | LoadCSV | SetSequences | Verify | SchemaVersion
    | MergeKept | Close

  /** Calls that move, remove or overwrite data. */
  predicate Destructive(c: Call) {
    c in {Rename, Drop, TruncateAll, LoadCSV, SetSequences, MergeKept}
  }

  /** One call as it happened: what it reported, whether it took effect, whether everything was quiet
      when it was made, which database it removed or wrote into, the catalog it left, whether fewer rows
      arrived than it sent, and whether the other side could carry it out at all. */
  datatype Moment = Moment(call: Call, took: bool, ok: bool, quiet: bool, hits: Option<nat>, catalog: Catalog,
                           short: bool := false, possible: bool := true)

  /** Tables that describe the target's own schema and processes; they never come from an archive. */
  const BOOKKEEPING := {"applied_schema_deltas", "applied_module_schemas", "schema_version",
                        "schema_compat_version", "_sqlx_migrations", "queue_workers"}

  /** The table that keeps rows only the target has. */
  const MERGED := "background_updates"

  function Truncated(t: Tables, dependents: set<string>): Tables {
    map n | n in t :: if n in BOOKKEEPING && n !in dependents then t[n] else []
  }

  /** The version that can still be read; 0 once the table that holds it was emptied along. */
  function VersionLeft(version: nat, dependents: set<string>): nat {
    if "schema_version" in dependents then 0 else version
  }

  function Emptied(db: Database, dependents: set<string>): Database {
    db.(tables := Truncated(db.tables, dependents), schemaVersion := VersionLeft(db.schemaVersion, dependents))
  }

  /** A counter from an archive; `None` where the source had never drawn from it. */
  datatype Counter = Counter(name: string, last: Option<int>)

  function WithCounters(c: map<string, Option<int>>, seqs: seq<Counter>): map<string, Option<int>> {
    if seqs == [] then c
    else
      var s := seqs[|seqs| - 1];
      var before := WithCounters(c, seqs[..|seqs| - 1]);
      if s.last.Some? && s.name in before then before[s.name := s.last] else before
  }

  /** The kept rows whose key the archive's rows do not have. */
  function Extras(kept: seq<Row>, rows: seq<Row>): seq<Row> {
    if kept == [] then []
    else
      var k := kept[|kept| - 1];
      Extras(kept[..|kept| - 1], rows) + if exists r | r in rows :: r.key == k.key then [] else [k]
  }

  // ---- What these amount to -----------------------------------------------------------------

  /** Only bookkeeping that no emptied table takes along survives, and the version with its table. */
  lemma EmptiedIs(db: Database, dependents: set<string>)
    ensures
      var e := Emptied(db, dependents);
      && e.oid == db.oid && e.built == db.built && e.counters == db.counters
      && e.tables.Keys == db.tables.Keys
      && (forall t | t in db.tables :: e.tables[t] == db.tables[t] ||
            (e.tables[t] == [] && (t !in BOOKKEEPING || t in dependents)))
      && (forall t | t in db.tables && (t !in BOOKKEEPING || t in dependents) :: e.tables[t] == [])
      && ("schema_version" in dependents ==> e.schemaVersion == 0)
      && ("schema_version" !in dependents ==> e.schemaVersion == db.schemaVersion)
  {
  }

  /** The last value an archive has for a counter. */
  ghost predicate LastValue(seqs: seq<Counter>, name: string, i: nat) {
    && i < |seqs| && seqs[i].name == name && seqs[i].last.Some?
    && forall j | i < j < |seqs| && seqs[j].name == name :: seqs[j].last.None?
  }

  lemma {:induction false} CountersAre(c: map<string, Option<int>>, seqs: seq<Counter>, name: string)
    ensures
      var after := WithCounters(c, seqs);
      && (name in after <==> name in c)
      && (name in c ==> forall i: nat :: LastValue(seqs, name, i) ==> after[name] == seqs[i].last)
      && (name in c && (forall i: nat :: !LastValue(seqs, name, i)) ==> after[name] == c[name])
  {
    if seqs != [] {
      var n := |seqs| - 1;
      var front := seqs[..n];
      CountersAre(c, front, name);
      if seqs[n].name == name && seqs[n].last.Some? {
        assert LastValue(seqs, name, n);
        assert forall i: nat | LastValue(seqs, name, i) :: i == n;
      } else {
        assert forall i: nat :: LastValue(seqs, name, i) <==> LastValue(front, name, i);
      }
    }
  }

  ghost predicate HasKey(rows: seq<Row>, key: string) {
    exists r | r in rows :: r.key == key
  }

  /** Each kept row as often as it was kept, unless its key is there already. */
  lemma {:induction false} ExtrasAre(kept: seq<Row>, rows: seq<Row>, r: Row)
    ensures multiset(Extras(kept, rows))[r] == if HasKey(rows, r.key) then 0 else multiset(kept)[r]
  {
    if kept != [] {
      var n := |kept| - 1;
      ExtrasAre(kept[..n], rows, r);
      assert kept == kept[..n] + [kept[n]];
    }
  }

  class Server {
    /** The database the workload connects to. */
    const home: string
    const schema: Schema
    /** Bookkeeping tables that reference a data table, which TRUNCATE ... CASCADE therefore empties. */
    const dependents: set<string>

    var w: World
    ghost var log: seq<Moment>

    constructor (home: string, schema: Schema, dependents: set<string>, w: World)
      ensures this.home == home && this.schema == schema && this.dependents == dependents
      ensures this.w == w && log == []
    {
      this.home, this.schema, this.dependents, this.w := home, schema, dependents, w;
      log := [];
    }

    /** One call: it took effect or it did not, and it can only report success if it did. */
    twostate predicate Did(call: Call, took: bool, err: bool, effect: World, hits: Option<nat>, possible: bool := true,
                           short: bool := false)
      reads this
    {
      && w == (if took then effect else old(w))
      && (!err ==> took) && (took ==> possible)
      && log == old(log) + [Moment(call, took, !err, old(w).Quiet(), hits, w.catalog, short, possible)]
    }

    /** The call at large: `possible` says whether the other side can carry it out at all. */
    method Perform(call: Call, possible: bool, effect: World, ghost hits: Option<nat>, ghost short: bool := false)
        returns (took: bool, err: bool)
      modifies this
      ensures Did(call, took, err, effect, hits, possible, short)
    {
      took, err := *, *;
      took := took && possible;
      err := err || !took;
      if took {
        w := effect;
      }
      log := log + [Moment(call, took, !err, old(w).Quiet(), hits, w.catalog, short, possible)];
    }

    // ---- Kubernetes -------------------------------------------------------------------------

    method Replicas() returns (n: int, err: bool)
      modifies this
      ensures Did(Call.Replicas, true, err, old(w), None) && n == old(w).replicas
    {
      err := *;
      n := w.replicas;
      log := log + [Moment(Call.Replicas, true, !err, w.Quiet(), None, w.catalog)];
    }

    function Scaled(n: int): World
      reads this
    {
      if n > 0 then w.(replicas := n, gone := false, pool := true) else w.(replicas := n, ready := false)
    }

    method Scale(n: int) returns (took: bool, err: bool)
      modifies this
      ensures Did(Call.Scale, took, err, old(Scaled(n)), None)
    {
      took, err := Perform(Call.Scale, true, Scaled(n), None);
    }

    method WaitGone() returns (took: bool, err: bool)
      modifies this
      ensures Did(Call.WaitGone, took, err, old(w).(gone := true, ready := false), None, old(w).replicas == 0)
    {
      took, err := Perform(Call.WaitGone, w.replicas == 0, w.(gone := true, ready := false), None);
    }

    /** The service is up; if its database was empty, it has built its schema there. */
    function Started(): World
      reads this
    {
      var catalog := if home in w.catalog then w.catalog[home := Build(w.catalog[home], schema)] else w.catalog;
      w.(ready := true, catalog := catalog)
    }

    method WaitReady() returns (took: bool, err: bool)
      modifies this
      ensures Did(Call.WaitReady, took, err, old(Started()), None, old(w).replicas > 0)
    {
      took, err := Perform(Call.WaitReady, w.replicas > 0, Started(), None);
    }

    // ---- Postgres ---------------------------------------------------------------------------

    /** Postgres neither renames nor drops a database in use. */
    predicate Busy(name: string)
      reads this
    {
      (name == home && w.pool) || (w.sink.Some? && w.sink.value.database == name)
    }

    ghost function OidOf(name: string): Option<nat>
      reads this
    {
      if name in w.catalog then Some(w.catalog[name].oid) else None
    }

    method Exists(name: string) returns (found: bool, err: bool)
      modifies this
      ensures Did(Call.Exists, true, err, old(w), None) && found == (name in old(w).catalog)
    {
      err := *;
      found := name in w.catalog;
      log := log + [Moment(Call.Exists, true, !err, w.Quiet(), None, w.catalog)];
    }

    function Created(name: string): World
      reads this
    {
      w.(catalog := w.catalog[name := Database(w.nextOid, false, map[], map[], 0)], nextOid := w.nextOid + 1)
    }

    method Create(name: string) returns (took: bool, err: bool)
      modifies this
      ensures Did(Call.Create, took, err, old(Created(name)), None, name !in old(w).catalog)
    {
      took, err := Perform(Call.Create, name !in w.catalog, Created(name), None);
    }

    function Renamed(from: string, to: string): World
      reads this
    {
      w.(catalog := if from in w.catalog then (w.catalog - {from})[to := w.catalog[from]] else w.catalog)
    }

    predicate CanRename(from: string, to: string)
      reads this
    {
      from in w.catalog && to !in w.catalog && !Busy(from)
    }

    method Rename(from: string, to: string) returns (took: bool, err: bool)
      modifies this
      ensures Did(Call.Rename, took, err, old(Renamed(from, to)), None, old(CanRename(from, to)))
    {
      took, err := Perform(Call.Rename, CanRename(from, to), Renamed(from, to), None);
    }

    /** Dropping a database that does not exist succeeds. */
    method Drop(name: string) returns (took: bool, err: bool)
      modifies this
      ensures Did(Call.Drop, took, err, old(w).(catalog := old(w).catalog - {name}), old(OidOf(name)), !old(Busy(name)))
    {
      took, err := Perform(Call.Drop, !Busy(name), w.(catalog := w.catalog - {name}), OidOf(name));
    }

    /** Ends every session on the database; a service that still runs reconnects at once. */
    function Terminated(name: string): World
      reads this
    {
      w.(pool := w.pool && !(name == home && w.gone),
         sink := if w.sink.Some? && w.sink.value.database == name then None else w.sink)
    }

    method Terminate(name: string) returns (took: bool, err: bool)
      modifies this
      ensures Did(Call.Terminate, took, err, old(Terminated(name)), None)
    {
      took, err := Perform(Call.Terminate, true, Terminated(name), None);
    }

    method Open(name: string) returns (took: bool, err: bool)
      modifies this
      ensures Did(Call.Open, took, err, old(w).(sink := Some(Sink(name, map[]))), None, name in old(w).catalog)
    {
      took, err := Perform(Call.Open, name in w.catalog, w.(sink := Some(Sink(name, map[]))), None);
    }

    // ---- The connection being filled --------------------------------------------------------

    predicate Connected()
      reads this
    {
      w.sink.Some? && w.sink.value.database in w.catalog
    }

    /** The database behind the connection. */
    function Target(): Database
      requires Connected()
      reads this
    {
      w.catalog[w.sink.value.database]
    }

    function WithTarget(db: Database): World
      requires Connected()
      reads this
    {
      w.(catalog := w.catalog[w.sink.value.database := db])
    }

    method DeferConstraints() returns (err: bool)
      requires Connected()
      modifies this
      ensures Did(Call.DeferConstraints, true, err, old(w), None)
    {
      err := *;
      log := log + [Moment(Call.DeferConstraints, true, !err, w.Quiet(), None, w.catalog)];
    }

    function Keeping(): World
      requires Connected()
      reads this
    {
      var t := Target().tables;
      w.(sink := Some(w.sink.value.(kept := if MERGED in t then map[MERGED := t[MERGED]] else map[])))
    }

    method KeepTargetOnly() returns (took: bool, err: bool)
      requires Connected()
      modifies this
      ensures Did(Call.KeepTargetOnly, took, err, old(Keeping()), None)
    {
      took, err := Perform(Call.KeepTargetOnly, true, Keeping(), None);
    }

    method TruncateAll() returns (took: bool, err: bool)
      requires Connected()
      modifies this
      ensures Did(Call.TruncateAll, took, err,
        old(WithTarget(Emptied(Target(), dependents))), Some(old(Target()).oid))
    {
      took, err := Perform(Call.TruncateAll, true, WithTarget(Emptied(Target(), dependents)), Some(Target().oid));
    }

    /** COPY reports the rows it was sent; what arrived may be less, which is why it is counted later. */
    method LoadCSV(table: string, rows: seq<Row>) returns (n: nat, arrived: nat, took: bool, err: bool)
      requires Connected()
      modifies this
      ensures arrived <= |rows| && n == |rows|
      ensures table in old(Target()).tables ==> Did(Call.LoadCSV, took, err,
        old(WithTarget(Target().(tables := Target().tables[table := Target().tables[table] + rows[..arrived]]))),
        Some(old(Target()).oid), true, arrived < n)
      ensures table !in old(Target()).tables ==> Did(Call.LoadCSV, took, err, old(w), Some(old(Target()).oid), false)
    {
      n := |rows|;
      arrived :| 0 <= arrived <= |rows|;
      if table in Target().tables {
        took, err := Perform(Call.LoadCSV, true,
          WithTarget(Target().(tables := Target().tables[table := Target().tables[table] + rows[..arrived]])),
          Some(Target().oid), arrived < n);
      } else {
        took, err := Perform(Call.LoadCSV, false, w, Some(Target().oid));
      }
    }

    /** Counters the target does not have are skipped; an error may leave only the first ones set. */
    method SetSequences(seqs: seq<Counter>) returns (done: nat, err: bool)
      requires Connected()
      modifies this
      ensures done <= |seqs| && (!err ==> done == |seqs|)
      ensures Did(Call.SetSequences, true, err,
        old(WithTarget(Target().(counters := WithCounters(Target().counters, seqs[..done])))), Some(old(Target()).oid))
    {
      err := *;
      done :| 0 <= done <= |seqs| && (!err ==> done == |seqs|);
      w := WithTarget(Target().(counters := WithCounters(Target().counters, seqs[..done])));
      log := log + [Moment(Call.SetSequences, true, !err, w.Quiet(), Some(Target().oid), w.catalog)];
    }

    /** Counts again: the tables whose number of rows is not the one expected. */
    method Verify(loaded: map<string, nat>) returns (bad: set<string>, err: bool)
      requires Connected()
      modifies this
      ensures Did(Call.Verify, true, err, old(w), None)
      ensures !err ==>
        bad == set t | t in loaded && (t in old(Target()).tables ==> |old(Target()).tables[t]| != loaded[t])
    {
      err := *;
      bad := set t | t in loaded && (t in Target().tables ==> |Target().tables[t]| != loaded[t]);
      log := log + [Moment(Call.Verify, true, !err, w.Quiet(), None, w.catalog)];
    }

    method SchemaVersion() returns (v: nat, err: bool)
      requires Connected()
      modifies this
      ensures Did(Call.SchemaVersion, true, err, old(w), None) && v == old(Target()).schemaVersion
    {
      err := *;
      v := Target().schemaVersion;
      log := log + [Moment(Call.SchemaVersion, true, !err, w.Quiet(), None, w.catalog)];
    }

    /** The rows only the target had, put back after the archive's. */
    function Merged(): Database
      requires Connected()
      reads this
    {
      var db, kept := Target(), w.sink.value.kept;
      if MERGED in kept && MERGED in db.tables then
        db.(tables := db.tables[MERGED := db.tables[MERGED] + Extras(kept[MERGED], db.tables[MERGED])])
      else db
    }

    method MergeKept() returns (took: bool, err: bool)
      requires Connected()
      modifies this
      ensures Did(Call.MergeKept, took, err, old(WithTarget(Merged())), Some(old(Target()).oid))
    {
      took, err := Perform(Call.MergeKept, true, WithTarget(Merged()), Some(Target().oid));
    }

    method CloseSink()
      modifies this
      ensures Did(Call.Close, true, false, old(w).(sink := None), None)
    {
      w := w.(sink := None);
      log := log + [Moment(Call.Close, true, true, w.Quiet(), None, w.catalog)];
    }
  }

  // ---- Sessions -----------------------------------------------------------------------------

  /** Nobody is on a database: neither the service, whose sessions outlive its pods, nor the restore itself. */
  ghost predicate Unused(s: Server, name: string)
    reads s
  {
    (s.w.pool ==> name != s.home) && forall kept :: s.w.sink != Some(Sink(name, kept))
  }

  /** A rename can be carried out exactly for a database that is there and unused, to a free name. */
  lemma RenameNeedsUnused(s: Server, from: string, to: string)
    ensures s.CanRename(from, to) <==> from in s.w.catalog && to !in s.w.catalog && Unused(s, from)
    ensures s.Busy(from) <==> !Unused(s, from)
  {
    if s.w.sink.Some? {
      assert s.w.sink == Some(Sink(s.w.sink.value.database, s.w.sink.value.kept));
    }
  }

  /** Once nothing runs any more, ending the sessions on its database leaves it unused; while it runs, the
      service is back at once. Starting it brings its sessions. */
  lemma TerminateFrees(s: Server, name: string, n: int)
    ensures
      var after := s.Terminated(name);
      && (after.sink.Some? ==> after.sink == s.w.sink && after.sink.value.database != name)
      && (s.w.gone && name == s.home ==> !after.pool)
      && (!s.w.gone || name != s.home ==> after.pool == s.w.pool)
      && after == s.w.(pool := after.pool, sink := after.sink)
    ensures
      var after := s.Scaled(n);
      && (n > 0 ==> after == s.w.(replicas := n, gone := false, pool := true))
      && (n <= 0 ==> after == s.w.(replicas := n, ready := false))
  {
  }
}
