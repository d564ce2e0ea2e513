// Number sequences across an export and a restore, and after rows were copied in without them.
module Sequences {
  import opened Maxima
  import opened Values

  /** A sequence: `called` is false until the first number was drawn. */
  datatype Counter = Counter(last: int, called: bool)

  /** The number the next draw hands out. */
  function NextOf(c: Counter): int {
    if c.called then c.last + 1 else c.last
  }

  function Drawn(c: Counter): Counter {
    Counter(NextOf(c), true)
  }

  /** What `pg_sequences` shows: null before the first draw. */
  function LastValue(c: Counter): Option<int> {
    if c.called then Some(c.last) else None
  }

  // ----- The source goes on writing while it is exported -----

  /** One column fed by one sequence; `pending` are numbers drawn by transactions that have not ended. */
  datatype Source = Source(counter: Counter, pending: set<int>, rows: set<int>)

  datatype Event = Draw | Commit(id: int) | Abort(id: int) | Delete(id: int)

  function Happen(s: Source, e: Event): Source {
    match e
    case Draw => Source(Drawn(s.counter), s.pending + {NextOf(s.counter)}, s.rows)
    case Commit(id) => if id in s.pending then Source(s.counter, s.pending - {id}, s.rows + {id}) else s
    case Abort(id) => s.(pending := s.pending - {id})
    case Delete(id) => s.(rows := s.rows - {id})
  }

  function After(s: Source, events: seq<Event>): Source {
    if events == [] then s else Happen(After(s, events[..|events| - 1]), events[|events| - 1])
  }

  /** No number in use will be drawn again, and none is in use before the first draw. */
  predicate Ahead(s: Source) {
    && (forall id | id in s.rows + s.pending :: id < NextOf(s.counter))
    && (!s.counter.called ==> s.rows + s.pending == {})
  }

  lemma HappenKeeps(s: Source, e: Event)
    requires Ahead(s)
    ensures Ahead(Happen(s, e))
  {
    var t := Happen(s, e);
    forall id | id in t.rows + t.pending
      ensures id < NextOf(t.counter)
    {
      assert id in s.rows + s.pending || (e.Draw? && id == NextOf(s.counter));
    }
    assert e.Commit? ==> t.rows + t.pending == s.rows + s.pending;
    assert !e.Draw? ==> t.rows + t.pending <= s.rows + s.pending;
  }

  lemma {:induction false} StaysAhead(s: Source, events: seq<Event>)
    requires Ahead(s)
    ensures Ahead(After(s, events))
  {
    if events != [] {
      var front := events[..|events| - 1];
      StaysAhead(s, front);
      HappenKeeps(After(s, front), events[|events| - 1]);
    }
  }

  /** Numbers drawn later only move the counter up. */
  lemma {:induction false} OnlyUp(s: Source, events: seq<Event>, i: nat)
    requires i <= |events|
    ensures NextOf(After(s, events[..i]).counter) <= NextOf(After(s, events).counter)
    ensures After(s, events[..i]).counter.called ==> After(s, events).counter.called
  {
    if i == |events| {
      assert events[..i] == events;
    } else {
      var front := events[..|events| - 1];
      assert front[..i] == events[..i];
      OnlyUp(s, front, i);
    }
  }

  // ----- What the target draws after a restore -----

  /** The sequence after `SetSequences`: moved to what the archive has, left alone where that is null. */
  function Restored(target: Counter, archived: Option<int>): Counter {
    if archived.Some? then Counter(archived.value, true) else target
  }

  /** The target goes on with the number the source would have drawn next; a sequence that was never drawn from
      leaves the target's alone, and that begins with the number it stands at. */
  lemma NextIsSame(source: Counter, target: Counter)
    ensures source.called ==>
      NextOf(Restored(target, LastValue(source))) == NextOf(source) == source.last + 1
    ensures !source.called ==> Restored(target, LastValue(source)) == target && NextOf(source) == source.last
  {
  }

  function Draws(c: Counter, n: nat): (ids: seq<int>)
    ensures |ids| == n
    ensures forall i | 0 <= i < n :: ids[i] == NextOf(c) + i
    decreases n
  {
    if n == 0 then [] else [NextOf(c)] + Draws(Drawn(c), n - 1)
  }

  /**
   * The tables are read at moment `i` of the source's life and its counter at a later moment `j`: however
   * many numbers the target draws after the restore, none is one that a restored row holds.
   */
  lemma NoNumberTwice(s: Source, events: seq<Event>, i: nat, j: nat, target: Counter, n: nat)
    requires Ahead(s) && i <= j <= |events|
    ensures var rows := After(s, events[..i]).rows;
      var counter := Restored(target, LastValue(After(s, events[..j]).counter));
      forall k | 0 <= k < n :: Draws(counter, n)[k] !in rows
  {
    var upto := events[..j];
    assert upto[..i] == events[..i];
    StaysAhead(s, upto[..i]);
    OnlyUp(s, upto, i);
    var rows := After(s, upto[..i]).rows;
    assert rows <= rows + After(s, upto[..i]).pending;
  }

  /** Read the other way round, the counter hands out a restored row's number at once. */
  lemma CounterFirstFallsBehind(last: int, target: Counter)
    ensures var s := Source(Counter(last, true), {}, {});
      var events := [Draw, Commit(last + 1)];
      && Ahead(s)
      && Draws(Restored(target, LastValue(After(s, []).counter)), 1)[0] in After(s, events).rows
  {
    var s := Source(Counter(last, true), {}, {});
    var events := [Draw, Commit(last + 1)];
    assert events[..1] == [Draw] && [Draw][..0] == [];
    assert After(s, [Draw]) == Source(Counter(last + 1, true), {last + 1}, {});
  }

  // ----- The target database -----

  datatype Archived = Archived(name: string, lastValue: Option<int>)

  /** The sequences that come with a value. */
  function Valued(seqs: seq<Archived>): nat {
    if seqs == [] then 0
    else Valued(seqs[..|seqs| - 1]) + if seqs[|seqs| - 1].lastValue.Some? then 1 else 0
  }

  datatype Owned = Owned(name: string, column: string)

  class Database {
    var counters: map<string, Counter>
    /** The numbers in each column that a sequence feeds. */
    var columns: map<string, set<int>>

    constructor (counters: map<string, Counter>, columns: map<string, set<int>>)
      ensures this.counters == counters && this.columns == columns
    {
      this.counters, this.columns := counters, columns;
    }

    /** Sequences the target does not have are skipped and named. The statements may fail at any point. */
    method SetSequences(seqs: seq<Archived>) returns (err: bool, set_: nat, skipped: seq<string>)
      requires forall i, j | 0 <= i < j < |seqs| :: seqs[i].name != seqs[j].name
      modifies this`counters
      ensures counters.Keys == old(counters).Keys
      ensures !err ==> forall a | a in seqs && a.name in old(counters) ::
        counters[a.name] == Restored(old(counters)[a.name], a.lastValue)
      ensures forall name | name in old(counters) && (forall a | a in seqs :: a.name != name) ::
        counters[name] == old(counters)[name]
      ensures !err ==> set_ + |skipped| == Valued(seqs)
      ensures !err ==> forall name :: name in skipped <==>
        name !in old(counters) && exists a :: a in seqs && a.name == name && a.lastValue.Some?
    {
      err, set_, skipped := false, 0, [];
      for i := 0 to |seqs|
        invariant counters.Keys == old(counters).Keys
        invariant forall a | a in seqs[..i] && a.name in old(counters) ::
          counters[a.name] == Restored(old(counters)[a.name], a.lastValue)
        invariant forall name | name in old(counters) && (forall a | a in seqs[..i] :: a.name != name) ::
          counters[name] == old(counters)[name]
        invariant set_ + |skipped| == Valued(seqs[..i])
        invariant forall name :: name in skipped <==>
          name !in old(counters) && exists a :: a in seqs[..i] && a.name == name && a.lastValue.Some?
      {
        var a := seqs[i];
        assert seqs[..i + 1] == seqs[..i] + [a] && seqs[..i + 1][..i] == seqs[..i];
        if a.lastValue.None? {
          continue;
        }
        err := *;
        if err {
          return;
        }
        if a.name !in counters {
          skipped := skipped + [a.name];
          continue;
        }
        counters := counters[a.name := Counter(a.lastValue.value, true)];
        set_ := set_ + 1;
      }
      assert seqs[..|seqs|] == seqs;
    }

    /** Every number in a column that a listed sequence feeds lies behind that sequence. */
    ghost predicate InStep(owned: seq<Owned>, n: nat)
      requires n <= |owned| && forall o | o in owned :: o.name in counters && o.column in columns
      reads this
    {
      forall i | 0 <= i < n :: Behind(owned[i])
    }

    ghost predicate Behind(o: Owned)
      requires o.name in counters && o.column in columns
      reads this
    {
      forall id | id in columns[o.column] :: id < NextOf(counters[o.name])
    }

    method ResyncSequences(owned: seq<Owned>) returns (err: bool, moved: seq<string>)
      requires forall o | o in owned :: o.name in counters && o.column in columns
      modifies this`counters
      ensures counters.Keys == old(counters).Keys
      ensures forall name | name in counters :: NextOf(old(counters)[name]) <= NextOf(counters[name])
      ensures forall name | name in counters :: name in moved <==> counters[name] != old(counters)[name]
      ensures !err ==> InStep(owned, |owned|)
      ensures old(InStep(owned, |owned|)) ==> counters == old(counters) && moved == []
    {
      err, moved := false, [];
      for i := 0 to |owned|
        invariant counters.Keys == old(counters).Keys
        invariant forall name | name in counters :: NextOf(old(counters)[name]) <= NextOf(counters[name])
        invariant forall name | name in counters :: name in moved <==> counters[name] != old(counters)[name]
        invariant InStep(owned, i)
        invariant old(InStep(owned, |owned|)) ==> counters == old(counters) && moved == []
      {
        err := *;
        if err {
          return;
        }
        var o := owned[i];
        var ids := columns[o.column];
        var next := NextOf(counters[o.name]);
        if ids == {} {
          continue;
        }
        HasMax(ids);
        var max :| Max(ids, max);
        if max >= next {
          counters := counters[o.name := Counter(max, true)];
          moved := moved + [o.name];
        }
      }
    }
  }
}
