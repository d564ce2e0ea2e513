// Totals of counters that live only as long as the process that keeps them.
module Counters {
  import opened Values

  datatype Counts = Counts(rooms: nat, seconds: nat, quality: nat)

  const ZERO := Counts(0, 0, 0)

  function Add(a: Counts, b: Counts): Counts {
    Counts(a.rooms + b.rooms, a.seconds + b.seconds, a.quality + b.quality)
  }

  predicate AtMost(a: Counts, b: Counts) {
    a.rooms <= b.rooms && a.seconds <= b.seconds && a.quality <= b.quality
  }

  /** Some counter went backwards. */
  predicate Dropped(prev: Counts, cur: Counts) {
    cur.rooms < prev.rooms || cur.seconds < prev.seconds || cur.quality < prev.quality
  }

  datatype Sample = Sample(observedAt: int, read: Counts, delta: Counts, restarted: bool)

  function NewSample(now: int, read: Counts, prev: Option<Counts>): (s: Sample)
    ensures s.observedAt == now && s.read == read
    ensures prev.None? ==> s.delta == ZERO && !s.restarted
    ensures prev.Some? && !s.restarted ==> Add(prev.value, s.delta) == read
    ensures s.restarted ==> s.delta == read
    ensures s.restarted <==> prev.Some? && !AtMost(prev.value, read)
  {
    if prev.None? then Sample(now, read, ZERO, false)
    else if Dropped(prev.value, read) then Sample(now, read, read, true)
    else
      var p := prev.value;
      Sample(now, read, Counts(read.rooms - p.rooms, read.seconds - p.seconds, read.quality - p.quality), false)
  }

  datatype Totals = Totals(counts: Counts, restarts: nat, samples: nat, since: Option<int>)

  function TotalOf(samples: seq<Sample>): Counts {
    if samples == [] then ZERO else Add(TotalOf(samples[..|samples| - 1]), samples[|samples| - 1].delta)
  }

  function Restarts(samples: seq<Sample>): nat {
    if samples == [] then 0
    else Restarts(samples[..|samples| - 1]) + if samples[|samples| - 1].restarted then 1 else 0
  }

  method Sum(samples: seq<Sample>) returns (t: Totals)
    ensures t.counts == TotalOf(samples) && t.restarts == Restarts(samples) && t.samples == |samples|
    ensures t.since.None? <==> samples == []
    ensures t.since.Some? ==>
      && (exists s :: s in samples && s.observedAt == t.since.value)
      && forall s | s in samples :: t.since.value <= s.observedAt
  {
    t := Totals(ZERO, 0, 0, None);
    for i := 0 to |samples|
      invariant t.counts == TotalOf(samples[..i]) && t.restarts == Restarts(samples[..i]) && t.samples == i
      invariant t.since.None? <==> i == 0
      invariant t.since.Some? ==> exists s :: s in samples[..i] && s.observedAt == t.since.value
      invariant t.since.Some? ==> forall s | s in samples[..i] :: t.since.value <= s.observedAt
    {
      assert samples[..i + 1][..i] == samples[..i];
      var s := samples[i];
      var earlier := t.since.None? || s.observedAt < t.since.value;
      t := Totals(
        Add(t.counts, s.delta),
        t.restarts + if s.restarted then 1 else 0,
        t.samples + 1,
        if earlier then Some(s.observedAt) else t.since);
      assert samples[i] in samples[..i + 1];
    }
    assert samples[..|samples|] == samples;
  }

  // ----- What really happened -----

  /** Between two samples: the same process went on, or it ended and a later one is read. */
  datatype Interval =
    | SameLife(growth: Counts)
    | NextLife(unseen: Counts, read: Counts)

  /** What the counters show at the end of an interval. */
  function ReadAfter(prev: Counts, iv: Interval): Counts {
    match iv
    case SameLife(growth) => Add(prev, growth)
    case NextLife(_, read) => read
  }

  function ActivityIn(iv: Interval): Counts {
    match iv
    case SameLife(growth) => growth
    case NextLife(unseen, read) => Add(unseen, read)
  }

  /** A run of samples: the first one, and then one at the end of every interval. */
  datatype Run =
    | First(read: Counts, at: int)
    | Next(before: Run, iv: Interval, at: int)

  function LastRead(run: Run): Counts {
    match run
    case First(read, _) => read
    case Next(before, iv, _) => ReadAfter(LastRead(before), iv)
  }

  /** What happened since the first sample. */
  function Activity(run: Run): Counts {
    match run
    case First(_, _) => ZERO
    case Next(before, iv, _) => Add(Activity(before), ActivityIn(iv))
  }

  function Samples(run: Run): seq<Sample> {
    match run
    case First(read, at) => [NewSample(at, read, None)]
    case Next(before, iv, at) => Samples(before) + [NewSample(at, LastRead(run), Some(LastRead(before)))]
  }

  /** Nothing of the interval is lost: after a restart the old life had nothing more to count, and the
      restart can be seen, or there was nothing before it to subtract. */
  predicate NothingLost(prev: Counts, iv: Interval) {
    iv.SameLife? || (iv.unseen == ZERO && (Dropped(prev, iv.read) || prev == ZERO))
  }

  predicate NothingLostIn(run: Run) {
    run.Next? ==> NothingLostIn(run.before) && NothingLost(LastRead(run.before), run.iv)
  }

  lemma DeltaOf(now: int, prev: Counts, iv: Interval)
    ensures var d := NewSample(now, ReadAfter(prev, iv), Some(prev)).delta;
      AtMost(d, ActivityIn(iv)) && (d == ActivityIn(iv) <==> NothingLost(prev, iv))
  {
  }

  lemma SumsCompare(a: Counts, b: Counts, x: Counts, y: Counts)
    requires AtMost(a, x) && AtMost(b, y)
    ensures AtMost(Add(a, b), Add(x, y)) && (Add(a, b) == Add(x, y) <==> a == x && b == y)
  {
  }

  lemma TotalSnoc(samples: seq<Sample>, s: Sample)
    ensures TotalOf(samples + [s]) == Add(TotalOf(samples), s.delta)
  {
    assert (samples + [s])[..|samples + [s]| - 1] == samples;
  }

  lemma TotalOfOne(s: Sample)
    ensures TotalOf([s]) == s.delta
  {
    assert [s][..0] == [];
  }

  function Delta(prev: Counts, read: Counts): Counts {
    NewSample(0, read, Some(prev)).delta
  }

  /** What the samples of a run add up to. */
  function Counted(run: Run): Counts {
    match run
    case First(_, _) => ZERO
    case Next(before, _, _) => Add(Counted(before), Delta(LastRead(before), LastRead(run)))
  }

  lemma {:induction false} TotalOfRun(run: Run)
    ensures TotalOf(Samples(run)) == Counted(run)
  {
    match run
    case First(read, at) =>
      TotalOfOne(NewSample(at, read, None));
    case Next(before, _, at) =>
      TotalOfRun(before);
      TotalSnoc(Samples(before), NewSample(at, LastRead(run), Some(LastRead(before))));
  }

  lemma {:induction false} CountedIsHonest(run: Run)
    ensures AtMost(Counted(run), Activity(run))
    ensures Counted(run) == Activity(run) <==> NothingLostIn(run)
  {
    match run
    case First(_, _) =>
    case Next(before, iv, _) =>
      CountedIsHonest(before);
      DeltaOf(0, LastRead(before), iv);
      SumsCompare(Counted(before), Delta(LastRead(before), LastRead(run)), Activity(before), ActivityIn(iv));
  }

  /** Over any run the total never exceeds what happened since the first sample, and is exactly that
      when, and only when, no interval loses anything. */
  lemma TotalIsHonest(run: Run)
    ensures AtMost(TotalOf(Samples(run)), Activity(run))
    ensures TotalOf(Samples(run)) == Activity(run) <==> NothingLostIn(run)
  {
    TotalOfRun(run);
    CountedIsHonest(run);
  }

  /** A restart that no counter shows costs what stood there before, although the old life ended with
      its last sample. */
  lemma HiddenRestart(run: Run, read: Counts, at: int)
    requires NothingLostIn(run) && LastRead(run) != ZERO && AtMost(LastRead(run), read)
    ensures var later := Next(run, NextLife(ZERO, read), at);
      Add(TotalOf(Samples(later)), LastRead(run)) == Activity(later)
  {
    TotalOfRun(Next(run, NextLife(ZERO, read), at));
    CountedIsHonest(run);
  }
}
