// The limit on failed logins: a counter per key, a delay that grows with it, and a lockout.
module Throttle {
  import opened Values

  // Times and durations in nanoseconds.
  const MILLISECOND := 1_000_000
  const SECOND := 1_000 * MILLISECOND
  const MINUTE := 60 * SECOND

  const FREE_ATTEMPTS := 5
  const LOCKOUT_AFTER := 15
  const LOCKOUT_FOR := 15 * MINUTE
  const FORGET_AFTER := 60 * MINUTE
  const MAX_BACKOFF := 4 * SECOND

  datatype Row = Row(failures: nat, firstFailed: int, lastFailed: int)

  function Pow2(n: nat): nat {
    if n == 0 then 1 else 2 * Pow2(n - 1)
  }

  /** A duration as a 64-bit word holds it. */
  function Wrap(d: int): int {
    (d + 0x8000_0000_0000_0000) % 0x1_0000_0000_0000_0000 - 0x8000_0000_0000_0000
  }

  function BackoffFor(failures: nat): int {
    if failures < FREE_ATTEMPTS then 0
    else
      var steps := if failures - FREE_ATTEMPTS > 8 then 8 else failures - FREE_ATTEMPTS;
      var d := Wrap(Pow2(steps) * 250 * MILLISECOND);
      if d > MAX_BACKOFF then MAX_BACKOFF else d
  }

  lemma BackoffSteps(failures: nat)
    ensures failures < 5 ==> BackoffFor(failures) == 0
    ensures failures == 5 ==> BackoffFor(failures) == 250 * MILLISECOND
    ensures failures == 6 ==> BackoffFor(failures) == 500 * MILLISECOND
    ensures failures == 7 ==> BackoffFor(failures) == 1 * SECOND
    ensures failures == 8 ==> BackoffFor(failures) == 2 * SECOND
    ensures failures >= 9 ==> BackoffFor(failures) == 4 * SECOND
  {
    assert Pow2(0) == 1 && Pow2(1) == 2 && Pow2(2) == 4 && Pow2(3) == 8;
    assert Pow2(4) == 16 && Pow2(5) == 32 && Pow2(6) == 64 && Pow2(7) == 128 && Pow2(8) == 256;
  }

  /** The delay never falls as failures add up, never exceeds four seconds, and never wraps. */
  lemma BackoffGrows(failures: nat, more: nat)
    requires failures <= more
    ensures 0 <= BackoffFor(failures) <= BackoffFor(more) <= MAX_BACKOFF
    ensures BackoffFor(failures) == 0 <==> failures < FREE_ATTEMPTS
  {
    BackoffSteps(failures);
    BackoffSteps(more);
  }

  /** The delays, written out. */
  function DelayAfter(failures: nat): int {
    if failures < 5 then 0
    else if failures == 5 then 250_000_000
    else if failures == 6 then 500_000_000
    else if failures == 7 then 1_000_000_000
    else if failures == 8 then 2_000_000_000
    else 4_000_000_000
  }

  /** The failures of a row, as long as the last of them is less than `span` ago. */
  function FailuresWithin(row: Option<Row>, now: int, span: int): nat {
    if row.Some? && now - row.value.lastFailed < span then row.value.failures else 0
  }

  datatype Verdict = Wait(delay: int) | LockedOut(retryAfter: int)

  /** A row that the query does not find reads like none. */
  function Known(row: Option<Row>, now: int): Option<Row> {
    if row.Some? && row.value.lastFailed > now - FORGET_AFTER then row else None
  }

  predicate Refused(row: Option<Row>, now: int) {
    && row.Some? && row.value.lastFailed > now - FORGET_AFTER
    && row.value.failures >= LOCKOUT_AFTER && now - row.value.lastFailed < LOCKOUT_FOR
  }

  function VerdictOn(row: Option<Row>, now: int): (v: Verdict)
    ensures v.LockedOut? <==> Refused(row, now)
  {
    if Refused(row, now) then LockedOut(LOCKOUT_FOR - (now - row.value.lastFailed))
    else if Known(row, now).None? then Wait(0)
    else Wait(BackoffFor(row.value.failures))
  }

  function AfterFailure(row: Option<Row>, now: int): Row {
    if row.None? || row.value.lastFailed < now - FORGET_AFTER then Row(1, now, now)
    else Row(row.value.failures + 1, row.value.firstFailed, now)
  }

  /** The table `login_attempts`. */
  class LoginAttempts {
    var rows: map<string, Row>

    constructor ()
      ensures rows == map[]
    {
      rows := map[];
    }

    function RowOf(key: string): Option<Row>
      reads this
    {
      if key in rows then Some(rows[key]) else None
    }

    method Check(key: string, now: int) returns (v: Verdict)
      ensures v == VerdictOn(RowOf(key), now)
      ensures v.LockedOut? <==>
        && key in rows && rows[key].failures >= 15 && now - rows[key].lastFailed < 900_000_000_000
      ensures v.LockedOut? ==> v.retryAfter == rows[key].lastFailed + 900_000_000_000 - now
      ensures v.Wait? ==> v.delay == DelayAfter(FailuresWithin(RowOf(key), now, 3_600_000_000_000))
    {
      if key !in rows || rows[key].lastFailed <= now - FORGET_AFTER {
        return Wait(0);
      }
      var row := rows[key];
      if row.failures >= LOCKOUT_AFTER {
        var remaining := LOCKOUT_FOR - (now - row.lastFailed);
        if remaining > 0 {
          return LockedOut(remaining);
        }
      }
      BackoffSteps(row.failures);
      v := Wait(BackoffFor(row.failures));
    }

    method Failed(key: string, now: int)
      modifies this
      ensures rows == old(rows)[key := AfterFailure(old(RowOf(key)), now)]
      ensures rows[key].lastFailed == now
      ensures rows[key].failures == FailuresWithin(old(RowOf(key)), now, 3_600_000_000_001) + 1
    {
      if key !in rows {
        rows := rows[key := Row(1, now, now)];
        return;
      }
      var row := rows[key];
      var stale := row.lastFailed < now - FORGET_AFTER;
      rows := rows[key := Row(if stale then 1 else row.failures + 1, if stale then now else row.firstFailed, now)];
    }

    method Succeeded(key: string)
      modifies this
      ensures rows == old(rows) - {key}
    {
      rows := rows - {key};
    }
  }

  // ----- How many attempts get through -----

  /** An attempt that `Check` lets through at one time and that `Failed` records at a later one. */
  datatype Attempt = Attempt(checked: int, recorded: int)

  function Rows(row: Option<Row>, attempts: seq<Attempt>): Option<Row> {
    if attempts == [] then row
    else Some(AfterFailure(Rows(row, attempts[..|attempts| - 1]), attempts[|attempts| - 1].recorded))
  }

  /** One attempt after the other on a key with row `row`, none of them refused and none right. */
  predicate Serial(row: Option<Row>, attempts: seq<Attempt>) {
    attempts == [] ||
    var front, last := attempts[..|attempts| - 1], attempts[|attempts| - 1];
    && Serial(row, front)
    && (front != [] ==> front[|front| - 1].recorded <= last.checked)
    && !Refused(Rows(row, front), last.checked)
    && last.checked <= last.recorded
  }

  /** The attempts a row still lets through at once. */
  function Budget(row: Option<Row>): nat {
    if row.None? then LOCKOUT_AFTER
    else if row.value.failures < LOCKOUT_AFTER then LOCKOUT_AFTER - row.value.failures
    else 0
  }

  const PER_ATTEMPT := 4 * MINUTE

  /** Attempts so far and the budget that is left are paid for by the first budget and by time. */
  lemma {:induction false} Potential(row: Option<Row>, attempts: seq<Attempt>)
    requires Serial(row, attempts) && attempts != []
    ensures var end := Rows(row, attempts);
      && end.Some? && end.value.lastFailed == attempts[|attempts| - 1].recorded
      && PER_ATTEMPT * (|attempts| + Budget(end) - LOCKOUT_AFTER) <= end.value.lastFailed - attempts[0].checked
  {
    var front := attempts[..|attempts| - 1];
    if front != [] {
      Potential(row, front);
      assert front[0] == attempts[0];
    }
  }

  /** In a time span T no more than 15 attempts plus one for every four minutes of T get through. */
  lemma AttemptsAreBounded(row: Option<Row>, attempts: seq<Attempt>)
    requires Serial(row, attempts) && attempts != []
    ensures PER_ATTEMPT * (|attempts| - LOCKOUT_AFTER) <= attempts[|attempts| - 1].checked - attempts[0].checked
  {
    var front := attempts[..|attempts| - 1];
    if front != [] {
      Potential(row, front);
      assert front[0] == attempts[0];
    }
  }

  /** What follows some attempts is itself a series of attempts, on the row they left. */
  lemma {:induction false} SerialTail(row: Option<Row>, attempts: seq<Attempt>, i: nat)
    requires Serial(row, attempts) && i <= |attempts|
    ensures Serial(Rows(row, attempts[..i]), attempts[i..])
    ensures Rows(Rows(row, attempts[..i]), attempts[i..]) == Rows(row, attempts)
  {
    if i == |attempts| {
      assert attempts[..i] == attempts;
    } else {
      var front := attempts[..|attempts| - 1];
      SerialTail(row, front, i);
      assert front[..i] == attempts[..i];
      assert attempts[i..][..|attempts| - i - 1] == front[i..];
    }
  }

  /** The same bound for every stretch of a run, wherever it starts. */
  lemma EveryWindowIsBounded(row: Option<Row>, attempts: seq<Attempt>, i: nat, j: nat)
    requires Serial(row, attempts) && i <= j < |attempts|
    ensures PER_ATTEMPT * (j - i + 1 - LOCKOUT_AFTER) <= attempts[j].checked - attempts[i].checked
  {
    var part := attempts[..j + 1];
    SerialHead(row, attempts, j + 1);
    SerialTail(row, part, i);
    AttemptsAreBounded(Rows(row, part[..i]), part[i..]);
  }

  lemma {:induction false} SerialHead(row: Option<Row>, attempts: seq<Attempt>, n: nat)
    requires Serial(row, attempts) && n <= |attempts|
    ensures Serial(row, attempts[..n])
  {
    if n < |attempts| {
      SerialHead(row, attempts[..|attempts| - 1], n);
      assert attempts[..|attempts| - 1][..n] == attempts[..n];
    } else {
      assert attempts[..n] == attempts;
    }
  }

  // ----- What hammering a locked key does -----

  /** The row after wrong attempts at these times: a refused one is not recorded. */
  function Hammered(row: Option<Row>, times: seq<int>): Option<Row> {
    if times == [] then row
    else
      var before, now := Hammered(row, times[..|times| - 1]), times[|times| - 1];
      if Refused(before, now) then before else Some(AfterFailure(before, now))
  }

  /** However often a locked key is tried, it opens fifteen minutes after its last recorded failure and not
      before; the next failure within the hour locks it for another fifteen minutes. */
  lemma {:induction false} HammeringDoesNotLock(row: Row, times: seq<int>, now: int)
    requires row.failures >= LOCKOUT_AFTER
    requires forall t | t in times :: t < row.lastFailed + LOCKOUT_FOR
    ensures Hammered(Some(row), times) == Some(row)
    ensures
      var v := VerdictOn(Hammered(Some(row), times), now);
      && (v.LockedOut? <==> now < row.lastFailed + LOCKOUT_FOR)
      && (v.LockedOut? ==> now + v.retryAfter == row.lastFailed + LOCKOUT_FOR)
    ensures
      var expired := row.lastFailed + LOCKOUT_FOR <= now <= row.lastFailed + FORGET_AFTER;
      expired ==>
        var again := Hammered(Some(row), times + [now]);
        again.Some? && again.value.failures > row.failures && again.value.lastFailed == now
  {
    if times != [] {
      var before := times[..|times| - 1];
      assert forall t | t in before :: t in times;
      HammeringDoesNotLock(row, before, now);
      assert times[|times| - 1] in times;
    }
    assert (times + [now])[..|times|] == times;
  }

  /** The 15 are there to be had: on a key without a row they all get through at one moment, and no more. */
  lemma {:induction false} BurstGetsThrough(attempts: seq<Attempt>, at: int)
    requires forall i | 0 <= i < |attempts| :: attempts[i] == Attempt(at, at)
    ensures Rows(None, attempts) == if attempts == [] then None else Some(Row(|attempts|, at, at))
    ensures Serial(None, attempts) <==> |attempts| <= LOCKOUT_AFTER
  {
    if attempts != [] {
      var front := attempts[..|attempts| - 1];
      BurstGetsThrough(front, at);
      assert front != [] ==> front[|front| - 1].recorded == at;
      assert Refused(Rows(None, front), at) <==> |front| >= LOCKOUT_AFTER;
    }
  }
}
