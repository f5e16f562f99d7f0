/** When RecordFailure starts a cooldown (internal/throttle/limiter.go:73-106). */
module Breaker {
  import opened Common
  import opened Throttle
  import opened SessionRows

  /** One committed write of the session row. */
  datatype Op = Failure(now: int) | Success | Reconfigure(req: ThrottleRequest)

  function Apply(row: Row, op: Op): Row {
    match op
    case Failure(now) => AfterFailure(row, now)
    case Success => AfterSuccess(row)
    case Reconfigure(req) => if Accepted(req) then Merged(row, req) else row
  }

  function Run(row: Row, ops: seq<Op>): Row {
    if ops == [] then row else Apply(Run(row, ops[..|ops| - 1]), ops[|ops| - 1])
  }

  /** The instants of the failures since the last success. */
  function Streak(ops: seq<Op>): seq<int> {
    if ops == [] then []
    else
      match ops[|ops| - 1]
      case Failure(now) => Streak(ops[..|ops| - 1]) + [now]
      case Success => []
      case Reconfigure(_) => Streak(ops[..|ops| - 1])
  }

  /** Failure instants do not decrease in commit order. */
  predicate ClockAdvances(ops: seq<Op>) {
    forall i, j | 0 <= i < j < |ops| && ops[i].Failure? && ops[j].Failure? :: ops[i].now <= ops[j].now
  }

  /** The counter counts the newest failures of the streak, the oldest of which anchored the window. */
  predicate Counts(row: Row, streak: seq<int>) {
    match row.windowStart
    case None => row.failureCount == 0 && streak == []
    case Some(start) =>
      && 1 <= row.failureCount <= |streak|
      && streak[|streak| - row.failureCount] == start
      && forall i | |streak| - row.failureCount <= i < |streak| :: streak[i] - start < MINUTE
  }

  lemma {:induction false} CounterFollowsStreak(ops: seq<Op>)
    ensures Counts(Run(Defaults, ops), Streak(ops))
  {
    if ops != [] {
      CounterFollowsStreak(ops[..|ops| - 1]);
    }
  }

  lemma {:induction false} SettingsStayInRange(ops: seq<Op>)
    ensures InRange(Run(Defaults, ops))
  {
    if ops != [] {
      var row, op := Run(Defaults, ops[..|ops| - 1]), ops[|ops| - 1];
      SettingsStayInRange(ops[..|ops| - 1]);
      if op.Reconfigure? && Accepted(op.req) {
        MergeStaysInRange(row, op.req);
      }
    }
  }

  lemma {:induction false} StreakAscends(ops: seq<Op>)
    requires ClockAdvances(ops)
    ensures Ascending(Streak(ops))
    ensures forall t <- Streak(ops) :: exists i | 0 <= i < |ops| :: ops[i] == Failure(t)
  {
    if ops != [] {
      var front := ops[..|ops| - 1];
      StreakAscends(front);
      forall t | t in Streak(ops) ensures exists i | 0 <= i < |ops| :: ops[i] == Failure(t) {
        if ops[|ops| - 1] != Failure(t) {
          var i :| 0 <= i < |front| && front[i] == Failure(t);
          assert ops[i] == Failure(t);
        }
      }
      if ops[|ops| - 1].Failure? {
        forall k | 0 <= k < |Streak(front)| ensures Streak(front)[k] <= ops[|ops| - 1].now {
          assert Streak(front)[k] in Streak(front);
          var i :| 0 <= i < |front| && front[i] == Failure(Streak(front)[k]);
          assert ops[i] == front[i];
        }
      }
    }
  }

  /** Soundness: a failure that starts a cooldown is the last of at least `threshold` failures
      with no success among them, all of them less than a minute old. */
  lemma TripIsJustified(ops: seq<Op>, now: int)
    requires ClockAdvances(ops + [Failure(now)])
    requires Trips(Run(Defaults, ops), now)
    ensures var streak := Streak(ops + [Failure(now)]);
            var threshold := Run(Defaults, ops).failureThreshold;
            && 0 < threshold <= |streak|
            && forall i | |streak| - threshold <= i < |streak| :: now - MINUTE < streak[i] <= now
  {
    var all := ops + [Failure(now)];
    assert all[..|all| - 1] == ops;
    var streak := Streak(all);
    CounterFollowsStreak(all);
    StreakAscends(all);
    var row := Run(Defaults, all);
    assert streak[|streak| - 1] == now && row.windowStart.Some?;
    assert streak[|streak| - 1] - row.windowStart.value < MINUTE;
    assert row.failureCount >= Run(Defaults, ops).failureThreshold;
  }

  function Failures(ts: seq<int>): (ops: seq<Op>)
    ensures |ops| == |ts|
    ensures forall i | 0 <= i < |ts| :: ops[i] == Failure(ts[i])
  {
    seq(|ts|, i requires 0 <= i < |ts| => Failure(ts[i]))
  }

  lemma FailuresConcat(a: seq<int>, b: seq<int>)
    ensures Failures(a) + Failures(b) == Failures(a + b)
  {
  }

  /** The k-th of the failures `ts`, applied from `row`, starts a cooldown. */
  predicate TripsAt(row: Row, ts: seq<int>, k: nat)
    requires k < |ts|
  {
    Trips(Run(row, Failures(ts[..k])), ts[k])
  }

  /** Every failure falls into the window opened at `start`. */
  predicate Inside(ts: seq<int>, start: int) {
    forall i | 0 <= i < |ts| :: ts[i] - start < MINUTE
  }

  predicate WithinAMinute(ts: seq<int>) {
    forall i, j | 0 <= i < |ts| && 0 <= j < |ts| :: ts[j] - ts[i] < MINUTE
  }

  lemma {:induction false} RunOnce(row: Row, ts: seq<int>)
    requires ts != []
    ensures Run(row, Failures(ts)) == AfterFailure(Run(row, Failures(ts[..|ts| - 1])), ts[|ts| - 1])
  {
    assert Failures(ts)[..|ts| - 1] == Failures(ts[..|ts| - 1]);
  }

  /** Failures inside an open window only raise the counter. */
  lemma {:induction false} Climb(row: Row, ts: seq<int>)
    requires row.windowStart.Some?
    requires Inside(ts, row.windowStart.value)
    ensures var r := Run(row, Failures(ts));
            && r.failureCount == row.failureCount + |ts| && r.windowStart == row.windowStart
            && r.failureThreshold == row.failureThreshold && r.pauseDurationMs == row.pauseDurationMs
  {
    if ts != [] {
      Climb(row, ts[..|ts| - 1]);
      RunOnce(row, ts);
    }
  }

  lemma {:induction false} RunSplit(row: Row, a: seq<Op>, b: seq<Op>)
    ensures Run(row, a + b) == Run(Run(row, a), b)
  {
    if b == [] {
      assert a + b == a;
    } else {
      RunSplit(row, a, b[..|b| - 1]);
      assert (a + b)[..|a + b| - 1] == a + b[..|b| - 1];
    }
  }

  /** The number of failures within one minute that is always enough. */
  function Enough(threshold: int): int {
    if threshold <= 1 then 1 else 2 * threshold - 2
  }

  /** A window anchored by ts[j] stays open for the rest of the failures. */
  lemma TripsAfterOpening(row: Row, ts: seq<int>, j: nat, k: nat)
    requires WithinAMinute(ts) && j <= k < |ts|
    requires row.failureThreshold > 0 && row.pauseDurationMs > 0
    requires OpensWindow(Run(row, Failures(ts[..j])), ts[j])
    requires Run(row, Failures(ts[..j])).failureThreshold == row.failureThreshold
    requires Run(row, Failures(ts[..j])).pauseDurationMs == row.pauseDurationMs
    requires k - j + 1 >= row.failureThreshold
    ensures TripsAt(row, ts, k)
  {
    if j < k {
      var mid := Run(row, Failures(ts[..j + 1]));
      RunOnce(row, ts[..j + 1]);
      assert ts[..j + 1][..j] == ts[..j];
      Climb(mid, ts[j + 1..k]);
      RunSplit(row, Failures(ts[..j + 1]), Failures(ts[j + 1..k]));
      FailuresConcat(ts[..j + 1], ts[j + 1..k]);
      assert ts[..j + 1] + ts[j + 1..k] == ts[..k];
    }
  }

  /** Completeness: after any history, Enough(threshold) failures within less than a minute and
      with nothing between them start a cooldown. */
  lemma FailuresTrip(ops: seq<Op>, ts: seq<int>)
    requires |ts| >= Enough(Run(Defaults, ops).failureThreshold) && WithinAMinute(ts)
    ensures exists k | 0 <= k < |ts| :: TripsAt(Run(Defaults, ops), ts, k)
  {
    var row := Run(Defaults, ops);
    CounterFollowsStreak(ops);
    SettingsStayInRange(ops);
    if OpensWindow(row, ts[0]) {
      var k := row.failureThreshold - 1;
      assert ts[..0] == [];
      TripsAfterOpening(row, ts, 0, k);
    } else {
      var start := row.windowStart.value;
      var j := 0;
      while j < |ts| && ts[j] - start < MINUTE
        invariant 0 <= j <= |ts|
        invariant forall i | 0 <= i < j :: ts[i] - start < MINUTE
      {
        j := j + 1;
      }
      Climb(row, ts[..j]);
      if j < |ts| && j < row.failureThreshold - 1 {
        var k := j + row.failureThreshold - 1;
        TripsAfterOpening(row, ts, j, k);
      } else {
        var k := if row.failureThreshold == 1 then 0 else row.failureThreshold - 2;
        assert k < j;
        Climb(row, ts[..k]);
        assert TripsAt(row, ts, k);
      }
    }
  }

  lemma {:induction false} PauseStays(row: Row, ts: seq<int>)
    ensures Run(row, Failures(ts)).pauseDurationMs == row.pauseDurationMs
  {
    if ts != [] {
      PauseStays(row, ts[..|ts| - 1]);
      RunOnce(row, ts);
    }
  }

  lemma {:induction false} QuietClimb(row: Row, ts: seq<int>)
    requires row.windowStart.Some? && row.throttledUntil == None
    requires Inside(ts, row.windowStart.value)
    requires row.failureCount + |ts| < row.failureThreshold
    ensures Run(row, Failures(ts)).throttledUntil == None
  {
    if ts != [] {
      QuietClimb(row, ts[..|ts| - 1]);
      Climb(row, ts[..|ts| - 1]);
      RunOnce(row, ts);
    }
  }

  /** A second window that also stays below the threshold. */
  lemma QuietReopening(row: Row, n: nat)
    requires row.windowStart.Some? && row.throttledUntil == None
    requires OpensWindow(row, MINUTE) && n + 1 < row.failureThreshold
    ensures Run(row, Failures([MINUTE] + Repeat(MINUTE, n))).throttledUntil == None
  {
    var reopened := AfterFailure(row, MINUTE);
    QuietClimb(reopened, Repeat(MINUTE, n));
    RunOnce(row, [MINUTE]);
    assert Failures([MINUTE][..0]) == [];
    RunSplit(row, Failures([MINUTE]), Failures(Repeat(MINUTE, n)));
    FailuresConcat([MINUTE], Repeat(MINUTE, n));
  }

  /** One failure less than Enough: the tail of one window and the head of the next. */
  function AlmostEnough(threshold: int): seq<int>
    requires threshold >= 2
  {
    Repeat(MINUTE / 2, threshold - 2) + ([MINUTE] + Repeat(MINUTE, threshold - 2))
  }

  lemma AlmostEnoughIsShort(threshold: int)
    requires threshold >= 2
    ensures |AlmostEnough(threshold)| == Enough(threshold) - 1 && WithinAMinute(AlmostEnough(threshold))
  {
    var late := AlmostEnough(threshold);
    assert forall i | 0 <= i < |late| :: late[i] == if i < threshold - 2 then MINUTE / 2 else MINUTE;
  }

  /** The bound is tight: after a failure at 0, one failure less than Enough, all within 30
      seconds, starts no cooldown. */
  lemma EnoughIsTight(row: Row)
    requires row.failureThreshold >= 2 && row.windowStart == None && row.failureCount == 0 && row.throttledUntil == None
    ensures var late := AlmostEnough(row.failureThreshold);
            && |late| == Enough(row.failureThreshold) - 1
            && WithinAMinute(late)
            && Run(AfterFailure(row, 0), Failures(late)).throttledUntil == None
  {
    var n := row.failureThreshold;
    var anchored := AfterFailure(row, 0);
    var a, b := Repeat(MINUTE / 2, n - 2), [MINUTE] + Repeat(MINUTE, n - 2);
    QuietClimb(anchored, a);
    Climb(anchored, a);
    QuietReopening(Run(anchored, Failures(a)), n - 2);
    RunSplit(anchored, Failures(a), Failures(b));
    FailuresConcat(a, b);
    AlmostEnoughIsShort(n);
  }

  /** The settings of a new session. */
  lemma NewSession()
    ensures Selected(Defaults) == Config(3000, 2000, 20, None)
    ensures Defaults.failureThreshold == 5 && Defaults.pauseDurationMs == 300_000
    ensures InRange(Defaults) && Counts(Defaults, [])
  {
  }

  // ---------------------------------------------------------------- how long the cooldown lasts

  /** The i-th write is a failure that starts a cooldown. */
  predicate StartsCooldown(ops: seq<Op>, i: nat)
    requires i < |ops|
  {
    ops[i].Failure? && Trips(Run(Defaults, ops[..i]), ops[i].now)
  }

  /** The end of the cooldown that the i-th write starts: the configured pause later. */
  function CooldownEnd(ops: seq<Op>, i: nat): int
    requires i < |ops| && ops[i].Failure?
  {
    ops[i].now + Run(Defaults, ops[..i]).pauseDurationMs * 1_000_000
  }

  /** The i-th write starts a cooldown that ends at `until`, and no later write ends or renews it. */
  predicate CoolsUntil(ops: seq<Op>, i: nat, until: int) {
    && i < |ops| && StartsCooldown(ops, i) && until == CooldownEnd(ops, i)
    && forall j | i < j < |ops| :: !ops[j].Success? && !StartsCooldown(ops, j)
  }

  lemma CoolsSnoc(ops: seq<Op>, i: nat, until: int)
    requires ops != [] && i < |ops| - 1
    ensures var n := |ops| - 1;
            CoolsUntil(ops, i, until) <==> CoolsUntil(ops[..n], i, until) && !ops[n].Success? && !StartsCooldown(ops, n)
  {
    var n := |ops| - 1;
    forall j | 0 <= j < n ensures StartsCooldown(ops[..n], j) == StartsCooldown(ops, j) {
      assert ops[..n][..j] == ops[..j];
    }
    assert ops[..n][..i] == ops[..i];
  }

  /** The stored cooldown is the one that the newest tripping failure since the last success started:
      it changes only at such a failure or at a success. */
  lemma {:induction false} CooldownIff(ops: seq<Op>, until: int)
    ensures Run(Defaults, ops).throttledUntil == Some(until) <==> exists i: nat :: CoolsUntil(ops, i, until)
  {
    if ops != [] {
      var n := |ops| - 1;
      CooldownIff(ops[..n], until);
      assert CoolsUntil(ops, n, until) <==> StartsCooldown(ops, n) && until == CooldownEnd(ops, n);
      if i: nat :| CoolsUntil(ops[..n], i, until) {
        CoolsSnoc(ops, i, until);
      }
      if i: nat :| CoolsUntil(ops, i, until) && i < n {
        CoolsSnoc(ops, i, until);
      }
    }
  }
}
