/** What the limiter guarantees over whole runs of any number of workers that share one
    session (internal/throttle/limiter.go:21-71, internal/httpapi/server.go:1044-1056). */
module ThrottleRuns {
  import opened Common
  import opened Throttle
  import opened SessionRows
  import Breaker

  /** An admitted message: the instant recorded for it, the settings its worker had read, and
      whether the pass was overtaken by the clock. */
  datatype Admission = Admission(at: int, cfg: Config, overtaken: bool)

  predicate WindowFull(kept: seq<int>, cfg: Config) {
    cfg.maxPerMinute > 0 && |kept| >= cfg.maxPerMinute
  }

  /** The window test replaced a shorter wait that was still owed, and the second reading of
      time.Until then fell exactly on the instant the window frees a place. */
  predicate Overtaken(slot: Slot, cfg: Config, r: Reading) {
    var kept := Recent(slot.recent, r.now - MINUTE);
    && WindowFull(kept, cfg)
    && 0 < SpacingWait(slot.last, cfg, r) < kept[0] + MINUTE - r.check
    && r.sleep == kept[0] + MINUTE
  }

  /** `rows` holds the row each worker selected and has not used yet; `admitted` is the history
      of admissions; `clock` is the highest `now` any pass has used. */
  datatype State = State(row: Row, rows: map<nat, Config>, slot: Slot, admitted: seq<Admission>, clock: Option<int>)

  const Initial := State(Defaults, map[], EmptySlot, [], None)

  /** A worker selects the row, a worker holds the mutex for one pass, or some request commits a
      write of the row. The reading of a pass is arbitrary, since `now` is read before the lock. */
  datatype Step = Select(worker: nat) | Lock(worker: nat, reading: Reading) | Write(op: Breaker.Op)

  predicate Enabled(s: State, step: Step) {
    step.Lock? ==> step.worker in s.rows && DrawInRange(s.rows[step.worker], step.reading)
  }

  /** The highest `now` after another pass. */
  function Highest(clock: Option<int>, now: int): int {
    if clock.Some? then Max(clock.value, now) else now
  }

  /** A step that is not enabled changes nothing. */
  function Next(s: State, step: Step): State {
    if !Enabled(s, step) then s
    else
      match step
      case Select(w) => s.(rows := s.rows[w := Selected(s.row)])
      case Write(op) => s.(row := Breaker.Apply(s.row, op))
      case Lock(w, r) =>
        var cfg := s.rows[w];
        s.(rows := s.rows - {w},
           slot := PassSlot(s.slot, cfg, r),
           admitted := if Admits(s.slot, cfg, r)
                       then s.admitted + [Admission(r.now, cfg, Overtaken(s.slot, cfg, r))] else s.admitted,
           clock := Some(Highest(s.clock, r.now)))
  }

  function Exec(steps: seq<Step>): State {
    if steps == [] then Initial else Next(Exec(steps[..|steps| - 1]), steps[|steps| - 1])
  }

  function Times(admitted: seq<Admission>): (ts: seq<int>)
    ensures |ts| == |admitted| && forall i | 0 <= i < |ts| :: ts[i] == admitted[i].at
  {
    seq(|admitted|, i requires 0 <= i < |admitted| => admitted[i].at)
  }

  // ---------------------------------------------------------------- filtering

  lemma {:induction false} RecentTwice(ts: seq<int>, c: int, d: int)
    requires c <= d
    ensures Recent(Recent(ts, c), d) == Recent(ts, d)
  {
    if ts != [] {
      var front, x := ts[..|ts| - 1], ts[|ts| - 1];
      RecentTwice(front, c, d);
      if x > c {
        var kept := Recent(front, c) + [x];
        assert kept[..|kept| - 1] == Recent(front, c);
      }
    }
  }

  lemma {:induction false} RecentMembers(ts: seq<int>, c: int)
    ensures |Recent(ts, c)| <= |ts|
    ensures forall i | 0 <= i < |Recent(ts, c)| :: Recent(ts, c)[i] > c
  {
    if ts != [] {
      RecentMembers(ts[..|ts| - 1], c);
    }
  }

  lemma RecentSnoc(ts: seq<int>, x: int, c: int)
    ensures Recent(ts + [x], c) == if x > c then Recent(ts, c) + [x] else Recent(ts, c)
  {
    assert (ts + [x])[..|ts|] == ts;
  }

  /** From the cutoff `from` on, two lists answer every query alike. */
  ghost predicate SameAfter(a: seq<int>, b: seq<int>, from: int) {
    forall c | c >= from :: Recent(a, c) == Recent(b, c)
  }

  lemma SameAfterFilter(a: seq<int>, b: seq<int>, from: int, cutoff: int)
    requires SameAfter(a, b, from)
    ensures SameAfter(Recent(a, cutoff), b, Max(from, cutoff))
  {
    forall c | c >= Max(from, cutoff) ensures Recent(Recent(a, cutoff), c) == Recent(b, c) {
      RecentTwice(a, cutoff, c);
    }
  }

  lemma SameAfterSnoc(a: seq<int>, b: seq<int>, from: int, x: int)
    requires SameAfter(a, b, from)
    ensures SameAfter(a + [x], b + [x], from)
  {
    forall c | c >= from ensures Recent(a + [x], c) == Recent(b + [x], c) {
      RecentSnoc(a, x, c);
      RecentSnoc(b, x, c);
    }
  }

  // ---------------------------------------------------------------- the run invariant

  /** The limiter's list answers every query about the last minute before the highest clock
      reading exactly as the full history would. */
  ghost predicate Remembers(slot: Slot, ts: seq<int>, clock: Option<int>) {
    && (clock.None? ==> slot == EmptySlot && ts == [])
    && (clock.Some? ==> SameAfter(slot.recent, ts, clock.value - MINUTE))
    && (clock.Some? ==> forall i | 0 <= i < |ts| :: ts[i] <= clock.value)
    && slot.last == (if ts == [] then None else Some(ts[|ts| - 1]))
  }

  /** Every admission that was not overtaken comes at least the interval in force, and at least
      100 ms, after the one before it. */
  predicate Spaced(admitted: seq<Admission>) {
    forall i | 0 < i < |admitted| && !admitted[i].overtaken ::
      && admitted[i].at - admitted[i - 1].at >= admitted[i].cfg.minIntervalMs * MILLISECOND
      && admitted[i].at - admitted[i - 1].at >= 100 * MILLISECOND
  }

  /** Every admission that was not overtaken respects the cooldown its worker had read. */
  predicate Cooled(admitted: seq<Admission>) {
    forall i | 0 <= i < |admitted| && !admitted[i].overtaken && admitted[i].cfg.throttledUntil.Some? ::
      admitted[i].cfg.throttledUntil.value <= admitted[i].at
  }

  /** All settings that are stored, selected or were used for an admission are in range. */
  predicate SettingsOk(s: State) {
    && InRange(s.row)
    && (forall w <- s.rows :: s.rows[w].minIntervalMs >= 100 && s.rows[w].jitterMs >= 0 && s.rows[w].maxPerMinute >= 1)
    && (forall i | 0 <= i < |s.admitted| :: s.admitted[i].cfg.maxPerMinute >= 1)
  }

  ghost predicate Invariant(s: State) {
    && SettingsOk(s)
    && Remembers(s.slot, Times(s.admitted), s.clock)
    && Spaced(s.admitted)
    && Cooled(s.admitted)
  }

  /** Compacting, and then extending by `now`, answers alike from the later of the two cutoffs on. */
  lemma PassAnswersAlike(recent: seq<int>, ts: seq<int>, from: int, now: int)
    requires SameAfter(recent, ts, from)
    ensures SameAfter(Recent(recent, now - MINUTE), ts, Max(from, now - MINUTE))
    ensures SameAfter(Recent(recent, now - MINUTE) + [now], ts + [now], Max(from, now - MINUTE))
  {
    SameAfterFilter(recent, ts, from, now - MINUTE);
    SameAfterSnoc(Recent(recent, now - MINUTE), ts, Max(from, now - MINUTE), now);
  }

  lemma PassRemembers(slot: Slot, ts: seq<int>, clock: Option<int>, cfg: Config, r: Reading)
    requires Remembers(slot, ts, clock)
    ensures var now := if Admits(slot, cfg, r) then ts + [r.now] else ts;
            Remembers(PassSlot(slot, cfg, r), now, Some(Highest(clock, r.now)))
  {
    var from := if clock.Some? then clock.value - MINUTE else r.now - MINUTE;
    assert SameAfter(slot.recent, ts, from);
    PassAnswersAlike(slot.recent, ts, from, r.now);
    assert Max(from, r.now - MINUTE) == Highest(clock, r.now) - MINUTE;
    if Admits(slot, cfg, r) {
      assert PassSlot(slot, cfg, r) == Slot(Some(r.now), Recent(slot.recent, r.now - MINUTE) + [r.now]);
    } else {
      assert PassSlot(slot, cfg, r) == Slot(slot.last, Recent(slot.recent, r.now - MINUTE));
    }
  }

  /** An admitted pass meets the cooldown and the drawn interval exactly when it is not overtaken. */
  lemma AdmissionOwesNothing(slot: Slot, cfg: Config, r: Reading)
    requires Admits(slot, cfg, r)
    ensures (&& (cfg.throttledUntil.Some? ==> cfg.throttledUntil.value <= r.now)
             && (slot.last.Some? ==> r.now - slot.last.value >= IntervalWait(cfg, r.draw)))
            <==> !Overtaken(slot, cfg, r)
  {
  }

  lemma AdmissionKeepsSpacing(admitted: seq<Admission>, slot: Slot, cfg: Config, r: Reading)
    requires Spaced(admitted) && Cooled(admitted)
    requires slot.last == if admitted == [] then None else Some(admitted[|admitted| - 1].at)
    requires cfg.minIntervalMs >= 100 && DrawInRange(cfg, r) && Admits(slot, cfg, r)
    ensures Spaced(admitted + [Admission(r.now, cfg, Overtaken(slot, cfg, r))])
    ensures Cooled(admitted + [Admission(r.now, cfg, Overtaken(slot, cfg, r))])
  {
    AdmissionOwesNothing(slot, cfg, r);
    assert IntervalWait(cfg, r.draw) >= cfg.minIntervalMs * MILLISECOND >= 100 * MILLISECOND;
  }

  lemma LockKeepsSettings(s: State, w: nat, r: Reading)
    requires SettingsOk(s) && Enabled(s, Lock(w, r))
    ensures SettingsOk(Next(s, Lock(w, r)))
  {
  }

  lemma LockKeeps(s: State, w: nat, r: Reading)
    requires Invariant(s) && Enabled(s, Lock(w, r))
    ensures Invariant(Next(s, Lock(w, r)))
  {
    var cfg := s.rows[w];
    var ts := Times(s.admitted);
    LockKeepsSettings(s, w, r);
    PassRemembers(s.slot, ts, s.clock, cfg, r);
    if Admits(s.slot, cfg, r) {
      AdmissionKeepsSpacing(s.admitted, s.slot, cfg, r);
      assert Times(Next(s, Lock(w, r)).admitted) == ts + [r.now];
    } else {
      assert Next(s, Lock(w, r)).admitted == s.admitted;
    }
  }

  lemma StepKeeps(s: State, step: Step)
    requires Invariant(s)
    ensures Invariant(Next(s, step))
  {
    if Enabled(s, step) {
      match step
      case Select(w) =>
      case Write(op) =>
        if op.Reconfigure? && Accepted(op.req) {
          MergeStaysInRange(s.row, op.req);
        }
      case Lock(w, r) => LockKeeps(s, w, r);
    }
  }

  /** The invariant holds after every run. */
  lemma {:induction false} RunKeeps(steps: seq<Step>)
    ensures Invariant(Exec(steps))
  {
    if steps != [] {
      RunKeeps(steps[..|steps| - 1]);
      StepKeeps(Exec(steps[..|steps| - 1]), steps[|steps| - 1]);
    }
  }

  // ---------------------------------------------------------------- spacing

  /** Two admissions between which nothing is overtaken, the later one included, are at least 100 ms
      per admission and the later one's interval apart, whatever order the workers read the clock in. */
  lemma {:induction false} Spacing(steps: seq<Step>, i: nat, j: nat)
    requires var admitted := Exec(steps).admitted;
             i < j < |admitted| && forall k | i < k <= j :: !admitted[k].overtaken
    ensures var admitted := Exec(steps).admitted;
            && admitted[j].at - admitted[i].at >= admitted[j].cfg.minIntervalMs * MILLISECOND
            && admitted[j].at - admitted[i].at >= (j - i) * (100 * MILLISECOND) >= 100 * MILLISECOND
    decreases j - i
  {
    RunKeeps(steps);
    if i + 1 < j {
      Spacing(steps, i, j - 1);
    }
  }

  /** Whatever the readings, an admitted pass comes no earlier than the cooldown and the drawn
      interval after the session's last admission allow, if and only if it is not overtaken. */
  lemma SpacingBrokenIff(steps: seq<Step>, w: nat, r: Reading)
    requires var s := Exec(steps); w in s.rows && Admits(s.slot, s.rows[w], r)
    ensures var s := Exec(steps); var cfg := s.rows[w];
            (&& (cfg.throttledUntil.Some? ==> cfg.throttledUntil.value <= r.now)
             && (s.admitted != [] ==> r.now - s.admitted[|s.admitted| - 1].at >= IntervalWait(cfg, r.draw)))
            <==> !Overtaken(s.slot, cfg, r)
  {
    var s := Exec(steps);
    RunKeeps(steps);
    assert s.slot.last == if s.admitted == [] then None else Some(Times(s.admitted)[|s.admitted| - 1]);
    AdmissionOwesNothing(s.slot, s.rows[w], r);
  }

  // ---------------------------------------------------------------- the sliding-window cap

  lemma {:induction false} CountIsRecent(ts: seq<int>, lo: int, hi: int)
    requires forall i | 0 <= i < |ts| :: ts[i] <= hi
    ensures CountIn(ts, lo, hi) == |Recent(ts, lo)|
  {
    if ts != [] {
      CountIsRecent(ts[..|ts| - 1], lo, hi);
    }
  }

  /** The window is full and either time.Until came out non-positive at once, or its second
      reading came out as exactly zero. */
  predicate ReadTooLate(slot: Slot, cfg: Config, r: Reading) {
    var kept := Recent(slot.recent, r.now - MINUTE);
    && WindowFull(kept, cfg)
    && var frees := kept[0] + MINUTE;
       var spacing := SpacingWait(slot.last, cfg, r);
       (spacing == 0 && frees <= r.check) || (spacing < frees - r.check && r.sleep == frees)
  }

  /** A pass is admitted into a full window exactly when time.Until is read too late. */
  lemma FullWindowAdmitsIff(slot: Slot, cfg: Config, r: Reading)
    ensures Admits(slot, cfg, r) && WindowFull(Recent(slot.recent, r.now - MINUTE), cfg) <==> ReadTooLate(slot, cfg, r)
  {
  }

  /** The list has room although the last minute of the history is full: an entry that this pass
      still has to count was dropped by a pass that had read a later `now`. */
  predicate Forgotten(s: State, cfg: Config, r: Reading) {
    && SpacingWait(s.slot.last, cfg, r) == 0
    && |Recent(s.slot.recent, r.now - MINUTE)| < cfg.maxPerMinute
    && cfg.maxPerMinute <= CountIn(Times(s.admitted), r.now - MINUTE, r.now)
  }

  /** After any run and for any readings, a pass breaks the cap exactly when the last minute of the
      history is full, and either time.Until is read too late or the list has forgotten an entry.
      A pass that is not behind an earlier one forgets nothing; one that reads the clock once is
      never late. */
  lemma CapBrokenIff(steps: seq<Step>, w: nat, r: Reading)
    requires w in Exec(steps).rows
    ensures var s := Exec(steps); var cfg := s.rows[w];
            var before := CountIn(Times(s.admitted), r.now - MINUTE, r.now);
            var after := CountIn(Times(s.admitted) + [r.now], r.now - MINUTE, r.now);
            var broken := Admits(s.slot, cfg, r) && after > cfg.maxPerMinute;
            && (broken <==>
                || Forgotten(s, cfg, r)
                || (ReadTooLate(s.slot, cfg, r) && cfg.maxPerMinute <= before))
            && (!Behind(s, r) ==> (broken <==> ReadTooLate(s.slot, cfg, r)))
            && (SingleReading(r) ==> (broken <==> Forgotten(s, cfg, r)))
  {
    var s := Exec(steps);
    RunKeeps(steps);
    CountSnoc(Times(s.admitted), r.now, r.now - MINUTE, r.now);
    FullWindowAdmitsIff(s.slot, s.rows[w], r);
    if !Behind(s, r) {
      HistoryIsKept(s, r.now);
    }
    if SingleReading(r) {
      OnTime(s.slot, s.rows[w], r);
    }
  }

  /** Has an earlier pass read a later instant? */
  predicate Behind(s: State, r: Reading) {
    s.clock.Some? && r.now < s.clock.value
  }

  lemma {:induction false} CountSplits(ts: seq<int>, lo: int, mid: int, hi: int)
    requires lo <= mid
    ensures CountIn(ts, lo, hi) <= CountIn(ts, lo, mid) + CountIn(ts, mid, hi)
    ensures CountIn(ts, mid, hi) <= |Recent(ts, mid)|
  {
    if ts != [] {
      CountSplits(ts[..|ts| - 1], lo, mid, hi);
    }
  }

  /** How far a pass that is behind can exceed the cap: by the admissions of its minute that the
      furthest pass had already dropped. */
  lemma BehindBound(s: State, w: nat, r: Reading)
    requires Invariant(s) && w in s.rows && SingleReading(r) && Admits(s.slot, s.rows[w], r)
    ensures CountIn(Times(s.admitted) + [r.now], r.now - MINUTE, r.now)
            <= s.rows[w].maxPerMinute
               + if Behind(s, r) then CountIn(Times(s.admitted), r.now - MINUTE, s.clock.value - MINUTE) else 0
  {
    var ts := Times(s.admitted);
    CountSnoc(ts, r.now, r.now - MINUTE, r.now);
    OnTime(s.slot, s.rows[w], r);
    FullWindowAdmitsIff(s.slot, s.rows[w], r);
    if Behind(s, r) {
      var cutoff := s.clock.value - MINUTE;
      CountSplits(ts, r.now - MINUTE, cutoff, r.now);
      assert Recent(s.slot.recent, cutoff) == Recent(ts, cutoff);
      Shrinks(s.slot.recent, r.now - MINUTE, cutoff);
    } else {
      HistoryIsKept(s, r.now);
    }
  }

  /** At a pass that is not behind, the limiter's list counts the whole last minute. */
  lemma HistoryIsKept(s: State, now: int)
    requires Invariant(s) && (s.clock.Some? ==> s.clock.value <= now)
    ensures CountIn(Times(s.admitted), now - MINUTE, now) == |Recent(s.slot.recent, now - MINUTE)|
  {
    var ts := Times(s.admitted);
    CountIsRecent(ts, now - MINUTE, now);
    if s.clock.Some? {
      assert SameAfter(s.slot.recent, ts, s.clock.value - MINUTE);
      assert Recent(s.slot.recent, now - MINUTE) == Recent(ts, now - MINUTE);
    }
  }

  /** Every pass reads the clock once, and when it gets the lock its `now` is at most `lag` behind
      any earlier pass. */
  predicate LagAtMost(steps: seq<Step>, lag: int) {
    && (forall i | 0 <= i < |steps| && steps[i].Lock? :: SingleReading(steps[i].reading))
    && (forall i, j | 0 <= i < j < |steps| && steps[i].Lock? && steps[j].Lock? ::
          steps[i].reading.now - lag <= steps[j].reading.now)
  }

  /** Every pass reads the clock once, and in the order in which the passes get the lock. */
  predicate LockOrder(steps: seq<Step>) {
    LagAtMost(steps, 0)
  }

  lemma {:induction false} ClockWasRead(steps: seq<Step>)
    ensures var s := Exec(steps);
            s.clock.Some? ==> exists i | 0 <= i < |steps| :: steps[i].Lock? && steps[i].reading.now == s.clock.value
  {
    if steps != [] {
      var front := steps[..|steps| - 1];
      ClockWasRead(front);
      var s := Exec(front);
      if s.clock.Some? {
        var i :| 0 <= i < |front| && front[i].Lock? && front[i].reading.now == s.clock.value;
        assert steps[i] == front[i];
      }
      assert steps[|steps| - 1].Lock? ==> steps[|steps| - 1].reading.now == steps[|steps| - 1].reading.now;
    }
  }

  /** A pass that reads the clock once is neither overtaken nor late. */
  lemma OnTime(slot: Slot, cfg: Config, r: Reading)
    requires SingleReading(r)
    ensures !Overtaken(slot, cfg, r) && !ReadTooLate(slot, cfg, r)
  {
    RecentMembers(slot.recent, r.now - MINUTE);
  }

  lemma {:induction false} NeverOvertaken(steps: seq<Step>)
    requires forall i | 0 <= i < |steps| && steps[i].Lock? :: SingleReading(steps[i].reading)
    ensures forall k | 0 <= k < |Exec(steps).admitted| :: !Exec(steps).admitted[k].overtaken
  {
    if steps != [] {
      NeverOvertaken(steps[..|steps| - 1]);
      var s, step := Exec(steps[..|steps| - 1]), steps[|steps| - 1];
      if step.Lock? && Enabled(s, step) {
        OnTime(s.slot, s.rows[step.worker], step.reading);
      }
    }
  }

  lemma {:induction false} CountGrows(ts: seq<int>, lo: int, hi: int, further: int)
    requires hi <= further
    ensures CountIn(ts, lo, hi) <= CountIn(ts, lo, further)
  {
    if ts != [] {
      CountGrows(ts[..|ts| - 1], lo, hi, further);
    }
  }

  /** The admissions of a minute's first `lag` nanoseconds, which a pass that far ahead drops. */
  function Exposed(admitted: seq<Admission>, at: int, lag: int): nat {
    CountIn(Times(admitted), at - MINUTE, at - MINUTE + lag)
  }

  /** The newest admission of a run. */
  lemma NewestWithinCap(front: seq<Step>, step: Step, lag: nat)
    requires LagAtMost(front + [step], lag) && step.Lock? && Enabled(Exec(front), step)
    requires Admits(Exec(front).slot, Exec(front).rows[step.worker], step.reading)
    ensures var s, now := Exec(front), step.reading.now;
            CountIn(Times(s.admitted) + [now], now - MINUTE, now)
            <= s.rows[step.worker].maxPerMinute + Exposed(s.admitted, now, lag)
  {
    var s, r := Exec(front), step.reading;
    assert (front + [step])[|front|] == step;
    RunKeeps(front);
    BehindBound(s, step.worker, r);
    if Behind(s, r) {
      ClockWasRead(front);
      var k :| 0 <= k < |front| && front[k].Lock? && front[k].reading.now == s.clock.value;
      assert (front + [step])[k] == front[k];
      CountGrows(Times(s.admitted), r.now - MINUTE, s.clock.value - MINUTE, r.now - MINUTE + lag);
    }
  }

  /** With single readings, admissions are recorded in strictly increasing order. */
  lemma TimesIncrease(steps: seq<Step>, i: nat, j: nat)
    requires forall k | 0 <= k < |steps| && steps[k].Lock? :: SingleReading(steps[k].reading)
    requires i < j < |Exec(steps).admitted|
    ensures Exec(steps).admitted[i].at < Exec(steps).admitted[j].at
  {
    NeverOvertaken(steps);
    Spacing(steps, i, j);
    RunKeeps(steps);
    assert 1 <= j - i;
  }

  /** Does the admission respect its cap, up to what a lag exposes? */
  predicate WithinCap(admitted: seq<Admission>, i: nat, lag: int)
    requires i < |admitted|
  {
    CountIn(Times(admitted), admitted[i].at - MINUTE, admitted[i].at)
    <= admitted[i].cfg.maxPerMinute + Exposed(admitted, admitted[i].at, lag)
  }

  lemma TimesSnoc(before: seq<Admission>, a: Admission)
    ensures Times(before + [a]) == Times(before) + [a.at]
  {
  }

  /** A later admission falls outside the minute of an earlier one. */
  lemma OlderKeepsCap(before: seq<Admission>, a: Admission, i: nat, lag: int)
    requires i < |before| && WithinCap(before, i, lag) && before[i].at < a.at
    ensures WithinCap(before + [a], i, lag)
  {
    var at := before[i].at;
    TimesSnoc(before, a);
    CountSnoc(Times(before), a.at, at - MINUTE, at);
    CountSnoc(Times(before), a.at, at - MINUTE, at - MINUTE + lag);
  }

  lemma NewestKeepsCap(before: seq<Admission>, a: Admission, lag: int)
    requires CountIn(Times(before) + [a.at], a.at - MINUTE, a.at) <= a.cfg.maxPerMinute + Exposed(before, a.at, lag)
    ensures WithinCap(before + [a], |before|, lag)
  {
    TimesSnoc(before, a);
    CountSnoc(Times(before), a.at, a.at - MINUTE, a.at - MINUTE + lag);
  }

  lemma AdmissionKeepsCap(front: seq<Step>, step: Step, i: nat, lag: nat)
    requires LagAtMost(front + [step], lag) && step.Lock? && Enabled(Exec(front), step)
    requires Admits(Exec(front).slot, Exec(front).rows[step.worker], step.reading)
    requires i < |Exec(front).admitted| ==> WithinCap(Exec(front).admitted, i, lag)
    requires i <= |Exec(front).admitted|
    ensures i < |Exec(front + [step]).admitted| && WithinCap(Exec(front + [step]).admitted, i, lag)
  {
    ExecSnoc(front, step);
    var before, after := Exec(front).admitted, Exec(front + [step]).admitted;
    var a := after[|before|];
    assert after == before + [a];
    if i < |before| {
      TimesIncrease(front + [step], i, |before|);
      OlderKeepsCap(before, a, i, lag);
    } else {
      NewestWithinCap(front, step, lag);
      NewestKeepsCap(before, a, lag);
    }
  }

  /** The cap over whole runs whose passes are at most `lag` behind: every admission leaves at most
      as many admissions of the session in the minute that ends with it as the cap its worker had
      read, plus those of the first `lag` of that minute. */
  lemma {:induction false} CapWithLag(steps: seq<Step>, i: nat, lag: nat)
    requires LagAtMost(steps, lag) && i < |Exec(steps).admitted|
    ensures WithinCap(Exec(steps).admitted, i, lag)
  {
    var front, step := steps[..|steps| - 1], steps[|steps| - 1];
    assert steps == front + [step];
    if i < |Exec(front).admitted| {
      CapWithLag(front, i, lag);
    }
    if |Exec(front).admitted| < |Exec(steps).admitted| {
      AdmissionKeepsCap(front, step, i, lag);
    }
  }

  /** At most so many instants, each `gap` after the last, fit into an interval of length `lag`. */
  lemma SpacedCount(ts: seq<int>, lo: int, lag: nat, gap: int)
    requires gap > 0 && forall i, j | 0 <= i < j < |ts| :: ts[j] - ts[i] >= (j - i) * gap > 0
    ensures CountIn(ts, lo, lo + lag) <= (lag + gap - 1) / gap
  {
    var n := CountIn(ts, lo, lo + lag);
    if n > 0 {
      var a := CountIsABlock(ts, lo, lo + lag);
      assert lo < ts[a] && ts[a + n - 1] <= lo + lag;
      assert (n - 1) * gap <= lag - 1;
      FitsTimes(n - 1, gap, lag - 1);
    }
  }

  lemma FitsTimes(n: nat, gap: int, span: int)
    requires gap > 0 && n * gap <= span
    ensures n + 1 <= (span + gap) / gap
  {
    var q := (span + gap) / gap;
    assert (n + 1) * gap <= span + gap < (q + 1) * gap;
    assert n >= q ==> (n + 1) * gap >= (q + 1) * gap;
  }

  /** An interval of length `lag` holds at most one admission per 100 ms begun. */
  lemma ExposedIsBounded(steps: seq<Step>, lo: int, lag: nat)
    requires forall i | 0 <= i < |steps| && steps[i].Lock? :: SingleReading(steps[i].reading)
    ensures CountIn(Times(Exec(steps).admitted), lo, lo + lag) <= (lag + 100 * MILLISECOND - 1) / (100 * MILLISECOND)
  {
    var ts := Times(Exec(steps).admitted);
    NeverOvertaken(steps);
    forall i, j | 0 <= i < j < |ts| ensures ts[j] - ts[i] >= (j - i) * (100 * MILLISECOND) > 0 {
      Spacing(steps, i, j);
    }
    SpacedCount(ts, lo, lag, 100 * MILLISECOND);
  }

  /** So a worker that sleeps at most `lag` between reading the clock and taking the lock lets the
      session exceed its cap by at most one message per 100 ms of `lag`. */
  lemma CapExcess(steps: seq<Step>, i: nat, lag: nat)
    requires LagAtMost(steps, lag) && i < |Exec(steps).admitted|
    ensures var admitted := Exec(steps).admitted;
            CountIn(Times(admitted), admitted[i].at - MINUTE, admitted[i].at)
            <= admitted[i].cfg.maxPerMinute + (lag + 100 * MILLISECOND - 1) / (100 * MILLISECOND)
  {
    CapWithLag(steps, i, lag);
    ExposedIsBounded(steps, Exec(steps).admitted[i].at - MINUTE, lag);
  }

  /** The cap itself, when the clock is read in lock order: every admission leaves at most as many
      admissions of the session in the minute that ends with it as the cap its worker had read, even
      when updateThrottle changes the cap between passes. */
  lemma WindowCap(steps: seq<Step>, i: nat)
    requires LockOrder(steps) && i < |Exec(steps).admitted|
    ensures var admitted := Exec(steps).admitted;
            CountIn(Times(admitted), admitted[i].at - MINUTE, admitted[i].at) <= admitted[i].cfg.maxPerMinute
  {
    CapExcess(steps, i, 0);
  }

  // ---------------------------------------------------------------- exactly when a pass is admitted

  /** The cooldown is over. */
  predicate CooledDown(cfg: Config, now: int) {
    cfg.throttledUntil.Some? ==> cfg.throttledUntil.value <= now
  }

  /** The interval and the drawn jitter have passed since the last admission. */
  predicate FarEnough(last: Option<int>, cfg: Config, r: Reading) {
    last.Some? ==> r.now - last.value >= (cfg.minIntervalMs + if cfg.jitterMs > 0 then r.draw else 0) * 1_000_000
  }

  /** A pass that reads the clock once is admitted exactly when the cooldown is over, the session's last
      admission is far enough behind, and fewer than `max` remembered ones are less than a minute old. */
  lemma SingleAdmitsIff(slot: Slot, cfg: Config, r: Reading)
    requires SingleReading(r)
    ensures Admits(slot, cfg, r) <==>
            && CooledDown(cfg, r.now) && FarEnough(slot.last, cfg, r)
            && (cfg.maxPerMinute > 0 ==> |Recent(slot.recent, r.now - 60_000_000_000)| < cfg.maxPerMinute)
  {
    RecentMembers(slot.recent, r.now - MINUTE);
  }

  /** The same over whole runs, in terms of the history, for a pass that is not behind. */
  lemma AdmittedIff(steps: seq<Step>, w: nat, r: Reading)
    requires w in Exec(steps).rows && SingleReading(r) && !Behind(Exec(steps), r)
    ensures var s := Exec(steps); var cfg := s.rows[w];
            var last := if s.admitted == [] then None else Some(s.admitted[|s.admitted| - 1].at);
            Admits(s.slot, cfg, r) <==>
            && CooledDown(cfg, r.now) && FarEnough(last, cfg, r)
            && CountIn(Times(s.admitted), r.now - 60_000_000_000, r.now) < cfg.maxPerMinute
  {
    var s := Exec(steps);
    RunKeeps(steps);
    HistoryIsKept(s, r.now);
    SingleAdmitsIff(s.slot, s.rows[w], r);
    assert s.slot.last == if s.admitted == [] then None else Some(Times(s.admitted)[|s.admitted| - 1]);
  }

  /** The remembered instants ascend, and the last one is the newest. */
  predicate Ordered(slot: Slot) {
    Ascending(slot.recent) && forall t <- slot.recent :: slot.last.Some? && t <= slot.last.value
  }

  lemma {:induction false} RecentOrdered(ts: seq<int>, c: int)
    requires Ascending(ts)
    ensures Ascending(Recent(ts, c)) && forall t <- Recent(ts, c) :: t in ts
  {
    if ts != [] {
      RecentOrdered(ts[..|ts| - 1], c);
      var kept := Recent(ts[..|ts| - 1], c);
      forall i | 0 <= i < |kept| ensures kept[i] in ts && kept[i] <= ts[|ts| - 1] {
        assert kept[i] in kept;
        var k :| 0 <= k < |ts| - 1 && ts[..|ts| - 1][k] == kept[i];
        assert ts[k] == kept[i];
      }
    }
  }

  lemma PassKeepsOrder(slot: Slot, cfg: Config, r: Reading)
    requires Ordered(slot) && SingleReading(r) && cfg.minIntervalMs >= 100 && DrawInRange(cfg, r)
    ensures Ordered(PassSlot(slot, cfg, r))
  {
    var kept := Recent(slot.recent, r.now - MINUTE);
    RecentOrdered(slot.recent, r.now - MINUTE);
    SingleAdmitsIff(slot, cfg, r);
    if Admits(slot, cfg, r) {
      assert slot.last.Some? ==> slot.last.value <= r.now;
      forall i | 0 <= i < |kept| ensures kept[i] <= r.now {
        assert kept[i] in kept;
      }
    }
  }

  lemma {:induction false} RunsKeepOrder(steps: seq<Step>)
    requires forall i | 0 <= i < |steps| && steps[i].Lock? :: SingleReading(steps[i].reading)
    ensures Ordered(Exec(steps).slot)
  {
    if steps != [] {
      var front, step := steps[..|steps| - 1], steps[|steps| - 1];
      RunsKeepOrder(front);
      RunKeeps(front);
      if step.Lock? && Enabled(Exec(front), step) {
        PassKeepsOrder(Exec(front).slot, Exec(front).rows[step.worker], step.reading);
      }
    }
  }

  /** Until the spacing wait is over, the cooldown or the interval is still owed. */
  lemma StillOwed(last: Option<int>, cfg: Config, r: Reading, t: int)
    requires r.now <= t < r.now + SpacingWait(last, cfg, r)
    ensures !(CooledDown(cfg, t) && FarEnough(last, cfg, Reading(t, r.draw, t, t)))
  {
  }

  /** Until the oldest entry expires, a full window stays full. */
  lemma StillFull(slot: Slot, cfg: Config, now: int, t: int)
    requires Ordered(slot) && WindowFull(Recent(slot.recent, now - MINUTE), cfg)
    requires now <= t < Recent(slot.recent, now - MINUTE)[0] + MINUTE
    ensures Recent(slot.recent, t - MINUTE) == Recent(slot.recent, now - MINUTE)
  {
    var kept := Recent(slot.recent, now - MINUTE);
    RecentOrdered(slot.recent, now - MINUTE);
    RecentTwice(slot.recent, now - MINUTE, t - MINUTE);
    RecentKeepsAll(kept, t - MINUTE);
  }

  lemma WaitIsEither(slot: Slot, cfg: Config, r: Reading)
    requires SingleReading(r)
    ensures var kept := Recent(slot.recent, r.now - MINUTE);
            || PassWait(slot, cfg, r) == SpacingWait(slot.last, cfg, r)
            || (WindowFull(kept, cfg) && PassWait(slot, cfg, r) == kept[0] + MINUTE - r.now)
  {
  }

  /** The wait is no longer than needed: until it is over, a pass with the same draw would be refused
      again. RefusalGains says what is gained when it is over. */
  lemma WaitIsShortest(slot: Slot, cfg: Config, r: Reading, t: int)
    requires Ordered(slot) && SingleReading(r) && r.now <= t < r.now + PassWait(slot, cfg, r)
    ensures !Admits(slot, cfg, Reading(t, r.draw, t, t))
  {
    WaitIsEither(slot, cfg, r);
    SingleAdmitsIff(slot, cfg, Reading(t, r.draw, t, t));
    if t < r.now + SpacingWait(slot.last, cfg, r) {
      StillOwed(slot.last, cfg, r, t);
    } else {
      StillFull(slot, cfg, r.now, t);
    }
  }

  // ---------------------------------------------------------------- cooldowns over runs

  /** The committed writes of a run, in order. */
  function Writes(steps: seq<Step>): seq<Breaker.Op> {
    if steps == [] then []
    else
      var front, step := Writes(steps[..|steps| - 1]), steps[|steps| - 1];
      if step.Write? then front + [step.op] else front
  }

  lemma {:induction false} RowFollowsWrites(steps: seq<Step>)
    ensures Exec(steps).row == Breaker.Run(Defaults, Writes(steps))
  {
    if steps != [] {
      RowFollowsWrites(steps[..|steps| - 1]);
      var w := Writes(steps);
      if steps[|steps| - 1].Write? {
        assert w[..|w| - 1] == Writes(steps[..|steps| - 1]);
      }
    }
  }

  /** A cooldown is in force: the newest one started since the last success is not over. */
  predicate InCooldown(ops: seq<Breaker.Op>, now: int) {
    exists i | 0 <= i < |ops| && ops[i].Failure? ::
      Breaker.CoolsUntil(ops, i, Breaker.CooldownEnd(ops, i)) && now < Breaker.CooldownEnd(ops, i)
  }

  /** A worker that selects the row after any run is refused at every single reading before the end of
      the cooldown in force, and owes no cooldown otherwise. */
  lemma WorkersCoolDown(steps: seq<Step>, w: nat, r: Reading)
    requires SingleReading(r)
    ensures var s := Exec(steps); var cfg := Next(s, Select(w)).rows[w];
            && (CooledDown(cfg, r.now) <==> !InCooldown(Writes(steps), r.now))
            && (InCooldown(Writes(steps), r.now) ==> !Admits(s.slot, cfg, r))
  {
    var s, ops := Exec(steps), Writes(steps);
    RowFollowsWrites(steps);
    var until := s.row.throttledUntil;
    if until.Some? {
      Breaker.CooldownIff(ops, until.value);
      var i: nat :| Breaker.CoolsUntil(ops, i, until.value);
      assert until.value == Breaker.CooldownEnd(ops, i);
    }
    forall i | 0 <= i < |ops| && ops[i].Failure? && Breaker.CoolsUntil(ops, i, Breaker.CooldownEnd(ops, i))
      ensures until == Some(Breaker.CooldownEnd(ops, i))
    {
      Breaker.CooldownIff(ops, Breaker.CooldownEnd(ops, i));
    }
    SingleAdmitsIff(s.slot, Selected(s.row), r);
  }

  /** After enough failures within a minute, whatever happened before, some failure starts a cooldown
      that stops every worker for the whole configured pause. */
  lemma FailuresStopWorkers(ops: seq<Breaker.Op>, ts: seq<int>)
    requires |ts| >= Breaker.Enough(Breaker.Run(Defaults, ops).failureThreshold) && Breaker.WithinAMinute(ts)
    ensures exists k | 0 <= k < |ts| ::
              var start := Breaker.Run(Defaults, ops);
              var row := Breaker.Run(start, Breaker.Failures(ts[..k + 1]));
              forall slot, r | SingleReading(r) && r.now < ts[k] + start.pauseDurationMs * 1_000_000 ::
                !Admits(slot, Selected(row), r)
  {
    var start := Breaker.Run(Defaults, ops);
    Breaker.FailuresTrip(ops, ts);
    var k :| 0 <= k < |ts| && Breaker.TripsAt(start, ts, k);
    Breaker.RunOnce(start, ts[..k + 1]);
    assert ts[..k + 1][..k] == ts[..k];
    Breaker.PauseStays(start, ts[..k]);
    var row := Breaker.Run(start, Breaker.Failures(ts[..k + 1]));
    forall slot, r | SingleReading(r) && r.now < ts[k] + start.pauseDurationMs * 1_000_000
      ensures !Admits(slot, Selected(row), r)
    {
      SingleAdmitsIff(slot, Selected(row), r);
    }
  }

  // ---------------------------------------------------------------- how many passes Wait takes

  /** A script of `Wait` by one worker while nothing else changes the session: the same row every
      time, one clock reading per pass, and each pass at least the demanded wait after the last. */
  predicate Undisturbed(slot: Slot, cfg: Config, script: seq<Attempt>)
    decreases |script|
  {
    script == [] ||
    var r := script[0].reading;
    && script[0].row == Some(cfg) && SingleReading(r) && DrawInRange(cfg, r)
    && (|script| > 1 ==> script[1].reading.now >= r.now + PassWait(slot, cfg, r))
    && Undisturbed(PassSlot(slot, cfg, r), cfg, script[1..])
  }

  /** How many instants have to leave the window before a pass at `now` finds a free place. */
  function Surplus(slot: Slot, cfg: Config, now: int): nat {
    var kept := Recent(slot.recent, now - MINUTE);
    if WindowFull(kept, cfg) then |kept| - cfg.maxPerMinute + 1 else 0
  }

  lemma {:induction false} Shrinks(ts: seq<int>, c: int, d: int)
    requires c <= d
    ensures |Recent(ts, d)| <= |Recent(ts, c)|
    ensures Recent(ts, c) != [] && Recent(ts, c)[0] <= d ==> |Recent(ts, d)| < |Recent(ts, c)|
  {
    if ts != [] {
      Shrinks(ts[..|ts| - 1], c, d);
    }
  }

  /** After a refused pass and the sleep it demands, the cooldown is over, the window has lost a
      place if it was full, and only a larger jitter draw can refuse the session again. */
  lemma RefusalGains(slot: Slot, cfg: Config, r: Reading, later: int)
    requires SingleReading(r) && DrawInRange(cfg, r) && !Admits(slot, cfg, r)
    requires later >= r.now + PassWait(slot, cfg, r)
    ensures CooldownWait(cfg, later) == 0
    ensures slot.last.Some? ==> later - slot.last.value >= IntervalWait(cfg, r.draw)
    ensures later >= r.now
    ensures Surplus(PassSlot(slot, cfg, r), cfg, later) <= Max(0, Surplus(slot, cfg, r.now) - 1)
  {
    var kept := Recent(slot.recent, r.now - MINUTE);
    RecentMembers(slot.recent, r.now - MINUTE);
    RecentTwice(slot.recent, r.now - MINUTE, later - MINUTE);
    Shrinks(slot.recent, r.now - MINUTE, later - MINUTE);
  }

  /** The rest of a wait whose earlier passes drew at most `floor`. */
  lemma {:induction false} RestOfWait(slot: Slot, cfg: Config, script: seq<Attempt>, floor: int)
    requires Undisturbed(slot, cfg, script) && script != []
    requires 0 <= floor <= Max(cfg.jitterMs, 0)
    requires var now := script[0].reading.now;
             && CooldownWait(cfg, now) == 0
             && (slot.last.Some? ==> now - slot.last.value >= IntervalWait(cfg, floor))
             && |script| > Max(cfg.jitterMs, 0) - floor + Surplus(slot, cfg, now)
    ensures var out := WaitResultOf(slot, script);
            && out.Admitted?
            && out.passes <= Max(cfg.jitterMs, 0) - floor + Surplus(slot, cfg, script[0].reading.now) + 1
    decreases |script|
  {
    var r := script[0].reading;
    if !Admits(slot, cfg, r) {
      RecentMembers(slot.recent, r.now - MINUTE);
      assert r.draw > floor || Surplus(slot, cfg, r.now) > 0;
      RefusalGains(slot, cfg, r, script[1].reading.now);
      RestOfWait(PassSlot(slot, cfg, r), cfg, script[1..], if r.draw > floor then r.draw else floor);
    }
  }

  /** Termination: an undisturbed `Wait` is admitted within jitter_ms + 2 passes, plus one for
      each instant by which the window is over the cap when it starts. */
  lemma WaitEnds(slot: Slot, cfg: Config, script: seq<Attempt>)
    requires Undisturbed(slot, cfg, script) && script != []
    requires |script| >= Max(cfg.jitterMs, 0) + 2 + Max(0, Surplus(slot, cfg, script[0].reading.now) - 1)
    ensures var out := WaitResultOf(slot, script);
            && out.Admitted?
            && out.passes <= Max(cfg.jitterMs, 0) + 2 + Max(0, Surplus(slot, cfg, script[0].reading.now) - 1)
  {
    var r := script[0].reading;
    if !Admits(slot, cfg, r) {
      RefusalGains(slot, cfg, r, script[1].reading.now);
      RestOfWait(PassSlot(slot, cfg, r), cfg, script[1..], r.draw);
    }
  }

  // ---------------------------------------------------------------- where the guarantees stop

  function Settings(minIntervalMs: int, jitterMs: int, maxPerMinute: int): Step {
    Write(Breaker.Reconfigure(ThrottleRequest(Some(minIntervalMs), Some(jitterMs), Some(maxPerMinute), None, None)))
  }

  function Once(ms: int, draw: int): Reading {
    Reading(ms * MILLISECOND, draw, ms * MILLISECOND, ms * MILLISECOND)
  }

  lemma ExecSnoc(steps: seq<Step>, step: Step)
    ensures Exec(steps + [step]) == Next(Exec(steps), step)
  {
    assert (steps + [step])[..|steps|] == steps;
  }

  function Configured(minIntervalMs: int, jitterMs: int, maxPerMinute: int): seq<Step> {
    [] + [Settings(minIntervalMs, jitterMs, maxPerMinute)] + [Select(0)]
  }

  /** Worker 0 is admitted at instant 0 and worker 1 selects the row. */
  function Prologue(minIntervalMs: int, jitterMs: int, maxPerMinute: int): seq<Step> {
    Configured(minIntervalMs, jitterMs, maxPerMinute) + [Lock(0, Once(0, 0))] + [Select(1)]
  }

  lemma AfterConfigured(minIntervalMs: int, jitterMs: int, maxPerMinute: int)
    requires 100 <= minIntervalMs <= 60000 && 0 <= jitterMs <= 60000 && 1 <= maxPerMinute <= 600
    ensures var s := Exec(Configured(minIntervalMs, jitterMs, maxPerMinute));
            && s.slot == EmptySlot && s.admitted == []
            && Selected(s.row) == Config(minIntervalMs, jitterMs, maxPerMinute, None)
            && s.rows == map[0 := Selected(s.row)]
  {
    var settings := Settings(minIntervalMs, jitterMs, maxPerMinute);
    assert Accepted(settings.op.req);
    ExecSnoc([], settings);
    ExecSnoc([] + [settings], Select(0));
  }

  lemma AfterPrologue(minIntervalMs: int, jitterMs: int, maxPerMinute: int)
    requires 100 <= minIntervalMs <= 60000 && 0 <= jitterMs <= 60000 && 1 <= maxPerMinute <= 600
    ensures var s := Exec(Prologue(minIntervalMs, jitterMs, maxPerMinute));
            && s.slot == Slot(Some(0), [0]) && Times(s.admitted) == [0]
            && s.rows == map[1 := Config(minIntervalMs, jitterMs, maxPerMinute, None)]
            && Selected(s.row) == s.rows[1]
  {
    AfterConfigured(minIntervalMs, jitterMs, maxPerMinute);
    var c := Configured(minIntervalMs, jitterMs, maxPerMinute);
    ExecSnoc(c, Lock(0, Once(0, 0)));
    ExecSnoc(c + [Lock(0, Once(0, 0))], Select(1));
    assert Recent([], -MINUTE) == [];
  }

  /** A refused pass at 60.0 s, which drops the admission at 0 from the list, and another SELECT. */
  function Compacted(): seq<Step> {
    Prologue(59000, 2000, 1) + [Lock(1, Once(60000, 2000))] + [Select(2)]
  }

  lemma AfterCompacted()
    ensures var s := Exec(Compacted());
            && s.slot == Slot(Some(0), []) && Times(s.admitted) == [0]
            && s.rows == map[2 := Config(59000, 2000, 1, None)]
  {
    AfterPrologue(59000, 2000, 1);
    var p := Prologue(59000, 2000, 1);
    ExecSnoc(p, Lock(1, Once(60000, 2000)));
    ExecSnoc(p + [Lock(1, Once(60000, 2000))], Select(2));
    RecentSnoc([], 0, 0);
    assert [] + [0] == [0];
  }

  /** Reading the clock out of lock order breaks the cap: worker 1 reads 60.0 s, drops the first
      admission from the list and is refused for its jitter; worker 2 had read 59.5 s. */
  lemma OutOfLockOrder()
    ensures var s := Exec(Compacted() + [Lock(2, Once(59500, 0))]);
            Times(s.admitted) == [0, 59500 * MILLISECOND] && s.admitted[1].cfg.maxPerMinute == 1
  {
    AfterCompacted();
    ExecSnoc(Compacted(), Lock(2, Once(59500, 0)));
  }

  /** A late reading of time.Until breaks the cap: with cap 1, a pass that read 1.0 s is admitted
      because time.Until is evaluated 59 s later. */
  lemma LateReading()
    ensures var steps := Prologue(100, 0, 1) + [Lock(1, Reading(1000 * MILLISECOND, 0, MINUTE, MINUTE))];
            Times(Exec(steps).admitted) == [0, 1000 * MILLISECOND]
  {
    AfterPrologue(100, 0, 1);
    ExecSnoc(Prologue(100, 0, 1), Lock(1, Reading(1000 * MILLISECOND, 0, MINUTE, MINUTE)));
    RecentSnoc([], 0, 1000 * MILLISECOND - MINUTE);
    assert [] + [0] == [0];
  }

  /** An overtaken pass breaks the spacing rule: recorded 1 s after the last with an interval of 3 s. */
  lemma OvertakenPass()
    ensures var steps := Prologue(3000, 0, 1) + [Lock(1, Reading(1000 * MILLISECOND, 0, 1000 * MILLISECOND, MINUTE))];
            Times(Exec(steps).admitted) == [0, 1000 * MILLISECOND]
  {
    AfterPrologue(3000, 0, 1);
    ExecSnoc(Prologue(3000, 0, 1), Lock(1, Reading(1000 * MILLISECOND, 0, 1000 * MILLISECOND, MINUTE)));
    RecentSnoc([], 0, 1000 * MILLISECOND - MINUTE);
    assert [] + [0] == [0];
  }

  // ---------------------------------------------------------------- the excess is reached

  /** Admissions every 100 ms from 0 on. */
  function Ticks(n: nat): (ts: seq<int>)
    ensures |ts| == n && forall i | 0 <= i < n :: ts[i] == 100 * i * MILLISECOND
  {
    seq(n, i => 100 * i * MILLISECOND)
  }

  function Ticking(n: nat): seq<Step> {
    if n == 0 then [] + [Settings(100, 0, 600)]
    else (Ticking(n - 1) + [Select(0)]) + [Lock(0, Once(100 * (n - 1), 0))]
  }

  lemma {:induction false} RecentKeepsAll(ts: seq<int>, c: int)
    requires forall i | 0 <= i < |ts| :: ts[i] > c
    ensures Recent(ts, c) == ts
  {
    if ts != [] {
      RecentKeepsAll(ts[..|ts| - 1], c);
    }
  }

  lemma {:induction false} RecentDropsAll(ts: seq<int>, c: int)
    requires forall i | 0 <= i < |ts| :: ts[i] <= c
    ensures Recent(ts, c) == []
  {
    if ts != [] {
      RecentDropsAll(ts[..|ts| - 1], c);
    }
  }

  lemma {:induction false} CountAll(ts: seq<int>, lo: int, hi: int)
    requires forall i | 0 <= i < |ts| :: lo < ts[i] <= hi
    ensures CountIn(ts, lo, hi) == |ts|
  {
    if ts != [] {
      CountAll(ts[..|ts| - 1], lo, hi);
    }
  }

  /** What the limiter remembers after n ticks. */
  function TickSlot(n: nat): Slot {
    Slot(if n == 0 then None else Some(100 * (n - 1) * MILLISECOND), Ticks(n))
  }

  const Fast := Config(100, 0, 600, None)

  lemma TickPass(n: nat)
    requires 0 < n <= 600
    ensures var r := Once(100 * (n - 1), 0);
            Admits(TickSlot(n - 1), Fast, r) && PassSlot(TickSlot(n - 1), Fast, r) == TickSlot(n)
  {
    RecentKeepsAll(Ticks(n - 1), 100 * (n - 1) * MILLISECOND - MINUTE);
    assert Ticks(n - 1) + [100 * (n - 1) * MILLISECOND] == Ticks(n);
  }

  predicate Ticked(s: State, n: nat) {
    s.slot == TickSlot(n) && Times(s.admitted) == Ticks(n) && s.rows == map[] && Selected(s.row) == Fast
  }

  lemma TickStep(s: State, n: nat)
    requires 0 < n <= 600 && Ticked(s, n - 1)
    ensures Ticked(Next(Next(s, Select(0)), Lock(0, Once(100 * (n - 1), 0))), n)
  {
    TickPass(n);
    var t := Next(s, Select(0));
    assert t.rows == map[0 := Fast] && t.slot == s.slot && t.admitted == s.admitted;
    var u := Next(t, Lock(0, Once(100 * (n - 1), 0)));
    assert Times(u.admitted) == Ticks(n - 1) + [100 * (n - 1) * MILLISECOND] == Ticks(n);
  }

  lemma {:induction false} AfterTicking(n: nat)
    requires n <= 600
    ensures Ticked(Exec(Ticking(n)), n)
  {
    if n == 0 {
      assert Accepted(Settings(100, 0, 600).op.req);
      ExecSnoc([], Settings(100, 0, 600));
    } else {
      AfterTicking(n - 1);
      ExecSnoc(Ticking(n - 1), Select(0));
      ExecSnoc(Ticking(n - 1) + [Select(0)], Lock(0, Once(100 * (n - 1), 0)));
      TickStep(Exec(Ticking(n - 1)), n);
    }
  }

  /** Worker 1 selects the row while the cap is 1, worker 2 when a long interval is in force. */
  function Prepared(e: nat): seq<Step> {
    (((Ticking(e) + [Settings(100, 0, 1)]) + [Select(1)]) + [Settings(60000, 1, 600)]) + [Select(2)]
  }

  const Slow := Config(60000, 1, 600, None)
  const Capped := Config(100, 0, 1, None)

  lemma AfterPrepared(e: nat)
    requires e <= 600
    ensures var s := Exec(Prepared(e));
            s.slot == TickSlot(e) && Times(s.admitted) == Ticks(e) && s.rows == map[1 := Capped, 2 := Slow]
  {
    AfterTicking(e);
    var a := Ticking(e) + [Settings(100, 0, 1)];
    assert Accepted(Settings(100, 0, 1).op.req) && Accepted(Settings(60000, 1, 600).op.req);
    ExecSnoc(Ticking(e), Settings(100, 0, 1));
    ExecSnoc(a, Select(1));
    ExecSnoc(a + [Select(1)], Settings(60000, 1, 600));
    ExecSnoc((a + [Select(1)]) + [Settings(60000, 1, 600)], Select(2));
  }

  /** A reading a minute after the last of e ticks, and one just before the end of the first minute. */
  function Ahead(e: nat): Reading {
    Once(60000 + 100 * (e - 1), 1)
  }

  const LateOnce := Reading(MINUTE - 1, 0, MINUTE - 1, MINUTE - 1)

  /** Worker 2 reads a minute after the last tick, drops all of them and is refused for its interval;
      worker 1 had read just before the end of the first minute. */
  function Overrun(e: nat): seq<Step>
    requires e > 0
  {
    (Prepared(e) + [Lock(2, Ahead(e))]) + [Lock(1, LateOnce)]
  }

  lemma AheadPass(e: nat)
    requires 0 < e
    ensures var r := Ahead(e);
            && !Admits(TickSlot(e), Slow, r)
            && PassSlot(TickSlot(e), Slow, r) == Slot(Some(100 * (e - 1) * MILLISECOND), [])
  {
    RecentDropsAll(Ticks(e), 100 * (e - 1) * MILLISECOND);
  }

  lemma LatePass(e: nat)
    requires 0 < e <= 599
    ensures Admits(Slot(Some(100 * (e - 1) * MILLISECOND), []), Capped, LateOnce)
  {
  }

  lemma AfterOverrun(e: nat)
    requires 0 < e <= 599
    ensures var s := Exec(Overrun(e));
            Times(s.admitted) == Ticks(e) + [MINUTE - 1] && s.admitted[e].cfg == Capped
  {
    AfterPrepared(e);
    AheadPass(e);
    LatePass(e);
    ExecSnoc(Prepared(e), Lock(2, Ahead(e)));
    ExecSnoc(Prepared(e) + [Lock(2, Ahead(e))], Lock(1, LateOnce));
  }

  // The passes of that run are at most 100 ms per tick behind, and 1 ns.

  predicate ReadsUpTo(steps: seq<Step>, latest: int) {
    forall i | 0 <= i < |steps| && steps[i].Lock? :: steps[i].reading.now <= latest
  }

  lemma LagSnoc(steps: seq<Step>, step: Step, lag: int, latest: int)
    requires LagAtMost(steps, lag) && ReadsUpTo(steps, latest)
    requires step.Lock? ==> SingleReading(step.reading) && latest - lag <= step.reading.now
    ensures LagAtMost(steps + [step], lag)
    ensures ReadsUpTo(steps + [step], if step.Lock? then Max(latest, step.reading.now) else latest)
  {
  }

  lemma {:induction false} TickingLag(n: nat, lag: nat)
    ensures LagAtMost(Ticking(n), lag) && ReadsUpTo(Ticking(n), Max(0, 100 * (n - 1) * MILLISECOND))
  {
    if n > 0 {
      var latest := Max(0, 100 * (n - 2) * MILLISECOND);
      TickingLag(n - 1, lag);
      LagSnoc(Ticking(n - 1), Select(0), lag, latest);
      LagSnoc(Ticking(n - 1) + [Select(0)], Lock(0, Once(100 * (n - 1), 0)), lag, latest);
    }
  }

  lemma OverrunLag(e: nat)
    requires e > 0
    ensures LagAtMost(Overrun(e), 100 * (e - 1) * MILLISECOND + 1)
  {
    var lag, latest := 100 * (e - 1) * MILLISECOND + 1, 100 * (e - 1) * MILLISECOND;
    TickingLag(e, lag);
    var a := Ticking(e) + [Settings(100, 0, 1)];
    LagSnoc(Ticking(e), Settings(100, 0, 1), lag, latest);
    LagSnoc(a, Select(1), lag, latest);
    LagSnoc(a + [Select(1)], Settings(60000, 1, 600), lag, latest);
    LagSnoc((a + [Select(1)]) + [Settings(60000, 1, 600)], Select(2), lag, latest);
    LagSnoc(Prepared(e), Lock(2, Ahead(e)), lag, latest);
    LagSnoc(Prepared(e) + [Lock(2, Ahead(e))], Lock(1, LateOnce), lag, MINUTE + latest);
  }

  /** The bound of CapExcess is tight: for every excess that fits into a minute there is a run with
      cap 1 that reaches it. */
  lemma ExcessIsReached(e: nat)
    requires 0 < e <= 599
    ensures var lag, admitted := 100 * (e - 1) * MILLISECOND + 1, Exec(Overrun(e)).admitted;
            && LagAtMost(Overrun(e), lag) && |admitted| == e + 1 && admitted[e].cfg.maxPerMinute == 1
            && CountIn(Times(admitted), admitted[e].at - MINUTE, admitted[e].at)
               == 1 + (lag + 100 * MILLISECOND - 1) / (100 * MILLISECOND)
  {
    OverrunLag(e);
    AfterOverrun(e);
    var ts := Ticks(e) + [MINUTE - 1];
    assert |Times(Exec(Overrun(e)).admitted)| == e + 1 && ts[e] == MINUTE - 1;
    CountAll(ts, -1, MINUTE - 1);
  }
}
