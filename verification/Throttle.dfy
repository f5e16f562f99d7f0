/** The per-session limiter of internal/throttle/limiter.go: one pass of `Wait` under the
    mutex, the class that performs it on growable arrays, and the `Wait` retry loop.

    Instants and durations are integers in nanoseconds. Every clock reading and every random
    draw is an explicit input of the pass that takes it. */
module Throttle {
  import opened Common

  const MILLISECOND: int := 1_000_000
  const MINUTE: int := 60_000 * MILLISECOND

  /** What `Wait` selects from the session row (limiter.go:25). */
  datatype Config = Config(minIntervalMs: int, jitterMs: int, maxPerMinute: int, throttledUntil: Option<int>)

  /** The inputs of one pass: `now` is read before the lock is taken, `draw` is the value of
      rand.Intn(jitter+1), and `check` and `sleep` are the clock readings of the two calls of
      time.Until in the window test. */
  datatype Reading = Reading(now: int, draw: int, check: int, sleep: int)

  predicate DrawInRange(cfg: Config, r: Reading) {
    0 <= r.draw <= Max(cfg.jitterMs, 0)
  }

  /** All three clock readings of the pass agree. */
  predicate SingleReading(r: Reading) {
    r.check == r.now && r.sleep == r.now
  }

  /** What the limiter remembers about one session. `last` is None for the zero time. */
  datatype Slot = Slot(last: Option<int>, recent: seq<int>)

  const EmptySlot := Slot(None, [])

  /** The instants strictly after `cutoff`, in order. */
  function Recent(ts: seq<int>, cutoff: int): (kept: seq<int>)
  {
    if ts == [] then []
    else
      var front := Recent(ts[..|ts| - 1], cutoff);
      if ts[|ts| - 1] > cutoff then front + [ts[|ts| - 1]] else front
  }

  /** The configured interval plus the drawn jitter. */
  function IntervalWait(cfg: Config, draw: int): int {
    (cfg.minIntervalMs + if cfg.jitterMs > 0 then draw else 0) * MILLISECOND
  }

  function CooldownWait(cfg: Config, now: int): int {
    if cfg.throttledUntil.Some? && cfg.throttledUntil.value > now then cfg.throttledUntil.value - now else 0
  }

  /** The wait demanded by the cooldown and by the spacing rule together. */
  function SpacingWait(last: Option<int>, cfg: Config, r: Reading): int {
    var cooldown := CooldownWait(cfg, r.now);
    if last.Some? && IntervalWait(cfg, r.draw) > r.now - last.value then
      Max(cooldown, IntervalWait(cfg, r.draw) - (r.now - last.value))
    else cooldown
  }

  /** The wait after the sliding-window test as well; the pass is admitted exactly on zero. */
  function TotalWait(last: Option<int>, kept: seq<int>, cfg: Config, r: Reading): int {
    var spacing := SpacingWait(last, cfg, r);
    if cfg.maxPerMinute > 0 && |kept| >= cfg.maxPerMinute && spacing < kept[0] + MINUTE - r.check
    then kept[0] + MINUTE - r.sleep
    else spacing
  }

  function PassWait(slot: Slot, cfg: Config, r: Reading): int {
    TotalWait(slot.last, Recent(slot.recent, r.now - MINUTE), cfg, r)
  }

  predicate Admits(slot: Slot, cfg: Config, r: Reading) {
    PassWait(slot, cfg, r) == 0
  }

  /** The slot after one pass: compacted, and extended when the pass is admitted. */
  function PassSlot(slot: Slot, cfg: Config, r: Reading): Slot {
    var kept := Recent(slot.recent, r.now - MINUTE);
    if Admits(slot, cfg, r) then Slot(Some(r.now), kept + [r.now]) else Slot(slot.last, kept)
  }

  /** One iteration of `Wait`: the row the SELECT returned (None is a query error) and the
      readings of the pass that follows. */
  datatype Attempt = Attempt(row: Option<Config>, reading: Reading)

  datatype WaitResult = Admitted(at: int, passes: nat) | QueryFailed | Cancelled

  /** `Wait` run on a script of attempts. A script that ends before an admission stands for
      the context being cancelled during the last sleep. */
  function WaitResultOf(slot: Slot, script: seq<Attempt>): WaitResult
    decreases |script|
  {
    if script == [] then Cancelled
    else if script[0].row.None? then QueryFailed
    else if Admits(slot, script[0].row.value, script[0].reading) then Admitted(script[0].reading.now, 1)
    else
      match WaitResultOf(PassSlot(slot, script[0].row.value, script[0].reading), script[1..])
      case Admitted(at, n) => Admitted(at, n + 1)
      case other => other
  }

  function WaitSlotOf(slot: Slot, script: seq<Attempt>): Slot
    decreases |script|
  {
    if script == [] || script[0].row.None? then slot
    else
      var next := PassSlot(slot, script[0].row.value, script[0].reading);
      if Admits(slot, script[0].row.value, script[0].reading) then next else WaitSlotOf(next, script[1..])
  }

  /** The slot after the first n passes of a script. */
  function SlotAfter(slot: Slot, script: seq<Attempt>, n: nat): Slot
    requires n <= |script|
  {
    if n == 0 then slot
    else
      var before := SlotAfter(slot, script, n - 1);
      if script[n - 1].row.None? then before else PassSlot(before, script[n - 1].row.value, script[n - 1].reading)
  }

  predicate AdmitsAt(slot: Slot, script: seq<Attempt>, i: nat)
    requires i < |script|
  {
    script[i].row.Some? && Admits(SlotAfter(slot, script, i), script[i].row.value, script[i].reading)
  }

  /** Pass i selects a row and is refused. */
  predicate RefusedAt(slot: Slot, script: seq<Attempt>, i: nat)
    requires i < |script|
  {
    script[i].row.Some? && !AdmitsAt(slot, script, i)
  }

  predicate RefusedUpTo(slot: Slot, script: seq<Attempt>, n: nat)
    requires n <= |script|
  {
    forall i | 0 <= i < n :: RefusedAt(slot, script, i)
  }

  /** Pass number n is the first that is not refused, and is admitted at `at`. */
  predicate AdmittedAs(slot: Slot, script: seq<Attempt>, at: int, n: nat, after: Slot) {
    && 0 < n <= |script| && RefusedUpTo(slot, script, n - 1) && AdmitsAt(slot, script, n - 1)
    && at == script[n - 1].reading.now && after == SlotAfter(slot, script, n)
  }

  predicate Newest(slot: Slot, at: int) {
    slot.last == Some(at) && slot.recent != [] && slot.recent[|slot.recent| - 1] == at
  }

  /** What `Wait` may return and leave. Admitted: the first pass that is not refused is admitted, and
      its instant is the session's last and newest. QueryFailed: the first pass that is not refused
      selects no row. Cancelled: every pass is refused. */
  predicate Outcome(slot: Slot, script: seq<Attempt>, result: WaitResult, after: Slot) {
    match result
    case Admitted(at, n) => AdmittedAs(slot, script, at, n, after) && Newest(after, at)
    case QueryFailed =>
      exists n | 0 <= n < |script| ::
        RefusedUpTo(slot, script, n) && script[n].row.None? && after == SlotAfter(slot, script, n)
    case Cancelled => RefusedUpTo(slot, script, |script|) && after == SlotAfter(slot, script, |script|)
  }

  lemma {:induction false} SlotAfterStep(slot: Slot, script: seq<Attempt>, n: nat)
    requires n < |script| && script[0].row.Some?
    ensures SlotAfter(slot, script, n + 1)
         == SlotAfter(PassSlot(slot, script[0].row.value, script[0].reading), script[1..], n)
  {
    if n > 0 {
      SlotAfterStep(slot, script, n - 1);
      assert script[1..][n - 1] == script[n];
    } else {
      assert SlotAfter(slot, script, 0) == slot;
    }
  }

  /** A script without its first pass, from the slot that pass leaves. */
  lemma PassShifts(slot: Slot, script: seq<Attempt>, i: nat)
    requires i + 1 < |script| && script[0].row.Some?
    ensures var next := PassSlot(slot, script[0].row.value, script[0].reading);
            && AdmitsAt(slot, script, i + 1) == AdmitsAt(next, script[1..], i)
            && RefusedAt(slot, script, i + 1) == RefusedAt(next, script[1..], i)
            && script[1..][i] == script[i + 1]
  {
    SlotAfterStep(slot, script, i);
  }

  /** The first pass selects a row and is refused. */
  predicate StartsRefused(slot: Slot, script: seq<Attempt>) {
    script != [] && RefusedAt(slot, script, 0)
  }

  function AfterFirst(slot: Slot, script: seq<Attempt>): Slot
    requires StartsRefused(slot, script)
  {
    PassSlot(slot, script[0].row.value, script[0].reading)
  }

  /** A refused first pass is one more refused pass. */
  lemma RefusedOneMore(slot: Slot, script: seq<Attempt>, n: nat)
    requires StartsRefused(slot, script) && n < |script| && RefusedUpTo(AfterFirst(slot, script), script[1..], n)
    ensures RefusedUpTo(slot, script, n + 1)
  {
    forall i | 0 <= i < n + 1 ensures RefusedAt(slot, script, i) {
      if i > 0 {
        PassShifts(slot, script, i - 1);
      }
    }
  }

  lemma AdmittedOneMore(slot: Slot, script: seq<Attempt>, at: int, n: nat, after: Slot)
    requires StartsRefused(slot, script) && AdmittedAs(AfterFirst(slot, script), script[1..], at, n, after)
    ensures AdmittedAs(slot, script, at, n + 1, after)
  {
    RefusedOneMore(slot, script, n - 1);
    PassShifts(slot, script, n - 1);
    SlotAfterStep(slot, script, n);
  }

  lemma FailedOneMore(slot: Slot, script: seq<Attempt>, after: Slot)
    requires StartsRefused(slot, script) && Outcome(AfterFirst(slot, script), script[1..], QueryFailed, after)
    ensures Outcome(slot, script, QueryFailed, after)
  {
    var next, rest := AfterFirst(slot, script), script[1..];
    var n :| 0 <= n < |rest| && RefusedUpTo(next, rest, n) && rest[n].row.None? && after == SlotAfter(next, rest, n);
    RefusedOneMore(slot, script, n);
    SlotAfterStep(slot, script, n);
    assert rest[n] == script[n + 1];
  }

  lemma CancelledOneMore(slot: Slot, script: seq<Attempt>, after: Slot)
    requires StartsRefused(slot, script) && Outcome(AfterFirst(slot, script), script[1..], Cancelled, after)
    ensures Outcome(slot, script, Cancelled, after)
  {
    RefusedOneMore(slot, script, |script| - 1);
    SlotAfterStep(slot, script, |script| - 1);
  }

  /** The loop ends as the first pass that is not refused decides. */
  lemma {:induction false} WaitOutcome(slot: Slot, script: seq<Attempt>)
    ensures Outcome(slot, script, WaitResultOf(slot, script), WaitSlotOf(slot, script))
    decreases |script|
  {
    if script == [] {
      assert RefusedUpTo(slot, script, 0);
    } else if script[0].row.None? {
      assert RefusedUpTo(slot, script, 0) && SlotAfter(slot, script, 0) == slot;
    } else if Admits(slot, script[0].row.value, script[0].reading) {
      assert SlotAfter(slot, script, 0) == slot && AdmitsAt(slot, script, 0);
    } else {
      assert StartsRefused(slot, script);
      var next := AfterFirst(slot, script);
      var after := WaitSlotOf(next, script[1..]);
      WaitOutcome(next, script[1..]);
      match WaitResultOf(next, script[1..])
      case Admitted(at, n) => AdmittedOneMore(slot, script, at, n, after);
      case QueryFailed => FailedOneMore(slot, script, after);
      case Cancelled => CancelledOneMore(slot, script, after);
    }
  }

  /** There is one first pass that is not refused. */
  lemma EndsMatch(slot: Slot, script: seq<Attempt>, n: nat, m: nat)
    requires n <= |script| && RefusedUpTo(slot, script, n) && (n < |script| ==> !RefusedAt(slot, script, n))
    requires m <= |script| && RefusedUpTo(slot, script, m) && (m < |script| ==> !RefusedAt(slot, script, m))
    ensures n == m
  {
  }

  /** At most one result and one slot are possible. */
  lemma OutcomeIsUnique(slot: Slot, script: seq<Attempt>, r: WaitResult, after: Slot, r': WaitResult, after': Slot)
    requires Outcome(slot, script, r, after) && Outcome(slot, script, r', after')
    ensures r == r' && after == after'
  {
    var n, n' := EndOf(slot, script, r, after), EndOf(slot, script, r', after');
    EndsMatch(slot, script, n, n');
  }

  /** The number of refused passes. */
  ghost function EndOf(slot: Slot, script: seq<Attempt>, r: WaitResult, after: Slot): (n: nat)
    requires Outcome(slot, script, r, after)
    ensures n <= |script| && RefusedUpTo(slot, script, n) && (n < |script| ==> !RefusedAt(slot, script, n))
    ensures r.Admitted? <==> n < |script| && script[n].row.Some?
    ensures r.Admitted? ==> n == r.passes - 1 && AdmitsAt(slot, script, n)
    ensures r.QueryFailed? <==> n < |script| && script[n].row.None?
    ensures after == SlotAfter(slot, script, if r.Admitted? then n + 1 else n)
  {
    match r
    case Admitted(_, n) => n - 1
    case QueryFailed =>
      var n :| 0 <= n < |script| && RefusedUpTo(slot, script, n) && script[n].row.None?
               && after == SlotAfter(slot, script, n);
      n
    case Cancelled => |script|
  }

  /** A Go slice of instants: the first `len` elements of `data`. */
  datatype Slice = Slice(data: array<int>, len: nat)

  /** Filters the first n elements of `a` in place, as the `recent[:0]` loop does. */
  method Compact(a: array<int>, n: nat, cutoff: int) returns (k: nat)
    requires n <= a.Length
    modifies a
    ensures k <= n
    ensures a[..k] == Recent(old(a[..n]), cutoff)
  {
    k := 0;
    var i := 0;
    while i < n
      invariant 0 <= k <= i <= n
      invariant a[i..n] == old(a[i..n])
      invariant a[..k] == Recent(old(a[..i]), cutoff)
    {
      ghost var before := a[..k];
      assert a[i] == a[i..n][0] == old(a[i..n])[0] == old(a[i]);
      assert old(a[..i + 1])[..i] == old(a[..i]);
      if a[i] > cutoff {
        a[k] := a[i];
        k := k + 1;
        assert a[..k] == before + [old(a[i])];
      }
      i := i + 1;
    }
  }

  /** append(s, t): in place when there is capacity left, otherwise into a larger copy. */
  method Append(s: Slice, t: int) returns (r: Slice)
    requires s.len <= s.data.Length
    modifies s.data
    ensures r.len == s.len + 1 <= r.data.Length
    ensures r.data[..r.len] == old(s.data[..s.len]) + [t]
    ensures r.data == s.data || fresh(r.data)
  {
    if s.len < s.data.Length {
      s.data[s.len] := t;
      r := Slice(s.data, s.len + 1);
    } else {
      var grown := new int[2 * s.len + 1];
      forall i | 0 <= i < s.len {
        grown[i] := s.data[i];
      }
      grown[s.len] := t;
      r := Slice(grown, s.len + 1);
      assert grown[..s.len] == s.data[..s.len];
    }
  }

  class Limiter {
    var last: map<string, int>
    var recent: map<string, Slice>

    ghost function Buffers(): set<object>
      reads this
    {
      set s | s in recent :: recent[s].data
    }

    /** Slices stay inside their arrays and sessions never share an array. */
    ghost predicate Valid()
      reads this
    {
      && (forall s <- recent :: recent[s].len <= recent[s].data.Length)
      && (forall s <- recent, t <- recent :: s != t ==> recent[s].data != recent[t].data)
    }

    /** The remembered state of one session; a missing key reads as the zero value. */
    ghost function View(session: string): Slot
      requires Valid()
      reads this, Buffers()
    {
      Slot(if session in last then Some(last[session]) else None,
           if session in recent then recent[session].data[..recent[session].len] else [])
    }

    constructor ()
      ensures Valid() && Buffers() == {}
      ensures forall s :: View(s) == EmptySlot
    {
      last, recent := map[], map[];
    }

    /** Drops the session's instants up to `cutoff`, in place. */
    method Forget(session: string, cutoff: int)
      requires Valid()
      modifies this`recent, Buffers()
      ensures Valid() && fresh(Buffers() - old(Buffers()))
      ensures session in recent
      ensures View(session) == Slot(old(View(session)).last, Recent(old(View(session)).recent, cutoff))
      ensures forall s | s != session :: View(s) == old(View(s))
    {
      if session in recent {
        var k := Compact(recent[session].data, recent[session].len, cutoff);
        recent := recent[session := Slice(recent[session].data, k)];
      } else {
        var empty := new int[0];
        recent := recent[session := Slice(empty, 0)];
      }
    }

    /** Notes an admission at `now`. */
    method Remember(session: string, now: int)
      requires Valid() && session in recent
      modifies this, Buffers()
      ensures Valid() && fresh(Buffers() - old(Buffers()))
      ensures View(session) == Slot(Some(now), old(View(session)).recent + [now])
      ensures forall s | s != session :: View(s) == old(View(s))
    {
      last := last[session := now];
      var extended := Append(recent[session], now);
      recent := recent[session := extended];
    }

    /** How long the session has to wait, given its compacted slice. */
    method Demand(session: string, cfg: Config, r: Reading) returns (wait: int)
      requires Valid() && session in recent
      ensures wait == TotalWait(View(session).last, View(session).recent, cfg, r)
    {
      var kept := recent[session];
      wait := if cfg.throttledUntil.Some? && cfg.throttledUntil.value > r.now
              then cfg.throttledUntil.value - r.now else 0;
      var intervalWait := cfg.minIntervalMs * MILLISECOND;
      if cfg.jitterMs > 0 {
        intervalWait := intervalWait + r.draw * MILLISECOND;
      }
      if session in last && intervalWait > r.now - last[session] {
        var candidate := intervalWait - (r.now - last[session]);
        if candidate > wait {
          wait := candidate;
        }
      }
      if cfg.maxPerMinute > 0 && kept.len >= cfg.maxPerMinute && wait < kept.data[0] + MINUTE - r.check {
        wait := kept.data[0] + MINUTE - r.sleep;
      }
    }

    /** The part of a `Wait` iteration between Lock and Unlock. */
    method Pass(session: string, cfg: Config, r: Reading) returns (wait: int)
      requires Valid()
      modifies this, Buffers()
      ensures Valid() && fresh(Buffers() - old(Buffers()))
      ensures wait == old(PassWait(View(session), cfg, r))
      ensures View(session) == old(PassSlot(View(session), cfg, r))
      ensures forall s | s != session :: View(s) == old(View(s))
    {
      Forget(session, r.now - MINUTE);
      wait := Demand(session, cfg, r);
      if wait == 0 {
        Remember(session, r.now);
      }
    }

    /** The whole retry loop of `Wait`. */
    method Wait(session: string, script: seq<Attempt>) returns (result: WaitResult)
      requires Valid()
      modifies this, Buffers()
      ensures Valid() && fresh(Buffers() - old(Buffers()))
      ensures result == old(WaitResultOf(View(session), script))
      ensures View(session) == old(WaitSlotOf(View(session), script))
      ensures forall s | s != session :: View(s) == old(View(s))
    {
      var i := 0;
      while i < |script|
        invariant 0 <= i <= |script|
        invariant Valid() && fresh(Buffers() - old(Buffers()))
        invariant old(WaitResultOf(View(session), script)) == Later(WaitResultOf(View(session), script[i..]), i)
        invariant old(WaitSlotOf(View(session), script)) == WaitSlotOf(View(session), script[i..])
        invariant forall s | s != session :: View(s) == old(View(s))
      {
        assert script[i..][0] == script[i] && script[i..][1..] == script[i + 1..];
        if script[i].row.None? {
          return QueryFailed;
        }
        var wait := Pass(session, script[i].row.value, script[i].reading);
        if wait == 0 {
          return Admitted(script[i].reading.now, i + 1);
        }
        i := i + 1;
      }
      result := Cancelled;
    }
  }

  /** A result reached `n` passes later. */
  ghost function Later(r: WaitResult, n: nat): WaitResult {
    match r
    case Admitted(at, passes) => Admitted(at, passes + n)
    case other => other
  }
}
