/** The fixed-window limiter of VerifyAPIKey (internal/auth/service.go:138-152). */
module RateWindow {
  import opened Common
  import opened Throttle

  datatype Window = Window(started: int, count: int)

  /** What one call decides: whether it is let through, and the key's window afterwards. */
  datatype Decision = Decision(ok: bool, window: Option<Window>)

  /** Does a call at `now` open a window? A missing one reads as the zero time, which is more than a
      minute ago. */
  predicate Opens(w: Option<Window>, now: int) {
    w.None? || now - w.value.started >= MINUTE
  }

  function Current(w: Option<Window>, now: int): Window {
    if Opens(w, now) then Window(now, 0) else w.value
  }

  function Decide(w: Option<Window>, limit: Option<int>, now: int): Decision {
    if limit.None? || limit.value <= 0 then Decision(true, w)
    else
      var cur := Current(w, now);
      if cur.count >= limit.value then Decision(false, w)
      else Decision(true, Some(cur.(count := cur.count + 1)))
  }

  function Lookup(rate: map<string, Window>, key: string): Option<Window> {
    if key in rate then Some(rate[key]) else None
  }

  class RateTable {
    var rate: map<string, Window>

    constructor ()
      ensures rate == map[]
    {
      rate := map[];
    }

    /** The section of VerifyAPIKey that holds the mutex; `now` is read inside it. */
    method Verify(key: string, limit: Option<int>, now: int) returns (ok: bool)
      modifies this
      ensures ok == Decide(Lookup(old(rate), key), limit, now).ok
      ensures Lookup(rate, key) == Decide(Lookup(old(rate), key), limit, now).window
      ensures forall k | k != key :: Lookup(rate, k) == Lookup(old(rate), k)
    {
      if limit.Some? && limit.value > 0 {
        var w: Window;
        if key !in rate || now - rate[key].started >= MINUTE {
          w := Window(now, 0);
        } else {
          w := rate[key];
        }
        if w.count >= limit.value {
          return false;
        }
        rate := rate[key := w.(count := w.count + 1)];
      }
      return true;
    }
  }

  // ---------------------------------------------------------------- runs

  datatype Call = Call(key: string, limit: Option<int>, now: int)

  /** The history of one key: its window, the instants of its accepted calls, and the positions
      among them at which a window was opened. */
  datatype Trace = Trace(window: Option<Window>, accepted: seq<int>, opens: seq<nat>)

  function Extend(t: Trace, c: Call): Trace {
    var d := Decide(t.window, c.limit, c.now);
    if !d.ok then t
    else Trace(d.window, t.accepted + [c.now],
               if d.window != t.window && Opens(t.window, c.now) then t.opens + [|t.accepted|] else t.opens)
  }

  function TraceOf(calls: seq<Call>, key: string): Trace {
    if calls == [] then Trace(None, [], [])
    else
      var t := TraceOf(calls[..|calls| - 1], key);
      var c := calls[|calls| - 1];
      if c.key == key then Extend(t, c) else t
  }

  /** The shared map after a run of calls of all keys. */
  function Table(calls: seq<Call>): map<string, Window> {
    if calls == [] then map[]
    else
      var rate := Table(calls[..|calls| - 1]);
      var c := calls[|calls| - 1];
      var d := Decide(Lookup(rate, c.key), c.limit, c.now);
      if d.window.Some? then rate[c.key := d.window.value] else rate
  }

  /** Keys never affect one another: what the shared map holds for a key, and so what the next
      call of that key is answered, is decided by that key's own calls alone. */
  lemma {:induction false} KeysAreIndependent(calls: seq<Call>, key: string)
    ensures Lookup(Table(calls), key) == TraceOf(calls, key).window
  {
    if calls != [] {
      var front, c := calls[..|calls| - 1], calls[|calls| - 1];
      KeysAreIndependent(front, key);
      KeysAreIndependent(front, c.key);
    }
  }

  /** All calls of the key carry a limit between 1 and `most`. */
  predicate Limited(calls: seq<Call>, key: string, most: int) {
    forall i | 0 <= i < |calls| && calls[i].key == key :: calls[i].limit.Some? && 0 < calls[i].limit.value <= most
  }

  predicate ClockAdvances(calls: seq<Call>, key: string) {
    forall i, j | 0 <= i < j < |calls| && calls[i].key == key && calls[j].key == key :: calls[i].now <= calls[j].now
  }

  /** The newest window is counted exactly and holds at most `most` calls. */
  predicate NewestCounted(t: Trace, most: int) {
    if t.opens == [] then t.window == None && t.accepted == []
    else
      var newest := t.opens[|t.opens| - 1];
      && t.opens[0] == 0
      && newest < |t.accepted| <= newest + most
      && t.window == Some(Window(t.accepted[newest], |t.accepted| - newest))
  }

  /** Older windows hold at most `most` calls each, and windows open at least a minute apart. */
  predicate Sliced(ts: seq<int>, opens: seq<nat>, most: int) {
    && (forall k | 0 <= k < |opens| :: opens[k] < |ts|)
    && (forall k | 0 < k < |opens| ::
          && opens[k - 1] < opens[k] <= opens[k - 1] + most
          && ts[opens[k]] - ts[opens[k - 1]] >= MINUTE)
  }

  predicate Shape(t: Trace, most: int) {
    Ascending(t.accepted) && NewestCounted(t, most) && Sliced(t.accepted, t.opens, most)
  }

  lemma SlicedGrows(ts: seq<int>, opens: seq<nat>, most: int, x: int)
    requires Sliced(ts, opens, most)
    ensures Sliced(ts + [x], opens, most)
  {
    assert forall i | 0 <= i < |ts| :: (ts + [x])[i] == ts[i];
  }

  lemma OpeningKeepsSliced(ts: seq<int>, opens: seq<nat>, most: int, x: int)
    requires Sliced(ts, opens, most)
    requires opens != [] ==> |ts| <= opens[|opens| - 1] + most && x - ts[opens[|opens| - 1]] >= MINUTE
    ensures Sliced(ts + [x], opens + [|ts|], most)
  {
    var us, more := ts + [x], opens + [|ts|];
    SlicedGrows(ts, opens, most, x);
    assert us[|ts|] == x;
    forall k | 0 < k < |more|
      ensures more[k - 1] < more[k] <= more[k - 1] + most && us[more[k]] - us[more[k - 1]] >= MINUTE
    {
      assert more[k - 1] == opens[k - 1] && us[opens[k - 1]] == ts[opens[k - 1]];
      if k < |opens| {
        assert more[k] == opens[k];
      }
    }
  }

  lemma AscendingSnoc(ts: seq<int>, x: int)
    requires Ascending(ts) && forall i | 0 <= i < |ts| :: ts[i] <= x
    ensures Ascending(ts + [x])
  {
  }

  /** A call that joins the newest window. */
  lemma JoinKeepsShape(t: Trace, most: int, now: int)
    requires Shape(t, most) && t.window.Some? && t.window.value.count < most
    requires forall i | 0 <= i < |t.accepted| :: t.accepted[i] <= now
    ensures var joined := Window(t.window.value.started, t.window.value.count + 1);
            Shape(Trace(Some(joined), t.accepted + [now], t.opens), most)
  {
    AscendingSnoc(t.accepted, now);
    SlicedGrows(t.accepted, t.opens, most, now);
    assert (t.accepted + [now])[t.opens[|t.opens| - 1]] == t.accepted[t.opens[|t.opens| - 1]];
  }

  /** A call that opens a window. */
  lemma OpenKeepsShape(t: Trace, most: int, now: int)
    requires Shape(t, most) && Opens(t.window, now) && most > 0
    requires forall i | 0 <= i < |t.accepted| :: t.accepted[i] <= now
    ensures Shape(Trace(Some(Window(now, 1)), t.accepted + [now], t.opens + [|t.accepted|]), most)
  {
    AscendingSnoc(t.accepted, now);
    OpeningKeepsSliced(t.accepted, t.opens, most, now);
  }

  lemma ExtendKeepsShape(t: Trace, c: Call, most: int)
    requires Shape(t, most) && c.limit.Some? && 0 < c.limit.value <= most
    requires forall i | 0 <= i < |t.accepted| :: t.accepted[i] <= c.now
    ensures Shape(Extend(t, c), most)
  {
    if Opens(t.window, c.now) {
      OpenKeepsShape(t, most, c.now);
    } else if t.window.value.count < c.limit.value {
      JoinKeepsShape(t, most, c.now);
    }
  }

  lemma {:induction false} AcceptedBefore(calls: seq<Call>, key: string, latest: int)
    requires forall i | 0 <= i < |calls| && calls[i].key == key :: calls[i].now <= latest
    ensures forall i | 0 <= i < |TraceOf(calls, key).accepted| :: TraceOf(calls, key).accepted[i] <= latest
  {
    if calls != [] {
      AcceptedBefore(calls[..|calls| - 1], key, latest);
    }
  }

  lemma {:induction false} TraceHasShape(calls: seq<Call>, key: string, most: int)
    requires Limited(calls, key, most) && ClockAdvances(calls, key)
    ensures Shape(TraceOf(calls, key), most)
  {
    if calls != [] {
      var front, c := calls[..|calls| - 1], calls[|calls| - 1];
      TraceHasShape(front, key, most);
      if c.key == key {
        AcceptedBefore(front, key, c.now);
        ExtendKeepsShape(TraceOf(front, key), c, most);
      }
    }
  }

  /** The window that the i-th accepted call belongs to. */
  lemma {:induction false} FindWindow(opens: seq<nat>, i: nat) returns (k: nat)
    requires opens != [] && opens[0] <= i
    ensures k < |opens| && opens[k] <= i && (k + 1 < |opens| ==> i < opens[k + 1])
  {
    k := 0;
    while k + 1 < |opens| && opens[k + 1] <= i
      invariant k < |opens| && opens[k] <= i
    {
      k := k + 1;
    }
  }

  /** Twice the limit, counted from any accepted call, takes at least a minute. */
  lemma SpanOfTwice(t: Trace, most: int, i: nat)
    requires Shape(t, most) && most > 0 && i + 2 * most - 1 < |t.accepted|
    ensures t.accepted[i + 2 * most - 1] - t.accepted[i] >= MINUTE
  {
    var k := FindWindow(t.opens, i);
    assert k + 1 < |t.opens|;
    assert t.opens[k + 1] <= t.opens[k] + most;
    if i == t.opens[k] {
      assert t.accepted[t.opens[k + 1]] <= t.accepted[i + 2 * most - 1];
    } else {
      assert k + 2 < |t.opens|;
      assert t.opens[k + 2] <= t.opens[k + 1] + most;
      assert t.accepted[i] <= t.accepted[t.opens[k + 1]];
      assert t.accepted[t.opens[k + 2]] <= t.accepted[i + 2 * most - 1];
    }
  }

  /** The rate bound: in any half-open minute [s, s + 60 s) a key is let through at most
      2 * most - 1 times, and never more than `most` times in one anchored window. */
  lemma RateBound(calls: seq<Call>, key: string, most: int, s: int)
    requires Limited(calls, key, most) && ClockAdvances(calls, key) && most > 0
    ensures CountIn(TraceOf(calls, key).accepted, s - 1, s + MINUTE - 1) <= 2 * most - 1
    ensures TraceOf(calls, key).window.Some? ==> TraceOf(calls, key).window.value.count <= most
  {
    TraceHasShape(calls, key, most);
    var t := TraceOf(calls, key);
    var n := CountIn(t.accepted, s - 1, s + MINUTE - 1);
    if n >= 2 * most {
      var a := CountIsABlock(t.accepted, s - 1, s + MINUTE - 1);
      assert s - 1 < t.accepted[a] && t.accepted[a + 2 * most - 1] <= s + MINUTE - 1;
      SpanOfTwice(t, most, a);
    }
  }

  /** A key without a positive limit is always let through. */
  lemma UnlimitedPasses(w: Option<Window>, limit: Option<int>, now: int)
    requires limit.Some? ==> limit.value <= 0
    ensures Decide(w, limit, now) == Decision(true, w)
  {
  }

  /** After any run of calls with limits, a call is refused exactly when the newest window was opened
      less than a minute ago and already holds `limit` accepted calls. */
  lemma RefusedIff(calls: seq<Call>, key: string, most: int, limit: int, now: int)
    requires Limited(calls, key, most) && ClockAdvances(calls, key) && limit > 0
    ensures var t := TraceOf(calls, key);
            !Decide(t.window, Some(limit), now).ok <==>
            && t.opens != [] && t.opens[|t.opens| - 1] < |t.accepted|
            && now - t.accepted[t.opens[|t.opens| - 1]] < 60_000_000_000
            && |t.accepted| - t.opens[|t.opens| - 1] >= limit
  {
    TraceHasShape(calls, key, most);
  }

  // ---------------------------------------------------------------- the bound is reached

  lemma TraceSnoc(calls: seq<Call>, c: Call)
    ensures TraceOf(calls + [c], c.key) == Extend(TraceOf(calls, c.key), c)
  {
    assert (calls + [c])[..|calls|] == calls;
  }

  /** n calls alike, all let through. */
  lemma {:induction false} AllPass(calls: seq<Call>, c: Call, n: nat)
    requires c.limit.Some? && 0 <= Current(TraceOf(calls, c.key).window, c.now).count
    requires 0 < n && Current(TraceOf(calls, c.key).window, c.now).count + n <= c.limit.value
    ensures var cur := Current(TraceOf(calls, c.key).window, c.now);
            TraceOf(calls + Repeat(c, n), c.key).window == Some(Window(cur.started, cur.count + n))
    ensures TraceOf(calls + Repeat(c, n), c.key).accepted == TraceOf(calls, c.key).accepted + Repeat(c.now, n)
  {
    RepeatSnoc(calls, c, n);
    RepeatSnoc(TraceOf(calls, c.key).accepted, c.now, n);
    TraceSnoc(calls + Repeat(c, n - 1), c);
    if n == 1 {
      assert calls + Repeat(c, 0) == calls;
      assert TraceOf(calls, c.key).accepted + Repeat(c.now, 0) == TraceOf(calls, c.key).accepted;
    } else {
      AllPass(calls, c, n - 1);
    }
  }

  /** Calls that reach the bound: one at 0, the rest of that window at 1 ns, a full window at 60 s. */
  function Burst(key: string, most: int): seq<Call>
    requires most > 0
  {
    [Call(key, Some(most), 0)] + Repeat(Call(key, Some(most), 1), most - 1)
      + Repeat(Call(key, Some(most), MINUTE), most)
  }

  lemma {:induction false} CountRepeat(ts: seq<int>, x: int, n: nat, lo: int, hi: int)
    requires lo < x <= hi
    ensures CountIn(ts + Repeat(x, n), lo, hi) == CountIn(ts, lo, hi) + n
  {
    if n == 0 {
      assert ts + Repeat(x, n) == ts;
    } else {
      CountRepeat(ts, x, n - 1, lo, hi);
      RepeatSnoc(ts, x, n);
      CountSnoc(ts + Repeat(x, n - 1), x, lo, hi);
    }
  }

  lemma BurstPasses(key: string, most: int)
    requires most > 0
    ensures TraceOf(Burst(key, most), key).accepted == [0] + Repeat(1, most - 1) + Repeat(MINUTE, most)
  {
    var c0, c1, c2 := Call(key, Some(most), 0), Call(key, Some(most), 1), Call(key, Some(most), MINUTE);
    var a, b := [c0], [c0] + Repeat(c1, most - 1);
    assert a == [] + Repeat(c0, 1);
    AllPass([], c0, 1);
    assert TraceOf(a, key).accepted == [0];
    if most > 1 {
      AllPass(a, c1, most - 1);
    } else {
      assert b == a;
    }
    assert TraceOf(b, key).accepted == [0] + Repeat(1, most - 1);
    AllPass(b, c2, most);
  }

  lemma BurstIsOrdered(key: string, most: int)
    requires most > 0
    ensures Limited(Burst(key, most), key, most) && ClockAdvances(Burst(key, most), key)
  {
    var b := Burst(key, most);
    assert forall i | 0 <= i < |b| ::
        b[i] == Call(key, Some(most), if i == 0 then 0 else if i < most then 1 else MINUTE);
  }

  /** The bound is tight for every limit. */
  lemma RateBoundIsTight(key: string, most: int)
    requires most > 0
    ensures Limited(Burst(key, most), key, most) && ClockAdvances(Burst(key, most), key)
    ensures CountIn(TraceOf(Burst(key, most), key).accepted, 0, MINUTE) == 2 * most - 1
  {
    BurstPasses(key, most);
    BurstIsOrdered(key, most);
    CountRepeat([0], 1, most - 1, 0, MINUTE);
    CountRepeat([0] + Repeat(1, most - 1), MINUTE, most, 0, MINUTE);
    CountSnoc([], 0, 0, MINUTE);
    assert [] + [0] == [0];
  }
}
