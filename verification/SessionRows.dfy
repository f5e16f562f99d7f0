/** The throttle columns of the sessions table (migrations/001_initial.sql:4) and the three
    statements that write them: updateThrottle, RecordFailure and RecordSuccess. */
module SessionRows {
  import opened Common
  import opened Throttle

  datatype Row = Row(minIntervalMs: int, jitterMs: int, maxPerMinute: int,
                     failureThreshold: int, pauseDurationMs: int,
                     failureCount: int, windowStart: Option<int>, throttledUntil: Option<int>)

  /** The column defaults a new session starts with. */
  const Defaults := Row(3000, 2000, 20, 5, 300000, 0, None, None)

  /** The columns the limiter selects. */
  function Selected(row: Row): Config {
    Config(row.minIntervalMs, row.jitterMs, row.maxPerMinute, row.throttledUntil)
  }

  /** The ranges updateThrottle enforces. */
  predicate InRange(row: Row) {
    && 100 <= row.minIntervalMs <= 60000
    && 0 <= row.jitterMs <= 60000
    && 1 <= row.maxPerMinute <= 600
    && 1 <= row.failureThreshold <= 100
    && 10000 <= row.pauseDurationMs <= 86400000
  }

  datatype ThrottleRequest = ThrottleRequest(minIntervalMs: Option<int>, jitterMs: Option<int>,
                                             maxPerMinute: Option<int>, failureThreshold: Option<int>,
                                             pauseDurationMs: Option<int>)

  datatype Check = Check(name: string, value: Option<int>, min: int, max: int)

  predicate Passes(c: Check) {
    c.value.Some? ==> c.min <= c.value.value <= c.max
  }

  function Checks(req: ThrottleRequest): seq<Check> {
    [Check("minIntervalMs", req.minIntervalMs, 100, 60000),
     Check("jitterMs", req.jitterMs, 0, 60000),
     Check("maxMessagesPerMinute", req.maxPerMinute, 1, 600),
     Check("failureThreshold", req.failureThreshold, 1, 100),
     Check("pauseDurationMs", req.pauseDurationMs, 10000, 86400000)]
  }

  predicate Accepted(req: ThrottleRequest) {
    forall c <- Checks(req) :: Passes(c)
  }

  /** COALESCE($n, column). */
  function Coalesce(v: Option<int>, column: int): int {
    if v.Some? then v.value else column
  }

  function Merged(row: Row, req: ThrottleRequest): Row {
    row.(minIntervalMs := Coalesce(req.minIntervalMs, row.minIntervalMs),
         jitterMs := Coalesce(req.jitterMs, row.jitterMs),
         maxPerMinute := Coalesce(req.maxPerMinute, row.maxPerMinute),
         failureThreshold := Coalesce(req.failureThreshold, row.failureThreshold),
         pauseDurationMs := Coalesce(req.pauseDurationMs, row.pauseDurationMs))
  }

  /** Does a failure at `now` open a new failure window? */
  predicate OpensWindow(row: Row, now: int) {
    row.windowStart.None? || now - row.windowStart.value >= MINUTE
  }

  /** Does a failure at `now` start a cooldown? */
  predicate Trips(row: Row, now: int) {
    && row.failureThreshold > 0
    && (if OpensWindow(row, now) then 1 else row.failureCount + 1) >= row.failureThreshold
    && row.pauseDurationMs > 0
  }

  function AfterFailure(row: Row, now: int): Row {
    var counted :=
      if OpensWindow(row, now) then row.(failureCount := 1, windowStart := Some(now))
      else row.(failureCount := row.failureCount + 1);
    if Trips(row, now) then counted.(throttledUntil := Some(now + row.pauseDurationMs * MILLISECOND)) else counted
  }

  function AfterSuccess(row: Row): Row {
    row.(failureCount := 0, windowStart := None, throttledUntil := None)
  }

  predicate Within(value: Option<int>, min: int, max: int) {
    value.Some? ==> min <= value.value <= max
  }

  /** Which requests are accepted. */
  lemma AcceptedIff(req: ThrottleRequest)
    ensures Accepted(req) <==>
            && Within(req.minIntervalMs, 100, 60000) && Within(req.jitterMs, 0, 60000)
            && Within(req.maxPerMinute, 1, 600) && Within(req.failureThreshold, 1, 100)
            && Within(req.pauseDurationMs, 10000, 86400000)
  {
    var cs := Checks(req);
    assert forall c <- cs :: c == cs[0] || c == cs[1] || c == cs[2] || c == cs[3] || c == cs[4];
    assert cs[0] in cs && cs[1] in cs && cs[2] in cs && cs[3] in cs && cs[4] in cs;
  }

  /** A column after an update: the given value, or what it held. */
  predicate Set(given: Option<int>, before: int, after: int) {
    (given.Some? ==> after == given.value) && (given.None? ==> after == before)
  }

  /** An update sets the given settings, keeps the others and leaves the breaker's columns alone. */
  lemma MergeSetsWhatIsGiven(row: Row, req: ThrottleRequest)
    ensures var after := Merged(row, req);
            && Set(req.minIntervalMs, row.minIntervalMs, after.minIntervalMs)
            && Set(req.jitterMs, row.jitterMs, after.jitterMs)
            && Set(req.maxPerMinute, row.maxPerMinute, after.maxPerMinute)
            && Set(req.failureThreshold, row.failureThreshold, after.failureThreshold)
            && Set(req.pauseDurationMs, row.pauseDurationMs, after.pauseDurationMs)
            && after.failureCount == row.failureCount && after.windowStart == row.windowStart
            && after.throttledUntil == row.throttledUntil
  {
  }

  /** An accepted request keeps every setting in its range. */
  lemma MergeStaysInRange(row: Row, req: ThrottleRequest)
    requires InRange(row) && Accepted(req)
    ensures InRange(Merged(row, req))
  {
    var cs := Checks(req);
    assert Passes(cs[0]) && Passes(cs[1]) && Passes(cs[2]) && Passes(cs[3]) && Passes(cs[4]);
  }

  datatype UpdateOutcome = OutOfRange(name: string) | DatabaseError | NotFound | Updated(row: Row)

  class SessionTable {
    var rows: map<string, Row>

    constructor ()
      ensures rows == map[]
    {
      rows := map[];
    }

    /** updateThrottle after the body is decoded; `effect` says how the statement ends. */
    method UpdateThrottle(session: string, req: ThrottleRequest, effect: Effect) returns (out: UpdateOutcome)
      modifies this
      ensures out.OutOfRange? <==> !Accepted(req)
      ensures out.DatabaseError? <==> Accepted(req) && !effect.Done?
      ensures out.OutOfRange? ==> exists i | 0 <= i < 5 ::
                                    && Checks(req)[i].name == out.name && !Passes(Checks(req)[i])
                                    && forall j | 0 <= j < i :: Passes(Checks(req)[j])
      ensures out.NotFound? <==> Accepted(req) && effect.Done? && session !in old(rows)
      ensures out.Updated? ==> session in rows && out.row == rows[session]
      ensures session in old(rows) && InRange(old(rows)[session]) ==> session in rows && InRange(rows[session])
      ensures rows == if Accepted(req) && !effect.NotDone? && session in old(rows)
                      then old(rows)[session := Merged(old(rows)[session], req)] else old(rows)
    {
      var checks := Checks(req);
      for i := 0 to |checks|
        invariant forall j | 0 <= j < i :: Passes(checks[j])
      {
        var c := checks[i];
        if c.value.Some? && (c.value.value < c.min || c.value.value > c.max) {
          assert c in Checks(req) && !Passes(c);
          return OutOfRange(c.name);
        }
      }
      assert Accepted(req);
      if effect.NotDone? || session !in rows {
        return if effect.Done? then NotFound else DatabaseError;
      }
      if InRange(rows[session]) {
        MergeStaysInRange(rows[session], req);
      }
      var row := Merged(rows[session], req);
      rows := rows[session := row];
      return if effect.Done? then Updated(row) else DatabaseError;
    }

    /** RecordFailure: one transaction holding the row lock; `effect` says how it ends. A missing
        session is an error. */
    method RecordFailure(session: string, now: int, effect: Effect) returns (ok: bool)
      modifies this
      ensures ok == (effect.Done? && session in old(rows))
      ensures rows == if !effect.NotDone? && session in old(rows)
                      then old(rows)[session := AfterFailure(old(rows)[session], now)] else old(rows)
    {
      if effect.NotDone? || session !in rows {
        return false;
      }
      var row := rows[session];
      var count, start := row.failureCount, row.windowStart;
      if start.None? || now - start.value >= MINUTE {
        count, start := 1, Some(now);
      } else {
        count := count + 1;
      }
      var until: Option<int> := None;
      if row.failureThreshold > 0 && count >= row.failureThreshold && row.pauseDurationMs > 0 {
        until := Some(now + row.pauseDurationMs * MILLISECOND);
      }
      rows := rows[session := row.(failureCount := count, windowStart := start,
                                   throttledUntil := if until.Some? then until else row.throttledUntil)];
      return effect.Done?;
    }

    /** RecordSuccess: an UPDATE, which touches nothing when the session is missing. */
    method RecordSuccess(session: string, effect: Effect) returns (ok: bool)
      modifies this
      ensures ok == effect.Done?
      ensures !effect.NotDone? && session in rows ==>
                && rows[session].failureCount == 0 && rows[session].windowStart == None
                && rows[session].throttledUntil == None
      ensures rows == if !effect.NotDone? && session in old(rows)
                      then old(rows)[session := AfterSuccess(old(rows)[session])] else old(rows)
    {
      if !effect.NotDone? && session in rows {
        rows := rows[session := rows[session].(failureCount := 0, windowStart := None, throttledUntil := None)];
      }
      return effect.Done?;
    }
  }
}
