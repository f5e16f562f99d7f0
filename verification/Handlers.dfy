/** The send handler (internal/httpapi/server.go:1118-1166) and the worker handler
    (internal/queue/queue.go:140-212) as the straight-line code they are. Uninterrupted, each is one
    run of the transition system of module Lifecycle, whichever of its store writes fail, so what is
    proved about all runs holds for them. */
module Handlers {
  import opened Common
  import opened Jobs
  import opened Lifecycle

  // ---------------------------------------------------------------- the worker handler

  /** The row after one job write. */
  function Counted(row: JobRow, status: JobStatus, written: bool): JobRow {
    if written then row.(status := status, attempts := row.attempts + 1) else row
  }

  function Marked(message: Option<Message>, status: Status, written: bool): Option<Message> {
    if written && message.Some? then Some(message.value.(status := status)) else message
  }

  /** A whole failed attempt. */
  function FailedEntry(e: Entry, timelock: bool, w: Writes): Entry
    requires e.task.Some?
  {
    Entry(Counted(e.row, JobFailed, w.job), Marked(e.message, Failed, w.status),
          if timelock then None else Some(Retried(e.task.value)), e.acts + FailActs(timelock, w))
  }

  /** A whole successful attempt; when the status cannot be written, the task is retried. */
  function SentEntry(e: Entry, w: Writes): Entry
    requires e.task.Some?
  {
    if w.status then Entry(Counted(e.row, Completed, w.job), Marked(e.message, Sent, true), None, e.acts + SentActs(w))
    else Entry(e.row, e.message, Some(Retried(e.task.value)), e.acts + [HandedOver, SentUnwritten])
  }

  /** What one uninterrupted run of the handler leaves; `wait` says whether the throttle let it through. */
  function Handled(e: Entry, wait: bool, env: Surroundings, w: Writes): Entry
    requires e.task.Some?
  {
    if !wait then e.(task := Some(Retried(e.task.value)))
    else
      match Deliver(e.task.value.job.details, env)
      case SentAs(_) => SentEntry(e, w)
      case SendFailed(error) => FailedEntry(e, error == Upstream(true), w)
  }

  /** The send is tried: there is a client, and the message is a text, or media with a URL for a client
      that can send media. */
  predicate Tried(d: Details, env: Surroundings) {
    env.client && (d.kind == PlainText || (d.kind in {Image, Document, Pdf} && !Blank(d.url) && env.media))
  }

  /** The task after an error: in the queue again, or archived after its third retry. */
  function Requeued(t: Task): Task {
    if t.retried < 3 then t.(phase := Idle, retried := t.retried + 1) else t.(phase := Archived)
  }

  /** A failed attempt left f: the failure is recorded, and where the writes succeed the message is
      failed and the row is failed and counted. A timelock ends the task, any other error requeues it. */
  predicate LeftFailed(e: Entry, f: Entry, timelock: bool, w: Writes) {
    && e.task.Some?
    && f.acts == e.acts + [RecordedFailure, if w.status then StatusFailed else FailedUnwritten,
                           if w.job then JobWritten(JobFailed) else JobUnwritten(JobFailed), EventFailed(timelock)]
    && f.message == (if w.status && e.message.Some? then Some(Message(e.message.value.key, Failed)) else e.message)
    && f.row == (if w.job then e.row.(status := JobFailed, attempts := e.row.attempts + 1) else e.row)
    && f.task == if timelock then None else Some(Requeued(e.task.value))
  }

  /** A successful attempt left f: the message is handed over and sent, the success recorded, and the
      row completed and counted where that write succeeds; the task is gone. */
  predicate LeftSent(e: Entry, f: Entry, w: Writes) {
    && f.acts == e.acts + [HandedOver, StatusSent, RecordedSuccess,
                           if w.job then JobWritten(Completed) else JobUnwritten(Completed), EventSent]
    && f.message == (if e.message.Some? then Some(Message(e.message.value.key, Sent)) else e.message)
    && f.row == (if w.job then e.row.(status := Completed, attempts := e.row.attempts + 1) else e.row)
    && f.task == None
  }

  /** What one run of the handler leaves, by what it meets. */
  predicate Attempted(e: Entry, f: Entry, wait: bool, env: Surroundings, w: Writes) {
    && e.task.Some?
    && var tried := Tried(e.task.value.job.details, env);
       if !wait then f == e.(task := Some(Requeued(e.task.value)))
       else if !(tried && env.answer.SentAs?) then
         LeftFailed(e, f, tried && env.answer == SendFailed(Upstream(true)), w)
       else if w.status then LeftSent(e, f, w)
       else f == e.(task := Some(Requeued(e.task.value)), acts := e.acts + [HandedOver, SentUnwritten])
  }

  /** The handler hands over exactly when the throttle lets it through, the send is tried and WhatsApp
      accepts it; otherwise, once let through, it fails, and ends the task exactly on a timelock. */
  lemma HandlerMeans(e: Entry, wait: bool, env: Surroundings, w: Writes)
    requires e.task.Some?
    ensures Attempted(e, Handled(e, wait, env, w), wait, env, w)
  {
  }

  class JobWorker {
    var s: State
    var e: Entry

    constructor (s: State, e: Entry)
      ensures this.s == s && this.e == e
    {
      this.s, this.e := s, e;
    }

    /** The failure path: record, write the message, write the job, dispatch, return. */
    method Fail(timelock: bool, w: Writes)
      requires e.task.Some?
      modifies this`e
      ensures e == FailedEntry(old(e), timelock, w)
    {
      e := Log(e, RecordedFailure);
      if w.status {
        e := SetStatus(e, Failed);
      }
      e := Log(e, if w.status then StatusFailed else FailedUnwritten);
      e := WriteJob(e, JobFailed, w.job);
      e := Log(e, EventFailed(timelock));
      e := e.(task := if timelock then None else Some(Retried(e.task.value)));
      assert e.acts == old(e).acts + FailActs(timelock, w);
    }

    /** The success path: write the message or return the error, record, write the job, dispatch. */
    method Succeed(w: Writes)
      requires e.task.Some?
      modifies this`e
      ensures e == SentEntry(old(e), w)
    {
      e := Log(e, HandedOver);
      if !w.status {
        e := Log(e, SentUnwritten).(task := Some(Retried(e.task.value)));
        assert e.acts == old(e).acts + [HandedOver, SentUnwritten];
        return;
      }
      e := Log(SetStatus(e, Sent), StatusSent);
      e := Log(e, RecordedSuccess);
      e := WriteJob(e, Completed, w.job);
      e := Log(e, EventSent);
      e := e.(task := None);
      assert e.acts == old(e).acts + SentActs(w);
    }

    /** The whole handler, run on the task of one job; `steps` is the run it stands for. */
    method HandleTask(id: Id, wait: bool, env: Surroundings, w: Writes) returns (ghost steps: seq<Step>)
      requires s.serving && id in s.entries && InPhase(s.entries[id], Idle)
      modifies this
      ensures s == old(s).(entries := old(s).entries[id := Handled(old(s).entries[id], wait, env, w)])
      ensures Attempted(old(s).entries[id], s.entries[id], wait, env, w)
      ensures s == ExecFrom(old(s), steps)
    {
      e := s.entries[id];
      HandlerMeans(e, wait, env, w);
      HandlerIsARun(s, id, wait, env, w);
      steps := JobSteps(id, HandlerSteps(e.task.value.job.details, wait, env, w));
      if !wait {
        e := e.(task := Some(Retried(e.task.value)));
      } else {
        var result := Deliver(e.task.value.job.details, env);
        if result.SendFailed? {
          Fail(result.error == Upstream(true), w);
        } else {
          Succeed(w);
        }
      }
      s := s.(entries := s.entries[id := e]);
    }
  }

  /** The steps of the failure path from its action `at` on. */
  function FailSteps(w: Writes, at: nat): seq<JobStep>
    requires at <= 5
  {
    [Advance(true), Advance(w.status), Advance(w.job), Advance(true), Advance(true)][at..]
  }

  /** The steps of the success path from its action `at` on, when the status can be written. */
  function SentSteps(w: Writes, at: nat): seq<JobStep>
    requires at <= 5
  {
    [Advance(true), Advance(true), Advance(w.job), Advance(true), Advance(true)][at..]
  }

  lemma RunNext(e: Entry, steps: seq<JobStep>, next: Entry)
    requires steps != [] && JobEnabled(e, steps[0]) && next == JobNext(e, steps[0])
    ensures RunJob(e, steps) == RunJob(next, steps[1..])
  {
  }

  /** The entry after `at` actions of the failure path. */
  function FailedUpTo(e: Entry, at: nat, timelock: bool, w: Writes): Entry
    requires e.task.Some? && at <= 4
  {
    Entry(Counted(e.row, JobFailed, w.job && at >= 3), Marked(e.message, Failed, w.status && at >= 2),
          Some(e.task.value.(phase := Failing(at, timelock))), e.acts + FailActs(timelock, w)[..at])
  }

  /** The entry after a hand-over and `at` actions of the success path. */
  function SentUpTo(e: Entry, at: nat, w: Writes): Entry
    requires e.task.Some? && at <= 4
  {
    Entry(Counted(e.row, Completed, w.job && at >= 3), Marked(e.message, Sent, at >= 1),
          Some(e.task.value.(phase := Sending(at))), e.acts + SentActs(w)[..at + 1])
  }

  lemma FailedOneMore(e: Entry, at: nat, timelock: bool, w: Writes)
    requires e.task.Some? && at < 4
    ensures JobNext(FailedUpTo(e, at, timelock, w), FailSteps(w, 0)[at]) == FailedUpTo(e, at + 1, timelock, w)
  {
    var acts := FailActs(timelock, w);
    assert acts[..at + 1] == acts[..at] + [acts[at]];
    Regroup(e.acts, acts[..at], [acts[at]]);
  }

  lemma SentOneMore(e: Entry, at: nat, w: Writes)
    requires e.task.Some? && at < 4
    ensures JobNext(SentUpTo(e, at, w), SentSteps(w, 0)[at]) == SentUpTo(e, at + 1, w)
  {
    var acts := SentActs(w);
    assert acts[..at + 2] == acts[..at + 1] + [acts[at + 1]];
    Regroup(e.acts, acts[..at + 1], [acts[at + 1]]);
  }

  /** From any point of the failure path, the remaining actions end it. */
  lemma {:induction false} FailedFrom(e: Entry, at: nat, timelock: bool, w: Writes)
    requires e.task.Some? && at <= 4
    ensures RunJob(FailedUpTo(e, at, timelock, w), FailSteps(w, at)) == FailedEntry(e, timelock, w)
    decreases 4 - at
  {
    assert FailSteps(w, at)[1..] == FailSteps(w, at + 1);
    if at < 4 {
      FailedOneMore(e, at, timelock, w);
      RunNext(FailedUpTo(e, at, timelock, w), FailSteps(w, at), FailedUpTo(e, at + 1, timelock, w));
      FailedFrom(e, at + 1, timelock, w);
    } else {
      assert FailActs(timelock, w)[..4] == FailActs(timelock, w);
      RunNext(FailedUpTo(e, 4, timelock, w), FailSteps(w, 4), FailedEntry(e, timelock, w));
    }
  }

  lemma {:induction false} SentFrom(e: Entry, at: nat, w: Writes)
    requires e.task.Some? && at <= 4 && w.status
    ensures RunJob(SentUpTo(e, at, w), SentSteps(w, at)) == SentEntry(e, w)
    decreases 4 - at
  {
    assert SentSteps(w, at)[1..] == SentSteps(w, at + 1);
    if at < 4 {
      SentOneMore(e, at, w);
      RunNext(SentUpTo(e, at, w), SentSteps(w, at), SentUpTo(e, at + 1, w));
      SentFrom(e, at + 1, w);
    } else {
      assert SentActs(w)[..5] == SentActs(w);
      RunNext(SentUpTo(e, 4, w), SentSteps(w, 4), SentEntry(e, w));
    }
  }

  /** The steps of one uninterrupted run of the handler. */
  function HandlerSteps(d: Details, wait: bool, env: Surroundings, w: Writes): seq<JobStep> {
    if !wait then [Start, WaitFails]
    else [Start, Attempt(env)] +
         if Deliver(d, env).SendFailed? then FailSteps(w, 0) else if w.status then SentSteps(w, 0) else [Advance(false)]
  }

  lemma StartThen(e: Entry, step: JobStep, rest: seq<JobStep>)
    requires InPhase(e, Idle) && (step.WaitFails? || step.Attempt?)
    ensures RunJob(e, [Start, step] + rest) == RunJob(JobNext(InTask(e, Started), step), rest)
  {
    assert ([Start, step] + rest)[1..] == [step] + rest;
    RunNext(e, [Start, step] + rest, InTask(e, Started));
    RunJobStep(InTask(e, Started), step, rest);
  }

  lemma AttemptStarts(e: Entry, env: Surroundings, w: Writes)
    requires InPhase(e, Idle)
    ensures var r := Deliver(e.task.value.job.details, env);
            JobNext(InTask(e, Started), Attempt(env)) ==
            if r.SentAs? then SentUpTo(e, 0, w) else FailedUpTo(e, 0, r.error == Upstream(true), w)
  {
    assert SentActs(w)[..1] == [HandedOver] && forall t :: e.acts + FailActs(t, w)[..0] == e.acts;
  }

  lemma UnwrittenIsARun(e: Entry, w: Writes)
    requires e.task.Some? && !w.status
    ensures RunJob(SentUpTo(e, 0, w), [Advance(false)]) == SentEntry(e, w)
  {
    assert SentActs(w)[..1] == [HandedOver];
    assert (e.acts + [HandedOver]) + [SentUnwritten] == e.acts + [HandedOver, SentUnwritten];
    RunNext(SentUpTo(e, 0, w), [Advance(false)], SentEntry(e, w));
  }

  /** The handler is a run of its job. */
  lemma HandlerRunsJob(e: Entry, wait: bool, env: Surroundings, w: Writes)
    requires InPhase(e, Idle)
    ensures RunJob(e, HandlerSteps(e.task.value.job.details, wait, env, w)) == Handled(e, wait, env, w)
  {
    if !wait {
      StartThen(e, WaitFails, []);
      assert [Start, WaitFails] + [] == [Start, WaitFails];
    } else {
      var r := Deliver(e.task.value.job.details, env);
      AttemptStarts(e, env, w);
      if r.SendFailed? {
        StartThen(e, Attempt(env), FailSteps(w, 0));
        FailedFrom(e, 0, r.error == Upstream(true), w);
      } else if w.status {
        StartThen(e, Attempt(env), SentSteps(w, 0));
        SentFrom(e, 0, w);
      } else {
        StartThen(e, Attempt(env), [Advance(false)]);
        UnwrittenIsARun(e, w);
      }
    }
  }

  /** Refinement: the handler code is a run of the gateway, whichever store writes fail. */
  lemma HandlerIsARun(s: State, id: Id, wait: bool, env: Surroundings, w: Writes)
    requires s.serving && id in s.entries && InPhase(s.entries[id], Idle)
    ensures ExecFrom(s, JobSteps(id, HandlerSteps(s.entries[id].task.value.job.details, wait, env, w))) ==
            s.(entries := s.entries[id := Handled(s.entries[id], wait, env, w)])
  {
    HandlerRunsJob(s.entries[id], wait, env, w);
    RunJobIsARun(s, id, HandlerSteps(s.entries[id].task.value.job.details, wait, env, w));
  }

  // ---------------------------------------------------------------- the send handler

  function Answered(s: State, code: int, key: Option<Key>, id: Id): State {
    s.(answers := s.answers + [Answer(code, key, id)])
  }

  /** Does some message row carry the key? */
  predicate Taken(s: State, key: Option<Key>) {
    exists id <- s.entries :: Holds(s.entries, id, key)
  }

  /** The status code that the outcomes of the lookups, the insert and the submission call for. */
  function CodeFor(s: State, r: Request, up: bool, put: Effect, upAgain: bool, enqueue: Effect): int {
    if up && Taken(s, r.key) then 200
    else if put.Done? && !Refused(s, r) then (if enqueue.Done? then 202 else 503)
    else if upAgain && Taken(AfterInsert(s, r, put), r.key) then 200
    else 500
  }

  /** The entry of an accepted request: a queued message with its key, a waiting row and an idle task
      that both carry every field of the request, and nothing done yet. */
  predicate AcceptedAs(e: Entry, r: Request) {
    && e.message == Some(Message(r.key, Queued)) && e.acts == []
    && e.row.job == MessageJob(r.id, r.details) && e.row.status == Waiting && e.row.attempts == 0
    && e.task.Some? && e.task.value.job == MessageJob(r.id, r.details)
    && e.task.value.queue == e.row.queue && e.task.value.retried == 0 && e.task.value.phase == Idle
  }

  class Gateway {
    var s: State

    constructor ()
      ensures s == Initial
    {
      s := Initial;
    }

    /** The idempotency lookup; `up` says whether the query succeeds. */
    method FindKey(key: Option<Key>, up: bool) returns (found: Option<Id>)
      ensures found.Some? ==> Holds(s.entries, found.value, key)
      ensures found.Some? <==> up && Taken(s, key)
    {
      found := None;
      if up && Taken(s, key) {
        var id :| id in s.entries && Holds(s.entries, id, key);
        found := Some(id);
      }
    }

    /** What a 202 or 200 answer promises, and that other entries are left alone. */
    twostate predicate Kept(r: Request, answer: Answer)
      reads this
    {
      && s.answers == old(s).answers + [answer] && s.requests == old(s).requests && answer.key == r.key
      && (answer.code == 202 ==>
            && answer.id == r.id && r.id !in old(s).entries && r.id in s.entries
            && AcceptedAs(s.entries[r.id], r))
      && (answer.code == 200 ==> Holds(s.entries, answer.id, r.key))
      && (forall id <- old(s).entries :: id in s.entries && s.entries[id] == old(s).entries[id])
    }

    /** A failed insert: look for the winner, if there is a key. */
    method Settle(q: nat, r: Request, put: Effect, upAgain: bool) returns (answer: Answer, ghost steps: seq<Step>)
      requires Fits(s, q, r) && (put.Done? ==> Refused(s, r))
      modifies this
      ensures Kept(r, answer) && s == ExecFrom(old(s), steps)
      ensures answer.code == if upAgain && Taken(AfterInsert(old(s), r, put), r.key) then 200 else 500
      ensures s.entries == AfterInsert(old(s), r, put).entries
    {
      ghost var s0 := s;
      if !(put.NotDone? || Refused(s, r)) {
        s := Inserted(s, r);
      }
      steps := Ready(q, r) + [Put(q, put)];
      var found: Option<Id> := None;
      if r.key.Some? {
        found := FindKey(r.key, upAgain);
        steps := steps + [FindAgain(q, found)];
      }
      answer := if found.Some? then Answer(200, r.key, found.value) else Answer(500, r.key, r.id);
      RefusedIsARun(s0, q, r, put, found);
      s := Answered(s, answer.code, answer.key, answer.id);
    }

    /** A successful insert: enqueue. */
    method InsertAndEnqueue(q: nat, r: Request, enqueue: Effect) returns (answer: Answer, ghost steps: seq<Step>)
      requires Fits(s, q, r) && !Refused(s, r)
      modifies this
      ensures Kept(r, answer) && s == ExecFrom(old(s), steps)
      ensures answer.code == if enqueue.Done? then 202 else 503
      ensures r.id in s.entries && (s.entries[r.id].task.None? <==> enqueue.NotDone?)
    {
      ghost var s0 := s;
      s := Inserted(s, r);
      steps := Ready(q, r) + [Put(q, Done)] + [Enqueue(q, enqueue)];
      if !enqueue.NotDone? {
        s := s.(entries := s.entries[r.id := s.entries[r.id].(task := Some(NewTask(JobOf(r))))]);
      }
      answer := Answer(if enqueue.Done? then 202 else 503, r.key, r.id);
      QueuedIsARun(s0, q, r, enqueue);
      s := Answered(s, answer.code, answer.key, answer.id);
    }

    /** sendMessage from the idempotency lookup on; `steps` is the run it stands for. */
    method SendMessage(q: nat, r: Request, up: bool, put: Effect, upAgain: bool, enqueue: Effect)
      returns (answer: Answer, ghost steps: seq<Step>)
      requires Fits(s, q, r)
      modifies this
      ensures Kept(r, answer) && s == ExecFrom(old(s), steps)
      ensures answer.code == CodeFor(old(s), r, up, put, upAgain, enqueue)
      ensures put.NotDone? ==> s.entries == old(s).entries
      ensures answer.code == 500 && !put.NotDone? && !Refused(old(s), r) ==>
                r.id in s.entries && s.entries[r.id].task.None?
      ensures answer.code == 503 ==> r.id in s.entries && (s.entries[r.id].task.Some? <==> enqueue.DoneUnnoticed?)
      ensures answer.code in {200, 202, 500, 503}
      ensures answer.code == 202 || answer.code == 503 <==>
              !(up && Taken(old(s), r.key)) && put.Done? && !Refused(old(s), r)
      ensures answer.code == 202 ==> enqueue.Done?
      ensures answer.code == 503 ==> !enqueue.Done?
      ensures answer.code == 200 ==> (up && Taken(old(s), r.key)) || (upAgain && (put.Done? ==> Refused(old(s), r)))
      ensures answer.code == 500 ==> (put.Done? ==> Refused(old(s), r)) && !(upAgain && Taken(s, r.key))
    {
      if r.key.Some? {
        var found := FindKey(r.key, up);
        if found.Some? {
          FoundIsARun(s, q, r, found.value);
          steps := [Arrive(q, r.id, r.key, r.details)] + [Find(q, found)];
          answer := Answer(200, r.key, found.value);
          s := Answered(s, 200, r.key, found.value);
          return;
        }
      }
      if put.Done? && !Refused(s, r) {
        answer, steps := InsertAndEnqueue(q, r, enqueue);
      } else {
        answer, steps := Settle(q, r, put, upAgain);
      }
    }
  }

  lemma ExecSnoc(s: State, steps: seq<Step>, step: Step)
    ensures ExecFrom(s, steps + [step]) == Next(ExecFrom(s, steps), step)
  {
    assert (steps + [step])[..|steps|] == steps;
  }

  predicate Fits(s: State, q: nat, r: Request) {
    s.serving && q !in s.requests && r.pc == if r.key.Some? then Lookup else Insert
  }

  function AtPc(s: State, q: nat, r: Request, pc: Pc): State {
    s.(requests := s.requests[q := r.(pc := pc)])
  }

  lemma ArriveIsARun(s: State, q: nat, r: Request)
    requires Fits(s, q, r)
    ensures ExecFrom(s, [Arrive(q, r.id, r.key, r.details)]) == AtPc(s, q, r, r.pc)
  {
    ExecSnoc(s, [], Arrive(q, r.id, r.key, r.details));
    assert [] + [Arrive(q, r.id, r.key, r.details)] == [Arrive(q, r.id, r.key, r.details)];
  }

  lemma FoundIsARun(s: State, q: nat, r: Request, id: Id)
    requires Fits(s, q, r) && Holds(s.entries, id, r.key)
    ensures ExecFrom(s, [Arrive(q, r.id, r.key, r.details)] + [Find(q, Some(id))]) == Answered(s, 200, r.key, id)
  {
    ArriveIsARun(s, q, r);
    ExecSnoc(s, [Arrive(q, r.id, r.key, r.details)], Find(q, Some(id)));
    assert AtPc(s, q, r, r.pc).requests - {q} == s.requests;
  }

  /** The steps up to the insert when the lookup finds nothing. */
  function Ready(q: nat, r: Request): seq<Step> {
    if r.key.Some? then [Arrive(q, r.id, r.key, r.details)] + [Find(q, None)] else [Arrive(q, r.id, r.key, r.details)]
  }

  lemma ReadyIsARun(s: State, q: nat, r: Request)
    requires Fits(s, q, r)
    ensures ExecFrom(s, Ready(q, r)) == AtPc(s, q, r, Insert)
  {
    ArriveIsARun(s, q, r);
    if r.key.Some? {
      ExecSnoc(s, [Arrive(q, r.id, r.key, r.details)], Find(q, None));
    }
  }

  /** The state after the insert, seen without the request. */
  function AfterInsert(s: State, r: Request, put: Effect): State {
    if put.NotDone? || Refused(s, r) then s else Inserted(s, r)
  }

  lemma RefusalOf(s: State, q: nat, r: Request)
    requires q !in s.requests
    ensures AfterRefusal(AtPc(s, q, r, Insert), q) ==
            if r.key.Some? then AtPc(s, q, r, Fallback) else Answered(s, 500, r.key, r.id)
  {
    assert AtPc(s, q, r, Insert).requests - {q} == s.requests;
  }

  lemma InsertOf(s: State, q: nat, r: Request)
    ensures var w := AtPc(s, q, r, Insert);
            && Refused(w, w.requests[q]) == Refused(s, r)
            && Inserted(w, w.requests[q]) == AtPc(Inserted(s, r), q, r, Insert)
  {
  }

  lemma PutIsARun(s: State, q: nat, r: Request, put: Effect)
    requires Fits(s, q, r)
    ensures var t := AfterInsert(s, r, put);
            ExecFrom(s, Ready(q, r) + [Put(q, put)]) ==
            if put.Done? && !Refused(s, r) then AtPc(t, q, r, Submit)
            else if r.key.Some? then AtPc(t, q, r, Fallback)
            else Answered(t, 500, r.key, r.id)
  {
    ReadyIsARun(s, q, r);
    ExecSnoc(s, Ready(q, r), Put(q, put));
    InsertOf(s, q, r);
    if put.NotDone? || Refused(s, r) {
      RefusalOf(s, q, r);
    } else if put.Done? {
      assert GoTo(AtPc(Inserted(s, r), q, r, Insert), q, Submit) == AtPc(Inserted(s, r), q, r, Submit);
    } else {
      RefusalOf(Inserted(s, r), q, r);
    }
  }

  lemma RefusedIsARun(s: State, q: nat, r: Request, put: Effect, found: Option<Id>)
    requires Fits(s, q, r) && (put.Done? ==> Refused(s, r))
    requires found.Some? ==> Holds(AfterInsert(s, r, put).entries, found.value, r.key)
    ensures var steps := Ready(q, r) + [Put(q, put)];
            ExecFrom(s, if r.key.Some? then steps + [FindAgain(q, found)] else steps) ==
            if found.Some? then Answered(AfterInsert(s, r, put), 200, r.key, found.value)
            else Answered(AfterInsert(s, r, put), 500, r.key, r.id)
  {
    PutIsARun(s, q, r, put);
    var t := AfterInsert(s, r, put);
    assert AtPc(t, q, r, Fallback).requests - {q} == t.requests;
    ExecSnoc(s, Ready(q, r) + [Put(q, put)], FindAgain(q, found));
  }

  lemma QueuedIsARun(s: State, q: nat, r: Request, enqueue: Effect)
    requires Fits(s, q, r) && !Refused(s, r)
    ensures var t := Inserted(s, r);
            ExecFrom(s, Ready(q, r) + [Put(q, Done)] + [Enqueue(q, enqueue)]) ==
            if enqueue.NotDone? then Answered(t, 503, r.key, r.id)
            else Answered(t.(entries := t.entries[r.id := NewEntry(r).(task := Some(NewTask(JobOf(r))))]),
                          if enqueue.Done? then 202 else 503, r.key, r.id)
  {
    PutIsARun(s, q, r, Done);
    var t := Inserted(s, r);
    assert AtPc(t, q, r, Submit).requests - {q} == t.requests;
    ExecSnoc(s, Ready(q, r) + [Put(q, Done)], Enqueue(q, enqueue));
  }
}
