/** The life of a message as a transition system: send requests, the messages and queue_jobs
    tables, the task queue, the worker handler, receipts, deletion, crashes between any two steps,
    and recovery at the next start (internal/httpapi/server.go:1118-1166, 1267-1315,
    internal/queue/queue.go:72-100, 140-212, internal/store/memory.go:270-329). */
module Lifecycle {
  import opened Common
  import opened Jobs

  // ---------------------------------------------------------------- one job

  datatype Status = Queued | Failed | Sent | Delivered | Seen

  /** The caller an idempotency key belongs to, and the SHA-256 value of the key. */
  datatype Scope = ApiKey(id: nat) | User(id: nat)

  datatype Key = Key(scope: Scope, hash: nat)

  datatype Message = Message(key: Option<Key>, status: Status)

  datatype JobStatus = Waiting | JobFailed | Completed

  /** A queue_jobs row; its data column is Persist(job). */
  datatype JobRow = JobRow(job: MessageJob, queue: Queue, status: JobStatus, attempts: nat)

  /** The log of a job: what its handlers did, in order, and what kept them from doing it.
      HandedOver is a send that WhatsApp accepted; the Unwritten acts are store writes that failed;
      Interrupted is a crash in the middle of an attempt. */
  datatype Act =
    | RecordedFailure
    | RecordedSuccess
    | HandedOver
    | StatusFailed
    | StatusSent
    | FailedUnwritten
    | SentUnwritten
    | JobWritten(status: JobStatus)
    | JobUnwritten(status: JobStatus)
    | EventFailed(timelock: bool)
    | EventSent
    | Interrupted

  /** All that is stored under one ID: the job row, which is never deleted, the message row and the
      task if they exist, and the log. */
  datatype Entry = Entry(row: JobRow, message: Option<Message>, task: Option<Task>, acts: seq<Act>)

  /** What can happen to one job while the gateway serves, and its recovery when it starts. */
  datatype JobStep =
    | Start
    | WaitFails
    | Attempt(env: Surroundings)
    | Advance(written: bool)
    | Evict
    | Receipt(status: Status)
    | RecoverRow

  predicate InPhase(e: Entry, phase: Phase) {
    e.task.Some? && e.task.value.phase == phase
  }

  function InTask(e: Entry, phase: Phase): Entry
    requires e.task.Some?
  {
    e.(task := Some(e.task.value.(phase := phase)))
  }

  /** The handler returns an error: the task is retried, or archived after the last retry. */
  function Retried(t: Task): Task {
    if t.retried < MAX_RETRY then t.(phase := Idle, retried := t.retried + 1) else t.(phase := Archived)
  }

  /** nil ends the task, an error retries it. */
  function Returned(e: Entry, failed: bool): Entry
    requires e.task.Some?
  {
    e.(task := if failed then Some(Retried(e.task.value)) else None)
  }

  /** UPDATE messages: no effect on a deleted message. */
  function SetStatus(e: Entry, status: Status): Entry {
    if e.message.Some? then e.(message := Some(e.message.value.(status := status))) else e
  }

  function Log(e: Entry, act: Act): Entry {
    e.(acts := e.acts + [act])
  }

  /** UPDATE queue_jobs; `written` says whether it succeeds. */
  function WriteJob(e: Entry, status: JobStatus, written: bool): Entry {
    if written then Log(e.(row := e.row.(status := status, attempts := e.row.attempts + 1)), JobWritten(status))
    else Log(e, JobUnwritten(status))
  }

  /** The status write of the failure path, whose error is ignored. */
  function WriteFailed(e: Entry, written: bool): Entry {
    if written then Log(SetStatus(e, Failed), StatusFailed) else Log(e, FailedUnwritten)
  }

  /** Which store writes of one attempt succeed. */
  datatype Writes = Writes(status: bool, job: bool)

  /** What a failed attempt does. */
  function FailActs(timelock: bool, w: Writes): (acts: seq<Act>)
    ensures |acts| == 4
  {
    [RecordedFailure,
     if w.status then StatusFailed else FailedUnwritten,
     if w.job then JobWritten(JobFailed) else JobUnwritten(JobFailed),
     EventFailed(timelock)]
  }

  /** What an attempt does whose message is handed over and whose status can be written. */
  function SentActs(w: Writes): (acts: seq<Act>)
    ensures |acts| == 5
  {
    [HandedOver, StatusSent, RecordedSuccess,
     if w.job then JobWritten(Completed) else JobUnwritten(Completed),
     EventSent]
  }

  const AllWritten := Writes(true, true)

  /** The next action of the failure path; `written` says whether a store write succeeds. */
  function FailingAction(e: Entry, at: nat, timelock: bool, written: bool): Entry
    requires e.task.Some?
  {
    if at == 0 then InTask(Log(e, RecordedFailure), Failing(1, timelock))
    else if at == 1 then InTask(WriteFailed(e, written), Failing(2, timelock))
    else if at == 2 then InTask(WriteJob(e, JobFailed, written), Failing(3, timelock))
    else if at == 3 then InTask(Log(e, EventFailed(timelock)), Failing(4, timelock))
    else Returned(e, !timelock)
  }

  /** The next action of the success path; a failed status write is returned as an error. */
  function SendingAction(e: Entry, at: nat, written: bool): Entry
    requires e.task.Some?
  {
    if at == 0 then
      if written then InTask(Log(SetStatus(e, Sent), StatusSent), Sending(1))
      else Returned(Log(e, SentUnwritten), true)
    else if at == 1 then InTask(Log(e, RecordedSuccess), Sending(2))
    else if at == 2 then InTask(WriteJob(e, Completed, written), Sending(3))
    else if at == 3 then InTask(Log(e, EventSent), Sending(4))
    else Returned(e, false)
  }

  /** The test of handleReceipt on the status it has read. */
  predicate Moves(status: Status, to: Status) {
    (to == Delivered && status == Sent) || (to == Seen && (status == Sent || status == Delivered))
  }

  predicate JobEnabled(e: Entry, step: JobStep) {
    match step
    case Start => InPhase(e, Idle)
    case WaitFails => InPhase(e, Started)
    case Attempt(_) => InPhase(e, Started)
    case Advance(_) => Attempting(e)
    case Evict => InPhase(e, Archived)
    case Receipt(st) =>
      && e.message.Some?
      && Moves(e.message.value.status, st)
    case RecoverRow => e.row.status == Waiting
  }

  function JobNext(e: Entry, step: JobStep): Entry
    requires JobEnabled(e, step)
  {
    match step
    case Start => InTask(e, Started)
    case WaitFails => Returned(e, true)
    case Attempt(env) =>
      var r := Deliver(e.task.value.job.details, env);
      if r.SentAs? then InTask(Log(e, HandedOver), Sending(0)) else InTask(e, Failing(0, r.error == Upstream(true)))
    case Advance(written) =>
      var phase := e.task.value.phase;
      if phase.Failing? then FailingAction(e, phase.at, phase.timelock, written)
      else SendingAction(e, phase.at, written)
    case Evict => e.(task := None)
    case Receipt(st) => SetStatus(e, st)
    case RecoverRow => if e.task.Some? then e else e.(task := Some(NewTask(e.row.job)))
  }

  /** Is a handler in the middle of an attempt? */
  predicate Attempting(e: Entry) {
    e.task.Some? && (e.task.value.phase.Failing? || e.task.value.phase.Sending?)
  }

  /** A crashed handler's task is delivered again, possibly at the cost of a retry. */
  function AfterCrash(e: Entry, spent: bool): Entry {
    if e.task.None? || e.task.value.phase.Idle? || e.task.value.phase.Archived? then e
    else
      var logged := if Attempting(e) then Log(e, Interrupted) else e;
      logged.(task := Some(if spent then Retried(e.task.value) else e.task.value.(phase := Idle)))
  }

  /** Steps of one job; one that is not enabled changes nothing. */
  function RunJob(e: Entry, steps: seq<JobStep>): Entry
    decreases |steps|
  {
    if steps == [] then e
    else RunJob(if JobEnabled(e, steps[0]) then JobNext(e, steps[0]) else e, steps[1..])
  }

  lemma RunJobStep(e: Entry, step: JobStep, rest: seq<JobStep>)
    ensures RunJob(e, [step] + rest) == RunJob(if JobEnabled(e, step) then JobNext(e, step) else e, rest)
  {
    assert ([step] + rest)[1..] == rest;
  }

  lemma {:induction false} RunJobConcat(e: Entry, steps: seq<JobStep>, more: seq<JobStep>)
    ensures RunJob(e, steps + more) == RunJob(RunJob(e, steps), more)
    decreases |steps|
  {
    if steps == [] {
      assert steps + more == more;
    } else {
      FromTheFront(steps, more);
      RunJobConcat(if JobEnabled(e, steps[0]) then JobNext(e, steps[0]) else e, steps[1..], more);
    }
  }

  // ---------------------------------------------------------------- the gateway

  /** The next thing a send request does: look the key up, insert, look again after a failed
      insert, or enqueue. */
  datatype Pc = Lookup | Insert | Fallback | Submit

  datatype Request = Request(pc: Pc, id: Id, key: Option<Key>, details: Details)

  datatype Answer = Answer(code: int, key: Option<Key>, id: Id)

  /** `created` lists the jobs in creation order; `deleted` holds the keys whose message was
      deleted. */
  datatype State = State(entries: map<Id, Entry>, created: seq<Id>, requests: map<nat, Request>,
                         answers: seq<Answer>, serving: bool, deleted: set<Key>)

  const Initial := State(map[], [], map[], [], true, {})

  datatype Step =
    | Arrive(q: nat, id: Id, key: Option<Key>, details: Details)
    | Find(q: nat, found: Option<Id>)
    | Put(q: nat, effect: Effect)
    | FindAgain(q: nat, found: Option<Id>)
    | Enqueue(q: nat, effect: Effect)
    | Job(id: Id, step: JobStep)
    | Delete(id: Id)
    | Crash(spent: set<Id>)
    | Serve

  /** A row that SELECT ... WHERE idempotency_scope=$1 AND idempotency_key_hash=$2 may return. */
  predicate Holds(entries: map<Id, Entry>, id: Id, key: Option<Key>) {
    key.Some? && id in entries && entries[id].message.Some? && entries[id].message.value.key == key
  }

  /** The primary key, the unique index or the unique job_id refuses the insert. */
  predicate Refused(s: State, r: Request) {
    r.id in s.entries || exists id <- s.entries :: Holds(s.entries, id, r.key)
  }

  function JobOf(r: Request): MessageJob {
    MessageJob(r.id, r.details)
  }

  predicate At(s: State, q: nat, pc: Pc) {
    q in s.requests && s.requests[q].pc == pc
  }

  const LIST_LIMIT: nat := 1000

  /** The waiting jobs among `created`, in order. */
  function WaitingIn(entries: map<Id, Entry>, created: seq<Id>): seq<Id> {
    if created == [] then []
    else
      var front, id := WaitingIn(entries, created[..|created| - 1]), created[|created| - 1];
      if id in entries && entries[id].row.status == Waiting then front + [id] else front
  }

  /** ListPendingQueueJobs: waiting rows, oldest first, at most 1000 of them. */
  function Selected(s: State): seq<Id> {
    var w := WaitingIn(s.entries, s.created);
    if |w| <= LIST_LIMIT then w else w[..LIST_LIMIT]
  }

  /** The listed rows are recovered before the gateway serves; receipts arrive and the archive forgets
      tasks at any time; workers run while it serves. */
  predicate Timely(s: State, id: Id, step: JobStep) {
    match step
    case RecoverRow => !s.serving && id in Selected(s)
    case Receipt(_) | Evict => true
    case _ => s.serving
  }

  /** A lookup that finds nothing may be an absent row or a query error; the code treats both alike. */
  predicate Enabled(s: State, step: Step) {
    match step
    case Arrive(q, _, _, _) => s.serving && q !in s.requests
    case Find(q, found) => At(s, q, Lookup) && (found.Some? ==> Holds(s.entries, found.value, s.requests[q].key))
    case Put(q, _) => At(s, q, Insert)
    case FindAgain(q, found) => At(s, q, Fallback) && (found.Some? ==> Holds(s.entries, found.value, s.requests[q].key))
    case Enqueue(q, _) => At(s, q, Submit)
    case Job(id, js) => id in s.entries && JobEnabled(s.entries[id], js) && Timely(s, id, js)
    case Delete(id) =>
      id in s.entries && s.entries[id].message.Some? && s.entries[id].message.value.status != Queued
    case Crash(_) => true
    case Serve => !s.serving
  }

  /** What the PutMessage transaction stores. */
  function NewEntry(r: Request): Entry {
    Entry(JobRow(JobOf(r), QueueName(r.details.priority), Waiting, 0), Some(Message(r.key, Queued)), None, [])
  }

  function Inserted(s: State, r: Request): State {
    s.(entries := s.entries[r.id := NewEntry(r)], created := s.created + [r.id])
  }

  function Reply(s: State, q: nat, code: int, id: Id): State
    requires q in s.requests
  {
    s.(requests := s.requests - {q}, answers := s.answers + [Answer(code, s.requests[q].key, id)])
  }

  function GoTo(s: State, q: nat, pc: Pc): State
    requires q in s.requests
  {
    s.(requests := s.requests[q := s.requests[q].(pc := pc)])
  }

  /** After a failed insert: look for the winner if there is a key, otherwise answer 500. */
  function AfterRefusal(s: State, q: nat): State
    requires q in s.requests
  {
    if s.requests[q].key.Some? then GoTo(s, q, Fallback) else Reply(s, q, 500, s.requests[q].id)
  }

  function AfterPut(s: State, q: nat, effect: Effect): State
    requires q in s.requests
  {
    var r := s.requests[q];
    if effect.NotDone? || Refused(s, r) then AfterRefusal(s, q)
    else if effect.Done? then GoTo(Inserted(s, r), q, Submit)
    else AfterRefusal(Inserted(s, r), q)
  }

  /** Any error of Enqueue, an ID conflict included, is answered with 503. */
  function AfterEnqueue(s: State, q: nat, effect: Effect): State
    requires q in s.requests
  {
    var r := s.requests[q];
    if effect.NotDone? || r.id !in s.entries || s.entries[r.id].task.Some? then Reply(s, q, 503, r.id)
    else
      var e := s.entries[r.id].(task := Some(NewTask(JobOf(r))));
      Reply(s.(entries := s.entries[r.id := e]), q, if effect.Done? then 202 else 503, r.id)
  }

  function Deleted(s: State, id: Id): State
    requires id in s.entries && s.entries[id].message.Some?
  {
    var e := s.entries[id];
    s.(entries := s.entries[id := e.(message := None)],
       deleted := s.deleted + if e.message.value.key.Some? then {e.message.value.key.value} else {})
  }

  /** A step that is not enabled changes nothing. */
  function Next(s: State, step: Step): State {
    if !Enabled(s, step) then s
    else
      match step
      case Arrive(q, id, key, d) =>
        s.(requests := s.requests[q := Request(if key.Some? then Lookup else Insert, id, key, d)])
      case Find(q, found) => if found.Some? then Reply(s, q, 200, found.value) else GoTo(s, q, Insert)
      case Put(q, effect) => AfterPut(s, q, effect)
      case FindAgain(q, found) =>
        if found.Some? then Reply(s, q, 200, found.value) else Reply(s, q, 500, s.requests[q].id)
      case Enqueue(q, effect) => AfterEnqueue(s, q, effect)
      case Job(id, js) => s.(entries := s.entries[id := JobNext(s.entries[id], js)])
      case Delete(id) => Deleted(s, id)
      case Crash(spent) =>
        s.(entries := map id | id in s.entries :: AfterCrash(s.entries[id], id in spent),
           requests := map[], serving := false)
      case Serve => s.(serving := true)
  }

  function Exec(steps: seq<Step>): State {
    if steps == [] then Initial else Next(Exec(steps[..|steps| - 1]), steps[|steps| - 1])
  }

  /** The state some steps lead to from a given one. */
  function ExecFrom(s: State, steps: seq<Step>): State {
    if steps == [] then s else Next(ExecFrom(s, steps[..|steps| - 1]), steps[|steps| - 1])
  }

  lemma {:induction false} ExecFromConcat(s: State, steps: seq<Step>, more: seq<Step>)
    ensures ExecFrom(s, steps + more) == ExecFrom(ExecFrom(s, steps), more)
  {
    if more == [] {
      assert steps + more == steps;
    } else {
      var n := |more| - 1;
      ExecFromConcat(s, steps, more[..n]);
      assert (steps + more)[..|steps + more| - 1] == steps + more[..n];
    }
  }

  lemma {:induction false} ExecIsFromInitial(steps: seq<Step>)
    ensures Exec(steps) == ExecFrom(Initial, steps)
  {
    if steps != [] {
      ExecIsFromInitial(steps[..|steps| - 1]);
    }
  }

  /** What runs from a reachable state is itself part of a run. */
  lemma ExecContinues(steps: seq<Step>, more: seq<Step>)
    ensures ExecFrom(Exec(steps), more) == Exec(steps + more)
  {
    ExecIsFromInitial(steps);
    ExecIsFromInitial(steps + more);
    ExecFromConcat(Initial, steps, more);
  }

  lemma ExecFromStep(s: State, step: Step, rest: seq<Step>)
    ensures ExecFrom(s, [step] + rest) == ExecFrom(Next(s, step), rest)
  {
    ExecFromConcat(s, [step], rest);
    assert [step][..0] == [];
  }

  /** The steps of one job as steps of the gateway. */
  function JobSteps(id: Id, steps: seq<JobStep>): seq<Step> {
    if steps == [] then [] else [Job(id, steps[0])] + JobSteps(id, steps[1..])
  }

  /** While the gateway serves, a run of one job is a run of the gateway that touches nothing else. */
  lemma {:induction false} RunJobIsARun(s: State, id: Id, steps: seq<JobStep>)
    requires s.serving && id in s.entries && RecoverRow !in steps
    ensures ExecFrom(s, JobSteps(id, steps)) == s.(entries := s.entries[id := RunJob(s.entries[id], steps)])
    decreases |steps|
  {
    if steps == [] {
      assert s.entries[id := s.entries[id]] == s.entries;
    } else {
      var t := Next(s, Job(id, steps[0]));
      var e := if JobEnabled(s.entries[id], steps[0]) then JobNext(s.entries[id], steps[0]) else s.entries[id];
      assert steps[0] in steps && forall j <- steps[1..] :: j in steps;
      assert t == s.(entries := s.entries[id := e]) by {
        assert s.entries[id := s.entries[id]] == s.entries;
      }
      ExecFromStep(s, Job(id, steps[0]), JobSteps(id, steps[1..]));
      RunJobIsARun(t, id, steps[1..]);
      assert s.entries[id := e][id := RunJob(e, steps[1..])] == s.entries[id := RunJob(e, steps[1..])];
    }
  }
}
