/** What every run of the message lifecycle keeps: integrity of the tables and idempotency. */
module LifecycleSafety {
  import opened Common
  import opened Jobs
  import opened Lifecycle

  // ---------------------------------------------------------------- what each entry keeps

  /** The row is that of its own ID; the task carries the job and goes to the queue of the row. */
  predicate Consistent(id: Id, e: Entry) {
    && e.row.job.messageId == id
    && e.row.queue == QueueName(e.row.job.details.priority)
    && (e.task.Some? ==> e.task.value.job == e.row.job && e.task.value.queue == e.row.queue)
  }

  /** Was the status of the message ever written? */
  predicate StatusWritten(acts: seq<Act>) {
    StatusFailed in acts || StatusSent in acts
  }

  /** Was the row of the job ever written? */
  predicate RowWritten(acts: seq<Act>) {
    JobWritten(JobFailed) in acts || JobWritten(Completed) in acts
  }

  /** The tables follow the log: a message is queued until its status is written, and a row waits
      until it is written, which no handler does before it has tried to write the status. */
  predicate Logged(e: Entry) {
    && (e.message.Some? ==> (e.message.value.status == Queued <==> !StatusWritten(e.acts)))
    && (e.row.status == Waiting <==> !RowWritten(e.acts))
    && (RowWritten(e.acts) ==> StatusWritten(e.acts) || FailedUnwritten in e.acts)
    && (e.task.Some? ==>
          match e.task.value.phase
          case Failing(at, _) => at >= 2 ==> StatusWritten(e.acts) || FailedUnwritten in e.acts
          case Sending(at) => at >= 1 ==> StatusWritten(e.acts)
          case _ => true)
  }

  lemma FailedWriteKeepsEntry(id: Id, e: Entry, timelock: bool, written: bool)
    requires EntryOk(id, e) && InPhase(e, Failing(1, timelock))
    ensures EntryOk(id, InTask(WriteFailed(e, written), Failing(2, timelock)))
  {
  }

  lemma RowWriteKeepsEntry(id: Id, e: Entry, timelock: bool, written: bool)
    requires EntryOk(id, e) && InPhase(e, Failing(2, timelock))
    ensures EntryOk(id, InTask(WriteJob(e, JobFailed, written), Failing(3, timelock)))
  {
  }

  lemma FailingKeepsEntry(id: Id, e: Entry, at: nat, timelock: bool, written: bool)
    requires EntryOk(id, e) && InPhase(e, Failing(at, timelock))
    ensures EntryOk(id, FailingAction(e, at, timelock, written))
  {
    if at == 1 {
      FailedWriteKeepsEntry(id, e, timelock, written);
    } else if at == 2 {
      RowWriteKeepsEntry(id, e, timelock, written);
    }
  }

  lemma SendingKeepsEntry(id: Id, e: Entry, at: nat, written: bool)
    requires Consistent(id, e) && Logged(e) && InPhase(e, Sending(at))
    ensures Consistent(id, SendingAction(e, at, written)) && Logged(SendingAction(e, at, written))
  {
  }

  lemma JobStepKeepsEntry(id: Id, e: Entry, step: JobStep)
    requires Consistent(id, e) && Logged(e) && JobEnabled(e, step)
    ensures Consistent(id, JobNext(e, step)) && Logged(JobNext(e, step))
  {
    if step.Advance? {
      var phase := e.task.value.phase;
      if phase.Failing? {
        FailingKeepsEntry(id, e, phase.at, phase.timelock, step.written);
      } else {
        SendingKeepsEntry(id, e, phase.at, step.written);
      }
    }
  }

  lemma CrashKeepsEntry(id: Id, e: Entry, spent: bool)
    requires Consistent(id, e) && Logged(e)
    ensures Consistent(id, AfterCrash(e, spent)) && Logged(AfterCrash(e, spent))
  {
  }

  /** A crash returns the task of a running handler to the queue, where it counts as a retry if that was
      noted; other tasks are left alone. */
  lemma CrashedTask(e: Entry, spent: bool)
    requires e.task.Some?
    ensures var t := e.task.value;
            AfterCrash(e, spent).task ==
            Some(if t.phase.Idle? || t.phase.Archived? then t
                 else if !spent then t.(phase := Idle)
                 else if t.retried < 3 then t.(phase := Idle, retried := t.retried + 1)
                 else t.(phase := Archived))
  {
  }

  predicate EntryOk(id: Id, e: Entry) {
    Consistent(id, e) && Logged(e)
  }

  predicate EntriesOk(s: State) {
    forall id <- s.entries :: EntryOk(id, s.entries[id])
  }

  // ---------------------------------------------------------------- what the requests keep

  /** A request about to enqueue has inserted its rows; no task exists and nothing was done yet. */
  predicate SubmitOk(s: State, r: Request) {
    && r.id in s.entries
    && var e := s.entries[r.id];
       e.row.job == JobOf(r) && e.task.None? && e.acts == [] && e.row.attempts == 0
  }

  predicate RequestsOk(s: State) {
    && (!s.serving ==> s.requests == map[])
    && (forall q <- s.requests | s.requests[q].pc == Submit :: SubmitOk(s, s.requests[q]))
    && (forall q <- s.requests, p <- s.requests | q != p && s.requests[q].pc == Submit && s.requests[p].pc == Submit ::
          s.requests[q].id != s.requests[p].id)
  }

  /** An insert adds a good entry and touches no other. */
  lemma PutKeepsEntry(s: State, q: nat, effect: Effect, id: Id)
    requires At(s, q, Insert) && id in AfterPut(s, q, effect).entries
    requires id in s.entries ==> EntryOk(id, s.entries[id])
    ensures EntryOk(id, AfterPut(s, q, effect).entries[id])
  {
    var r := s.requests[q];
    var after := AfterPut(s, q, effect).entries;
    assert after == s.entries || after == s.entries[r.id := NewEntry(r)];
  }

  lemma EnqueueKeepsEntry(s: State, q: nat, effect: Effect, id: Id)
    requires At(s, q, Submit) && SubmitOk(s, s.requests[q]) && id in s.entries && EntryOk(id, s.entries[id])
    ensures EntryOk(id, AfterEnqueue(s, q, effect).entries[id])
  {
  }

  lemma StepKeepsEntry(s: State, step: Step, id: Id)
    requires RequestsOk(s) && id in Next(s, step).entries
    requires id in s.entries ==> EntryOk(id, s.entries[id])
    ensures EntryOk(id, Next(s, step).entries[id])
  {
    if Enabled(s, step) {
      match step
      case Job(k, js) =>
        if k == id {
          JobStepKeepsEntry(id, s.entries[id], js);
        }
      case Crash(spent) => CrashKeepsEntry(id, s.entries[id], id in spent);
      case Put(q, effect) => PutKeepsEntry(s, q, effect, id);
      case Enqueue(q, effect) => EnqueueKeepsEntry(s, q, effect, id);
      case _ =>
    }
  }

  lemma StepKeepsEntries(s: State, step: Step)
    requires EntriesOk(s) && RequestsOk(s)
    ensures EntriesOk(Next(s, step))
  {
    forall id | id in Next(s, step).entries ensures EntryOk(id, Next(s, step).entries[id]) {
      StepKeepsEntry(s, step, id);
    }
  }

  /** A job nobody has submitted can only be touched by a receipt. */
  lemma JobStepKeepsRequests(s: State, id: Id, step: JobStep)
    requires RequestsOk(s) && Enabled(s, Job(id, step))
    ensures RequestsOk(Next(s, Job(id, step)))
  {
    var t := Next(s, Job(id, step));
    forall q | q in t.requests && t.requests[q].pc == Submit ensures SubmitOk(t, t.requests[q]) {
      assert SubmitOk(s, s.requests[q]);
    }
  }

  lemma RefusalKeepsRequests(s: State, q: nat)
    requires RequestsOk(s) && At(s, q, Insert)
    ensures RequestsOk(AfterRefusal(s, q))
  {
    var t := AfterRefusal(s, q);
    forall p | p in t.requests && t.requests[p].pc == Submit ensures SubmitOk(t, t.requests[p]) {
      assert SubmitOk(s, s.requests[p]);
    }
  }

  lemma InsertKeepsRequests(s: State, r: Request)
    requires RequestsOk(s) && r.id !in s.entries
    ensures RequestsOk(Inserted(s, r)) && SubmitOk(Inserted(s, r), r)
  {
    var t := Inserted(s, r);
    forall p | p in t.requests && t.requests[p].pc == Submit ensures SubmitOk(t, t.requests[p]) {
      assert SubmitOk(s, s.requests[p]);
    }
  }

  lemma SubmitKeepsRequests(s: State, q: nat)
    requires RequestsOk(s) && At(s, q, Insert) && SubmitOk(s, s.requests[q])
    requires forall p <- s.requests | s.requests[p].pc == Submit :: s.requests[p].id != s.requests[q].id
    ensures RequestsOk(GoTo(s, q, Submit))
  {
    var t := GoTo(s, q, Submit);
    forall p | p in t.requests && t.requests[p].pc == Submit ensures SubmitOk(t, t.requests[p]) {
      assert SubmitOk(s, s.requests[p]);
    }
  }

  lemma PutKeepsRequests(s: State, q: nat, effect: Effect)
    requires RequestsOk(s) && At(s, q, Insert)
    ensures RequestsOk(AfterPut(s, q, effect))
  {
    var r := s.requests[q];
    if effect.NotDone? || Refused(s, r) {
      RefusalKeepsRequests(s, q);
    } else {
      InsertKeepsRequests(s, r);
      if effect.Done? {
        assert forall p <- s.requests | s.requests[p].pc == Submit :: SubmitOk(s, s.requests[p]);
        SubmitKeepsRequests(Inserted(s, r), q);
      } else {
        RefusalKeepsRequests(Inserted(s, r), q);
      }
    }
  }

  lemma EnqueueKeepsRequests(s: State, q: nat, effect: Effect)
    requires RequestsOk(s) && At(s, q, Submit)
    ensures RequestsOk(AfterEnqueue(s, q, effect))
  {
    var t := AfterEnqueue(s, q, effect);
    forall p | p in t.requests && t.requests[p].pc == Submit ensures SubmitOk(t, t.requests[p]) {
      assert SubmitOk(s, s.requests[p]) && s.requests[p].id != s.requests[q].id;
    }
  }

  lemma DeleteKeepsRequests(s: State, id: Id)
    requires RequestsOk(s) && Enabled(s, Delete(id))
    ensures RequestsOk(Deleted(s, id))
  {
    var t := Deleted(s, id);
    forall p | p in t.requests && t.requests[p].pc == Submit ensures SubmitOk(t, t.requests[p]) {
      assert SubmitOk(s, s.requests[p]);
    }
  }

  lemma StepKeepsRequests(s: State, step: Step)
    requires RequestsOk(s)
    ensures RequestsOk(Next(s, step))
  {
    if Enabled(s, step) {
      match step
      case Put(q, effect) => PutKeepsRequests(s, q, effect);
      case Enqueue(q, effect) => EnqueueKeepsRequests(s, q, effect);
      case Job(id, js) => JobStepKeepsRequests(s, id, js);
      case Delete(id) => DeleteKeepsRequests(s, id);
      case Crash(_) =>
      case Serve =>
      case _ =>
        var t := Next(s, step);
        assert t.entries == s.entries && t.serving == s.serving;
        forall p | p in t.requests && t.requests[p].pc == Submit ensures SubmitOk(t, t.requests[p]) {
          assert t.requests[p] == s.requests[p];
        }
    }
  }

  // ---------------------------------------------------------------- idempotency

  /** The idempotency key of the message row, if there is such a row with a key. */
  function KeyOf(e: Entry): Option<Key> {
    if e.message.Some? then e.message.value.key else None
  }

  /** At most one message row per key. */
  predicate Unique(s: State) {
    forall a <- s.entries, b <- s.entries | a != b && KeyOf(s.entries[a]).Some? ::
      KeyOf(s.entries[a]) != KeyOf(s.entries[b])
  }

  /** The ID names the message of the key, or a message of that key was deleted. */
  predicate Names(s: State, key: Option<Key>, id: Id) {
    key.Some? && key.value !in s.deleted ==> id in s.entries && KeyOf(s.entries[id]) == key
  }

  predicate Accepting(a: Answer) {
    a.code == 200 || a.code == 202
  }

  predicate AnswersOk(s: State) {
    && (forall i | 0 <= i < |s.answers| && Accepting(s.answers[i]) :: Names(s, s.answers[i].key, s.answers[i].id))
    && (forall q <- s.requests | s.requests[q].pc == Submit :: Names(s, s.requests[q].key, s.requests[q].id))
  }

  lemma JobStepKeepsKey(e: Entry, step: JobStep)
    requires JobEnabled(e, step)
    ensures KeyOf(JobNext(e, step)) == KeyOf(e)
  {
  }

  /** A row keeps its key until it is deleted, and then the key counts as deleted. */
  lemma StepKeepsKey(s: State, step: Step, id: Id)
    requires id in s.entries
    ensures var t := Next(s, step);
            && s.deleted <= t.deleted && id in t.entries
            && (KeyOf(t.entries[id]) == KeyOf(s.entries[id]) ||
                (KeyOf(t.entries[id]).None? && KeyOf(s.entries[id]).Some? && KeyOf(s.entries[id]).value in t.deleted)
                || (KeyOf(t.entries[id]).None? && KeyOf(s.entries[id]).None?))
  {
    if Enabled(s, step) && step.Job? && step.id == id {
      JobStepKeepsKey(s.entries[id], step.step);
    }
  }

  /** Only an insert that no row with the same key stands in the way of brings a new key. */
  lemma NewKeyIsFree(s: State, step: Step, id: Id)
    requires id in Next(s, step).entries && id !in s.entries
    ensures forall a <- s.entries | KeyOf(s.entries[a]).Some? :: KeyOf(s.entries[a]) != KeyOf(Next(s, step).entries[id])
    ensures forall b <- Next(s, step).entries | b !in s.entries :: b == id
  {
    var r := s.requests[step.q];
    forall a | a in s.entries && KeyOf(s.entries[a]).Some?
      ensures KeyOf(s.entries[a]) != KeyOf(Next(s, step).entries[id])
    {
      assert !Holds(s.entries, a, r.key);
    }
  }

  lemma StepKeepsUnique(s: State, step: Step)
    requires Unique(s)
    ensures Unique(Next(s, step))
  {
    var t := Next(s, step);
    forall a, b | a in t.entries && b in t.entries && a != b && KeyOf(t.entries[a]).Some?
      ensures KeyOf(t.entries[a]) != KeyOf(t.entries[b])
    {
      if a in s.entries {
        StepKeepsKey(s, step, a);
      } else {
        NewKeyIsFree(s, step, a);
      }
      if b in s.entries {
        StepKeepsKey(s, step, b);
      } else {
        NewKeyIsFree(s, step, b);
      }
    }
  }

  lemma StepKeepsName(s: State, step: Step, key: Option<Key>, id: Id)
    requires Names(s, key, id)
    ensures Names(Next(s, step), key, id)
  {
    if key.Some? && key.value !in Next(s, step).deleted {
      if id in s.entries {
        StepKeepsKey(s, step, id);
      }
    }
  }

  /** What an insert adds to the answers is no acceptance, and it leaves other requests alone. */
  predicate Aside(s: State, t: State, q: nat) {
    && |s.answers| <= |t.answers| && t.answers[..|s.answers|] == s.answers
    && (forall i | |s.answers| <= i < |t.answers| :: !Accepting(t.answers[i]))
    && (forall p <- t.requests | p != q :: p in s.requests && s.requests[p] == t.requests[p])
  }

  lemma RefusalIsAside(s: State, q: nat)
    requires q in s.requests
    ensures Aside(s, AfterRefusal(s, q), q)
    ensures q in AfterRefusal(s, q).requests ==> AfterRefusal(s, q).requests[q].pc != Submit
  {
  }

  /** An insert promises its own ID. */
  lemma PutNames(s: State, q: nat, effect: Effect)
    requires At(s, q, Insert)
    ensures var t := AfterPut(s, q, effect);
            && Aside(s, t, q)
            && (q in t.requests && t.requests[q].pc == Submit ==> Names(t, t.requests[q].key, t.requests[q].id))
  {
    RefusalIsAside(s, q);
    RefusalIsAside(Inserted(s, s.requests[q]), q);
  }

  /** What a step answers, or promises to answer, is a name of the key. */
  lemma NewAnswersName(s: State, step: Step)
    requires AnswersOk(s) && RequestsOk(s)
    ensures var t := Next(s, step);
            && |s.answers| <= |t.answers| && t.answers[..|s.answers|] == s.answers
            && (forall i | |s.answers| <= i < |t.answers| && Accepting(t.answers[i]) ::
                  Names(t, t.answers[i].key, t.answers[i].id))
            && (forall q <- t.requests | t.requests[q].pc == Submit ::
                  (q in s.requests && s.requests[q] == t.requests[q]) || Names(t, t.requests[q].key, t.requests[q].id))
  {
    if Enabled(s, step) {
      match step
      case Put(q, effect) => PutNames(s, q, effect);
      case Enqueue(q, effect) => StepKeepsName(s, step, s.requests[q].key, s.requests[q].id);
      case _ =>
    }
  }

  lemma StepKeepsAnswers(s: State, step: Step)
    requires AnswersOk(s) && RequestsOk(s)
    ensures AnswersOk(Next(s, step))
  {
    var t := Next(s, step);
    NewAnswersName(s, step);
    forall i | 0 <= i < |t.answers| && Accepting(t.answers[i]) ensures Names(t, t.answers[i].key, t.answers[i].id) {
      if i < |s.answers| {
        assert t.answers[i] == s.answers[i];
        StepKeepsName(s, step, s.answers[i].key, s.answers[i].id);
      }
    }
    forall q | q in t.requests && t.requests[q].pc == Submit ensures Names(t, t.requests[q].key, t.requests[q].id) {
      if q in s.requests && s.requests[q] == t.requests[q] {
        StepKeepsName(s, step, s.requests[q].key, s.requests[q].id);
      }
    }
  }

  // ---------------------------------------------------------------- every run

  predicate Invariant(s: State) {
    EntriesOk(s) && RequestsOk(s) && Unique(s) && AnswersOk(s)
  }

  lemma {:induction false} RunKeeps(steps: seq<Step>)
    ensures Invariant(Exec(steps))
  {
    if steps != [] {
      var s, step := Exec(steps[..|steps| - 1]), steps[|steps| - 1];
      RunKeeps(steps[..|steps| - 1]);
      StepKeepsEntries(s, step);
      StepKeepsRequests(s, step);
      StepKeepsUnique(s, step);
      StepKeepsAnswers(s, step);
    }
  }

  /** Idempotency: in every reachable state at most one message row exists per key, and any two
      200 or 202 answers for a key none of whose messages was deleted name the same message. */
  lemma Idempotency(steps: seq<Step>, i: nat, k: nat)
    requires var s := Exec(steps); i < |s.answers| && k < |s.answers|
    requires var s := Exec(steps);
             && Accepting(s.answers[i]) && Accepting(s.answers[k])
             && s.answers[i].key == s.answers[k].key && s.answers[i].key.Some? && s.answers[i].key.value !in s.deleted
    ensures Unique(Exec(steps))
    ensures Exec(steps).answers[i].id == Exec(steps).answers[k].id
  {
    RunKeeps(steps);
    var s := Exec(steps);
    assert Names(s, s.answers[i].key, s.answers[i].id) && Names(s, s.answers[k].key, s.answers[k].id);
  }

  /** Step k of the run is the insert by which request q became r, and q has stayed r since. */
  ghost predicate InsertedAt(steps: seq<Step>, q: nat, r: Request, k: nat) {
    && k < |steps| && steps[k] == Put(q, Done)
    && At(Exec(steps[..k]), q, Insert) && Exec(steps[..k]).requests[q] == r.(pc := Insert)
    && r.id !in Exec(steps[..k]).entries
    && forall j | k < j <= |steps| :: r.id in Exec(steps[..j]).entries && At(Exec(steps[..j]), q, Submit)
  }

  lemma {:induction false} SubmitterInserted(steps: seq<Step>, q: nat) returns (k: nat)
    requires At(Exec(steps), q, Submit)
    ensures InsertedAt(steps, q, Exec(steps).requests[q], k)
  {
    var n := |steps| - 1;
    var front, step := steps[..n], steps[n];
    var s, r := Exec(front), Exec(steps).requests[q];
    assert steps[..|steps|] == steps;
    RunKeeps(steps);
    assert SubmitOk(Exec(steps), r);
    if At(s, q, Submit) {
      k := SubmitterInserted(front, q);
      StaysSubmitted(s, step, q);
      forall j | 0 <= j <= n ensures steps[..j] == front[..j] {
      }
      assert front[..n] == front;
    } else {
      BecomesSubmitted(s, step, q);
      k := n;
    }
  }

  lemma StaysSubmitted(s: State, step: Step, q: nat)
    requires At(s, q, Submit) && At(Next(s, step), q, Submit)
    ensures Next(s, step).requests[q] == s.requests[q]
  {
  }

  lemma BecomesSubmitted(s: State, step: Step, q: nat)
    requires !At(s, q, Submit) && At(Next(s, step), q, Submit)
    ensures step == Put(q, Done) && At(s, q, Insert)
    ensures Next(s, step).requests[q].(pc := Insert) == s.requests[q] && s.requests[q].id !in s.entries
  {
  }

  /** The request is alone with its ID, and its submission makes the task of the row's job. */
  predicate SubmitsAlone(s: State, q: nat) {
    && q in s.requests && s.requests[q].id in s.entries
    && var r := s.requests[q];
       && s.entries[r.id].row.job == JobOf(r) && s.entries[r.id].task.None?
       && (forall p <- s.requests | p != q && s.requests[p].pc == Submit :: s.requests[p].id != r.id)
       && var t := Next(s, Enqueue(q, Done));
          r.id in t.entries && t.entries[r.id].task == Some(NewTask(s.entries[r.id].row.job))
  }

  lemma SubmissionSucceeds(s: State, q: nat)
    requires RequestsOk(s) && At(s, q, Submit)
    ensures SubmitsAlone(s, q)
  {
    assert SubmitOk(s, s.requests[q]);
  }

  /** Only the inserter enqueues: a request that reaches Enqueue has itself inserted its ID, by an
      insert that found no such ID; no other request is about to enqueue it and it has no task yet;
      so no submission meets an ID conflict, and what it submits is the job of the row. */
  lemma OnlyTheInserterEnqueues(steps: seq<Step>, q: nat)
    requires At(Exec(steps), q, Submit)
    ensures exists k: nat :: InsertedAt(steps, q, Exec(steps).requests[q], k)
    ensures SubmitsAlone(Exec(steps), q)
  {
    RunKeeps(steps);
    SubmissionSucceeds(Exec(steps), q);
    var k := SubmitterInserted(steps, q);
  }

  // ---------------------------------------------------------------- what the rows carry

  /** The entry is that of a request which arrived: its row carries every field of the request, and its
      message the request's key. */
  predicate Carries(e: Entry, id: Id, arrival: Step) {
    && arrival.Arrive? && arrival.id == id && e.row.job == MessageJob(id, arrival.details)
    && (e.message.Some? ==> e.message.value.key == arrival.key)
  }

  predicate Continues(r: Request, arrival: Step) {
    arrival.Arrive? && r.id == arrival.id && r.key == arrival.key && r.details == arrival.details
  }

  /** A request in progress comes from one in progress, or has just arrived. */
  lemma StepContinues(s: State, step: Step, q: nat)
    requires q in Next(s, step).requests
    ensures var r := Next(s, step).requests[q];
            || Continues(r, step)
            || (q in s.requests && s.requests[q].(pc := r.pc) == r)
  {
  }

  lemma JobStepCarries(e: Entry, step: JobStep)
    requires JobEnabled(e, step)
    ensures JobNext(e, step).row.job == e.row.job
    ensures var f := JobNext(e, step);
            f.message.Some? ==> e.message.Some? && f.message.value.key == e.message.value.key
  {
  }

  /** An entry keeps what it carries, and a new one carries what its request does. */
  lemma StepCarries(s: State, step: Step, id: Id)
    requires id in Next(s, step).entries
    ensures var f := Next(s, step).entries[id];
            if id in s.entries then
              && f.row.job == s.entries[id].row.job
              && (f.message.Some? ==>
                    s.entries[id].message.Some? && f.message.value.key == s.entries[id].message.value.key)
            else
              && step.Put? && step.q in s.requests && var r := s.requests[step.q];
                 r.id == id && f.row.job == MessageJob(id, r.details) && f.message == Some(Message(r.key, Queued))
  {
    if Enabled(s, step) && step.Job? && step.id == id {
      JobStepCarries(s.entries[id], step.step);
    }
  }

  lemma {:induction false} RequestsArrived(steps: seq<Step>, q: nat) returns (i: nat)
    requires q in Exec(steps).requests
    ensures i < |steps| && Continues(Exec(steps).requests[q], steps[i])
  {
    var n := |steps| - 1;
    StepContinues(Exec(steps[..n]), steps[n], q);
    if Continues(Exec(steps).requests[q], steps[n]) {
      i := n;
    } else {
      i := RequestsArrived(steps[..n], q);
    }
  }

  /** After any run, every stored job is that of a request which arrived, field by field; and so is the
      job of its task. */
  lemma {:induction false} RowsCarryRequests(steps: seq<Step>, id: Id) returns (i: nat)
    requires id in Exec(steps).entries
    ensures i < |steps| && Carries(Exec(steps).entries[id], id, steps[i])
    ensures var task := Exec(steps).entries[id].task; task.Some? ==> task.value.job == MessageJob(id, steps[i].details)
  {
    var n := |steps| - 1;
    RunKeeps(steps);
    assert EntryOk(id, Exec(steps).entries[id]);
    StepCarries(Exec(steps[..n]), steps[n], id);
    if id in Exec(steps[..n]).entries {
      i := RowsCarryRequests(steps[..n], id);
    } else {
      i := RequestsArrived(steps[..n], steps[n].q);
    }
  }
}
