/** What a gateway that keeps serving does for a queued message (internal/httpapi/server.go:1128-1165,
    internal/queue/queue.go:140-212): when the message can leave the queue without a restart. */
module LifecycleServing {
  import opened Common
  import opened Jobs
  import opened Lifecycle
  import opened LifecycleSafety
  import opened LifecycleRestart
  import opened Handlers
  import opened LifecycleFate
  import opened LifecycleHandover

  predicate NoCrash(steps: seq<Step>) {
    forall i | 0 <= i < |steps| :: !steps[i].Crash?
  }

  /** While the gateway keeps serving, the message stays queued. */
  ghost predicate WaitsForRestart(s: State, id: Id) {
    forall more | NoCrash(more) :: IsQueued(ExecFrom(s, more), id)
  }

  /** Is a request about to enqueue the job? */
  predicate Submitting(s: State, id: Id) {
    exists q <- s.requests :: s.requests[q].pc == Submit && s.requests[q].id == id
  }

  /** Will a worker still write the status of a queued message? A handler that has failed to write it
      does so only in a retry. */
  predicate OnItsWay(e: Entry) {
    && e.task.Some?
    && match e.task.value.phase
       case Idle | Started | Sending(_) => true
       case Failing(at, timelock) => at <= 1 || (!timelock && e.task.value.retried < MAX_RETRY)
       case Archived => false
  }

  // ---------------------------------------------------------------- otherwise it stays

  predicate Left(s: State, id: Id) {
    s.serving && IsQueued(s, id) && !Submitting(s, id) && !OnItsWay(s.entries[id])
  }

  lemma JobStaysLeft(e: Entry, step: JobStep)
    requires JobEnabled(e, step) && e.message.Some? && e.message.value.status == Queued && !OnItsWay(e)
    requires !step.RecoverRow?
    ensures JobNext(e, step).message == e.message && !OnItsWay(JobNext(e, step))
  {
  }

  /** No step makes a request for a job that exists reach its submission. */
  lemma StaysUnsubmitted(s: State, step: Step, id: Id)
    requires id in s.entries && !Submitting(s, id)
    ensures !Submitting(Next(s, step), id)
  {
    var t := Next(s, step);
    forall q | q in t.requests && t.requests[q].pc == Submit ensures t.requests[q].id != id {
      if !At(s, q, Submit) {
        BecomesSubmitted(s, step, q);
      } else {
        StaysSubmitted(s, step, q);
      }
    }
  }

  lemma StepStaysLeft(s: State, step: Step, id: Id)
    requires Left(s, id) && !step.Crash?
    ensures Left(Next(s, step), id)
  {
    StaysUnsubmitted(s, step, id);
    if Enabled(s, step) && step.Job? && step.id == id {
      JobStaysLeft(s.entries[id], step.step);
    }
  }

  lemma {:induction false} StaysLeft(s: State, id: Id, more: seq<Step>)
    requires Left(s, id) && NoCrash(more)
    ensures Left(ExecFrom(s, more), id)
  {
    if more != [] {
      StaysLeft(s, id, more[..|more| - 1]);
      StepStaysLeft(ExecFrom(s, more[..|more| - 1]), more[|more| - 1], id);
    }
  }

  // ---------------------------------------------------------------- on its way it leaves

  /** The message exists and is not queued. */
  predicate Gone(e: Entry) {
    e.message.Some? && e.message.value.status != Queued
  }

  lemma WriteLeaves(e: Entry)
    requires e.message.Some? && (InPhase(e, Sending(0)) || exists tl :: InPhase(e, Failing(1, tl)))
    ensures Gone(JobNext(e, Advance(true)))
  {
  }

  /** From the start of the failure path. */
  lemma FailureLeaves(e: Entry, timelock: bool) returns (steps: seq<JobStep>)
    requires e.message.Some? && (InPhase(e, Failing(0, timelock)) || InPhase(e, Failing(1, timelock)))
    ensures RecoverRow !in steps && Gone(RunJob(e, steps))
  {
    var f := JobNext(e, Advance(true));
    if e.task.value.phase.at == 0 {
      WriteLeaves(f);
      RunJobStep(f, Advance(true), []);
      steps := [Advance(true)] + ([Advance(true)] + []);
    } else {
      WriteLeaves(e);
      steps := [Advance(true)] + [];
    }
    RunJobStep(e, Advance(true), steps[1..]);
  }

  lemma StartedLeaves(e: Entry) returns (steps: seq<JobStep>)
    requires e.message.Some? && (InPhase(e, Idle) || InPhase(e, Started))
    ensures RecoverRow !in steps && Gone(RunJob(e, steps))
  {
    var started := InTask(e, Started);
    var failing := JobNext(started, Attempt(NoClient));
    var rest := FailureLeaves(failing, false);
    steps := [Start] + ([Attempt(NoClient)] + rest);
    RunJobStep(e, Start, [Attempt(NoClient)] + rest);
    RunJobStep(started, Attempt(NoClient), rest);
  }

  lemma JobLeaves(e: Entry) returns (steps: seq<JobStep>)
    requires e.message.Some? && OnItsWay(e) && Logged(e)
    ensures RecoverRow !in steps && Gone(RunJob(e, steps))
  {
    if Gone(e) {
      steps := [];
    } else if InPhase(e, Idle) || InPhase(e, Started) {
      steps := StartedLeaves(e);
    } else if InPhase(e, Sending(0)) {
      WriteLeaves(e);
      RunJobStep(e, Advance(true), []);
      steps := [Advance(true)] + [];
    } else if e.task.value.phase.at <= 1 {
      steps := FailureLeaves(e, e.task.value.phase.timelock);
    } else {
      var back := FailureEnds(e);
      var again := StartedLeaves(RunJob(e, back));
      RunJobConcat(e, back, again);
      steps := back + again;
    }
  }

  lemma {:induction false} JobStepsDoNotCrash(id: Id, steps: seq<JobStep>)
    ensures NoCrash(JobSteps(id, steps))
  {
    if steps != [] {
      JobStepsDoNotCrash(id, steps[1..]);
    }
  }

  lemma LeavesOnItsWay(s: State, id: Id) returns (more: seq<Step>)
    requires s.serving && IsQueued(s, id) && Logged(s.entries[id]) && OnItsWay(s.entries[id])
    ensures NoCrash(more) && !IsQueued(ExecFrom(s, more), id)
  {
    var steps := JobLeaves(s.entries[id]);
    more := JobSteps(id, steps);
    JobStepsDoNotCrash(id, steps);
    RunJobIsARun(s, id, steps);
  }

  lemma SubmissionIsOnItsWay(s: State, q: nat)
    requires RequestsOk(s) && EntriesOk(s) && At(s, q, Submit)
    ensures var id, t := s.requests[q].id, Next(s, Enqueue(q, Done));
            && id in s.entries && id in t.entries && t.serving == s.serving && Logged(t.entries[id])
            && t.entries[id].message == s.entries[id].message && OnItsWay(t.entries[id])
  {
    assert SubmitOk(s, s.requests[q]);
    assert EntryOk(s.requests[q].id, s.entries[s.requests[q].id]);
  }

  /** Exactly when a queued message of a serving gateway has to wait for a restart: when no request is
      about to enqueue it, and its task is gone, archived, or in a last attempt that could not write
      the status. */
  lemma WaitsForRestartIff(steps: seq<Step>, id: Id)
    requires Exec(steps).serving && IsQueued(Exec(steps), id)
    ensures WaitsForRestart(Exec(steps), id) <==> !Submitting(Exec(steps), id) && !OnItsWay(Exec(steps).entries[id])
  {
    var s := Exec(steps);
    RunKeeps(steps);
    assert EntryOk(id, s.entries[id]);
    if OnItsWay(s.entries[id]) {
      var more := LeavesOnItsWay(s, id);
    } else if Submitting(s, id) {
      var q :| q in s.requests && s.requests[q].pc == Submit && s.requests[q].id == id;
      SubmissionIsOnItsWay(s, q);
      var more := LeavesOnItsWay(Next(s, Enqueue(q, Done)), id);
      ExecFromStep(s, Enqueue(q, Done), more);
      assert NoCrash([Enqueue(q, Done)] + more);
    } else {
      forall more | NoCrash(more) ensures IsQueued(ExecFrom(s, more), id) {
        StaysLeft(s, id, more);
      }
    }
  }

  // ---------------------------------------------------------------- it happens

  /** A request with a key whose submission fails, and the client's retry with the same key. */
  function Retry(id: Id, key: Key, d: Details, other: Id): seq<Step> {
    (Ready(0, Request(Lookup, id, Some(key), d)) + [Put(0, Done)] + [Enqueue(0, NotDone)])
      + ([Arrive(1, other, Some(key), d)] + [Find(1, Some(id))])
  }

  /** After a 503 the row waits without a task, and the retry with the same key is answered 200; while
      the gateway keeps serving, the message is never sent. */
  lemma AcceptedButWaiting(id: Id, key: Key, d: Details, other: Id)
    ensures var s := Exec(Retry(id, key, d, other));
            && s.answers == [Answer(503, Some(key), id), Answer(200, Some(key), id)]
            && IsQueued(s, id) && s.entries[id].task.None? && s.entries[id].row.status == Waiting
            && WaitsForRestart(s, id)
  {
    var r, again := Request(Lookup, id, Some(key), d), Request(Lookup, other, Some(key), d);
    var first := Ready(0, r) + [Put(0, Done)] + [Enqueue(0, NotDone)];
    QueuedIsARun(Initial, 0, r, NotDone);
    ExecIsFromInitial(first);
    var s := Exec(first);
    assert s.answers == [] + [Answer(503, Some(key), id)] == [Answer(503, Some(key), id)];
    FoundIsARun(s, 1, again, id);
    ExecContinues(first, [Arrive(1, other, Some(key), d)] + [Find(1, Some(id))]);
    var t := Exec(Retry(id, key, d, other));
    assert t == Answered(s, 200, Some(key), id);
    WaitsForRestartIff(Retry(id, key, d, other), id);
  }
}
