/** How often a message is handed to WhatsApp (internal/queue/queue.go:140-212). */
module LifecycleHandover {
  import opened Common
  import opened Jobs
  import opened Lifecycle
  import opened LifecycleSafety
  import opened LifecycleLedger
  import opened LifecycleRestart
  import opened LifecycleFate
  import opened Handlers

  /** What makes a second hand-over possible: the sent status or the completed row could not be
      written, or the attempt was interrupted. */
  predicate Reopens(a: Act) {
    a == SentUnwritten || a == JobUnwritten(Completed) || a == Interrupted
  }

  /** Was the last hand-over not reopened? */
  predicate Settled(acts: seq<Act>) {
    acts != [] &&
    var a := acts[|acts| - 1];
    a == HandedOver || (!Reopens(a) && Settled(acts[..|acts| - 1]))
  }

  function Handed(acts: seq<Act>): nat {
    if acts == [] then 0 else Handed(acts[..|acts| - 1]) + if acts[|acts| - 1] == HandedOver then 1 else 0
  }

  /** Between any two hand-overs something reopens the first. */
  ghost predicate Separated(acts: seq<Act>) {
    forall i, j | 0 <= i < j < |acts| && acts[i] == acts[j] == HandedOver :: exists k | i < k < j :: Reopens(acts[k])
  }

  /** A settled job is not attempted again: its handler is finishing, or its task is gone and its
      row does not wait. */
  predicate Finishing(e: Entry) {
    Settled(e.acts) ==>
      || (e.task.None? && e.row.status != Waiting)
      || (e.task.Some? && e.task.value.phase.Sending? && (e.task.value.phase.at >= 3 ==> e.row.status != Waiting))
  }

  ghost predicate HandoverOk(e: Entry) {
    Finishing(e) && Separated(e.acts)
  }

  lemma SettledSnoc(acts: seq<Act>, a: Act)
    ensures Settled(acts + [a]) <==> a == HandedOver || (!Reopens(a) && Settled(acts))
    ensures Handed(acts + [a]) == Handed(acts) + if a == HandedOver then 1 else 0
  {
    assert (acts + [a])[..|acts|] == acts;
  }

  lemma {:induction false} UnsettledWasReopened(acts: seq<Act>, i: nat)
    requires !Settled(acts) && i < |acts| && acts[i] == HandedOver
    ensures exists k | i < k < |acts| :: Reopens(acts[k])
  {
    var n := |acts| - 1;
    if !Reopens(acts[n]) {
      UnsettledWasReopened(acts[..n], i);
      var k :| i < k < n && Reopens(acts[..n][k]);
      assert acts[k] == acts[..n][k];
    }
  }

  lemma SeparatedSnoc(acts: seq<Act>, a: Act)
    requires Separated(acts) && (a == HandedOver ==> !Settled(acts))
    ensures Separated(acts + [a])
  {
    var more := acts + [a];
    forall i, j | 0 <= i < j < |more| && more[i] == more[j] == HandedOver
      ensures exists k | i < k < j :: Reopens(more[k])
    {
      if j == |acts| {
        UnsettledWasReopened(acts, i);
        var k :| i < k < |acts| && Reopens(acts[k]);
        assert more[k] == acts[k];
      } else {
        var k :| i < k < j && Reopens(acts[k]);
        assert more[k] == acts[k];
      }
    }
  }

  function FailingNote(at: nat, timelock: bool, written: bool): Option<Act> {
    if at < 4 then Some(FailActs(timelock, Writes(written, written))[at]) else None
  }

  function SendingNote(at: nat, written: bool): Option<Act> {
    if at == 0 && !written then Some(SentUnwritten)
    else if at < 4 then Some(SentActs(Writes(true, written))[at + 1])
    else None
  }

  /** What a step logs, if anything. */
  function Note(e: Entry, step: JobStep): Option<Act>
    requires JobEnabled(e, step)
  {
    match step
    case Attempt(env) => if Deliver(e.task.value.job.details, env).SentAs? then Some(HandedOver) else None
    case Advance(written) =>
      var phase := e.task.value.phase;
      if phase.Failing? then FailingNote(phase.at, phase.timelock, written) else SendingNote(phase.at, written)
    case _ => None
  }

  function Noted(acts: seq<Act>, note: Option<Act>): seq<Act> {
    if note.Some? then acts + [note.value] else acts
  }

  lemma FailingLogs(e: Entry, at: nat, timelock: bool, written: bool)
    requires e.task.Some?
    ensures FailingAction(e, at, timelock, written).acts == Noted(e.acts, FailingNote(at, timelock, written))
  {
  }

  lemma SendingLogs(e: Entry, at: nat, written: bool)
    requires e.task.Some?
    ensures SendingAction(e, at, written).acts == Noted(e.acts, SendingNote(at, written))
  {
  }

  lemma LogsOne(e: Entry, step: JobStep)
    requires JobEnabled(e, step)
    ensures JobNext(e, step).acts == Noted(e.acts, Note(e, step))
    ensures Handed(JobNext(e, step).acts) == Handed(e.acts) + if Note(e, step) == Some(HandedOver) then 1 else 0
  {
    if step.Advance? {
      var phase := e.task.value.phase;
      if phase.Failing? {
        FailingLogs(e, phase.at, phase.timelock, step.written);
      } else {
        SendingLogs(e, phase.at, step.written);
      }
    }
    if Note(e, step).Some? {
      SettledSnoc(e.acts, Note(e, step).value);
    }
  }

  lemma StepKeepsSeparated(e: Entry, step: JobStep)
    requires HandoverOk(e) && JobEnabled(e, step)
    ensures Separated(JobNext(e, step).acts)
  {
    LogsOne(e, step);
    if Note(e, step).Some? {
      SeparatedSnoc(e.acts, Note(e, step).value);
    }
  }

  /** Only a hand-over settles a job that is not settled. */
  lemma UnsettledStays(e: Entry, step: JobStep)
    requires JobEnabled(e, step) && !Settled(e.acts) && Note(e, step) != Some(HandedOver)
    ensures !Settled(JobNext(e, step).acts)
  {
    LogsOne(e, step);
    if Note(e, step).Some? {
      SettledSnoc(e.acts, Note(e, step).value);
    }
  }

  lemma SendingKeepsFinishing(e: Entry, at: nat, written: bool)
    requires Finishing(e) && InPhase(e, Sending(at)) && Settled(e.acts)
    ensures Finishing(SendingAction(e, at, written))
  {
    SendingLogs(e, at, written);
    if SendingNote(at, written).Some? {
      SettledSnoc(e.acts, SendingNote(at, written).value);
    }
  }

  lemma StepKeepsFinishing(e: Entry, step: JobStep)
    requires Finishing(e) && JobEnabled(e, step)
    ensures Finishing(JobNext(e, step))
  {
    if Note(e, step) != Some(HandedOver) {
      if !Settled(e.acts) {
        UnsettledStays(e, step);
      } else if step.Advance? {
        SendingKeepsFinishing(e, e.task.value.phase.at, step.written);
      }
    }
  }

  lemma CrashKeepsHandover(e: Entry, spent: bool)
    requires HandoverOk(e)
    ensures HandoverOk(AfterCrash(e, spent))
  {
    SettledSnoc(e.acts, Interrupted);
    SeparatedSnoc(e.acts, Interrupted);
  }

  lemma StepKeepsHandover(s: State, step: Step, id: Id)
    requires RequestsOk(s) && id in Next(s, step).entries && (id in s.entries ==> HandoverOk(s.entries[id]))
    ensures HandoverOk(Next(s, step).entries[id])
  {
    if Enabled(s, step) {
      match step
      case Job(k, js) =>
        if k == id {
          StepKeepsSeparated(s.entries[id], js);
          StepKeepsFinishing(s.entries[id], js);
        }
      case Crash(spent) => CrashKeepsHandover(s.entries[id], id in spent);
      case Enqueue(q, _) => assert SubmitOk(s, s.requests[q]);
      case _ =>
    }
  }

  lemma {:induction false} RunKeepsHandover(steps: seq<Step>)
    ensures forall id <- Exec(steps).entries :: HandoverOk(Exec(steps).entries[id])
  {
    if steps != [] {
      var s, step := Exec(steps[..|steps| - 1]), steps[|steps| - 1];
      RunKeepsHandover(steps[..|steps| - 1]);
      RunKeeps(steps[..|steps| - 1]);
      forall id | id in Next(s, step).entries ensures HandoverOk(Next(s, step).entries[id]) {
        StepKeepsHandover(s, step, id);
      }
    }
  }

  /** A log with two hand-overs in different places holds more than one. */
  lemma {:induction false} HandedCounts(acts: seq<Act>)
    ensures Handed(acts) > 0 ==> HandedOver in acts
    ensures Handed(acts) > 1 ==> exists i, j | 0 <= i < j < |acts| :: acts[i] == acts[j] == HandedOver
  {
    if acts != [] {
      var n := |acts| - 1;
      var front := acts[..n];
      HandedCounts(front);
      if Handed(front) > 1 {
        var i, j :| 0 <= i < j < n && front[i] == front[j] == HandedOver;
        assert acts[i] == acts[j] == HandedOver;
      } else if Handed(front) == 1 && acts[n] == HandedOver {
        var i :| 0 <= i < n && front[i] == HandedOver;
        assert acts[i] == acts[n] == HandedOver;
      }
    }
  }

  lemma OneHandover(acts: seq<Act>)
    requires Separated(acts) && Clean(acts)
    ensures Handed(acts) <= 1
  {
    HandedCounts(acts);
    forall k | 0 <= k < |acts| ensures !Reopens(acts[k]) {
      assert acts[k] in acts;
    }
  }

  /** In every run a message is handed over a second time only after the sent status or the completed
      row could not be written, or the attempt was interrupted by a crash; without such a fault it is
      handed over at most once. */
  lemma HandedOverOnce(steps: seq<Step>, id: Id)
    requires id in Exec(steps).entries
    ensures Separated(Exec(steps).entries[id].acts)
    ensures Clean(Exec(steps).entries[id].acts) ==> Handed(Exec(steps).entries[id].acts) <= 1
  {
    RunKeepsHandover(steps);
    if Clean(Exec(steps).entries[id].acts) {
      OneHandover(Exec(steps).entries[id].acts);
    }
  }

  // ---------------------------------------------------------------- exactly when once more

  /** The log has grown, without a fault. */
  predicate GrewCleanly(acts: seq<Act>, more: seq<Act>) {
    acts <= more && forall i | |acts| <= i < |more| :: !Fault(more[i])
  }

  /** In some further run, restarts included, the message is handed over once more although nothing
      goes wrong for this job: no store write of its handlers fails and no attempt is interrupted. */
  ghost predicate CanHandAgain(s: State, id: Id)
    requires id in s.entries
  {
    exists more :: HandsAgain(s, id, more)
  }

  predicate HandsAgain(s: State, id: Id, more: seq<Step>)
    requires id in s.entries
  {
    var t := ExecFrom(s, more);
    && id in t.entries && GrewCleanly(s.entries[id].acts, t.entries[id].acts)
    && Handed(t.entries[id].acts) > Handed(s.entries[id].acts)
  }

  /** Will the job be attempted again, if nothing goes wrong for it? A task that is gone, archived or
      about to be so comes back by recovery, if its row is still waiting then. */
  predicate ComesBack(e: Entry) {
    match e.task
    case None => e.row.status == Waiting
    case Some(t) =>
      match t.phase
      case Idle | Started => true
      case Archived => e.row.status == Waiting
      case Failing(at, timelock) => (!timelock && t.retried < MAX_RETRY) || (at >= 3 && e.row.status == Waiting)
      case Sending(at) => at >= 3 && e.row.status == Waiting
  }

  predicate CanStillSend(e: Entry) {
    Sendable(e.row.job.details) && ComesBack(e)
  }

  // A job that does not come back never does.

  lemma RowJobStays(e: Entry, step: JobStep)
    requires JobEnabled(e, step)
    ensures JobNext(e, step).row.job == e.row.job
  {
  }

  lemma NoHandover(id: Id, e: Entry, step: JobStep)
    requires Consistent(id, e) && !CanStillSend(e) && JobEnabled(e, step)
    ensures Note(e, step) != Some(HandedOver)
  {
    if step.Attempt? {
      SendableDelivers(e.row.job.details, step.env);
    }
  }

  lemma FailingStaysGone(e: Entry, at: nat, timelock: bool, written: bool)
    requires InPhase(e, Failing(at, timelock)) && !ComesBack(e)
    requires FailingNote(at, timelock, written).Some? ==> !Fault(FailingNote(at, timelock, written).value)
    ensures !ComesBack(FailingAction(e, at, timelock, written))
  {
  }

  lemma SendingStaysGone(e: Entry, at: nat, written: bool)
    requires InPhase(e, Sending(at)) && !ComesBack(e)
    requires SendingNote(at, written).Some? ==> !Fault(SendingNote(at, written).value)
    ensures !ComesBack(SendingAction(e, at, written))
  {
  }

  lemma StaysGone(e: Entry, step: JobStep)
    requires JobEnabled(e, step) && !ComesBack(e) && (Note(e, step).Some? ==> !Fault(Note(e, step).value))
    ensures !ComesBack(JobNext(e, step))
  {
    if step.Advance? {
      var phase := e.task.value.phase;
      if phase.Failing? {
        FailingStaysGone(e, phase.at, phase.timelock, step.written);
      } else {
        SendingStaysGone(e, phase.at, step.written);
      }
    }
  }

  lemma JobStaysSpent(id: Id, e: Entry, step: JobStep)
    requires Consistent(id, e) && !CanStillSend(e) && JobEnabled(e, step)
    requires GrewCleanly(e.acts, JobNext(e, step).acts)
    ensures var f := JobNext(e, step); !CanStillSend(f) && Handed(f.acts) == Handed(e.acts)
  {
    LogsOne(e, step);
    NoHandover(id, e, step);
    RowJobStays(e, step);
    if Note(e, step).Some? {
      assert JobNext(e, step).acts[|e.acts|] == Note(e, step).value;
    }
    if !ComesBack(e) {
      StaysGone(e, step);
    }
  }

  lemma CrashStaysSpent(e: Entry, spent: bool)
    requires !CanStillSend(e) && GrewCleanly(e.acts, AfterCrash(e, spent).acts)
    ensures !CanStillSend(AfterCrash(e, spent)) && AfterCrash(e, spent).acts == e.acts
  {
    var grown := e.acts + [Interrupted];
    assert grown[|e.acts|] == Interrupted;
  }

  /** A job that is about to be enqueued comes back. */
  lemma SubmittedComesBack(s: State, q: nat)
    requires RequestsOk(s) && EntriesOk(s) && At(s, q, Submit)
    ensures s.requests[q].id in s.entries && ComesBack(s.entries[s.requests[q].id])
  {
    assert SubmitOk(s, s.requests[q]);
    assert EntryOk(s.requests[q].id, s.entries[s.requests[q].id]);
  }

  lemma StepStaysSpent(s: State, step: Step, id: Id)
    requires RequestsOk(s) && EntriesOk(s) && id in s.entries && !CanStillSend(s.entries[id])
    requires id in Next(s, step).entries && GrewCleanly(s.entries[id].acts, Next(s, step).entries[id].acts)
    ensures var e, f := s.entries[id], Next(s, step).entries[id]; !CanStillSend(f) && Handed(f.acts) == Handed(e.acts)
  {
    assert EntryOk(id, s.entries[id]);
    if Enabled(s, step) {
      match step
      case Job(k, js) =>
        if k == id {
          JobStaysSpent(id, s.entries[id], js);
        }
      case Crash(spent) => CrashStaysSpent(s.entries[id], id in spent);
      case Enqueue(q, effect) => EnqueueStaysSpent(s, q, effect, id);
      case _ => OthersLeaveJob(s, step, id);
    }
  }

  /** Steps of requests touch no job that exists, except for a deleted message. */
  lemma OthersLeaveJob(s: State, step: Step, id: Id)
    requires id in s.entries && !step.Job? && !step.Crash? && !step.Enqueue?
    ensures id in Next(s, step).entries
    ensures Next(s, step).entries[id] == s.entries[id].(message := Next(s, step).entries[id].message)
  {
  }

  lemma EnqueueStaysSpent(s: State, q: nat, effect: Effect, id: Id)
    requires RequestsOk(s) && EntriesOk(s) && id in s.entries && !CanStillSend(s.entries[id]) && At(s, q, Submit)
    ensures var e, f := s.entries[id], AfterEnqueue(s, q, effect).entries[id]; !CanStillSend(f) && f.acts == e.acts
  {
    SubmittedComesBack(s, q);
  }

  lemma GrowthSplits(a: seq<Act>, b: seq<Act>, c: seq<Act>)
    requires a <= b <= c && GrewCleanly(a, c)
    ensures GrewCleanly(a, b) && GrewCleanly(b, c)
  {
  }

  lemma {:induction false} LogOnlyGrows(s: State, steps: seq<Step>, id: Id)
    requires id in s.entries
    ensures id in ExecFrom(s, steps).entries && s.entries[id].acts <= ExecFrom(s, steps).entries[id].acts
  {
    if steps != [] {
      LogOnlyGrows(s, steps[..|steps| - 1], id);
      LogGrows(ExecFrom(s, steps[..|steps| - 1]), steps[|steps| - 1], id);
    }
  }

  lemma {:induction false} StaysSpent(steps: seq<Step>, id: Id, more: seq<Step>)
    requires id in Exec(steps).entries && !CanStillSend(Exec(steps).entries[id])
    requires id in ExecFrom(Exec(steps), more).entries
    requires GrewCleanly(Exec(steps).entries[id].acts, ExecFrom(Exec(steps), more).entries[id].acts)
    ensures var e, f := Exec(steps).entries[id], ExecFrom(Exec(steps), more).entries[id];
            !CanStillSend(f) && Handed(f.acts) == Handed(e.acts)
  {
    if more != [] {
      var n := |more| - 1;
      var s := Exec(steps);
      var t := ExecFrom(s, more[..n]);
      LogOnlyGrows(s, more[..n], id);
      LogGrows(t, more[n], id);
      GrowthSplits(s.entries[id].acts, t.entries[id].acts, ExecFrom(s, more).entries[id].acts);
      StaysSpent(steps, id, more[..n]);
      ExecContinues(steps, more[..n]);
      RunKeeps(steps + more[..n]);
      StepStaysSpent(t, more[n], id);
    }
  }

  // A job that comes back can be handed over.

  /** What the rest of a handler leaves: nothing went wrong and nothing was handed over. */
  predicate Quiet(e: Entry, f: Entry) {
    && GrewCleanly(e.acts, f.acts) && Handed(f.acts) == Handed(e.acts)
    && f.row.job == e.row.job && f.message.Some? == e.message.Some?
  }

  lemma WrittenIsNoFault(at: nat, timelock: bool)
    ensures var note := FailingNote(at, timelock, true); note.Some? ==> !Fault(note.value) && note.value != HandedOver
    ensures var note := SendingNote(at, true); note.Some? ==> !Fault(note.value) && note.value != HandedOver
  {
  }

  lemma MessageStays(e: Entry, step: JobStep)
    requires JobEnabled(e, step)
    ensures JobNext(e, step).message.Some? == e.message.Some?
  {
  }

  lemma AdvanceIsQuiet(e: Entry)
    requires Attempting(e)
    ensures Quiet(e, JobNext(e, Advance(true)))
  {
    var phase := e.task.value.phase;
    LogsOne(e, Advance(true));
    RowJobStays(e, Advance(true));
    MessageStays(e, Advance(true));
    WrittenIsNoFault(phase.at, phase.Failing? && phase.timelock);
  }

  lemma QuietTwice(e: Entry, f: Entry, g: Entry)
    requires Quiet(e, f) && Quiet(f, g)
    ensures Quiet(e, g)
  {
    forall i | |e.acts| <= i < |g.acts| ensures !Fault(g.acts[i]) {
      assert i < |f.acts| ==> g.acts[i] == f.acts[i];
    }
  }

  /** A failing handler comes to its end. */
  lemma {:induction false} FailureEnds(e: Entry) returns (steps: seq<JobStep>)
    requires e.task.Some? && e.task.value.phase.Failing?
    ensures var f := RunJob(e, steps); var phase := e.task.value.phase;
            && RecoverRow !in steps && Quiet(e, f)
            && f.task == (if phase.timelock then None else Some(Retried(e.task.value)))
            && (phase.at >= 3 ==> f.row == e.row)
    decreases 5 - e.task.value.phase.at
  {
    var f := JobNext(e, Advance(true));
    AdvanceIsQuiet(e);
    FailingMoves(e);
    var rest: seq<JobStep> := [];
    if e.task.value.phase.at < 4 {
      rest := FailureEnds(f);
      QuietTwice(e, f, RunJob(f, rest));
    }
    steps := [Advance(true)] + rest;
    RunJobStep(e, Advance(true), rest);
  }

  lemma FailingMoves(e: Entry)
    requires e.task.Some? && e.task.value.phase.Failing?
    ensures var f, phase := JobNext(e, Advance(true)), e.task.value.phase;
            && f.task == (if phase.at < 4 then Some(e.task.value.(phase := Failing(phase.at + 1, phase.timelock)))
                          else if phase.timelock then None else Some(Retried(e.task.value)))
            && (phase.at >= 3 ==> f.row == e.row)
  {
  }

  /** A sending handler past its writes comes to its end. */
  lemma SendingEnds(e: Entry) returns (steps: seq<JobStep>)
    requires e.task.Some? && e.task.value.phase.Sending? && e.task.value.phase.at >= 3
    ensures var f := RunJob(e, steps); RecoverRow !in steps && Quiet(e, f) && f.task.None? && f.row == e.row
  {
    var f := JobNext(e, Advance(true));
    AdvanceIsQuiet(e);
    if e.task.value.phase.at == 3 {
      AdvanceIsQuiet(f);
      QuietTwice(e, f, JobNext(f, Advance(true)));
      RunJobStep(f, Advance(true), []);
      steps := [Advance(true)] + ([Advance(true)] + []);
    } else {
      steps := [Advance(true)] + [];
    }
    RunJobStep(e, Advance(true), steps[1..]);
  }

  lemma FromIdle(e: Entry) returns (steps: seq<JobStep>)
    requires InPhase(e, Idle) || InPhase(e, Started)
    requires Sendable(e.task.value.job.details)
    ensures RecoverRow !in steps && RunJob(e, steps).acts == e.acts + [HandedOver]
  {
    var started := InTask(e, Started);
    steps := [Start] + ([Attempt(Favourable)] + []);
    RunJobStep(e, Start, [Attempt(Favourable)] + []);
    RunJobStep(started, Attempt(Favourable), []);
    SendableDelivers(e.task.value.job.details, Favourable);
  }

  /** Steps of one job, after the gateway is made to serve. */
  lemma ServedRun(s: State, id: Id, steps: seq<JobStep>)
    requires id in s.entries && RecoverRow !in steps
    ensures ExecFrom(s, [Serve] + JobSteps(id, steps))
         == s.(serving := true, entries := s.entries[id := RunJob(s.entries[id], steps)])
  {
    var up := s.(serving := true);
    assert Next(s, Serve) == up;
    ExecFromStep(s, Serve, JobSteps(id, steps));
    RunJobIsARun(up, id, steps);
  }

  lemma IdleHands(s: State, id: Id)
    requires id in s.entries && Consistent(id, s.entries[id]) && Sendable(s.entries[id].row.job.details)
    requires InPhase(s.entries[id], Idle) || InPhase(s.entries[id], Started)
    ensures CanHandAgain(s, id)
  {
    var steps := FromIdle(s.entries[id]);
    ServedRun(s, id, steps);
    OneMoreHandover(s.entries[id].acts);
    assert HandsAgain(s, id, [Serve] + JobSteps(id, steps));
  }

  lemma OneMoreHandover(acts: seq<Act>)
    ensures GrewCleanly(acts, acts + [HandedOver]) && Handed(acts + [HandedOver]) == Handed(acts) + 1
  {
    SettledSnoc(acts, HandedOver);
  }

  /** What can be handed over after a quiet run can be handed over. */
  lemma Later(s: State, id: Id, first: seq<Step>)
    requires id in s.entries && id in ExecFrom(s, first).entries
    requires Quiet(s.entries[id], ExecFrom(s, first).entries[id]) && CanHandAgain(ExecFrom(s, first), id)
    ensures CanHandAgain(s, id)
  {
    var t := ExecFrom(s, first);
    var more :| HandsAgain(t, id, more);
    ExecFromConcat(s, first, more);
    var a, b, c := s.entries[id].acts, t.entries[id].acts, ExecFrom(t, more).entries[id].acts;
    forall i | |a| <= i < |c| ensures !Fault(c[i]) {
      assert i < |b| ==> c[i] == b[i];
    }
    assert HandsAgain(s, id, first + more);
  }

  /** A job whose task is gone or archived and whose row waits comes back by recovery. */
  lemma WaitingHands(steps: seq<Step>, id: Id)
    requires var s := Exec(steps); id in s.entries && CanStillSend(s.entries[id]) && !Live(s.entries[id].task)
    ensures CanHandAgain(Exec(steps), id)
  {
    var s := Exec(steps);
    RunKeepsCreated(steps);
    var wake := Revives(s, id);
    ExecContinues(steps, wake);
    RunKeeps(steps + wake);
    assert EntryOk(id, Exec(steps + wake).entries[id]);
    IdleHands(ExecFrom(s, wake), id);
    Later(s, id, wake);
  }

  /** A handler in the middle of an attempt first comes to its end. */
  lemma AttemptingHands(steps: seq<Step>, id: Id)
    requires var s := Exec(steps); id in s.entries && CanStillSend(s.entries[id]) && Attempting(s.entries[id])
    ensures CanHandAgain(Exec(steps), id)
  {
    var s := Exec(steps);
    var js: seq<JobStep>;
    if s.entries[id].task.value.phase.Failing? {
      js := FailureEnds(s.entries[id]);
    } else {
      js := SendingEnds(s.entries[id]);
    }
    var first := [Serve] + JobSteps(id, js);
    ServedRun(s, id, js);
    ExecContinues(steps, first);
    EndedHands(steps + first, id);
    Later(s, id, first);
  }

  /** Between attempts. */
  lemma EndedHands(steps: seq<Step>, id: Id)
    requires var s := Exec(steps); id in s.entries && CanStillSend(s.entries[id]) && !Attempting(s.entries[id])
    ensures CanHandAgain(Exec(steps), id)
  {
    if Live(Exec(steps).entries[id].task) {
      RunKeeps(steps);
      assert EntryOk(id, Exec(steps).entries[id]);
      IdleHands(Exec(steps), id);
    } else {
      WaitingHands(steps, id);
    }
  }

  /** Exactly when a message can be handed over, or handed over once more, without a fault of its own
      job, whatever else happens and however often the gateway restarts: when it is one that can be
      sent at all and its job comes back. A hand-over before that was then reopened. */
  lemma HandedAgainIff(steps: seq<Step>, id: Id)
    requires id in Exec(steps).entries
    ensures CanHandAgain(Exec(steps), id) <==> CanStillSend(Exec(steps).entries[id])
    ensures CanStillSend(Exec(steps).entries[id]) ==> !Settled(Exec(steps).entries[id].acts)
  {
    var s := Exec(steps);
    RunKeepsHandover(steps);
    if CanStillSend(s.entries[id]) {
      if Attempting(s.entries[id]) {
        AttemptingHands(steps, id);
      } else {
        EndedHands(steps, id);
      }
    } else if CanHandAgain(s, id) {
      var more :| HandsAgain(s, id, more);
      StaysSpent(steps, id, more);
    }
  }

  /** It happens: a text whose sent status cannot be written is sent a second time by the retry. */
  lemma SentTwice(id: Id, d: Details)
    requires d.kind == PlainText
    ensures var again := JobSteps(id, HandlerSteps(d, true, Favourable, AllWritten));
            var steps := SendRun(id, d) + JobSteps(id, HandlerSteps(d, true, Favourable, Writes(false, true))) + again;
            id in Exec(steps).entries && Handed(Exec(steps).entries[id].acts) == 2
  {
    AfterSendRun(id, d);
    OneAttempt(SendRun(id, d), id, true, Favourable, Writes(false, true));
    var first := SendRun(id, d) + JobSteps(id, HandlerSteps(d, true, Favourable, Writes(false, true)));
    OneAttempt(first, id, true, Favourable, AllWritten);
    var acts := [] + [HandedOver, SentUnwritten];
    assert acts == ([] + [HandedOver]) + [SentUnwritten];
    SettledSnoc([], HandedOver);
    SettledSnoc([] + [HandedOver], SentUnwritten);
    OneMore(acts, AllWritten);
  }

  /** A whole successful attempt hands over once. */
  lemma OneMore(acts: seq<Act>, w: Writes)
    ensures Handed(acts + SentActs(w)) == Handed(acts) + 1
  {
    var a1 := acts + [HandedOver];
    var a2 := a1 + [StatusSent];
    var a3 := a2 + [RecordedSuccess];
    var a4 := a3 + [SentActs(w)[3]];
    assert acts + SentActs(w) == a4 + [EventSent];
    SettledSnoc(acts, HandedOver);
    SettledSnoc(a1, StatusSent);
    SettledSnoc(a2, RecordedSuccess);
    SettledSnoc(a3, SentActs(w)[3]);
    SettledSnoc(a4, EventSent);
  }

  /** A text is sent, and its completed row cannot be written. */
  function Uncompleted(id: Id, d: Details): seq<Step> {
    SendRun(id, d) + JobSteps(id, HandlerSteps(d, true, Favourable, Writes(true, false)))
  }

  lemma AfterUncompleted(id: Id, d: Details)
    requires d.kind == PlainText
    ensures var s, r := Exec(Uncompleted(id, d)), Keyless(id, d);
            && id in s.entries && Selected(s) == [id]
            && s.entries[id] == Entry(NewEntry(r).row, Some(Message(None, Sent)), None, SentActs(Writes(true, false)))
  {
    AfterSendRun(id, d);
    OneAttempt(SendRun(id, d), id, true, Favourable, Writes(true, false));
    var s := Exec(Uncompleted(id, d));
    assert [] + SentActs(Writes(true, false)) == SentActs(Writes(true, false));
    assert WaitingIn(s.entries, [id][..0]) == [];
  }

  /** After a run that leaves the log alone, a text that is idle is handed over by one attempt. */
  lemma AttemptHands(s: State, id: Id, first: seq<Step>, d: Details)
    requires d.kind == PlainText && id in s.entries
    requires var t := ExecFrom(s, first);
             && t.serving && id in t.entries && InPhase(t.entries[id], Idle)
             && t.entries[id].task.value.job.details == d && t.entries[id].acts == s.entries[id].acts
    ensures HandsAgain(s, id, first + JobSteps(id, HandlerSteps(d, true, Favourable, AllWritten)))
  {
    var w := AllWritten;
    HandlerIsARun(ExecFrom(s, first), id, true, Favourable, w);
    ExecFromConcat(s, first, JobSteps(id, HandlerSteps(d, true, Favourable, w)));
    OneMore(s.entries[id].acts, w);
    SentActsAreClean(s.entries[id].acts);
  }

  lemma SentActsAreClean(acts: seq<Act>)
    ensures GrewCleanly(acts, acts + SentActs(AllWritten))
  {
  }

  lemma RestartedUncompleted(id: Id, d: Details)
    requires d.kind == PlainText
    ensures var s := Exec(Uncompleted(id, d)); var t := ExecFrom(s, Restart(s, id));
            && id in s.entries && t.serving && id in t.entries && InPhase(t.entries[id], Idle)
            && t.entries[id].task.value.job.details == d && t.entries[id].acts == s.entries[id].acts
  {
    var s := Exec(Uncompleted(id, d));
    AfterUncompleted(id, d);
    DownIs(s, id);
    RestartEntry(s, id, id);
  }

  /** So does a restart that interrupts nothing, when the completed row could not be written: the row
      still waits, and recovery sends the text again although its status is sent. */
  lemma SentTwiceByRestart(id: Id, d: Details)
    requires d.kind == PlainText
    ensures var s := Exec(Uncompleted(id, d));
            && id in s.entries && s.entries[id].message == Some(Message(None, Sent)) && Handed(s.entries[id].acts) == 1
            && HandsAgain(s, id, Restart(s, id) + JobSteps(id, HandlerSteps(d, true, Favourable, AllWritten)))
  {
    var s := Exec(Uncompleted(id, d));
    AfterUncompleted(id, d);
    OneMore([], Writes(true, false));
    assert [] + SentActs(Writes(true, false)) == SentActs(Writes(true, false));
    RestartedUncompleted(id, d);
    AttemptHands(s, id, Restart(s, id), d);
  }
}
