/** Conservation in the worker: attempts, recorded outcomes and events agree
    (internal/queue/queue.go:77, 140-212, internal/store/memory.go:284-287). */
module LifecycleLedger {
  import opened Common
  import opened Jobs
  import opened Lifecycle
  import opened LifecycleSafety

  // ---------------------------------------------------------------- the shape of a history

  /** The first `at` actions of a failed attempt. */
  function FailPart(at: nat, timelock: bool): seq<Act>
    requires at <= 4
  {
    FailActs(timelock, AllWritten)[..at]
  }

  /** A hand-over and the first `at` actions that follow it. */
  function SentPart(at: nat): seq<Act>
    requires at <= 4
  {
    SentActs(AllWritten)[..at + 1]
  }

  /** n complete failed attempts that are retried. */
  function Failures(n: nat): seq<Act> {
    if n == 0 then [] else Failures(n - 1) + FailPart(4, false)
  }

  /** Complete failed attempts, then what the current handler has done so far. */
  predicate TaskShape(t: Task, attempts: nat, acts: seq<Act>) {
    && t.retried <= MAX_RETRY
    && match t.phase
       case Idle | Started => attempts <= t.retried && acts == Failures(attempts)
       case Archived => attempts <= MAX_RETRY + 1 && acts == Failures(attempts)
       case Failing(at, timelock) =>
         && at <= 4 && (at >= 3 ==> attempts > 0)
         && var n := if at >= 3 then attempts - 1 else attempts;
            n <= t.retried && acts == Failures(n) + FailPart(at, timelock)
       case Sending(at) =>
         && at <= 4 && (at >= 3 ==> attempts > 0)
         && var n := if at >= 3 then attempts - 1 else attempts;
            n <= t.retried && acts == Failures(n) + SentPart(at)
  }

  /** A task that is gone was never submitted, was archived and evicted, or ended with a delivery or
      a reach-out timelock. */
  predicate EndShape(attempts: nat, acts: seq<Act>) {
    && attempts <= MAX_RETRY + 1
    && (|| acts == Failures(attempts)
        || (attempts > 0 && acts == Failures(attempts - 1) + SentPart(4))
        || (attempts > 0 && acts == Failures(attempts - 1) + FailPart(4, true)))
  }

  predicate Shape(e: Entry) {
    if e.task.Some? then TaskShape(e.task.value, e.row.attempts, e.acts) else EndShape(e.row.attempts, e.acts)
  }

  lemma FailPartGrows(at: nat, timelock: bool)
    requires at < 4
    ensures FailPart(at + 1, timelock) == FailPart(at, timelock) + [FailPart(4, timelock)[at]]
  {
  }

  lemma SentPartGrows(at: nat)
    requires at < 4
    ensures SentPart(at + 1) == SentPart(at) + [SentPart(4)[at + 1]]
  {
  }

  /** The history grows by the next action of the path. */
  lemma FailingGrows(n: nat, at: nat, timelock: bool)
    requires at < 4
    ensures Failures(n) + FailPart(at + 1, timelock)
         == (Failures(n) + FailPart(at, timelock)) + [FailPart(4, timelock)[at]]
  {
    FailPartGrows(at, timelock);
    Regroup(Failures(n), FailPart(at, timelock), [FailPart(4, timelock)[at]]);
  }

  lemma SendingGrows(n: nat, at: nat)
    requires at < 4
    ensures Failures(n) + SentPart(at + 1) == (Failures(n) + SentPart(at)) + [SentPart(4)[at + 1]]
  {
    SentPartGrows(at);
    Regroup(Failures(n), SentPart(at), [SentPart(4)[at + 1]]);
  }

  lemma FailingKeepsShape(e: Entry, at: nat, timelock: bool)
    requires Shape(e) && InPhase(e, Failing(at, timelock)) && at <= 4
    ensures Shape(FailingAction(e, at, timelock, true))
  {
    if at < 4 {
      FailingGrows(if at >= 3 then e.row.attempts - 1 else e.row.attempts, at, timelock);
      assert FailPart(4, timelock)[at] ==
             if at == 0 then RecordedFailure else if at == 1 then StatusFailed
             else if at == 2 then JobWritten(JobFailed) else EventFailed(timelock);
    }
  }

  lemma SendingKeepsShape(e: Entry, at: nat)
    requires Shape(e) && InPhase(e, Sending(at)) && at <= 4
    ensures Shape(SendingAction(e, at, true))
  {
    if at < 4 {
      SendingGrows(if at >= 3 then e.row.attempts - 1 else e.row.attempts, at);
      assert SentPart(4)[at + 1] ==
             if at == 0 then StatusSent else if at == 1 then RecordedSuccess
             else if at == 2 then JobWritten(Completed) else EventSent;
    }
  }

  /** A failed store write or an interrupted attempt. */
  predicate Fault(a: Act) {
    a == FailedUnwritten || a == SentUnwritten || a.JobUnwritten? || a == Interrupted
  }

  predicate Clean(acts: seq<Act>) {
    forall i | 0 <= i < |acts| :: !Fault(acts[i])
  }

  lemma JobStepKeepsShape(e: Entry, step: JobStep)
    requires Shape(e) && JobEnabled(e, step) && !step.RecoverRow?
    ensures Clean(JobNext(e, step).acts) ==> Shape(JobNext(e, step))
  {
    match step
    case Advance(written) =>
      if written {
        WrittenKeepsShape(e);
      } else {
        UnwrittenIsNotClean(e);
      }
    case Attempt(env) =>
      assert FailPart(0, true) == [] && FailPart(0, false) == [] && SentPart(0) == [HandedOver];
      assert e.acts + [] == e.acts;
    case _ =>
  }

  lemma WrittenKeepsShape(e: Entry)
    requires Shape(e) && Attempting(e)
    ensures Shape(JobNext(e, Advance(true)))
  {
    var phase := e.task.value.phase;
    if phase.Failing? {
      FailingKeepsShape(e, phase.at, phase.timelock);
    } else {
      SendingKeepsShape(e, phase.at);
    }
  }

  /** Where there is no store write to fail, `written` makes no difference. */
  lemma UnwrittenIsNotClean(e: Entry)
    requires Shape(e) && Attempting(e)
    ensures Clean(JobNext(e, Advance(false)).acts) ==> Shape(JobNext(e, Advance(false)))
  {
    var phase := e.task.value.phase;
    var next := JobNext(e, Advance(false)).acts;
    if phase.at == 2 || phase.at == if phase.Failing? then 1 else 0 {
      assert next[|next| - 1] in next;
    } else {
      WrittenKeepsShape(e);
    }
  }

  /** A job that was attempted has written its row. */
  lemma AttemptsAreWritten(attempts: nat, acts: seq<Act>)
    requires EndShape(attempts, acts) && attempts > 0
    ensures RowWritten(acts)
  {
    assert Failures(attempts) == Failures(attempts - 1) + FailPart(4, false);
    var last := |acts| - 2;
    assert acts[last] in acts;
  }

  lemma CrashKeepsShape(e: Entry, spent: bool)
    requires Shape(e)
    ensures Clean(AfterCrash(e, spent).acts) ==> Shape(AfterCrash(e, spent))
  {
    var next := AfterCrash(e, spent).acts;
    if Attempting(e) {
      assert next[|next| - 1] in next;
    }
  }

  // ---------------------------------------------------------------- every run

  predicate LedgerOk(s: State) {
    forall id <- s.entries | Clean(s.entries[id].acts) :: Shape(s.entries[id])
  }

  lemma JobLogGrows(e: Entry, step: JobStep)
    requires JobEnabled(e, step)
    ensures e.acts <= JobNext(e, step).acts
  {
  }

  /** A log only grows. */
  lemma LogGrows(s: State, step: Step, id: Id)
    requires id in s.entries
    ensures id in Next(s, step).entries && s.entries[id].acts <= Next(s, step).entries[id].acts
  {
    if Enabled(s, step) && step.Job? && step.id == id {
      JobLogGrows(s.entries[id], step.step);
    }
  }

  lemma CleanBefore(acts: seq<Act>, more: seq<Act>)
    requires acts <= more && Clean(more)
    ensures Clean(acts)
  {
    forall a | a in acts ensures a in more {
      var i :| 0 <= i < |acts| && acts[i] == a;
      assert more[i] == a;
    }
  }

  lemma EntryKeepsLedger(s: State, step: Step, id: Id)
    requires RequestsOk(s) && id in s.entries && EntryOk(id, s.entries[id]) && Shape(s.entries[id])
    ensures id in Next(s, step).entries
    ensures Clean(Next(s, step).entries[id].acts) ==> Shape(Next(s, step).entries[id])
  {
    LogGrows(s, step, id);
    if Enabled(s, step) {
      match step
      case Job(k, js) =>
        if k == id {
          if js.RecoverRow? {
            assert Failures(0) == [];
            if s.entries[id].task.None? && s.entries[id].row.attempts > 0 {
              AttemptsAreWritten(s.entries[id].row.attempts, s.entries[id].acts);
            }
          } else {
            JobStepKeepsShape(s.entries[id], js);
          }
        }
      case Enqueue(q, _) =>
        assert SubmitOk(s, s.requests[q]);
        assert Failures(0) == [];
      case Crash(spent) => CrashKeepsShape(s.entries[id], id in spent);
      case _ =>
    }
  }

  lemma NewEntryHasShape(s: State, step: Step, id: Id)
    requires id in Next(s, step).entries && id !in s.entries
    ensures Shape(Next(s, step).entries[id])
  {
    assert Failures(0) == [];
  }

  lemma StepKeepsLedger(s: State, step: Step)
    requires LedgerOk(s) && RequestsOk(s) && EntriesOk(s)
    ensures LedgerOk(Next(s, step))
  {
    forall id | id in Next(s, step).entries && Clean(Next(s, step).entries[id].acts)
      ensures Shape(Next(s, step).entries[id])
    {
      if id in s.entries {
        LogGrows(s, step, id);
        CleanBefore(s.entries[id].acts, Next(s, step).entries[id].acts);
        EntryKeepsLedger(s, step, id);
      } else {
        NewEntryHasShape(s, step, id);
      }
    }
  }

  lemma {:induction false} RunKeepsLedger(steps: seq<Step>)
    ensures LedgerOk(Exec(steps))
  {
    if steps != [] {
      RunKeepsLedger(steps[..|steps| - 1]);
      RunKeeps(steps[..|steps| - 1]);
      StepKeepsLedger(Exec(steps[..|steps| - 1]), steps[|steps| - 1]);
    }
  }

  // ---------------------------------------------------------------- what the shape says

  function FailedEvents(acts: seq<Act>): nat {
    if acts == [] then 0 else FailedEvents(acts[..|acts| - 1]) + if acts[|acts| - 1].EventFailed? then 1 else 0
  }

  function SentEvents(acts: seq<Act>): nat {
    if acts == [] then 0 else SentEvents(acts[..|acts| - 1]) + if acts[|acts| - 1].EventSent? then 1 else 0
  }

  /** Calls of RecordFailure and RecordSuccess. */
  function Records(acts: seq<Act>): nat {
    if acts == [] then 0
    else Records(acts[..|acts| - 1]) + if acts[|acts| - 1] in {RecordedFailure, RecordedSuccess} then 1 else 0
  }

  lemma CountAct(acts: seq<Act>, a: Act)
    ensures FailedEvents(acts + [a]) == FailedEvents(acts) + if a.EventFailed? then 1 else 0
    ensures SentEvents(acts + [a]) == SentEvents(acts) + if a.EventSent? then 1 else 0
    ensures Records(acts + [a]) == Records(acts) + if a in {RecordedFailure, RecordedSuccess} then 1 else 0
  {
    assert (acts + [a])[..|acts|] == acts;
  }

  lemma CountFailBlock(acts: seq<Act>, timelock: bool)
    ensures var all := acts + FailPart(4, timelock);
            && FailedEvents(all) == FailedEvents(acts) + 1 && SentEvents(all) == SentEvents(acts)
            && Records(all) == Records(acts) + 1
  {
    var a1 := acts + [RecordedFailure];
    var a2 := a1 + [StatusFailed];
    var a3 := a2 + [JobWritten(JobFailed)];
    assert acts + FailPart(4, timelock) == a3 + [EventFailed(timelock)];
    CountAct(acts, RecordedFailure);
    CountAct(a1, StatusFailed);
    CountAct(a2, JobWritten(JobFailed));
    CountAct(a3, EventFailed(timelock));
  }

  lemma CountSentBlock(acts: seq<Act>)
    ensures var all := acts + SentPart(4);
            && FailedEvents(all) == FailedEvents(acts) && SentEvents(all) == SentEvents(acts) + 1
            && Records(all) == Records(acts) + 1
  {
    var a1 := acts + [HandedOver];
    var a2 := a1 + [StatusSent];
    var a3 := a2 + [RecordedSuccess];
    var a4 := a3 + [JobWritten(Completed)];
    assert acts + SentPart(4) == a4 + [EventSent];
    CountAct(acts, HandedOver);
    CountAct(a1, StatusSent);
    CountAct(a2, RecordedSuccess);
    CountAct(a3, JobWritten(Completed));
    CountAct(a4, EventSent);
  }

  lemma {:induction false} CountFailures(n: nat)
    ensures FailedEvents(Failures(n)) == n && SentEvents(Failures(n)) == 0 && Records(Failures(n)) == n
  {
    if n > 0 {
      CountFailures(n - 1);
      CountFailBlock(Failures(n - 1), false);
    }
  }

  /** An act after which nothing may follow. */
  predicate Final(a: Act) {
    a == EventSent || a == EventFailed(true)
  }

  lemma {:induction false} FailuresAreNotFinal(n: nat)
    ensures forall i | 0 <= i < |Failures(n)| :: !Final(Failures(n)[i])
  {
    if n > 0 {
      FailuresAreNotFinal(n - 1);
    }
  }

  lemma RestCounts(attempts: nat, acts: seq<Act>)
    requires EndShape(attempts, acts)
    ensures attempts == FailedEvents(acts) + SentEvents(acts) == Records(acts) && SentEvents(acts) <= 1
  {
    if acts == Failures(attempts) {
      CountFailures(attempts);
    } else {
      CountFailures(attempts - 1);
      CountFailBlock(Failures(attempts - 1), true);
      CountSentBlock(Failures(attempts - 1));
    }
  }

  /** Conservation: in every run, for every job none of whose store writes failed and none of whose
      attempts was interrupted, and whose handler is not in the middle of an attempt, the attempts
      counter, the number of message.failed and message.sent events together, and the number of
      RecordFailure and RecordSuccess calls agree, and are at most 1 + MaxRetry; message.sent occurs
      at most once. */
  lemma Conservation(steps: seq<Step>, id: Id)
    requires var s := Exec(steps); id in s.entries && Clean(s.entries[id].acts) && !Attempting(s.entries[id])
    ensures var e := Exec(steps).entries[id];
            && e.row.attempts == FailedEvents(e.acts) + SentEvents(e.acts) == Records(e.acts)
            && e.row.attempts <= 1 + MAX_RETRY
            && SentEvents(e.acts) <= 1
  {
    RunKeepsLedger(steps);
    var e := Exec(steps).entries[id];
    assert Shape(e);
    RestCounts(e.row.attempts, e.acts);
  }

  lemma FinalIsLast(n: nat, part: seq<Act>, i: nat)
    requires || (1 <= |part| <= 5 && part == SentPart(|part| - 1))
             || (|part| <= 4 && exists t :: part == FailPart(|part|, t))
    requires i < |Failures(n) + part| && Final((Failures(n) + part)[i])
    ensures i == |Failures(n) + part| - 1
  {
    FailuresAreNotFinal(n);
    assert i >= |Failures(n)|;
    assert Final(part[i - |Failures(n)|]);
  }

  lemma ShapeEnds(e: Entry, i: nat)
    requires Shape(e) && i < |e.acts| && Final(e.acts[i])
    ensures i == |e.acts| - 1
  {
    var a := e.row.attempts;
    if e.acts == Failures(a) {
      FailuresAreNotFinal(a);
      assert false;
    } else if e.task.None? {
      FinalIsLast(a - 1, if e.acts == Failures(a - 1) + SentPart(4) then SentPart(4) else FailPart(4, true), i);
    } else {
      match e.task.value.phase
      case Failing(at, timelock) => FinalIsLast(if at >= 3 then a - 1 else a, FailPart(at, timelock), i);
      case Sending(at) => FinalIsLast(if at >= 3 then a - 1 else a, SentPart(at), i);
    }
  }

  /** For such jobs nothing is ever done after message.sent, nor after the message.failed
      of an error 463: a timelocked message is not attempted again. */
  lemma NothingAfterTheEnd(steps: seq<Step>, id: Id, i: nat)
    requires id in Exec(steps).entries && Clean(Exec(steps).entries[id].acts)
    requires i < |Exec(steps).entries[id].acts| && Final(Exec(steps).entries[id].acts[i])
    ensures i == |Exec(steps).entries[id].acts| - 1
  {
    RunKeepsLedger(steps);
    var e := Exec(steps).entries[id];
    ShapeEnds(e, i);
  }
}
