/** Durability: what a restart finds and what it puts back into the queue
    (internal/store/memory.go:288-305, internal/queue/queue.go:86-100, cmd/gateway/main.go:94-97). */
module LifecycleRestart {
  import opened Common
  import opened Jobs
  import opened Lifecycle
  import opened LifecycleSafety

  // ---------------------------------------------------------------- listing

  lemma {:induction false} WaitingAreListed(entries: map<Id, Entry>, created: seq<Id>)
    ensures forall id :: id in WaitingIn(entries, created) <==>
                         id in created && id in entries && entries[id].row.status == Waiting
  {
    if created != [] {
      WaitingAreListed(entries, created[..|created| - 1]);
      assert created == created[..|created| - 1] + [created[|created| - 1]];
    }
  }

  lemma SelectedAreStored(s: State)
    ensures forall i | 0 <= i < |Selected(s)| :: Selected(s)[i] in s.entries
  {
    WaitingAreListed(s.entries, s.created);
    forall i | 0 <= i < |Selected(s)| ensures Selected(s)[i] in s.entries {
      assert Selected(s)[i] == WaitingIn(s.entries, s.created)[i];
    }
  }

  lemma {:induction false} WaitingAreDistinct(entries: map<Id, Entry>, created: seq<Id>)
    requires Distinct(created)
    ensures Distinct(WaitingIn(entries, created))
  {
    if created != [] {
      var n := |created| - 1;
      WaitingAreDistinct(entries, created[..n]);
      WaitingAreListed(entries, created[..n]);
      assert forall id <- WaitingIn(entries, created[..n]) :: id in created[..n] && id != created[n];
    }
  }

  lemma {:induction false} WaitingInOrder(entries: map<Id, Entry>, created: seq<Id>, i: nat, j: nat)
    requires i < j < |created| && Distinct(created)
    requires created[i] in entries && created[j] in entries
    requires entries[created[i]].row.status == Waiting && entries[created[j]].row.status == Waiting
    ensures exists a, b | 0 <= a < b < |WaitingIn(entries, created)| ::
              WaitingIn(entries, created)[a] == created[i] && WaitingIn(entries, created)[b] == created[j]
  {
    var n := |created| - 1;
    var w, v := WaitingIn(entries, created), WaitingIn(entries, created[..n]);
    if j < n {
      WaitingInOrder(entries, created[..n], i, j);
      var a, b :| 0 <= a < b < |v| && v[a] == created[i] && v[b] == created[j];
      assert w[a] == v[a] && w[b] == v[b];
    } else {
      WaitingAreListed(entries, created[..n]);
      assert created[..n][i] == created[i] && created[i] in v;
      var a :| 0 <= a < |v| && v[a] == created[i];
      assert w[a] == v[a] && w[|v|] == created[j];
    }
  }

  /** The list holds waiting rows only, at most 1000, all of them if there are not more, and none is
      left out for a younger one. */
  lemma SelectedAreOldest(s: State, i: nat, j: nat)
    requires i < j < |s.created| && Distinct(s.created) && s.created[i] in s.entries && s.created[j] in s.entries
    requires s.entries[s.created[i]].row.status == Waiting && s.entries[s.created[j]].row.status == Waiting
    ensures |Selected(s)| <= 1000 && (|Selected(s)| < 1000 ==> s.created[j] in Selected(s))
    ensures |WaitingIn(s.entries, s.created)| <= 1000 ==> Selected(s) == WaitingIn(s.entries, s.created)
    ensures s.created[j] in Selected(s) ==> s.created[i] in Selected(s)
  {
    var w := WaitingIn(s.entries, s.created);
    WaitingInOrder(s.entries, s.created, i, j);
    var a, b :| 0 <= a < b < |w| && w[a] == s.created[i] && w[b] == s.created[j];
    WaitingAreDistinct(s.entries, s.created);
    if s.created[j] in Selected(s) {
      var k :| 0 <= k < |Selected(s)| && Selected(s)[k] == s.created[j];
      assert w[k] == w[b];
      assert Selected(s)[a] == s.created[i];
    }
  }

  /** The rows it returns. */
  function Rows(s: State): (rows: seq<PendingJob>)
    ensures |rows| == |Selected(s)|
    ensures forall i | 0 <= i < |rows| ::
              && Selected(s)[i] in s.entries
              && rows[i] == PendingJob(Selected(s)[i], Persist(s.entries[Selected(s)[i]].row.job))
  {
    SelectedAreStored(s);
    seq(|Selected(s)|, i requires 0 <= i < |Selected(s)| =>
      PendingJob(Selected(s)[i], Persist(s.entries[Selected(s)[i]].row.job)))
  }

  function TasksOf(s: State): Tasks {
    map id | id in s.entries && s.entries[id].task.Some? :: s.entries[id].task.value
  }

  /** The queue after a Recover that returns nil. */
  function Restarted(s: State): Tasks {
    RecoverAll(TasksOf(s), Rows(s))
  }

  // ---------------------------------------------------------------- recovery is a run

  /** The steps of a Recover that deals with these rows. */
  function RecoverySteps(ids: seq<Id>): seq<Step> {
    if ids == [] then [] else RecoverySteps(ids[..|ids| - 1]) + [Job(ids[|ids| - 1], RecoverRow)]
  }

  /** Nothing but tasks differs. */
  predicate OnlyTasksDiffer(s: State, t: State) {
    && t.entries.Keys == s.entries.Keys && t == s.(entries := t.entries)
    && forall id <- s.entries :: t.entries[id] == s.entries[id].(task := t.entries[id].task)
  }

  lemma {:induction false} WaitingFollowsRows(entries: map<Id, Entry>, others: map<Id, Entry>, created: seq<Id>)
    requires others.Keys == entries.Keys && forall id <- entries :: others[id].row == entries[id].row
    ensures WaitingIn(others, created) == WaitingIn(entries, created)
  {
    if created != [] {
      WaitingFollowsRows(entries, others, created[..|created| - 1]);
    }
  }

  lemma TasksAfterNew(s: State, id: Id, task: Task)
    requires id in s.entries
    ensures var t := s.(entries := s.entries[id := s.entries[id].(task := Some(task))]);
            OnlyTasksDiffer(s, t) && TasksOf(t) == TasksOf(s)[id := task]
  {
  }

  /** The step of one listed row. */
  lemma RecoverRowIs(s: State, id: Id)
    requires !s.serving && id in s.entries && s.entries[id].row.status == Waiting && id in Selected(s)
    ensures var e := s.entries[id];
            Next(s, Job(id, RecoverRow)) ==
            if e.task.Some? then s else s.(entries := s.entries[id := e.(task := Some(NewTask(e.row.job)))])
  {
    assert s.entries[id := s.entries[id]] == s.entries;
  }

  lemma RecoverOneIs(tasks: Tasks, id: Id, job: MessageJob)
    ensures RecoverOne(tasks, PendingJob(id, Persist(job))) == if id in tasks then tasks else tasks[id := NewTask(job)]
  {
    DecodeInverts(job);
  }

  lemma RecoverOneIsAStep(s: State, id: Id)
    requires !s.serving && id in s.entries && s.entries[id].row.status == Waiting && id in Selected(s)
    ensures var t := Next(s, Job(id, RecoverRow));
            && OnlyTasksDiffer(s, t)
            && TasksOf(t) == RecoverOne(TasksOf(s), PendingJob(id, Persist(s.entries[id].row.job)))
  {
    RecoverRowIs(s, id);
    RecoverOneIs(TasksOf(s), id, s.entries[id].row.job);
    TasksAfterNew(s, id, NewTask(s.entries[id].row.job));
  }

  /** A row that is not listed is not recovered. */
  lemma UnlistedIsNotRecovered(s: State, id: Id)
    requires id !in Selected(s)
    ensures Next(s, Job(id, RecoverRow)) == s
  {
  }

  lemma SelectedAreWaiting(s: State, i: nat)
    requires i < |Selected(s)|
    ensures Selected(s)[i] in s.entries && s.entries[Selected(s)[i]].row.status == Waiting
  {
    WaitingAreListed(s.entries, s.created);
    assert Selected(s)[i] == WaitingIn(s.entries, s.created)[i];
  }

  lemma SelectedStays(s: State, t: State)
    requires OnlyTasksDiffer(s, t)
    ensures Selected(t) == Selected(s)
  {
    WaitingFollowsRows(s.entries, t.entries, s.created);
  }

  lemma DifferOnlyInTasks(s: State, t: State, u: State)
    requires OnlyTasksDiffer(s, t) && OnlyTasksDiffer(t, u)
    ensures OnlyTasksDiffer(s, u)
  {
    forall id | id in s.entries ensures u.entries[id] == s.entries[id].(task := u.entries[id].task) {
      assert t.entries[id] == s.entries[id].(task := t.entries[id].task);
    }
  }

  /** The first n listed rows are dealt with, and nothing else has changed. */
  predicate DealtWith(s: State, t: State, n: nat)
    requires n <= |Selected(s)|
  {
    OnlyTasksDiffer(s, t) && TasksOf(t) == RecoverAll(TasksOf(s), Rows(s)[..n])
  }

  lemma OneMoreRow(s: State, t: State, i: nat)
    requires !s.serving && i < |Selected(s)| && DealtWith(s, t, i)
    ensures DealtWith(s, Next(t, Job(Selected(s)[i], RecoverRow)), i + 1)
  {
    var id := Selected(s)[i];
    SelectedStays(s, t);
    SelectedAreWaiting(s, i);
    assert t.entries[id].row == s.entries[id].row;
    RecoverOneIsAStep(t, id);
    DifferOnlyInTasks(s, t, Next(t, Job(id, RecoverRow)));
    RecoverRound(TasksOf(s), Rows(s), i);
  }

  lemma NothingDealtWith(s: State)
    ensures DealtWith(s, s, 0)
  {
    assert Rows(s)[..0] == [];
  }

  lemma RecoveryStepsSnoc(s: State, ids: seq<Id>, n: nat)
    requires 0 < n <= |ids|
    ensures ExecFrom(s, RecoverySteps(ids[..n]))
         == Next(ExecFrom(s, RecoverySteps(ids[..n - 1])), Job(ids[n - 1], RecoverRow))
  {
    assert ids[..n][..n - 1] == ids[..n - 1];
    LastStep(s, RecoverySteps(ids[..n - 1]), Job(ids[n - 1], RecoverRow));
  }

  /** Recover is a run: dealing with the first n listed rows, in order, leaves the queue that n rounds
      of its loop leave, and changes nothing else. A Recover that stops early deals with fewer rows. */
  lemma {:induction false} RecoveryIsARun(s: State, n: nat)
    requires !s.serving && n <= |Selected(s)|
    ensures DealtWith(s, ExecFrom(s, RecoverySteps(Selected(s)[..n])), n)
  {
    if n == 0 {
      NothingDealtWith(s);
      assert RecoverySteps(Selected(s)[..0]) == [];
    } else {
      RecoveryIsARun(s, n - 1);
      RecoveryStepsSnoc(s, Selected(s), n);
      OneMoreRow(s, ExecFrom(s, RecoverySteps(Selected(s)[..n - 1])), n - 1);
    }
  }

  lemma LastStep(s: State, steps: seq<Step>, step: Step)
    ensures ExecFrom(s, steps + [step]) == Next(ExecFrom(s, steps), step)
  {
    assert (steps + [step])[..|steps|] == steps;
  }

  /** The gateway after a Recover that returns nil. */
  function Recovered(s: State): State {
    ExecFrom(s, RecoverySteps(Selected(s)))
  }

  // ---------------------------------------------------------------- every job is listed once

  ghost predicate CreatedOk(s: State) {
    && (forall id :: id in s.created <==> id in s.entries)
    && (forall i, k | 0 <= i < k < |s.created| :: s.created[i] != s.created[k])
  }

  predicate SameJobs(s: State, t: State) {
    t.created == s.created && t.entries.Keys == s.entries.Keys
  }

  /** An insert adds its own job, or nothing. */
  lemma PutAddsOne(s: State, q: nat, effect: Effect)
    requires At(s, q, Insert)
    ensures var t, r := AfterPut(s, q, effect), s.requests[q];
            || SameJobs(s, t)
            || (&& r.id !in s.entries && t.created == s.created + [r.id]
                && t.entries.Keys == s.entries.Keys + {r.id})
  {
  }

  /** No other step adds or removes a job. */
  lemma OthersKeepJobs(s: State, step: Step)
    requires !step.Put?
    ensures SameJobs(s, Next(s, step))
  {
    if Enabled(s, step) {
      match step
      case Enqueue(q, effect) => assert AfterEnqueue(s, q, effect).entries.Keys == s.entries.Keys;
      case Job(id, js) => assert Next(s, step).entries.Keys == s.entries.Keys;
      case Delete(id) => assert Deleted(s, id).entries.Keys == s.entries.Keys;
      case Crash(_) => assert Next(s, step).entries.Keys == s.entries.Keys;
      case _ =>
    }
  }

  lemma StepKeepsCreated(s: State, step: Step)
    requires CreatedOk(s)
    ensures CreatedOk(Next(s, step))
  {
    if Enabled(s, step) && step.Put? {
      PutAddsOne(s, step.q, step.effect);
    } else if !step.Put? {
      OthersKeepJobs(s, step);
    }
  }

  lemma {:induction false} RunKeepsCreated(steps: seq<Step>)
    ensures CreatedOk(Exec(steps))
  {
    if steps != [] {
      RunKeepsCreated(steps[..|steps| - 1]);
      StepKeepsCreated(Exec(steps[..|steps| - 1]), steps[|steps| - 1]);
    }
  }

  // ---------------------------------------------------------------- durability

  /** Durability and its exact limit. After any run, crashes included, a message that is still queued
      has a row that is still waiting if and only if its status was written or its row was not; and
      where that fails, a status write of the failure path had failed. */
  lemma QueuedIsWaiting(steps: seq<Step>, id: Id)
    requires id in Exec(steps).entries && Exec(steps).entries[id].message.Some?
    ensures var e := Exec(steps).entries[id];
            (e.message.value.status == Queued ==> e.row.status == Waiting)
            <==> StatusWritten(e.acts) || !RowWritten(e.acts)
    ensures var e := Exec(steps).entries[id];
            e.message.value.status == Queued && FailedUnwritten !in e.acts ==> e.row.status == Waiting
  {
    RunKeeps(steps);
    assert EntryOk(id, Exec(steps).entries[id]);
  }

  lemma RowsDecode(s: State)
    ensures Decodable(Rows(s))
    ensures forall i | 0 <= i < |Rows(s)| :: Decode(Rows(s)[i].data) == Some(s.entries[Rows(s)[i].jobId].row.job)
  {
    forall i | 0 <= i < |Rows(s)| ensures Decode(Rows(s)[i].data) == Some(s.entries[Rows(s)[i].jobId].row.job) {
      DecodeInverts(s.entries[Rows(s)[i].jobId].row.job);
    }
  }

  lemma ListedIffSelected(s: State, id: Id)
    ensures Listed(Rows(s), id).Some? <==> id in Selected(s)
    ensures Listed(Rows(s), id).Some? ==> Listed(Rows(s), id).value in Rows(s) && Listed(Rows(s), id).value.jobId == id
  {
    ListedIsThere(Rows(s), id);
    if id in Selected(s) {
      var i :| 0 <= i < |Selected(s)| && Selected(s)[i] == id;
      assert Rows(s)[i].jobId == id;
    }
    if Listed(Rows(s), id).Some? {
      var i :| 0 <= i < |Rows(s)| && Rows(s)[i] == Listed(Rows(s), id).value;
      assert Selected(s)[i] == id;
    }
  }

  /** A successful recovery gives a job exactly one task, the stored one if there is one and
      otherwise the task its live submission would have made, if and only if it had a task or was
      among the first 1000 waiting rows; and it is a run of the gateway that changes nothing else. */
  lemma RestartTask(s: State, id: Id)
    requires id in s.entries
    ensures Stored(Restarted(s), id) ==
            if s.entries[id].task.Some? then s.entries[id].task
            else if id in Selected(s) then Some(NewTask(s.entries[id].row.job)) else None
    ensures !s.serving ==>
              && OnlyTasksDiffer(s, Recovered(s))
              && Recovered(s).entries[id].task == Stored(Restarted(s), id)
  {
    RowsDecode(s);
    ListedIffSelected(s, id);
    RecoverAddsMissing(TasksOf(s), Rows(s), id);
    if Listed(Rows(s), id).Some? {
      var i :| 0 <= i < |Rows(s)| && Rows(s)[i] == Listed(Rows(s), id).value;
    }
    if !s.serving {
      RestartIsARun(s);
      TaskIsStored(Recovered(s), id);
    }
  }

  lemma RestartIsARun(s: State)
    requires !s.serving
    ensures OnlyTasksDiffer(s, Recovered(s)) && TasksOf(Recovered(s)) == Restarted(s)
  {
    RecoveryIsARun(s, |Selected(s)|);
    assert Selected(s)[..|Selected(s)|] == Selected(s) && Rows(s)[..|Rows(s)|] == Rows(s);
  }

  lemma TaskIsStored(s: State, id: Id)
    requires id in s.entries
    ensures Stored(TasksOf(s), id) == s.entries[id].task
  {
  }

  /** Can a worker still pick the task up? */
  predicate Live(t: Option<Task>) {
    t.Some? && !t.value.phase.Archived?
  }

  /** With at most 1000 waiting rows, a restart whose Recover returns nil leaves every waiting job
      with exactly one task, carrying that job to the queue its row names; and a worker will pick it
      up if and only if it was not already archived. */
  lemma RestartRecoversAll(steps: seq<Step>, id: Id)
    requires var s := Exec(steps);
             && |WaitingIn(s.entries, s.created)| <= 1000
             && id in s.entries && s.entries[id].row.status == Waiting
    ensures var s := Exec(steps); var t := Stored(Restarted(s), id);
            && t.Some? && t.value.job == s.entries[id].row.job && t.value.queue == s.entries[id].row.queue
            && (Live(t) <==> !InPhase(s.entries[id], Archived))
            && (!s.serving ==> id in Recovered(s).entries && Recovered(s).entries[id].task == t)
  {
    var s := Exec(steps);
    RunKeeps(steps);
    RunKeepsCreated(steps);
    WaitingAreListed(s.entries, s.created);
    RestartTask(s, id);
    assert EntryOk(id, s.entries[id]);
  }
}
