/** The exact limit of durability: when a queued message can never leave the queue again
    (internal/queue/queue.go:86-100, 140-212, internal/store/memory.go:284-305), and runs that get
    there. */
module LifecycleFate {
  import opened Common
  import opened Jobs
  import opened Lifecycle
  import opened LifecycleSafety
  import opened LifecycleRestart
  import opened Handlers

  predicate IsQueued(s: State, id: Id) {
    id in s.entries && s.entries[id].message.Some? && s.entries[id].message.value.status == Queued
  }

  /** Neither a row that a restart would recover nor a task that a worker would pick up. */
  predicate Stuck(e: Entry) {
    e.row.status != Waiting && !Live(e.task)
  }

  /** Whatever happens next, the message stays queued. */
  ghost predicate NeverLeaves(s: State, id: Id) {
    forall more :: IsQueued(ExecFrom(s, more), id)
  }

  // ---------------------------------------------------------------- stuck stays stuck

  /** No request is about to enqueue a job whose row was written. */
  lemma NobodySubmits(s: State, q: nat, id: Id)
    requires RequestsOk(s) && id in s.entries && EntryOk(id, s.entries[id]) && s.entries[id].row.status != Waiting
    requires At(s, q, Submit)
    ensures s.requests[q].id != id
  {
    assert SubmitOk(s, s.requests[q]);
  }

  lemma StuckStays(s: State, step: Step, id: Id)
    requires RequestsOk(s) && IsQueued(s, id) && EntryOk(id, s.entries[id]) && Stuck(s.entries[id])
    ensures IsQueued(Next(s, step), id) && Stuck(Next(s, step).entries[id])
  {
    if Enabled(s, step) && step.Enqueue? {
      NobodySubmits(s, step.q, id);
    }
  }

  lemma {:induction false} StuckForever(steps: seq<Step>, id: Id, more: seq<Step>)
    requires IsQueued(Exec(steps), id) && Stuck(Exec(steps).entries[id])
    ensures var t := ExecFrom(Exec(steps), more); IsQueued(t, id) && Stuck(t.entries[id])
  {
    if more != [] {
      var front := more[..|more| - 1];
      StuckForever(steps, id, front);
      ExecContinues(steps, front);
      RunKeeps(steps + front);
      StuckStays(ExecFrom(Exec(steps), front), more[|more| - 1], id);
    }
  }

  // ---------------------------------------------------------------- restarts

  /** The archive forgets a task, the gateway crashes, recovers the listed rows and serves again. */
  function Restart(s: State, k: Id): seq<Step> {
    [Job(k, Evict)] + ([Crash({})] + (RecoverySteps(Selected(s)) + ([Serve] + [])))
  }

  /** The tables agree: rows and messages are the same, job by job. */
  predicate SameTables(s: State, t: State) {
    && t.created == s.created && t.entries.Keys == s.entries.Keys
    && forall id <- s.entries ::
         t.entries[id].row == s.entries[id].row && t.entries[id].message == s.entries[id].message
  }

  lemma TablesAgree(s: State, t: State)
    requires SameTables(s, t)
    ensures Selected(t) == Selected(s)
  {
    WaitingFollowsRows(s.entries, t.entries, s.created);
  }

  /** The gateway just before it recovers. */
  function Down(s: State, k: Id): State {
    Next(Next(s, Job(k, Evict)), Crash({}))
  }

  lemma EvictIs(s: State, k: Id)
    requires k in s.entries
    ensures Next(s, Job(k, Evict)) ==
            if InPhase(s.entries[k], Archived) then s.(entries := s.entries[k := s.entries[k].(task := None)]) else s
  {
  }

  lemma CrashIs(s: State)
    ensures var t := Next(s, Crash({}));
            && !t.serving && SameTables(s, t)
            && forall id <- s.entries :: t.entries[id] == AfterCrash(s.entries[id], false)
  {
  }

  lemma DownIs(s: State, k: Id)
    requires k in s.entries
    ensures var d := Down(s, k);
            && !d.serving && SameTables(s, d)
            && (forall id <- s.entries | id != k || !InPhase(s.entries[id], Archived) ::
                  d.entries[id] == AfterCrash(s.entries[id], false))
            && (InPhase(s.entries[k], Archived) ==> d.entries[k] == s.entries[k].(task := None))
  {
    EvictIs(s, k);
    CrashIs(Next(s, Job(k, Evict)));
  }

  lemma ServeLast(d: State, recovery: seq<Step>)
    requires !ExecFrom(d, recovery).serving
    ensures ExecFrom(d, recovery + ([Serve] + [])) == ExecFrom(d, recovery).(serving := true)
  {
    ExecFromConcat(d, recovery, [Serve] + []);
    ExecFromStep(ExecFrom(d, recovery), Serve, []);
  }

  lemma RestartIs(s: State, k: Id)
    requires k in s.entries
    ensures ExecFrom(s, Restart(s, k)) == Recovered(Down(s, k)).(serving := true)
  {
    var d := Down(s, k);
    DownIs(s, k);
    TablesAgree(s, d);
    RestartIsARun(d);
    var rest := RecoverySteps(Selected(s)) + ([Serve] + []);
    ExecFromStep(s, Job(k, Evict), [Crash({})] + rest);
    ExecFromStep(Next(s, Job(k, Evict)), Crash({}), rest);
    ServeLast(d, RecoverySteps(Selected(s)));
  }

  /** What a restart makes of one job. */
  lemma RestartEntry(s: State, k: Id, id: Id)
    requires k in s.entries && id in s.entries
    ensures var t, e := ExecFrom(s, Restart(s, k)), Down(s, k).entries[id];
            && t.serving && t.created == s.created && t.entries.Keys == s.entries.Keys
            && t.entries[id] == e.(task := if e.task.Some? then e.task
                                           else if id in Selected(s) then Some(NewTask(e.row.job)) else None)
  {
    DownIs(s, k);
    TablesAgree(s, Down(s, k));
    RestartIs(s, k);
    RestartTask(Down(s, k), id);
  }

  /** After a restart the tables are the same; a listed job, and one with a live task, is idle; a job
      that is neither stays as it is. */
  lemma RestartWakes(s: State, k: Id)
    requires k in s.entries && (k in Selected(s) || Live(s.entries[k].task))
    ensures var t := ExecFrom(s, Restart(s, k));
            && t.serving && SameTables(s, t) && InPhase(t.entries[k], Idle)
            && (Attempting(s.entries[k]) || t.entries[k].acts == s.entries[k].acts)
            && (forall id <- s.entries | id != k && id !in Selected(s) && !Live(s.entries[id].task) ::
                  t.entries[id] == s.entries[id])
  {
    DownIs(s, k);
    RestartEntry(s, k, k);
    var t := ExecFrom(s, Restart(s, k));
    assert InPhase(t.entries[k], Idle);
    forall id | id in s.entries
      ensures t.entries[id].row == s.entries[id].row && t.entries[id].message == s.entries[id].message
      ensures id != k && id !in Selected(s) && !Live(s.entries[id].task) ==> t.entries[id] == s.entries[id]
    {
      RestartEntry(s, k, id);
    }
  }

  /** A waiting row drops out of the list of waiting rows when it is written. */
  lemma {:induction false} WaitingShrinks(entries: map<Id, Entry>, others: map<Id, Entry>, created: seq<Id>, k: Id)
    requires others.Keys == entries.Keys && forall id <- entries | id != k :: others[id].row == entries[id].row
    requires k in entries && others[k].row.status != Waiting
    ensures |WaitingIn(others, created)| <= |WaitingIn(entries, created)|
    ensures k in WaitingIn(entries, created) ==> |WaitingIn(others, created)| < |WaitingIn(entries, created)|
  {
    if created != [] {
      WaitingShrinks(entries, others, created[..|created| - 1], k);
    }
  }

  const NoClient := Surroundings(false, false, SentAs(""))

  /** One attempt without a client takes a message out of the queue. */
  lemma AttemptLeaves(s: State, id: Id) returns (attempt: seq<Step>)
    requires s.serving && IsQueued(s, id) && InPhase(s.entries[id], Idle)
    ensures !IsQueued(ExecFrom(s, attempt), id)
  {
    var w := AllWritten;
    HandlerIsARun(s, id, true, NoClient, w);
    attempt := JobSteps(id, HandlerSteps(s.entries[id].task.value.job.details, true, NoClient, w));
    assert Handled(s.entries[id], true, NoClient, w).message.value.status == Failed;
  }

  /** A listed job fails once after a restart, so that one row fewer waits. */
  lemma DrainOne(s: State, k: Id) returns (steps: seq<Step>)
    requires k in s.entries && k in Selected(s)
    ensures var t := ExecFrom(s, steps);
            && t.created == s.created && t.entries.Keys == s.entries.Keys
            && |WaitingIn(t.entries, t.created)| < |WaitingIn(s.entries, s.created)|
            && forall id <- s.entries | id !in Selected(s) && !Live(s.entries[id].task) ::
                 t.entries[id] == s.entries[id]
  {
    RestartWakes(s, k);
    var t, w := ExecFrom(s, Restart(s, k)), AllWritten;
    var attempt := JobSteps(k, HandlerSteps(t.entries[k].task.value.job.details, true, NoClient, w));
    HandlerIsARun(t, k, true, NoClient, w);
    steps := Restart(s, k) + attempt;
    ExecFromConcat(s, Restart(s, k), attempt);
    TablesAgree(s, t);
    WaitingFollowsRows(s.entries, t.entries, s.created);
    var u := ExecFrom(s, steps);
    assert u.entries[k].row.status == JobFailed;
    var i :| 0 <= i < |Selected(s)| && Selected(s)[i] == k;
    assert WaitingIn(s.entries, s.created)[i] == k;
    WaitingShrinks(t.entries, u.entries, s.created, k);
  }

  /** A waiting job without a live task can be brought back into the queue: by a restart if it is
      listed, and otherwise after older jobs have been drained. */
  lemma {:induction false} Revives(s: State, id: Id) returns (steps: seq<Step>)
    requires id in s.entries && id in s.created && s.entries[id].row.status == Waiting && !Live(s.entries[id].task)
    ensures var t := ExecFrom(s, steps);
            && t.serving && id in t.entries && InPhase(t.entries[id], Idle)
            && t.entries[id] == s.entries[id].(task := t.entries[id].task)
    decreases |WaitingIn(s.entries, s.created)|
  {
    if id in Selected(s) {
      RestartWakes(s, id);
      steps := Restart(s, id);
    } else {
      WaitingAreListed(s.entries, s.created);
      var k := Selected(s)[0];
      SelectedAreWaiting(s, 0);
      var drain := DrainOne(s, k);
      var rest := Revives(ExecFrom(s, drain), id);
      steps := drain + rest;
      ExecFromConcat(s, drain, rest);
    }
  }

  /** From every state that is not stuck there is a way out. */
  lemma WayOut(s: State, id: Id)
    requires IsQueued(s, id) && id in s.created && !Stuck(s.entries[id])
    ensures !NeverLeaves(s, id)
  {
    var wake: seq<Step>;
    if Live(s.entries[id].task) {
      RestartWakes(s, id);
      wake := Restart(s, id);
    } else {
      wake := Revives(s, id);
    }
    var attempt := AttemptLeaves(ExecFrom(s, wake), id);
    ExecFromConcat(s, wake, attempt);
  }

  /** The exact limit of durability: after any run, a queued message can never leave the queue
      again, whatever happens, if and only if its row was written although its status was not, and
      its task is gone or archived. */
  lemma StuckForeverIff(steps: seq<Step>, id: Id)
    requires IsQueued(Exec(steps), id)
    ensures var e := Exec(steps).entries[id]; NeverLeaves(Exec(steps), id) <==> RowWritten(e.acts) && !Live(e.task)
  {
    var s := Exec(steps);
    RunKeeps(steps);
    RunKeepsCreated(steps);
    assert EntryOk(id, s.entries[id]);
    if Stuck(s.entries[id]) {
      forall more ensures IsQueued(ExecFrom(s, more), id) {
        StuckForever(steps, id, more);
      }
    } else {
      WayOut(s, id);
    }
  }

  // ---------------------------------------------------------------- runs that get there

  /** A request without a key, as it arrives. */
  function Keyless(id: Id, d: Details): Request {
    Request(Insert, id, None, d)
  }

  /** A message is sent to a new gateway: inserted and enqueued. */
  function SendRun(id: Id, d: Details): seq<Step> {
    Ready(0, Keyless(id, d)) + [Put(0, Done)] + [Enqueue(0, Done)]
  }

  lemma AfterSendRun(id: Id, d: Details)
    ensures var s := Exec(SendRun(id, d)); var r := Keyless(id, d);
            && s.serving && id in s.entries && s.created == [id]
            && s.entries == map[id := NewEntry(r).(task := Some(NewTask(JobOf(r))))]
  {
    var r := Keyless(id, d);
    QueuedIsARun(Initial, 0, r, Done);
    ExecIsFromInitial(SendRun(id, d));
  }

  /** One run of the handler after a run of the gateway. */
  lemma OneAttempt(steps: seq<Step>, id: Id, wait: bool, env: Surroundings, w: Writes)
    requires var s := Exec(steps); s.serving && id in s.entries && InPhase(s.entries[id], Idle)
    ensures var s := Exec(steps);
            Exec(steps + JobSteps(id, HandlerSteps(s.entries[id].task.value.job.details, wait, env, w)))
              == s.(entries := s.entries[id := Handled(s.entries[id], wait, env, w)])
  {
    var s := Exec(steps);
    HandlerIsARun(s, id, wait, env, w);
    ExecContinues(steps, JobSteps(id, HandlerSteps(s.entries[id].task.value.job.details, wait, env, w)));
  }

  /** WhatsApp answers with error 463. */
  const Timelocked := Surroundings(true, true, SendFailed(Upstream(true)))

  /** A text is sent, its only attempt meets error 463, and of the two store writes only that of the
      job succeeds: the message is queued for ever. */
  lemma LostWhileQueued(id: Id, d: Details)
    requires d.kind == PlainText
    ensures var steps := SendRun(id, d) + JobSteps(id, HandlerSteps(d, true, Timelocked, Writes(false, true)));
            && IsQueued(Exec(steps), id) && Exec(steps).entries[id].task.None?
            && Exec(steps).entries[id].row.status == JobFailed && NeverLeaves(Exec(steps), id)
  {
    AfterSendRun(id, d);
    OneAttempt(SendRun(id, d), id, true, Timelocked, Writes(false, true));
    var steps := SendRun(id, d) + JobSteps(id, HandlerSteps(d, true, Timelocked, Writes(false, true)));
    var acts := [] + FailActs(true, Writes(false, true));
    assert acts[2] == JobWritten(JobFailed);
    assert Exec(steps).entries[id].acts == acts;
    StuckForeverIff(steps, id);
  }

  /** n runs of the handler whose wait for the throttle fails. */
  function FailedWaits(id: Id, d: Details, n: nat): seq<Step> {
    if n == 0 then SendRun(id, d)
    else FailedWaits(id, d, n - 1) + JobSteps(id, HandlerSteps(d, false, NoClient, AllWritten))
  }

  lemma {:induction false} AfterFailedWaits(id: Id, d: Details, n: nat)
    requires n <= MAX_RETRY + 1
    ensures var s := Exec(FailedWaits(id, d, n)); var r := Keyless(id, d); var t := NewTask(JobOf(r));
            && s.serving && id in s.entries
            && s.entries[id] == NewEntry(r).(task :=
                 Some(if n <= MAX_RETRY then t.(retried := n) else t.(retried := MAX_RETRY, phase := Archived)))
  {
    if n == 0 {
      AfterSendRun(id, d);
    } else {
      AfterFailedWaits(id, d, n - 1);
      OneAttempt(FailedWaits(id, d, n - 1), id, false, NoClient, AllWritten);
    }
  }

  /** Four failed waits archive the task of a message that stays queued and whose row stays waiting;
      a crash and a full recovery meet the archived ID and leave the task in the archive. */
  lemma ArchivedWhileQueued(id: Id, d: Details)
    ensures var s := Exec(FailedWaits(id, d, 4)); var t := Recovered(Next(s, Crash({})));
            && IsQueued(s, id) && InPhase(s.entries[id], Archived) && s.entries[id].row.status == Waiting
            && IsQueued(t, id) && InPhase(t.entries[id], Archived)
  {
    var s := Exec(FailedWaits(id, d, 4));
    AfterFailedWaits(id, d, 4);
    CrashIs(s);
    RestartTask(Next(s, Crash({})), id);
  }
}
