/** Message jobs: their JSON forms, the task queue, and recovery from the queue_jobs table
    (internal/queue/queue.go:17-100, internal/store/memory.go:13-22, 288-329). */
module Jobs {
  import opened Common

  /** The message type: text, image, document, pdf, or any other string. */
  datatype Kind = PlainText | Image | Document | Pdf | Other(name: string)

  /** The fields of a message that its job carries, besides the message ID. */
  datatype Details = Details(sessionId: string, to: string, kind: Kind, content: string, url: string,
                             filename: string, mimeType: string, priority: int, delay: int)

  /** Message IDs are UUIDs; the ID of a job is that of its message. */
  datatype Id = Uuid(bits: nat)

  datatype MessageJob = MessageJob(messageId: Id, details: Details)

  // ---------------------------------------------------------------- JSON forms

  /** The JSON keys of a job. */
  datatype Field = MessageId | SessionId | To | Type | Content | Url | Filename | MimeType | Priority | Delay

  /** A JSON value; an ID is a string that reads as a UUID, and a type name one that reads as a Kind. */
  datatype Value = Text(text: string) | Number(number: int) | Identifier(id: Id) | TypeName(kind: Kind)

  /** A JSON object, as far as a job reads it. */
  type Json = map<Field, Value>

  const Fields: set<Field> := {MessageId, SessionId, To, Type, Content, Url, Filename, MimeType, Priority, Delay}

  function ValueOf(job: MessageJob, f: Field): Value {
    match f
    case MessageId => Identifier(job.messageId)
    case SessionId => Text(job.details.sessionId)
    case To => Text(job.details.to)
    case Type => TypeName(job.details.kind)
    case Content => Text(job.details.content)
    case Url => Text(job.details.url)
    case Filename => Text(job.details.filename)
    case MimeType => Text(job.details.mimeType)
    case Priority => Number(job.details.priority)
    case Delay => Number(job.details.delay)
  }

  /** The zero value of a field. */
  function Zero(f: Field): Value {
    match f
    case MessageId => Identifier(Uuid(0))
    case Type => TypeName(Other(""))
    case Priority | Delay => Number(0)
    case _ => Text("")
  }

  predicate SameType(a: Value, b: Value) {
    a.Text? == b.Text? && a.Number? == b.Number? && a.Identifier? == b.Identifier?
  }

  /** json.Marshal of a MessageJob: six fields have omitempty. */
  function Encode(job: MessageJob): Json {
    map f | f in Fields && (f in {MessageId, SessionId, To, Type} || ValueOf(job, f) != Zero(f)) :: ValueOf(job, f)
  }

  /** The jsonb_build_object that PutMessage stores in queue_jobs.data: all ten fields. */
  function Persist(job: MessageJob): Json {
    map f | f in Fields :: ValueOf(job, f)
  }

  function Read(o: Json, f: Field): Value {
    if f in o then o[f] else Zero(f)
  }

  predicate WellTyped(o: Json) {
    forall f <- o :: SameType(o[f], Zero(f))
  }

  /** json.Unmarshal into a MessageJob: missing fields become zero, a wrong type is an error. */
  function Decode(o: Json): Option<MessageJob> {
    if !WellTyped(o) then None
    else Some(MessageJob(Read(o, MessageId).id,
                         Details(Read(o, SessionId).text, Read(o, To).text, Read(o, Type).kind,
                                 Read(o, Content).text, Read(o, Url).text, Read(o, Filename).text,
                                 Read(o, MimeType).text, Read(o, Priority).number, Read(o, Delay).number)))
  }

  /** An object that answers every field of a job decodes to that job. */
  lemma DecodeReads(o: Json, job: MessageJob)
    requires forall f: Field :: Read(o, f) == ValueOf(job, f)
    ensures Decode(o) == Some(job)
  {
    forall f | f in o ensures SameType(o[f], Zero(f)) {
      assert Read(o, f) == ValueOf(job, f);
    }
  }

  lemma EveryField(f: Field)
    ensures f in Fields
  {
    match f
    case MessageId | SessionId | To | Type | Content =>
    case Url | Filename | MimeType | Priority | Delay =>
  }

  /** Both JSON forms of a job decode to the job: a recovered job is the live one. */
  lemma DecodeInverts(job: MessageJob)
    ensures Decode(Encode(job)) == Some(job)
    ensures Decode(Persist(job)) == Some(job)
  {
    forall f: Field ensures Read(Encode(job), f) == ValueOf(job, f) && Read(Persist(job), f) == ValueOf(job, f) {
      EveryField(f);
    }
    DecodeReads(Encode(job), job);
    DecodeReads(Persist(job), job);
  }

  /** A row decodes exactly when every field it has is of the right type; a missing field is zero. */
  lemma DecodeIff(o: Json)
    ensures Decode(o).Some? <==>
            forall f <- o :: match f
                             case MessageId => o[f].Identifier?
                             case Type => o[f].TypeName?
                             case Priority | Delay => o[f].Number?
                             case _ => o[f].Text?
  {
  }

  lemma DecodedField(o: Json, f: Field)
    requires Decode(o).Some?
    ensures ValueOf(Decode(o).value, f) == if f in o then o[f] else Zero(f)
  {
  }

  lemma NothingDecodes()
    ensures Decode(map[]) == Some(MessageJob(Uuid(0), Details("", "", Other(""), "", "", "", "", 0, 0)))
  {
  }

  /** The live form leaves out exactly the six optional fields that are zero, the stored form nothing. */
  lemma FieldsOf(job: MessageJob, f: Field)
    ensures f in Persist(job)
    ensures f in Encode(job) <==>
            match f
            case Content => job.details.content != ""
            case Url => job.details.url != ""
            case Filename => job.details.filename != ""
            case MimeType => job.details.mimeType != ""
            case Priority => job.details.priority != 0
            case Delay => job.details.delay != 0
            case _ => true
  {
    EveryField(f);
  }

  // ---------------------------------------------------------------- the task queue

  /** The queues named messages_high, messages and messages_low. */
  datatype Queue = MessagesHigh | Messages | MessagesLow

  /** queueName, as defined alike in the queue and in the store. */
  function QueueName(priority: int): Queue {
    if priority > 0 then MessagesHigh else if priority < 0 then MessagesLow else Messages
  }

  const MAX_RETRY: nat := 3

  /** Where a stored task stands. Between Idle and its end a handler runs it: Started until the
      throttle lets it through, then Failing or Sending with `at` actions of that path done.
      A task that used up its retries is kept in the archive. */
  datatype Phase = Idle | Started | Failing(at: nat, timelock: bool) | Sending(at: nat) | Archived

  /** A stored task; its payload is Encode(job). */
  datatype Task = Task(job: MessageJob, queue: Queue, delayMs: int, retried: nat, phase: Phase)

  type Tasks = map<Id, Task>

  /** The task Enqueue submits. */
  function NewTask(job: MessageJob): Task {
    Task(job, QueueName(job.details.priority), Max(job.details.delay, 0), 0, Idle)
  }

  /** A fresh task of the job: in the high queue for a positive priority, in the low one for a negative,
      delayed by a positive delay, and never retried. */
  predicate Submitted(job: MessageJob, t: Task) {
    && t.job == job && t.retried == 0 && t.phase == Idle
    && (t.queue == MessagesHigh <==> job.details.priority > 0)
    && (t.queue == MessagesLow <==> job.details.priority < 0)
    && (job.details.delay >= 0 ==> t.delayMs == job.details.delay)
    && (job.details.delay < 0 ==> t.delayMs == 0)
  }

  lemma NewTaskIsSubmitted(job: MessageJob)
    ensures Submitted(job, NewTask(job))
  {
  }

  datatype Submission = Accepted | Conflict | Unavailable

  /** A row that ListPendingQueueJobs returns. */
  datatype PendingJob = PendingJob(jobId: Id, data: Json)

  /** Recovery of one row, when Redis answers. */
  function RecoverOne(tasks: Tasks, p: PendingJob): Tasks {
    var job := Decode(p.data);
    if job.None? || p.jobId in tasks then tasks else tasks[p.jobId := NewTask(job.value)]
  }

  function RecoverAll(tasks: Tasks, jobs: seq<PendingJob>): Tasks {
    if jobs == [] then tasks else RecoverOne(RecoverAll(tasks, jobs[..|jobs| - 1]), jobs[|jobs| - 1])
  }

  predicate Decodable(jobs: seq<PendingJob>) {
    forall i | 0 <= i < |jobs| :: Decode(jobs[i].data).Some?
  }

  class TaskQueue {
    var tasks: Tasks

    constructor ()
      ensures tasks == map[]
    {
      tasks := map[];
    }

    /** Enqueue; `up` says whether Redis answers. Task IDs are unique among all stored tasks. */
    method Enqueue(job: MessageJob, jobId: Id, up: bool) returns (r: Submission)
      modifies this
      ensures r.Unavailable? <==> !up
      ensures r.Conflict? <==> up && jobId in old(tasks)
      ensures tasks == if r.Accepted? then old(tasks)[jobId := NewTask(job)] else old(tasks)
      ensures r.Accepted? ==> jobId in tasks && Submitted(job, tasks[jobId])
    {
      if !up {
        return Unavailable;
      }
      if jobId in tasks {
        return Conflict;
      }
      var delay := 0;
      if job.details.delay > 0 {
        delay := job.details.delay;
      }
      tasks := tasks[jobId := Task(job, QueueName(job.details.priority), delay, 0, Idle)];
      return Accepted;
    }

    /** The body of the Recover loop: an ID conflict counts as success. */
    method RecoverRow(p: PendingJob, up: bool) returns (ok: bool)
      modifies this
      ensures ok <==> Decode(p.data).Some? && up
      ensures tasks == if ok then RecoverOne(old(tasks), p) else old(tasks)
    {
      var job := Decode(p.data);
      if job.None? {
        return false;
      }
      var r := Enqueue(job.value, p.jobId, up);
      return !r.Unavailable?;
    }

    /** Recover; Redis stops answering at row `outage`, if there is such a row. The first `done`
        rows have been dealt with. */
    method Recover(jobs: seq<PendingJob>, outage: Option<nat>) returns (ok: bool, ghost done: nat)
      modifies this
      ensures done <= |jobs| && (ok <==> done == |jobs|)
      ensures !ok ==> outage == Some(done) || Decode(jobs[done].data).None?
      ensures tasks == RecoverAll(old(tasks), jobs[..done])
    {
      ok, done := true, 0;
      var i := 0;
      while i < |jobs| && ok
        invariant done <= i <= |jobs| && (ok ==> done == i) && (!ok ==> done < |jobs|)
        invariant !ok ==> outage == Some(done) || Decode(jobs[done].data).None?
        invariant tasks == RecoverAll(old(tasks), jobs[..done])
      {
        ok := RecoverRow(jobs[i], outage != Some(i));
        if ok {
          RecoverRound(old(tasks), jobs, i);
          done := i + 1;
        }
        i := i + 1;
      }
    }
  }

  // ---------------------------------------------------------------- what recovery does

  lemma RecoverRound(tasks: Tasks, jobs: seq<PendingJob>, i: nat)
    requires i < |jobs|
    ensures RecoverAll(tasks, jobs[..i + 1]) == RecoverOne(RecoverAll(tasks, jobs[..i]), jobs[i])
  {
    assert jobs[..i + 1][..i] == jobs[..i];
  }

  /** The first row listed for a job. */
  function Listed(jobs: seq<PendingJob>, id: Id): Option<PendingJob> {
    if jobs == [] then None
    else
      var earlier := Listed(jobs[..|jobs| - 1], id);
      if earlier.Some? then earlier
      else if jobs[|jobs| - 1].jobId == id then Some(jobs[|jobs| - 1]) else None
  }

  /** The task stored under an ID, if any. */
  function Stored(tasks: Tasks, id: Id): Option<Task> {
    if id in tasks then Some(tasks[id]) else None
  }

  lemma {:induction false} ListedIsThere(jobs: seq<PendingJob>, id: Id)
    ensures Listed(jobs, id).Some? ==> Listed(jobs, id).value in jobs && Listed(jobs, id).value.jobId == id
    ensures forall i | 0 <= i < |jobs| && jobs[i].jobId == id :: Listed(jobs, id).Some?
  {
    if jobs != [] {
      ListedIsThere(jobs[..|jobs| - 1], id);
    }
  }

  /** A full recovery keeps every stored task, adds exactly one fresh task for each listed job that
      had none, and nothing else. */
  lemma {:induction false} RecoverAddsMissing(tasks: Tasks, jobs: seq<PendingJob>, id: Id)
    requires Decodable(jobs)
    ensures Stored(RecoverAll(tasks, jobs), id) ==
            if id in tasks then Some(tasks[id])
            else if Listed(jobs, id).Some? then
              ListedIsThere(jobs, id);
              Some(NewTask(Decode(Listed(jobs, id).value.data).value))
            else None
  {
    if jobs != [] {
      RecoverAddsMissing(tasks, jobs[..|jobs| - 1], id);
      ListedIsThere(jobs[..|jobs| - 1], id);
    }
  }

  lemma {:induction false} RecoverNothing(tasks: Tasks, jobs: seq<PendingJob>)
    requires forall i | 0 <= i < |jobs| :: jobs[i].jobId in tasks
    ensures RecoverAll(tasks, jobs) == tasks
  {
    if jobs != [] {
      RecoverNothing(tasks, jobs[..|jobs| - 1]);
    }
  }

  /** Running Recover again leaves the queue unchanged. */
  lemma RecoverTwice(tasks: Tasks, jobs: seq<PendingJob>)
    requires Decodable(jobs)
    ensures RecoverAll(RecoverAll(tasks, jobs), jobs) == RecoverAll(tasks, jobs)
  {
    forall i | 0 <= i < |jobs| ensures jobs[i].jobId in RecoverAll(tasks, jobs) {
      RecoverAddsMissing(tasks, jobs, jobs[i].jobId);
      ListedIsThere(jobs, jobs[i].jobId);
    }
    RecoverNothing(RecoverAll(tasks, jobs), jobs);
  }

  /** Fidelity: the task recovered from the persisted row is the one submitted live, and it goes to
      the queue the row names. */
  lemma RecoveredTaskIsLive(tasks: Tasks, job: MessageJob)
    requires job.messageId !in tasks
    ensures RecoverOne(tasks, PendingJob(job.messageId, Persist(job))) == tasks[job.messageId := NewTask(job)]
    ensures Decode(Encode(NewTask(job).job)) == Some(job)
    ensures NewTask(job).queue == QueueName(job.details.priority) && Submitted(job, NewTask(job))
  {
    DecodeInverts(job);
  }

  /** What resendMessage copies of a message: not the media fields, nor priority and delay. */
  function Resent(d: Details): Details {
    Details(d.sessionId, d.to, d.kind, d.content, "", "", "", 0, 0)
  }

  /** A resend is a text of the same content to the same recipient, and the whole original exactly when
      that has no media fields, priority or delay. */
  lemma ResentIsOriginalIff(d: Details)
    ensures var r := Resent(d);
            && r.sessionId == d.sessionId && r.to == d.to && r.kind == d.kind && r.content == d.content
            && (r == d <==> d.url == "" && d.filename == "" && d.mimeType == "" && d.priority == 0 && d.delay == 0)
  {
  }

  // ---------------------------------------------------------------- one delivery attempt

  datatype SendError =
    | ClientUnavailable
    | MediaUrlRequired
    | MediaUnsupported
    | UnsupportedType
    | Upstream(timelock: bool)

  datatype SendResult = SentAs(waId: string) | SendFailed(error: SendError)

  /** What a delivery attempt meets: whether the session has a client, whether it can send media,
      and what WhatsApp answers. */
  datatype Surroundings = Surroundings(client: bool, media: bool, answer: SendResult)

  predicate IsMedia(kind: Kind) {
    kind == Image || kind == Document || kind == Pdf
  }

  /** strings.TrimSpace leaves nothing. */
  predicate Blank(s: string) {
    forall c <- s ::
      || '\t' <= c <= '\r' || c == ' ' || c == '\U{85}' || c == '\U{A0}' || c == '\U{1680}'
      || '\U{2000}' <= c <= '\U{200A}' || '\U{2028}' <= c <= '\U{2029}'
      || c == '\U{202F}' || c == '\U{205F}' || c == '\U{3000}'
  }

  /** Which single characters count as white space there. */
  lemma BlankCharacters(c: char)
    ensures Blank([c]) <==>
            c in {'\t', '\n', '\U{0B}', '\U{0C}', '\r', ' ', '\U{85}', '\U{A0}', '\U{1680}', '\U{2000}', '\U{2001}',
                  '\U{2002}', '\U{2003}', '\U{2004}', '\U{2005}', '\U{2006}', '\U{2007}', '\U{2008}', '\U{2009}',
                  '\U{200A}', '\U{2028}', '\U{2029}', '\U{202F}', '\U{205F}', '\U{3000}'}
  {
    assert c in [c];
  }

  /** A text is blank when all its characters are. */
  lemma BlankConcat(a: string, b: string)
    ensures Blank("") && (Blank(a + b) <==> Blank(a) && Blank(b))
  {
    assert forall c <- a :: c in a + b;
    assert forall c <- b :: c in a + b;
  }

  /** The switch of the worker handler. */
  function Deliver(d: Details, env: Surroundings): SendResult {
    if !env.client then SendFailed(ClientUnavailable)
    else if d.kind == PlainText then env.answer
    else if IsMedia(d.kind) then
      if Blank(d.url) then SendFailed(MediaUrlRequired)
      else if !env.media then SendFailed(MediaUnsupported)
      else env.answer
    else SendFailed(UnsupportedType)
  }

  /** A text, or media with a URL. */
  predicate Sendable(d: Details) {
    d.kind == PlainText || (IsMedia(d.kind) && !Blank(d.url))
  }

  /** Surroundings in which nothing stands in the way. */
  const Favourable := Surroundings(true, true, SentAs(""))

  lemma SendableDelivers(d: Details, env: Surroundings)
    ensures Deliver(d, env).SentAs? ==> Sendable(d)
    ensures Sendable(d) ==> Deliver(d, Favourable).SentAs?
  {
  }

  /** A message can be delivered at all exactly when it is a text, or media with a URL. */
  lemma DeliverableIff(d: Details)
    ensures (exists env :: Deliver(d, env).SentAs?) <==> Sendable(d)
  {
    SendableDelivers(d, Favourable);
    forall env ensures Deliver(d, env).SentAs? ==> Sendable(d) {
      SendableDelivers(d, env);
    }
  }

  /** A resent message behaves as the original in all surroundings exactly when there was no URL to
      lose; and it can be delivered at all exactly when it is a text. */
  lemma ResendIff(d: Details)
    ensures (forall env :: Deliver(Resent(d), env) == Deliver(d, env)) <==> !IsMedia(d.kind) || Blank(d.url)
    ensures (exists env :: Deliver(Resent(d), env).SentAs?) <==> d.kind == PlainText
  {
    DeliverableIff(Resent(d));
    if IsMedia(d.kind) && !Blank(d.url) {
      assert Deliver(Resent(d), Favourable) != Deliver(d, Favourable);
    }
  }
}
