/** What the queue's transactions do to the database value: the transaction wrapper,
    the work a handler hands over, and the bodies of Claim, Complete, Fail and Enqueue. */
module Transactions {
  import opened Text
  import opened Domain
  import opened Claims

  // ---------- txn.Immediate ----------

  /** What can go wrong around or inside a transaction.  CommitLost is a commit that
      takes effect but is reported as an error. */
  datatype Fault = Clean | BeginFails | StatementFails | WorkPanics | CommitFails | CommitLost

  /** What the caller of the transaction sees. */
  datatype Report = Ok | Err | Panic

  /** Commit on success, roll back on error or panic, pass the panic on.
      A body that ends in an error is None. */
  function Immediate(db: Db, body: Option<Db>, fault: Fault): (r: (Db, Report))
    ensures r.0 == db || body == Some(r.0)
    ensures r.1 == Ok ==> body == Some(r.0)
    ensures r.1 == Panic ==> r.0 == db
  {
    match fault
    case BeginFails | StatementFails => (db, Err)
    case WorkPanics => (db, Panic)
    case _ =>
      match body
      case None => (db, Err)
      case Some(d) =>
        match fault
        case CommitFails => (db, Err)
        case CommitLost => (d, Err)
        case _ => (d, Ok)
  }

  // ---------- the work of a PARSE job ----------

  datatype FeatureText = FeatureText(name: string, description: string)

  /** The TxFunc a handler returns; ParseWork carries what the closure captured. */
  datatype Work = NoWork | ParseWork(projectId: int, versionId: int, summary: string, features: seq<FeatureText>)

  function FeatureRow(projectId: int, t: FeatureText): Feature {
    Feature(projectId, t.name, t.description)
  }

  /** The feature loop: a duplicate name or an unknown version ends it with an error. */
  function AddFeatures(db: Db, projectId: int, versionId: int, texts: seq<FeatureText>): Option<Db>
    decreases |texts|
  {
    if texts == [] then Some(db)
    else if FeatureNameTaken(db, FeatureRow(projectId, texts[0])) || versionId !in db.versions then None
    else
      var d := AddJunction(InsertFeature(db, FeatureRow(projectId, texts[0])), versionId, db.nextFeature);
      AddFeatures(d, projectId, versionId, texts[1..])
  }

  function Downstream(projectId: int, versionId: int): NewJob {
    NewJob(projectId, versionId, "FILE_VERSION", ANALYZE_STYLE, 5)
  }

  function DoWork(db: Db, work: Work): Option<Db> {
    match work
    case NoWork => Some(db)
    case ParseWork(p, v, summary, texts) =>
      match AddFeatures(UpdateSummary(db, v, summary), p, v, texts)
      case None => None
      case Some(d) => Some(InsertJob(d, Downstream(p, v)))
  }

  // ---------- the four queue operations ----------

  ghost function ClaimTx(db: Db, limit: int, fault: Fault): (Db, Report) {
    Immediate(db, Some(MarkProcessing(db, Claimed(db.jobs, limit))), fault)
  }

  function CompleteBody(db: Db, id: int, work: Work): Option<Db> {
    match DoWork(db, work)
    case None => None
    case Some(d) => Some(DeleteJob(d, id))
  }

  function CompleteTx(db: Db, id: int, work: Work, fault: Fault): (Db, Report) {
    Immediate(db, CompleteBody(db, id, work), fault)
  }

  /** A fourth failure parks the job; a missing row is an error. */
  function FailBody(db: Db, id: int, payload: string): Option<Db> {
    if id !in db.jobs then None
    else if db.jobs[id].retryCount >= MAX_RETRIES then Some(UpdateStatus(InsertDeadLetter(db, id, payload), id, Failed))
    else Some(Retry(db, id))
  }

  function FailTx(db: Db, id: int, payload: string, fault: Fault): (Db, Report) {
    Immediate(db, FailBody(db, id, payload), fault)
  }

  function EnqueueTx(db: Db, js: seq<NewJob>, fault: Fault): (Db, Report) {
    Immediate(db, Some(InsertJobs(db, js)), fault)
  }

  // ---------- dispatching ----------

  /** What the handler's reads, prompt, LLM call and JSON parsing come to. */
  datatype Reply = Parsed(summary: string, features: seq<FeatureText>) | HandlerError(message: string) | HandlerPanics(message: string)

  datatype Dispatched = Hand(work: Work) | Refused(error: string) | Crashed(message: string)

  /** The wired dispatcher: PARSE goes to the parse handler, any other stage is refused. */
  function Dispatch(db: Db, order: NewJob, registered: bool, reply: Reply): Dispatched {
    if order.stage == PARSE then
      if !registered then Refused("no handler registered for stage: " + order.stage)
      else if order.targetId !in db.versions then Refused("failed to get file version: not found")
      else
        match reply
        case Parsed(summary, texts) => Hand(ParseWork(order.projectId, order.targetId, summary, texts))
        case HandlerError(m) => Refused(m)
        case HandlerPanics(m) => Crashed("panic: " + m)
    else Refused("unknown job stage: " + order.stage)
  }

  /** One job handled without interruption: dispatch, complete, and fail whatever did not complete. */
  function ProcessJob(db: Db, job: ClaimedJob, registered: bool, reply: Reply, completing: Fault, failing: Fault): Db {
    match Dispatch(db, job.row.order, registered, reply)
    case Refused(m) => FailTx(db, job.id, m, failing).0
    case Crashed(m) => FailTx(db, job.id, m, failing).0
    case Hand(work) =>
      var (d, report) := CompleteTx(db, job.id, work, completing);
      if report == Ok then d else FailTx(d, job.id, CompletionPayload(report), failing).0
  }

  function CompletionPayload(report: Report): string {
    if report == Panic then "panic: " else "completion error: "
  }
}
