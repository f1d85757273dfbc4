/** Any number of workers on one queue, as a state machine: every transaction is one
    atomic step, steps of different workers interleave freely, and a log records
    what was committed. */
module Protocol {
  import opened Text
  import opened Domain
  import opened Claims
  import opened Transactions
  import opened Store

  /** Where a worker stands with the first job of its batch. */
  datatype Phase = Ready | Completing(work: Work) | FailingWith(payload: string)

  datatype Worker = Worker(batch: seq<ClaimedJob>, phase: Phase)

  /** What a committed transaction did to one job.  Enqueued names the job whose
      work asked for it, or 0 for a job from outside. */
  datatype Event =
    | Enqueued(id: int, parent: int)
    | Taken(id: int, worker: int)
    | Applied(id: int, work: Work)
    | Retried(id: int)
    | Died(id: int)

  datatype World = World(db: Db, workers: map<int, Worker>, log: seq<Event>)

  datatype Step =
    | ClaimStep(w: int, limit: int, rows: seq<ClaimedJob>, fault: Fault)
    | DispatchStep(w: int, reply: Reply)
    | CompleteStep(w: int, fault: Fault)
    | FailStep(w: int, fault: Fault)
    | AbandonStep(w: int)
    | OutsideStep(after: Db, js: seq<NewJob>)

  /** What ingestion and other clients may do meanwhile: enqueue jobs, add files,
      versions and junctions.  They touch no queued job, no feature and no summary. */
  predicate Outside(before: Db, after: Db, js: seq<NewJob>) {
    && after.jobs == InsertJobs(before, js).jobs && after.nextJob == InsertJobs(before, js).nextJob
    && after.deadLetters == before.deadLetters
    && after.features == before.features && after.nextFeature == before.nextFeature
    && before.junctions <= after.junctions
    && before.versions.Keys <= after.versions.Keys
    && forall v :: v in after.versions ==>
         after.versions[v].summary == if v in before.versions then before.versions[v].summary else None
  }

  predicate TakesEffect(body: Option<Db>, fault: Fault) {
    body.Some? && (fault == Clean || fault == CommitLost)
  }

  ghost predicate Enabled(s: World, step: Step) {
    match step
    case ClaimStep(w, limit, rows, fault) =>
      && w in s.workers && s.workers[w].batch == [] && fault != WorkPanics
      && RowsOf(rows, MarkProcessing(s.db, Claimed(s.db.jobs, limit)).jobs, Claimed(s.db.jobs, limit))
    case DispatchStep(w, _) => w in s.workers && s.workers[w].batch != [] && s.workers[w].phase.Ready?
    case CompleteStep(w, _) => w in s.workers && s.workers[w].batch != [] && s.workers[w].phase.Completing?
    case FailStep(w, fault) => w in s.workers && s.workers[w].batch != [] && s.workers[w].phase.FailingWith? && fault != WorkPanics
    case AbandonStep(w) => w in s.workers
    case OutsideStep(after, js) => Outside(s.db, after, js)
  }

  function TakenEvents(rows: seq<ClaimedJob>, w: int): seq<Event> {
    seq(|rows|, i requires 0 <= i < |rows| => Taken(rows[i].id, w))
  }

  function EnqueuedEvents(first: int, n: nat): seq<Event> {
    seq(n, i => Enqueued(first + i, 0))
  }

  /** What completing job id with the given work writes to the log. */
  function AppliedEvents(db: Db, id: int, work: Work): seq<Event> {
    if work.ParseWork? then [Applied(id, work), Enqueued(db.nextJob, id)] else [Applied(id, work)]
  }

  function FailEvent(db: Db, id: int): Event
    requires id in db.jobs
  {
    if db.jobs[id].retryCount >= MAX_RETRIES then Died(id) else Retried(id)
  }

  function Pop(wk: Worker): Worker
    requires wk.batch != []
  {
    Worker(wk.batch[1..], Ready)
  }

  function AfterDispatch(wk: Worker, d: Dispatched): Worker {
    match d
    case Hand(work) => wk.(phase := Completing(work))
    case Refused(m) => wk.(phase := FailingWith(m))
    case Crashed(m) => wk.(phase := FailingWith(m))
  }

  ghost function Next(s: World, step: Step): World
    requires Enabled(s, step)
  {
    match step
    case ClaimStep(w, limit, rows, fault) =>
      var (db, report) := ClaimTx(s.db, limit, fault);
      World(db,
            s.workers[w := Worker(if report == Ok then rows else [], Ready)],
            s.log + if TakesEffect(Some(db), fault) then TakenEvents(rows, w) else [])
    case DispatchStep(w, reply) =>
      var wk := s.workers[w];
      s.(workers := s.workers[w := AfterDispatch(wk, Dispatch(s.db, wk.batch[0].row.order, true, reply))])
    case CompleteStep(w, fault) =>
      var wk := s.workers[w];
      var id, work := wk.batch[0].id, wk.phase.work;
      var (db, report) := CompleteTx(s.db, id, work, fault);
      World(db,
            s.workers[w := if report == Ok then Pop(wk) else wk.(phase := FailingWith(CompletionPayload(report)))],
            s.log + if TakesEffect(CompleteBody(s.db, id, work), fault) then AppliedEvents(s.db, id, work) else [])
    case FailStep(w, fault) =>
      var wk := s.workers[w];
      var id := wk.batch[0].id;
      var (db, _) := FailTx(s.db, id, wk.phase.payload, fault);
      World(db,
            s.workers[w := Pop(wk)],
            s.log + if TakesEffect(FailBody(s.db, id, wk.phase.payload), fault) then [FailEvent(s.db, id)] else [])
    case AbandonStep(w) =>
      s.(workers := s.workers[w := Worker([], Ready)])
    case OutsideStep(after, js) =>
      World(after, s.workers, s.log + EnqueuedEvents(s.db.nextJob, |js|))
  }

  /** An empty queue, no features, idle workers, nothing logged. */
  ghost predicate Init(s: World) {
    && s.db.jobs == map[] && s.db.nextJob == 1 && s.db.deadLetters == []
    && s.db.features == map[] && s.db.nextFeature == 1
    && (forall v :: v in s.db.versions ==> s.db.versions[v].summary == None)
    && (forall w :: w in s.workers ==> s.workers[w] == Worker([], Ready))
    && s.log == []
  }

  /** steps leads from s through enabled steps only. */
  ghost predicate Runs(s: World, steps: seq<Step>)
    decreases |steps|
  {
    steps == [] || (Enabled(s, steps[0]) && Runs(Next(s, steps[0]), steps[1..]))
  }

  /** No step of the run is from outside the workers. */
  predicate Undisturbed(steps: seq<Step>) {
    forall k :: 0 <= k < |steps| ==> !steps[k].OutsideStep?
  }

  ghost function After(s: World, steps: seq<Step>): World
    requires Runs(s, steps)
    decreases |steps|
  {
    if steps == [] then s else After(Next(s, steps[0]), steps[1..])
  }
}
