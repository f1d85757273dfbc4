/** The worker daemon: one batch after the other, one job after the other, with the
    deferred recovery that turns a panic into a failure of the job. */
module Worker {
  import opened Text
  import opened Domain
  import opened Claims
  import opened Transactions
  import opened Store

  const BATCH_SIZE := 10

  /** What the world does to one job: the handler's reply and the fate of its two transactions. */
  datatype Luck = Luck(reply: Reply, completing: Fault, failing: Fault)

  /** Handling the claimed rows one by one. */
  function ProcessAll(db: Db, rows: seq<ClaimedJob>, registered: bool, luck: int -> Luck): Db
    decreases |rows|
  {
    if rows == [] then db
    else
      var l := luck(rows[0].id);
      ProcessAll(ProcessJob(db, rows[0], registered, l.reply, l.completing, l.failing), rows[1..], registered, luck)
  }

  class Daemon {
    const queue: Database
    const registered: bool

    constructor (queue: Database, registered: bool)
      ensures this.queue == queue && this.registered == registered
    {
      this.queue, this.registered := queue, registered;
    }

    method ProcessJobSafe(job: ClaimedJob, luck: Luck)
      requires luck.failing != WorkPanics
      modifies queue
      ensures queue.State()
           == ProcessJob(old(queue.State()), job, registered, luck.reply, luck.completing, luck.failing)
    {
      var report := Ok;
      match Dispatch(queue.State(), job.row.order, registered, luck.reply) {
        case Crashed(m) =>
          report := queue.Fail(job.id, m, luck.failing);
        case Refused(m) =>
          report := queue.Fail(job.id, m, luck.failing);
        case Hand(work) =>
          report := queue.Complete(job.id, work, luck.completing);
          if report != Ok {
            report := queue.Fail(job.id, CompletionPayload(report), luck.failing);
          }
      }
    }

    method ProcessBatch(claiming: Fault, luck: int -> Luck) returns (rows: seq<ClaimedJob>)
      requires claiming != WorkPanics
      requires forall id :: luck(id).failing != WorkPanics
      modifies queue
      ensures var (db, report) := ClaimTx(old(queue.State()), 10, claiming);
              queue.State() == ProcessAll(db, rows, registered, luck)
              && if report == Ok then RowsOf(rows, db.jobs, Claimed(old(queue.jobs), 10)) else rows == []
    {
      var report;
      rows, report := queue.ClaimBatch(BATCH_SIZE, claiming);
      if report != Ok {
        return [];
      }
      ghost var claimed := queue.State();
      for i := 0 to |rows|
        invariant ProcessAll(queue.State(), rows[i..], registered, luck) == ProcessAll(claimed, rows, registered, luck)
      {
        ProcessJobSafe(rows[i], luck(rows[i].id));
        assert rows[i..][1..] == rows[i + 1..];
      }
    }
  }
}
