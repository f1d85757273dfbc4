/** The daemon's code is the protocol: what ProcessJobSafe and ProcessBatch do to the
    database is what an uninterrupted run of one worker's protocol steps does. */
module DaemonSteps {
  import opened Text
  import opened Domain
  import opened Claims
  import opened Transactions
  import opened Store
  import opened Worker
  import opened Protocol

  /** The steps by which worker w handles its head. */
  function JobSteps(db: Db, job: ClaimedJob, w: int, l: Luck): seq<Step> {
    match Dispatch(db, job.row.order, true, l.reply)
    case Hand(work) =>
      if CompleteTx(db, job.id, work, l.completing).1 == Ok
      then [DispatchStep(w, l.reply), CompleteStep(w, l.completing)]
      else [DispatchStep(w, l.reply), CompleteStep(w, l.completing), FailStep(w, l.failing)]
    case _ => [DispatchStep(w, l.reply), FailStep(w, l.failing)]
  }

  lemma RunCons(s: World, step: Step, rest: seq<Step>)
    requires Enabled(s, step) && Runs(Next(s, step), rest)
    ensures Runs(s, [step] + rest) && After(s, [step] + rest) == After(Next(s, step), rest)
  {
    assert ([step] + rest)[1..] == rest;
  }

  lemma {:induction false} RunConcat(s: World, a: seq<Step>, b: seq<Step>)
    requires Runs(s, a) && Runs(After(s, a), b)
    ensures Runs(s, a + b) && After(s, a + b) == After(After(s, a), b)
    decreases |a|
  {
    if a == [] {
      assert a + b == b;
    } else {
      RunConcat(Next(s, a[0]), a[1..], b);
      assert (a + b)[1..] == a[1..] + b;
    }
  }

  /** The worker has dispatched its head and holds the work: it completes, and fails what did not complete. */
  lemma CompletionRuns(s: World, w: int, completing: Fault, failing: Fault)
    requires w in s.workers && s.workers[w].batch != [] && s.workers[w].phase.Completing? && failing != WorkPanics
    ensures var wk := s.workers[w];
            var (d, report) := CompleteTx(s.db, wk.batch[0].id, wk.phase.work, completing);
            var steps := if report == Ok then [CompleteStep(w, completing)] else [CompleteStep(w, completing), FailStep(w, failing)];
            && Runs(s, steps)
            && After(s, steps).db == (if report == Ok then d else FailTx(d, wk.batch[0].id, CompletionPayload(report), failing).0)
            && After(s, steps).workers == s.workers[w := Pop(wk)]
  {
    var complete, fail := CompleteStep(w, completing), FailStep(w, failing);
    var t := Next(s, complete);
    if CompleteTx(s.db, s.workers[w].batch[0].id, s.workers[w].phase.work, completing).1 == Ok {
      RunCons(s, complete, []);
    } else {
      RunCons(t, fail, []);
      RunCons(s, complete, [fail]);
      assert [complete] + [fail] == [complete, fail];
    }
  }

  lemma JobRuns(s: World, w: int, l: Luck)
    requires w in s.workers && s.workers[w].batch != [] && s.workers[w].phase == Ready && l.failing != WorkPanics
    ensures var job := s.workers[w].batch[0];
            var steps := JobSteps(s.db, job, w, l);
            && Runs(s, steps)
            && After(s, steps).db == ProcessJob(s.db, job, true, l.reply, l.completing, l.failing)
            && After(s, steps).workers == s.workers[w := Pop(s.workers[w])]
  {
    var job := s.workers[w].batch[0];
    var dispatch, fail := DispatchStep(w, l.reply), FailStep(w, l.failing);
    var s1 := Next(s, dispatch);
    match Dispatch(s.db, job.row.order, true, l.reply) {
      case Hand(work) =>
        CompletionRuns(s1, w, l.completing, l.failing);
        RunCons(s, dispatch, JobSteps(s.db, job, w, l)[1..]);
      case _ =>
        RunCons(s1, fail, []);
        RunCons(s, dispatch, [fail]);
    }
  }

  /** A whole batch. */
  lemma {:induction false} BatchRuns(s: World, w: int, luck: int -> Luck) returns (steps: seq<Step>)
    requires w in s.workers && s.workers[w].phase == Ready
    requires forall id :: luck(id).failing != WorkPanics
    ensures Runs(s, steps)
    ensures After(s, steps).db == ProcessAll(s.db, s.workers[w].batch, true, luck)
    ensures After(s, steps).workers == s.workers[w := Worker([], Ready)]
    decreases |s.workers[w].batch|
  {
    var batch := s.workers[w].batch;
    if batch == [] {
      steps := [];
      assert s.workers[w := Worker([], Ready)] == s.workers;
    } else {
      var first := JobSteps(s.db, batch[0], w, luck(batch[0].id));
      JobRuns(s, w, luck(batch[0].id));
      var t := After(s, first);
      var rest := BatchRuns(t, w, luck);
      RunConcat(s, first, rest);
      steps := first + rest;
    }
  }

  /** ProcessBatch of the wired daemon, as its contract states it, is a run of the
      protocol that starts with the claim and leaves the worker idle. */
  lemma ProcessBatchRuns(s: World, w: int, claiming: Fault, luck: int -> Luck, rows: seq<ClaimedJob>)
    returns (steps: seq<Step>)
    requires w in s.workers && s.workers[w].batch == [] && claiming != WorkPanics
    requires forall id :: luck(id).failing != WorkPanics
    requires Enabled(s, ClaimStep(w, BATCH_SIZE, rows, claiming))
    ensures Runs(s, steps)
    ensures var (db, report) := ClaimTx(s.db, BATCH_SIZE, claiming);
            After(s, steps).db == ProcessAll(db, if report == Ok then rows else [], true, luck)
    ensures After(s, steps).workers == s.workers[w := Worker([], Ready)]
  {
    var claim := ClaimStep(w, BATCH_SIZE, rows, claiming);
    var rest := BatchRuns(Next(s, claim), w, luck);
    RunCons(s, claim, rest);
    steps := [claim] + rest;
  }
}
