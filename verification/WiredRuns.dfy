/** The program as it is wired: ingestion is the only source of jobs, all of them for a stage
    that the dispatcher does not know.  From empty tables on no work is ever stored, and a
    job can only end as a dead letter. */
module WiredRuns {
  import opened Text
  import opened Domain
  import opened Claims
  import opened Transactions
  import opened Protocol
  import opened Ingest
  import opened IngestLaws
  import opened MixedRuns
  import IngestRuns
  import LifeCycle
  import Ownership

  /** Every job ever issued has its row and is a level-1 job, and no work has been stored. */
  ghost predicate OverviewsOnly(db: Db) {
    && (forall id :: id in db.jobs <==> 1 <= id < db.nextJob)
    && (forall id :: id in db.jobs ==> db.jobs[id].order.stage == LEVEL_1_OVERVIEW)
    && db.features == map[] && db.junctions == {}
    && (forall v :: v in db.versions ==> db.versions[v].summary == None)
  }

  /** Empty tables, idle workers, nothing logged. */
  ghost predicate Empty(s: World) {
    && Init(s) && s.db.files == map[] && s.db.nextFile == 1
    && s.db.versions == map[] && s.db.nextVersion == 1 && s.db.junctions == {}
  }

  // ---------- the workers ----------

  lemma HeldIsOverview(s: World, w: int)
    requires Ownership.Inv(s) && OverviewsOnly(s.db) && w in s.workers && s.workers[w].batch != []
    ensures s.workers[w].batch[0].row.order.stage == LEVEL_1_OVERVIEW && !s.workers[w].phase.Completing?
  {
    assert Ownership.WorkerOk(s.db, s.workers[w]);
    assert LEVEL_1_OVERVIEW[0] != PARSE[0];
  }

  /** Whatever the reply would have been: the handler is not called. */
  lemma DispatchRefused(s: World, w: int, reply: Reply)
    requires Ownership.Inv(s) && OverviewsOnly(s.db) && Enabled(s, DispatchStep(w, reply))
    ensures Next(s, DispatchStep(w, reply)).workers[w].phase == FailingWith("unknown job stage: level_1_overview")
  {
    HeldIsOverview(s, w);
    assert LEVEL_1_OVERVIEW[0] != PARSE[0];
    assert "unknown job stage: " + LEVEL_1_OVERVIEW == "unknown job stage: level_1_overview";
  }

  lemma WorkKeeps(s: World, step: Step)
    requires Ownership.Inv(s) && OverviewsOnly(s.db) && Enabled(s, step) && !step.OutsideStep?
    ensures !step.CompleteStep?
    ensures OverviewsOnly(Next(s, step).db) && Next(s, step).db.nextJob == s.db.nextJob
  {
    if step.CompleteStep? {
      HeldIsOverview(s, step.w);
    }
  }

  // ---------- ingestion ----------

  lemma CallKeeps(db: Db, projectId: int, call: Call)
    requires IngestInv(db) && Ownership.RowsOk(db) && OverviewsOnly(db)
    ensures OverviewsOnly(ProcessFile(db, projectId, call).0)
  {
    if IngestRuns.Commits(call) {
      var f := File(projectId, call.path);
      var c := GetOrCreate(db, f);
      GetOrCreateOk(db, f);
      assert forall id :: id in c.jobs ==> Ownership.RowOk(db, id) && Ownership.RowOk(c, id);
      BodyKeeps(c, projectId, FileId(c, f), call.content, StructuralHash(call.path, call.content));
    } else {
      IngestRuns.UncommittedCall(db, projectId, call);
    }
  }

  lemma BodyKeeps(db: Db, projectId: int, fileId: int, content: string, hash: Digest)
    requires VersionsOk(db) && Ownership.RowsOk(db) && OverviewsOnly(db) && hash != NoDigest
    ensures VersionBody(db, projectId, fileId, content, hash).Some?
    ensures OverviewsOnly(VersionBody(db, projectId, fileId, content, hash).value)
  {
    IngestRuns.BodyLeaves(db, projectId, fileId, content, hash);
    BodyJobs(db, projectId, fileId, content, hash);
    IngestRuns.NothingToReset(db, LatestId(db, fileId));
    BodyFeatures(db, projectId, fileId, content, hash, 0);
    assert FeaturesOf(db, LatestId(db, fileId)) == {};
    assert Cloned(db, LatestId(db, fileId), db.nextVersion) == {};
  }

  // ---------- whole runs ----------

  lemma ChangesStep(ms: seq<Move>, known: map<string, string>)
    requires ms != []
    ensures IngestRuns.Changes(known, Calls(ms))
            == if ms[0].IngestFile?
               then (if IngestRuns.StructuralChange(known, ms[0].call) then 1 else 0)
                    + IngestRuns.Changes(IngestRuns.Known(known, ms[0].call), Calls(ms[1..]))
               else IngestRuns.Changes(known, Calls(ms[1..]))
  {
    if ms[0].IngestFile? {
      assert Calls(ms)[1..] == Calls(ms[1..]);
    } else {
      assert Calls(ms) == Calls(ms[1..]);
    }
  }

  lemma MoveKeepsOverviews(s: World, projectId: int, m: Move, known: map<string, string>)
    requires Ownership.Inv(s) && IngestInv(s.db) && IngestRuns.Shows(s.db, projectId, known)
    requires CanMove(s, m) && OverviewsOnly(s.db)
    ensures var t := Moved(s, projectId, m);
            && OverviewsOnly(t.db)
            && t.db.nextJob == s.db.nextJob + if m.IngestFile? && IngestRuns.StructuralChange(known, m.call) then 1 else 0
  {
    match m
    case Work(step) => WorkKeeps(s, step);
    case IngestFile(call) =>
      CallKeeps(s.db, projectId, call);
      IngestRuns.CallRefines(s.db, projectId, known, call);
  }

  lemma {:induction false} RunKeepsOverviews(s: World, projectId: int, ms: seq<Move>, known: map<string, string>)
    requires Ownership.Inv(s) && IngestInv(s.db) && IngestRuns.Shows(s.db, projectId, known)
    requires CanRun(s, projectId, ms) && OverviewsOnly(s.db)
    ensures var t := Ran(s, projectId, ms);
            OverviewsOnly(t.db) && t.db.nextJob == s.db.nextJob + IngestRuns.Changes(known, Calls(ms))
    decreases |ms|
  {
    if ms != [] {
      MoveKeepsOverviews(s, projectId, ms[0], known);
      var step := MoveKeeps(s, projectId, ms[0], known);
      var next := if ms[0].IngestFile? then IngestRuns.Known(known, ms[0].call) else known;
      RunKeepsOverviews(Moved(s, projectId, ms[0]), projectId, ms[1..], next);
      ChangesStep(ms, known);
    }
  }

  lemma EmptyIsReady(s: World, projectId: int)
    requires Empty(s)
    ensures Ownership.Inv(s) && IngestInv(s.db) && IngestRuns.Shows(s.db, projectId, map[]) && OverviewsOnly(s.db)
  {
    IngestRuns.FreshDatabase(s.db, projectId);
  }

  /** From empty tables on, over any interleaving of workers and ingestion: there is one job per
      structural change, all of level 1 and all still in the table, and no feature, link or
      summary is ever stored. */
  lemma NothingStored(s: World, projectId: int, ms: seq<Move>)
    requires Empty(s) && CanRun(s, projectId, ms)
    ensures var db := Ran(s, projectId, ms).db;
            && OverviewsOnly(db)
            && db.nextJob == 1 + IngestRuns.Changes(map[], Calls(ms))
  {
    EmptyIsReady(s, projectId);
    RunKeepsOverviews(s, projectId, ms, map[]);
  }

  /** How a job stands after n failures: never applied, waiting, running, or dead after four claims. */
  predicate OverviewFate(t: World, id: int)
    requires id in t.db.jobs
  {
    var row := t.db.jobs[id];
    var letters := LifeCycle.DeadLettersOf(t.db.deadLetters, id);
    && 0 <= row.retryCount <= 3
    && match row.status
       case Pending => letters == 0 && LifeCycle.CountsAre(t.log, id, row.retryCount, 0, row.retryCount, 0)
       case Processing => letters == 0 && LifeCycle.CountsAre(t.log, id, row.retryCount + 1, 0, row.retryCount, 0)
       case Failed => letters == 1 && LifeCycle.CountsAre(t.log, id, 4, 0, 3, 1)
       case _ => false
  }

  /** The job of every structural change is on its way, or failed with one dead letter after four
      claims; and no id has ever been applied. */
  lemma EveryJobFails(s: World, projectId: int, ms: seq<Move>, id: int)
    requires Empty(s) && CanRun(s, projectId, ms)
    ensures var t := Ran(s, projectId, ms);
            && LifeCycle.Count(t.log, LifeCycle.AppliedKind, id) == 0
            && (id in t.db.jobs <==> 1 <= id <= IngestRuns.Changes(map[], Calls(ms)))
            && (id in t.db.jobs ==> OverviewFate(t, id))
  {
    EmptyIsReady(s, projectId);
    NothingStored(s, projectId, ms);
    var steps := MixedRunKeeps(s, projectId, ms, map[]);
    LifeCycle.RunKeepsLife(s, steps);
    LifeCycle.CountsByLife(Ran(s, projectId, ms).log, id);
    LifeCycle.RetryAccounting(s, steps, id);
    LifeCycle.DeadLettersExact(s, steps, id);
  }
}
