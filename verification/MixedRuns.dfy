/** Workers and ingestion on one database: steps of any number of workers and calls of
    the one ingesting process in any order.  The workers' invariant and that of ingestion
    both hold throughout, and the latest versions are those of the calls alone. */
module MixedRuns {
  import opened Text
  import opened Domain
  import opened Claims
  import opened Transactions
  import opened Protocol
  import opened Ingest
  import opened IngestLaws
  import IngestRuns
  import Ownership

  datatype Move = Work(step: Step) | IngestFile(call: Call)

  // ---------- runs ----------

  ghost predicate CanMove(s: World, m: Move) {
    m.Work? ==> Enabled(s, m.step) && !m.step.OutsideStep?
  }

  /** The jobs a call enqueues, as events from outside the workers. */
  function Enqueues(before: Db, after: Db): seq<Event> {
    EnqueuedEvents(before.nextJob, if before.nextJob <= after.nextJob then after.nextJob - before.nextJob else 0)
  }

  ghost function Moved(s: World, projectId: int, m: Move): World
    requires CanMove(s, m)
  {
    match m
    case Work(step) => Next(s, step)
    case IngestFile(call) =>
      var d := ProcessFile(s.db, projectId, call).0;
      World(d, s.workers, s.log + Enqueues(s.db, d))
  }

  ghost predicate CanRun(s: World, projectId: int, ms: seq<Move>)
    decreases |ms|
  {
    ms == [] || (CanMove(s, ms[0]) && CanRun(Moved(s, projectId, ms[0]), projectId, ms[1..]))
  }

  ghost function Ran(s: World, projectId: int, ms: seq<Move>): World
    requires CanRun(s, projectId, ms)
    decreases |ms|
  {
    if ms == [] then s else Ran(Moved(s, projectId, ms[0]), projectId, ms[1..])
  }

  /** The ingestion calls of a run, in order. */
  function Calls(ms: seq<Move>): seq<Call> {
    if ms == [] then [] else (if ms[0].IngestFile? then [ms[0].call] else []) + Calls(ms[1..])
  }

  // ---------- what the workers leave alone ----------

  /** Of files and versions only summaries may differ; new links belong to existing versions. */
  ghost predicate SameVersions(db: Db, d: Db) {
    && d.files == db.files && d.nextFile == db.nextFile && d.nextVersion == db.nextVersion
    && d.versions.Keys == db.versions.Keys
    && (forall v :: v in db.versions ==> d.versions[v] == db.versions[v].(summary := d.versions[v].summary))
    && (forall p :: p in d.junctions ==> p in db.junctions || p.0 in db.versions)
  }

  lemma {:induction false} AddFeaturesSameVersions(db: Db, p: int, v: int, texts: seq<FeatureText>)
    requires AddFeatures(db, p, v, texts).Some?
    ensures SameVersions(db, AddFeatures(db, p, v, texts).value)
    decreases |texts|
  {
    if texts != [] {
      var d := AddJunction(InsertFeature(db, FeatureRow(p, texts[0])), v, db.nextFeature);
      AddFeaturesSameVersions(d, p, v, texts[1..]);
    }
  }

  lemma CompleteSameVersions(db: Db, id: int, work: Transactions.Work)
    requires CompleteBody(db, id, work).Some?
    ensures SameVersions(db, CompleteBody(db, id, work).value)
  {
    if work.ParseWork? {
      AddFeaturesSameVersions(UpdateSummary(db, work.versionId, work.summary), work.projectId, work.versionId, work.features);
    }
  }

  lemma StepSameVersions(s: World, step: Step)
    requires Enabled(s, step) && !step.OutsideStep?
    ensures SameVersions(s.db, Next(s, step).db)
  {
    if step.CompleteStep? {
      var wk := s.workers[step.w];
      if TakesEffect(CompleteBody(s.db, wk.batch[0].id, wk.phase.work), step.fault) {
        CompleteSameVersions(s.db, wk.batch[0].id, wk.phase.work);
      }
    }
  }

  lemma {:induction false} FindLatestSame(a: map<int, Version>, b: map<int, Version>, fileId: int, i: int, n: int)
    requires a.Keys == b.Keys
    requires forall v :: v in a ==> b[v].fileId == a[v].fileId && b[v].isLatest == a[v].isLatest
    ensures FindLatest(a, fileId, i, n) == FindLatest(b, fileId, i, n)
    decreases n - i
  {
    if i < n {
      FindLatestSame(a, b, fileId, i + 1, n);
    }
  }

  lemma SameVersionsKeepInv(db: Db, d: Db)
    requires IngestInv(db) && SameVersions(db, d)
    ensures IngestInv(d)
  {
    forall v | v in d.versions ensures FlagOk(d, v) && HashOk(d, v) {
      assert FlagOk(db, v) && HashOk(db, v);
      assert Newest(d, v) <==> Newest(db, v);
    }
    assert forall v :: v in db.versions ==> FlagOk(db, v);
  }

  lemma SameVersionsShow(db: Db, d: Db, projectId: int, m: map<string, string>)
    requires SameVersions(db, d) && IngestRuns.Shows(db, projectId, m)
    ensures IngestRuns.Shows(d, projectId, m)
  {
    forall path: string
      ensures IngestRuns.LatestContent(d, projectId, path) == if path in m then Some(m[path]) else None
    {
      FindLatestSame(db.versions, d.versions, FileId(db, File(projectId, path)), 1, db.nextVersion);
      assert IngestRuns.LatestContent(db, projectId, path) == if path in m then Some(m[path]) else None;
    }
  }

  // ---------- every mixed run ----------

  /** A call moves the world as a step from outside does. */
  lemma CallIsStep(s: World, projectId: int, call: Call) returns (step: Step)
    requires IngestInv(s.db) && Ownership.RowsOk(s.db)
    ensures step.OutsideStep? && Enabled(s, step) && Next(s, step) == Moved(s, projectId, IngestFile(call))
  {
    var d := ProcessFile(s.db, projectId, call).0;
    var js := IngestRuns.IngestIsOutside(s.db, projectId, call);
    Ownership.InsertedJobs(s.db, js);
    step := OutsideStep(d, js);
  }

  lemma MoveKeeps(s: World, projectId: int, m: Move, known: map<string, string>) returns (step: Step)
    requires Ownership.Inv(s) && IngestInv(s.db) && IngestRuns.Shows(s.db, projectId, known) && CanMove(s, m)
    ensures Enabled(s, step) && Next(s, step) == Moved(s, projectId, m)
    ensures var t := Moved(s, projectId, m);
            && Ownership.Inv(t) && IngestInv(t.db)
            && IngestRuns.Shows(t.db, projectId, if m.IngestFile? then IngestRuns.Known(known, m.call) else known)
  {
    match m
    case Work(st) =>
      step := st;
      StepSameVersions(s, step);
      SameVersionsKeepInv(s.db, Next(s, step).db);
      SameVersionsShow(s.db, Next(s, step).db, projectId, known);
      Ownership.NextKeepsInv(s, step);
    case IngestFile(call) =>
      step := CallIsStep(s, projectId, call);
      IngestRuns.CallRefines(s.db, projectId, known, call);
      Ownership.NextKeepsInv(s, step);
  }

  /** However worker steps and ingestion calls interleave: the run is a run of the protocol,
      both invariants hold at its end, and each path shows its last committed content. */
  lemma {:induction false} MixedRunKeeps(s: World, projectId: int, ms: seq<Move>, known: map<string, string>) returns (steps: seq<Step>)
    requires Ownership.Inv(s) && IngestInv(s.db) && IngestRuns.Shows(s.db, projectId, known) && CanRun(s, projectId, ms)
    ensures Runs(s, steps) && After(s, steps) == Ran(s, projectId, ms)
    ensures var t := Ran(s, projectId, ms);
            Ownership.Inv(t) && IngestInv(t.db) && IngestRuns.Shows(t.db, projectId, IngestRuns.KnownAfter(known, Calls(ms)))
    decreases |ms|
  {
    if ms == [] {
      steps := [];
    } else {
      var first := MoveKeeps(s, projectId, ms[0], known);
      var next := if ms[0].IngestFile? then IngestRuns.Known(known, ms[0].call) else known;
      var rest := MixedRunKeeps(Moved(s, projectId, ms[0]), projectId, ms[1..], next);
      steps := [first] + rest;
      assert steps[1..] == rest;
      KnownStep(ms, known);
    }
  }

  lemma KnownStep(ms: seq<Move>, known: map<string, string>)
    requires ms != []
    ensures var next := if ms[0].IngestFile? then IngestRuns.Known(known, ms[0].call) else known;
            IngestRuns.KnownAfter(known, Calls(ms)) == IngestRuns.KnownAfter(next, Calls(ms[1..]))
  {
    if ms[0].IngestFile? {
      assert Calls(ms)[1..] == Calls(ms[1..]);
    } else {
      assert Calls(ms) == Calls(ms[1..]);
    }
  }
}
