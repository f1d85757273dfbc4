/** Exclusive ownership: in every reachable world no job is held twice, and a held job
    is `processing` in the table (or deleted, when a completion was reported wrongly). */
module Ownership {
  import opened Text
  import opened Domain
  import opened Claims
  import opened Transactions
  import opened Store
  import opened Protocol

  // ---------- what the transactions do to the job rows ----------

  predicate SameRow(before: Db, after: Db, id: int) {
    (id in before.jobs <==> id in after.jobs) && (id in before.jobs ==> after.jobs[id] == before.jobs[id])
  }

  /** Outside the ids in changed, the job rows with issued ids are the same. */
  ghost predicate SameRows(before: Db, after: Db, changed: set<int>) {
    && before.nextJob <= after.nextJob
    && forall id :: id < before.nextJob && id !in changed ==> SameRow(before, after, id)
  }

  lemma {:induction false} AddFeaturesKeepsJobs(db: Db, p: int, v: int, texts: seq<FeatureText>)
    requires AddFeatures(db, p, v, texts).Some?
    ensures var d := AddFeatures(db, p, v, texts).value;
            d.jobs == db.jobs && d.nextJob == db.nextJob && d.deadLetters == db.deadLetters && d.versions == db.versions
    decreases |texts|
  {
    if texts != [] {
      var d := AddJunction(InsertFeature(db, FeatureRow(p, texts[0])), v, db.nextFeature);
      AddFeaturesKeepsJobs(d, p, v, texts[1..]);
    }
  }

  /** The job table after a completed PARSE job: its row is gone, one downstream row is new. */
  lemma CompletedJobs(db: Db, id: int, work: Work)
    requires work.ParseWork? && CompleteBody(db, id, work).Some?
    ensures var d := CompleteBody(db, id, work).value;
            && d.jobs == db.jobs[db.nextJob := Job(Downstream(work.projectId, work.versionId), Pending, 0)] - {id}
            && d.nextJob == db.nextJob + 1 && d.deadLetters == db.deadLetters
  {
    AddFeaturesKeepsJobs(UpdateSummary(db, work.versionId, work.summary), work.projectId, work.versionId, work.features);
  }

  lemma {:induction false} InsertedJobs(db: Db, js: seq<NewJob>)
    ensures var d := InsertJobs(db, js);
            && d.nextJob == db.nextJob + |js|
            && (forall id :: db.nextJob <= id < d.nextJob ==> id in d.jobs && d.jobs[id] == Job(js[id - db.nextJob], Pending, 0))
            && (forall id :: !(db.nextJob <= id < d.nextJob) ==>
                  (id in d.jobs <==> id in db.jobs) && (id in db.jobs ==> d.jobs[id] == db.jobs[id]))
    decreases |js|
  {
    if js != [] {
      InsertedJobs(InsertJob(db, js[0]), js[1..]);
    }
  }

  // ---------- the invariant ----------

  predicate RowOk(db: Db, id: int)
    requires id in db.jobs
  {
    var row := db.jobs[id];
    && 1 <= id < db.nextJob
    && (row.status == Pending || row.status == Processing || row.status == Failed)
    && 0 <= row.retryCount <= 3
    && (row.status == Failed ==> row.retryCount == 3)
  }

  ghost predicate RowsOk(db: Db) {
    db.nextJob >= 1 && forall id :: id in db.jobs ==> RowOk(db, id)
  }

  predicate Owned(db: Db, r: ClaimedJob) {
    r.id in db.jobs && db.jobs[r.id] == r.row && r.row.status == Processing
  }

  /** The job whose completion committed although it was reported as failed. */
  predicate Gone(db: Db, r: ClaimedJob) {
    1 <= r.id < db.nextJob && r.id !in db.jobs
  }

  predicate HeadOk(db: Db, r: ClaimedJob, phase: Phase) {
    match phase
    case Ready => Owned(db, r)
    case Completing(work) =>
      && Owned(db, r) && r.row.order.stage == PARSE
      && work.ParseWork? && work.projectId == r.row.order.projectId && work.versionId == r.row.order.targetId
      && work.versionId in db.versions
    case FailingWith(_) => Owned(db, r) || Gone(db, r)
  }

  predicate WorkerOk(db: Db, wk: Worker) {
    && DistinctIds(wk.batch)
    && (forall k :: 1 <= k < |wk.batch| ==> Owned(db, wk.batch[k]))
    && (if wk.batch == [] then wk.phase == Ready else HeadOk(db, wk.batch[0], wk.phase))
  }

  ghost predicate Apart(workers: map<int, Worker>) {
    forall a, b, i, j ::
      a in workers && b in workers && a != b && 0 <= i < |workers[a].batch| && 0 <= j < |workers[b].batch| ==>
      workers[a].batch[i].id != workers[b].batch[j].id
  }

  ghost predicate Inv(s: World) {
    && RowsOk(s.db)
    && (forall w :: w in s.workers ==> WorkerOk(s.db, s.workers[w]))
    && Apart(s.workers)
  }

  // ---------- preservation ----------

  lemma OthersStayOk(before: Db, after: Db, changed: set<int>, wk: Worker)
    requires RowsOk(before) && WorkerOk(before, wk) && SameRows(before, after, changed)
    requires before.versions.Keys <= after.versions.Keys
    requires forall i :: 0 <= i < |wk.batch| ==> wk.batch[i].id !in changed
    ensures WorkerOk(after, wk)
  {
    forall r | r in wk.batch && Owned(before, r) ensures Owned(after, r) {
      assert RowOk(before, r.id);
    }
    if wk.batch != [] {
      assert wk.batch[0] in wk.batch && wk.batch[0].id !in changed;
    }
    forall k | 1 <= k < |wk.batch| ensures Owned(after, wk.batch[k]) {
      assert wk.batch[k] in wk.batch;
    }
  }

  /** After a pop, the new head is owned and ready. */
  lemma PopOk(before: Db, after: Db, wk: Worker)
    requires RowsOk(before) && WorkerOk(before, wk) && wk.batch != []
    requires SameRows(before, after, {wk.batch[0].id})
    ensures WorkerOk(after, Pop(wk))
  {
    var b := wk.batch;
    forall k | 1 <= k < |b| ensures Owned(after, b[k]) {
      assert Owned(before, b[k]) && RowOk(before, b[k].id) && b[k].id != b[0].id;
      assert SameRow(before, after, b[k].id);
    }
  }

  /** A worker keeps part of its batch, the others keep theirs: still apart. */
  lemma StayApart(workers: map<int, Worker>, w: int, wk: Worker)
    requires Apart(workers) && w in workers
    requires forall i :: 0 <= i < |wk.batch| ==> wk.batch[i] in workers[w].batch
    ensures Apart(workers[w := wk])
  {
    var next := workers[w := wk];
    forall a, b, i, j | a in next && b in next && a != b && 0 <= i < |next[a].batch| && 0 <= j < |next[b].batch|
      ensures next[a].batch[i].id != next[b].batch[j].id
    {
      assert next[a].batch[i] in workers[a].batch && next[b].batch[j] in workers[b].batch;
    }
  }

  lemma ClaimKeepsInv(s: World, step: Step)
    requires Inv(s) && step.ClaimStep? && Enabled(s, step)
    ensures Inv(Next(s, step))
  {
    var ClaimStep(w, limit, rows, fault) := step;
    var next := Next(s, step);
    var ids := Claimed(s.db.jobs, limit);
    ClaimIsTop(s.db.jobs, limit);
    if next.db != s.db {
      var db := MarkProcessing(s.db, ids);
      assert next.db == db;
      ClaimKeepsRows(s.db, ids);
      ClaimKeepsWorkers(s, ids);
      forall i | 0 <= i < |rows| ensures Owned(db, rows[i]) && rows[i].id in ids {
        assert rows[i].id in Ids(rows);
      }
      ClaimApart(s, w, rows, ids);
    }
    StayApart(s.workers, w, Worker([], Ready));
  }

  lemma ClaimKeepsRows(db: Db, ids: set<int>)
    requires RowsOk(db) && ids <= PendingIds(db.jobs)
    ensures RowsOk(MarkProcessing(db, ids))
  {
    var after := MarkProcessing(db, ids);
    forall id | id in after.jobs ensures RowOk(after, id) {
      assert RowOk(db, id);
    }
  }

  lemma ClaimKeepsWorkers(s: World, ids: set<int>)
    requires Inv(s) && ids <= PendingIds(s.db.jobs)
    ensures forall a :: a in s.workers ==> WorkerOk(MarkProcessing(s.db, ids), s.workers[a])
  {
    forall a | a in s.workers ensures WorkerOk(MarkProcessing(s.db, ids), s.workers[a]) {
      PendingNotHeld(s.db, s.workers[a], ids);
      OthersStayOk(s.db, MarkProcessing(s.db, ids), ids, s.workers[a]);
    }
  }

  lemma PendingNotHeld(db: Db, wk: Worker, ids: set<int>)
    requires WorkerOk(db, wk) && ids <= PendingIds(db.jobs)
    ensures forall i :: 0 <= i < |wk.batch| ==> wk.batch[i].id !in ids
  {
    forall i | 0 <= i < |wk.batch| ensures wk.batch[i].id !in ids {
      assert i == 0 || Owned(db, wk.batch[i]);
    }
  }

  lemma ClaimApart(s: World, w: int, rows: seq<ClaimedJob>, ids: set<int>)
    requires Inv(s) && w in s.workers && ids <= PendingIds(s.db.jobs)
    requires forall i :: 0 <= i < |rows| ==> rows[i].id in ids
    ensures Apart(s.workers[w := Worker(rows, Ready)])
  {
    forall a | a in s.workers ensures forall i :: 0 <= i < |s.workers[a].batch| ==> s.workers[a].batch[i].id !in ids {
      PendingNotHeld(s.db, s.workers[a], ids);
    }
  }

  /** A step of worker w that touches only the row of its head. */
  lemma HeadStepKeepsInv(s: World, w: int, db: Db, wk: Worker)
    requires Inv(s) && w in s.workers && s.workers[w].batch != []
    requires SameRows(s.db, db, {s.workers[w].batch[0].id}) && s.db.versions.Keys <= db.versions.Keys
    requires RowsOk(db) && WorkerOk(db, wk)
    requires wk.batch == s.workers[w].batch || wk == Pop(s.workers[w])
    ensures Inv(World(db, s.workers[w := wk], s.log))
  {
    var head := s.workers[w].batch[0].id;
    forall a | a in s.workers && a != w ensures WorkerOk(db, s.workers[a]) {
      assert forall i :: 0 <= i < |s.workers[a].batch| ==> s.workers[a].batch[i].id != head;
      OthersStayOk(s.db, db, {head}, s.workers[a]);
    }
    StayApart(s.workers, w, wk);
  }

  lemma DispatchKeepsInv(s: World, step: Step)
    requires Inv(s) && step.DispatchStep? && Enabled(s, step)
    ensures Inv(Next(s, step))
  {
    var DispatchStep(w, reply) := step;
    HeadStepKeepsInv(s, w, s.db, Next(s, step).workers[w]);
  }

  lemma {:induction false} DoWorkKeepsVersions(db: Db, work: Work)
    requires DoWork(db, work).Some?
    ensures DoWork(db, work).value.versions.Keys == db.versions.Keys
  {
    if work.ParseWork? {
      AddFeaturesKeepsJobs(UpdateSummary(db, work.versionId, work.summary), work.projectId, work.versionId, work.features);
    }
  }

  lemma CompleteKeepsInv(s: World, step: Step)
    requires Inv(s) && step.CompleteStep? && Enabled(s, step)
    ensures Inv(Next(s, step))
  {
    var CompleteStep(w, fault) := step;
    var next := Next(s, step);
    var wk := s.workers[w];
    assert WorkerOk(s.db, wk);
    var head, work := wk.batch[0], wk.phase.work;
    if next.db != s.db {
      CompletedJobs(s.db, head.id, work);
      DoWorkKeepsVersions(s.db, work);
      forall id | id in next.db.jobs ensures RowOk(next.db, id) {
        assert id in s.db.jobs ==> RowOk(s.db, id);
      }
      assert RowOk(s.db, head.id);
      assert SameRows(s.db, next.db, {head.id});
    }
    PopOk(s.db, next.db, wk);
    HeadStepKeepsInv(s, w, next.db, next.workers[w]);
  }

  lemma FailKeepsInv(s: World, step: Step)
    requires Inv(s) && step.FailStep? && Enabled(s, step)
    ensures Inv(Next(s, step))
  {
    var FailStep(w, fault) := step;
    var next := Next(s, step);
    var wk := s.workers[w];
    assert WorkerOk(s.db, wk);
    var head := wk.batch[0];
    if next.db != s.db {
      assert Owned(s.db, head) && RowOk(s.db, head.id);
      forall id | id in next.db.jobs ensures RowOk(next.db, id) {
        assert RowOk(s.db, id);
      }
    }
    assert SameRows(s.db, next.db, {head.id});
    PopOk(s.db, next.db, wk);
    HeadStepKeepsInv(s, w, next.db, next.workers[w]);
  }

  lemma OutsideKeepsInv(s: World, step: Step)
    requires Inv(s) && step.OutsideStep? && Enabled(s, step)
    ensures Inv(Next(s, step))
  {
    var OutsideStep(after, js) := step;
    InsertedJobs(s.db, js);
    forall id | id in after.jobs ensures RowOk(after, id) {
      assert id in s.db.jobs ==> RowOk(s.db, id);
    }
    assert SameRows(s.db, after, {});
    forall a | a in s.workers ensures WorkerOk(after, s.workers[a]) {
      OthersStayOk(s.db, after, {}, s.workers[a]);
    }
  }

  lemma NextKeepsInv(s: World, step: Step)
    requires Inv(s) && Enabled(s, step)
    ensures Inv(Next(s, step))
  {
    match step
    case ClaimStep(_, _, _, _) => ClaimKeepsInv(s, step);
    case DispatchStep(_, _) => DispatchKeepsInv(s, step);
    case CompleteStep(_, _) => CompleteKeepsInv(s, step);
    case FailStep(_, _) => FailKeepsInv(s, step);
    case AbandonStep(w) => StayApart(s.workers, w, Worker([], Ready));
    case OutsideStep(_, _) => OutsideKeepsInv(s, step);
  }

  lemma {:induction false} RunKeepsInv(s: World, steps: seq<Step>)
    requires Inv(s) && Runs(s, steps)
    ensures Inv(After(s, steps))
    decreases |steps|
  {
    if steps != [] {
      NextKeepsInv(s, steps[0]);
      RunKeepsInv(Next(s, steps[0]), steps[1..]);
    }
  }

  // ---------- what it means ----------

  predicate HoldsJob(wk: Worker, id: int) {
    exists i :: 0 <= i < |wk.batch| && wk.batch[i].id == id
  }

  predicate Holds(s: World, w: int, id: int) {
    w in s.workers && HoldsJob(s.workers[w], id)
  }

  /** In every reachable world a job has at most one holder, and a held job is
      processing, unless its row is already deleted. */
  lemma ExclusiveOwnership(s: World, steps: seq<Step>)
    requires Init(s) && Runs(s, steps)
    ensures var t := After(s, steps);
            && (forall a, b, id :: Holds(t, a, id) && Holds(t, b, id) ==> a == b)
            && (forall a, id :: Holds(t, a, id) && id in t.db.jobs ==> t.db.jobs[id].status == Processing)
            && (forall a, id :: Holds(t, a, id) && id !in t.db.jobs ==> 1 <= id < t.db.nextJob)
  {
    RunKeepsInv(s, steps);
    var t := After(s, steps);
    forall a, id | Holds(t, a, id)
      ensures if id in t.db.jobs then t.db.jobs[id].status == Processing else 1 <= id < t.db.nextJob
    {
      var i :| 0 <= i < |t.workers[a].batch| && t.workers[a].batch[i].id == id;
      assert WorkerOk(t.db, t.workers[a]);
      assert i == 0 || Owned(t.db, t.workers[a].batch[i]);
    }
  }
}
