/** Draining terminates: without outside enqueues, every dispatch uses up one unit of a
    potential of 8 per pending PARSE job and 4 per other pending job. */
module Draining {
  import opened Text
  import opened Domain
  import opened Claims
  import opened Transactions
  import opened Store
  import opened Protocol
  import opened Ownership

  function Weight(row: Job): int {
    (if row.order.stage == PARSE then 8 else 4) - row.retryCount
  }

  ghost predicate Held(s: World, id: int) {
    exists w :: w in s.workers && HoldsJob(s.workers[w], id)
  }

  /** The job is at the head of a worker that has dispatched it. */
  predicate Working(wk: Worker, id: int) {
    wk.batch != [] && wk.batch[0].id == id && wk.phase != Ready
  }

  ghost predicate InFlight(s: World, id: int) {
    exists w :: w in s.workers && Working(s.workers[w], id)
  }

  /** How many dispatches a job can still cause, its downstream job included. */
  ghost function Potential(s: World, id: int): int {
    if id !in s.db.jobs then 0
    else
      var row := s.db.jobs[id];
      if row.status == Pending then Weight(row)
      else if row.status != Processing then 0
      else if InFlight(s, id) then Weight(row) - 1
      else if Held(s, id) then Weight(row)
      else 0
  }

  ghost function Total(s: World, n: nat): int {
    if n == 0 then 0 else Total(s, n - 1) + Potential(s, n)
  }

  ghost function Fuel(s: World): int {
    if s.db.nextJob < 1 then 0 else Total(s, s.db.nextJob - 1)
  }

  // ---------- sums ----------

  lemma {:induction false} TotalDrops(s: World, t: World, n: nat, id: int, d: int)
    requires forall i :: 1 <= i <= n && i != id ==> Potential(t, i) <= Potential(s, i)
    requires 1 <= id <= n ==> Potential(t, id) + d <= Potential(s, id)
    ensures Total(t, n) + (if 1 <= id <= n then d else 0) <= Total(s, n)
  {
    if n > 0 {
      TotalDrops(s, t, n - 1, id, d);
    }
  }

  lemma {:induction false} TotalNonNegative(s: World, n: nat)
    requires RowsOk(s.db)
    ensures Total(s, n) >= 0
    ensures forall i :: 1 <= i <= n ==> Potential(s, i) <= Total(s, n)
  {
    if n > 0 {
      TotalNonNegative(s, n - 1);
      PotentialNonNegative(s, n);
    }
  }

  lemma PotentialNonNegative(s: World, id: int)
    requires RowsOk(s.db)
    ensures Potential(s, id) >= 0
  {
    if id in s.db.jobs {
      assert RowOk(s.db, id);
    }
  }

  // ---------- jobs a step does not touch ----------

  /** A worker keeps some of its jobs and dispatches nothing but its old head. */
  predicate Keeps(was: Worker, wk: Worker) {
    && (forall i :: 0 <= i < |wk.batch| ==> wk.batch[i] in was.batch)
    && (wk.batch != [] && wk.phase != Ready ==> was.batch != [] && wk.batch[0] == was.batch[0])
  }

  lemma OtherPotential(s: World, t: World, w: int, id: int)
    requires Inv(s) && w in s.workers && w in t.workers && t.workers == s.workers[w := t.workers[w]]
    requires Keeps(s.workers[w], t.workers[w])
    requires SameRow(s.db, t.db, id)
    requires s.workers[w].batch != [] ==> s.workers[w].batch[0].id != id
    ensures Potential(t, id) <= Potential(s, id)
  {
    PotentialNonNegative(s, id);
    if id in s.db.jobs && s.db.jobs[id].status == Processing {
      assert RowOk(s.db, id);
      if InFlight(s, id) {
        var a :| a in s.workers && Working(s.workers[a], id);
        assert a != w && Working(t.workers[a], id);
      } else if Held(t, id) {
        HeldBefore(s, t, w, id);
      }
    }
  }

  lemma HeldBefore(s: World, t: World, w: int, id: int)
    requires w in s.workers && w in t.workers && t.workers == s.workers[w := t.workers[w]]
    requires Keeps(s.workers[w], t.workers[w]) && Held(t, id)
    ensures Held(s, id)
  {
    var a :| a in t.workers && HoldsJob(t.workers[a], id);
    if a == w {
      var i :| 0 <= i < |t.workers[w].batch| && t.workers[w].batch[i].id == id;
      assert t.workers[w].batch[i] in s.workers[w].batch;
      assert HoldsJob(s.workers[w], id);
    } else {
      assert HoldsJob(s.workers[a], id);
    }
  }

  /** The head of a worker is in nobody else's hands. */
  lemma HeadPotential(s: World, w: int)
    requires Inv(s) && w in s.workers && s.workers[w].batch != []
    ensures var id := s.workers[w].batch[0].id;
            id in s.db.jobs ==> Potential(s, id) == Weight(s.db.jobs[id]) - if s.workers[w].phase == Ready then 0 else 1
  {
    var id := s.workers[w].batch[0].id;
    assert WorkerOk(s.db, s.workers[w]);
    assert HoldsJob(s.workers[w], id);
    if s.workers[w].phase != Ready {
      assert Working(s.workers[w], id);
    }
  }

  // ---------- one step ----------

  lemma ClaimFuel(s: World, step: Step)
    requires Inv(s) && step.ClaimStep? && Enabled(s, step)
    ensures Fuel(Next(s, step)) <= Fuel(s)
  {
    var ClaimStep(w, limit, rows, fault) := step;
    var t := Next(s, step);
    ClaimIsTop(s.db.jobs, limit);
    forall id | 1 <= id < s.db.nextJob ensures Potential(t, id) <= Potential(s, id) {
      PotentialNonNegative(s, id);
      if id in s.db.jobs {
        assert RowOk(s.db, id);
        if s.db.jobs[id].status == Processing {
          assert id !in Claimed(s.db.jobs, limit);
          ClaimOther(s, t, w, rows, id, Claimed(s.db.jobs, limit));
        }
      }
    }
    TotalDrops(s, t, s.db.nextJob - 1, 0, 0);
  }

  lemma ClaimOther(s: World, t: World, w: int, rows: seq<ClaimedJob>, id: int, ids: set<int>)
    requires w in s.workers && s.workers[w].batch == [] && id !in ids && Ids(rows) == ids
    requires t.workers == s.workers[w := Worker(rows, Ready)] || t.workers == s.workers[w := Worker([], Ready)]
    requires SameRow(s.db, t.db, id) && id in s.db.jobs
    ensures InFlight(t, id) <==> InFlight(s, id)
    ensures Held(t, id) <==> Held(s, id)
  {
    assert forall i :: 0 <= i < |rows| ==> rows[i].id in Ids(rows);
    assert forall a :: a in s.workers && a != w ==> t.workers[a] == s.workers[a];
    assert !HoldsJob(s.workers[w], id) && !HoldsJob(t.workers[w], id);
    if InFlight(s, id) {
      var a :| a in s.workers && Working(s.workers[a], id);
      assert Working(t.workers[a], id);
    }
    if Held(s, id) {
      var a :| a in s.workers && HoldsJob(s.workers[a], id);
      assert HoldsJob(t.workers[a], id);
    }
  }

  /** A step of worker w that touches its head only. */
  ghost predicate HeadStep(s: World, t: World, w: int) {
    && w in s.workers && s.workers[w].batch != [] && w in t.workers
    && t.workers == s.workers[w := t.workers[w]] && Keeps(s.workers[w], t.workers[w])
    && 1 <= s.workers[w].batch[0].id < s.db.nextJob
    && SameRows(s.db, t.db, {s.workers[w].batch[0].id})
  }

  /** A head step that lowers the potential of the head by d. */
  lemma HeadStepFuel(s: World, t: World, w: int, d: int)
    requires Inv(s) && HeadStep(s, t, w)
    requires Potential(t, s.workers[w].batch[0].id) + d <= Potential(s, s.workers[w].batch[0].id)
    ensures Total(t, s.db.nextJob - 1) + d <= Fuel(s)
  {
    var head := s.workers[w].batch[0].id;
    forall id | 1 <= id < s.db.nextJob && id != head ensures Potential(t, id) <= Potential(s, id) {
      OtherPotential(s, t, w, id);
    }
    TotalDrops(s, t, s.db.nextJob - 1, head, d);
  }

  lemma DispatchFuel(s: World, step: Step)
    requires Inv(s) && step.DispatchStep? && Enabled(s, step)
    ensures Fuel(Next(s, step)) + 1 <= Fuel(s)
  {
    var w := step.w;
    var t := Next(s, step);
    NextKeepsInv(s, step);
    DispatchShape(s, step);
    HeadPotential(s, w);
    HeadPotential(t, w);
    HeadStepFuel(s, t, w, 1);
  }

  lemma DispatchShape(s: World, step: Step)
    requires Inv(s) && step.DispatchStep? && Enabled(s, step)
    ensures var t, w := Next(s, step), step.w;
            && HeadStep(s, t, w) && t.db == s.db && s.workers[w].batch[0].id in s.db.jobs
            && t.workers[w].batch == s.workers[w].batch && t.workers[w].phase != Ready
  {
    assert WorkerOk(s.db, s.workers[step.w]) && RowOk(s.db, s.workers[step.w].batch[0].id);
  }

  /** A failure report is a head step that ends with the head out of the worker's hands. */
  lemma FailShape(s: World, step: Step)
    requires Inv(s) && step.FailStep? && Enabled(s, step)
    ensures var t, w := Next(s, step), step.w;
            var id := s.workers[w].batch[0].id;
            && HeadStep(s, t, w) && t.workers == s.workers[w := Pop(s.workers[w])] && t.db.nextJob == s.db.nextJob
            && (id in t.db.jobs <==> id in s.db.jobs)
            && (id in s.db.jobs ==>
                 || t.db.jobs[id] == s.db.jobs[id]
                 || t.db.jobs[id].status == Failed
                 || t.db.jobs[id] == s.db.jobs[id].(status := Pending, retryCount := s.db.jobs[id].retryCount + 1))
  {
    var w := step.w;
    assert WorkerOk(s.db, s.workers[w]);
    var id := s.workers[w].batch[0].id;
    assert id in s.db.jobs ==> RowOk(s.db, id);
  }

  lemma FailFuel(s: World, step: Step)
    requires Inv(s) && step.FailStep? && Enabled(s, step)
    ensures Fuel(Next(s, step)) <= Fuel(s)
  {
    var w := step.w;
    var t := Next(s, step);
    FailShape(s, step);
    HeadPotential(s, w);
    PoppedPotential(s, t, w);
    HeadStepFuel(s, t, w, 0);
  }

  lemma PoppedPotential(s: World, t: World, w: int)
    requires Inv(s) && w in s.workers && s.workers[w].batch != [] && s.workers[w].phase != Ready
    requires t.workers == s.workers[w := Pop(s.workers[w])]
    requires var id := s.workers[w].batch[0].id;
             && (id in t.db.jobs <==> id in s.db.jobs)
             && (id in s.db.jobs ==>
                  || t.db.jobs[id] == s.db.jobs[id]
                  || t.db.jobs[id].status == Failed
                  || t.db.jobs[id] == s.db.jobs[id].(status := Pending, retryCount := s.db.jobs[id].retryCount + 1))
    ensures Potential(t, s.workers[w].batch[0].id) <= Potential(s, s.workers[w].batch[0].id)
  {
    var id := s.workers[w].batch[0].id;
    assert WorkerOk(s.db, s.workers[w]);
    HeadPotential(s, w);
    PotentialNonNegative(s, id);
    if id in s.db.jobs {
      assert RowOk(s.db, id);
      PoppedNotHeld(s, t, w);
    }
  }

  lemma PoppedNotHeld(s: World, t: World, w: int)
    requires Inv(s) && w in s.workers && s.workers[w].batch != []
    requires t.workers == s.workers[w := Pop(s.workers[w])]
    ensures !Held(t, s.workers[w].batch[0].id) && !InFlight(t, s.workers[w].batch[0].id)
  {
    var id := s.workers[w].batch[0].id;
    assert WorkerOk(s.db, s.workers[w]);
    forall a | a in t.workers ensures !HoldsJob(t.workers[a], id) {
      if a == w {
        assert forall i :: 0 <= i < |t.workers[w].batch| ==> t.workers[w].batch[i] == s.workers[w].batch[i + 1];
      } else {
        assert t.workers[a] == s.workers[a];
      }
    }
    assert forall a :: a in t.workers && Working(t.workers[a], id) ==> HoldsJob(t.workers[a], id);
  }

  lemma AbandonFuel(s: World, step: Step)
    requires Inv(s) && step.AbandonStep? && Enabled(s, step)
    ensures Fuel(Next(s, step)) <= Fuel(s)
  {
    var w := step.w;
    var t := Next(s, step);
    forall id | 1 <= id < s.db.nextJob ensures Potential(t, id) <= Potential(s, id) {
      PotentialNonNegative(s, id);
      if id in s.db.jobs && s.db.jobs[id].status == Processing {
        assert RowOk(s.db, id);
        AbandonOther(s, t, w, id);
      }
    }
    TotalDrops(s, t, s.db.nextJob - 1, 0, 0);
  }

  lemma AbandonOther(s: World, t: World, w: int, id: int)
    requires Inv(s) && w in s.workers && t.workers == s.workers[w := Worker([], Ready)]
    ensures InFlight(t, id) ==> InFlight(s, id)
    ensures Held(t, id) ==> Held(s, id)
    ensures InFlight(s, id) ==> InFlight(t, id) || !Held(t, id)
  {
    if InFlight(t, id) {
      var a :| a in t.workers && Working(t.workers[a], id);
      assert Working(s.workers[a], id);
    }
    if Held(t, id) {
      HeldBefore(s, t, w, id);
      var b :| b in t.workers && HoldsJob(t.workers[b], id);
      assert b != w;
      if InFlight(s, id) {
        var a :| a in s.workers && Working(s.workers[a], id);
        assert HoldsJob(s.workers[a], id) && HoldsJob(s.workers[b], id);
        assert a == b;
        assert Working(t.workers[a], id);
      }
    }
  }

  /** A completion that takes effect deletes the head's row and brings in one downstream job. */
  lemma AppliedShape(s: World, step: Step)
    requires Inv(s) && step.CompleteStep? && Enabled(s, step)
    requires var wk := s.workers[step.w]; TakesEffect(CompleteBody(s.db, wk.batch[0].id, wk.phase.work), step.fault)
    ensures var t, id, newId := Next(s, step), s.workers[step.w].batch[0].id, s.db.nextJob;
            && HeadStep(s, t, step.w) && id !in t.db.jobs && t.db.nextJob == newId + 1
            && newId in t.db.jobs && t.db.jobs[newId].status == Pending && Weight(t.db.jobs[newId]) == 4
  {
    assert WorkerOk(s.db, s.workers[step.w]);
    var id := s.workers[step.w].batch[0].id;
    assert RowOk(s.db, id);
    CompletedJobs(s.db, id, s.workers[step.w].phase.work);
  }

  /** The head of a completing worker is a PARSE job, worth at least five dispatches. */
  lemma CompletingPotential(s: World, w: int)
    requires Inv(s) && w in s.workers && s.workers[w].batch != [] && s.workers[w].phase.Completing?
    ensures Potential(s, s.workers[w].batch[0].id) >= 4
  {
    assert WorkerOk(s.db, s.workers[w]) && RowOk(s.db, s.workers[w].batch[0].id);
    HeadPotential(s, w);
  }

  lemma AppliedFuel(s: World, step: Step)
    requires Inv(s) && step.CompleteStep? && Enabled(s, step)
    requires var wk := s.workers[step.w]; TakesEffect(CompleteBody(s.db, wk.batch[0].id, wk.phase.work), step.fault)
    ensures Fuel(Next(s, step)) <= Fuel(s)
  {
    var t := Next(s, step);
    AppliedShape(s, step);
    CompletingPotential(s, step.w);
    HeadStepFuel(s, t, step.w, 4);
    NewPotential(t, s.db.nextJob, s.db.nextJob - 1);
  }

  lemma NewPotential(t: World, id: int, n: nat)
    requires id == n + 1 && t.db.nextJob == id + 1
    requires id in t.db.jobs && t.db.jobs[id].status == Pending && Weight(t.db.jobs[id]) == 4
    ensures Fuel(t) == Total(t, n) + 4
  {
    assert Fuel(t) == Total(t, n) + Potential(t, id);
  }

  /** A completion without effect leaves the database as it is. */
  lemma UnappliedShape(s: World, step: Step)
    requires Inv(s) && step.CompleteStep? && Enabled(s, step)
    requires var wk := s.workers[step.w]; !TakesEffect(CompleteBody(s.db, wk.batch[0].id, wk.phase.work), step.fault)
    ensures var t, w := Next(s, step), step.w;
            && HeadStep(s, t, w) && t.db == s.db && s.workers[w].batch[0].id in s.db.jobs
            && t.workers[w].batch == s.workers[w].batch && t.workers[w].phase != Ready
  {
    assert WorkerOk(s.db, s.workers[step.w]) && RowOk(s.db, s.workers[step.w].batch[0].id);
  }

  lemma UnappliedFuel(s: World, step: Step)
    requires Inv(s) && step.CompleteStep? && Enabled(s, step)
    requires var wk := s.workers[step.w]; !TakesEffect(CompleteBody(s.db, wk.batch[0].id, wk.phase.work), step.fault)
    ensures Fuel(Next(s, step)) <= Fuel(s)
  {
    var w := step.w;
    var t := Next(s, step);
    NextKeepsInv(s, step);
    UnappliedShape(s, step);
    HeadPotential(s, w);
    HeadPotential(t, w);
    HeadStepFuel(s, t, w, 0);
  }

  lemma CompleteFuel(s: World, step: Step)
    requires Inv(s) && step.CompleteStep? && Enabled(s, step)
    ensures Fuel(Next(s, step)) <= Fuel(s)
  {
    var wk := s.workers[step.w];
    if TakesEffect(CompleteBody(s.db, wk.batch[0].id, wk.phase.work), step.fault) {
      AppliedFuel(s, step);
    } else {
      UnappliedFuel(s, step);
    }
  }

  /** Every step except an outside enqueue keeps or lowers the fuel; a dispatch uses one unit. */
  lemma StepFuel(s: World, step: Step)
    requires Inv(s) && Enabled(s, step) && !step.OutsideStep?
    ensures Fuel(Next(s, step)) + (if step.DispatchStep? then 1 else 0) <= Fuel(s)
  {
    match step
    case ClaimStep(_, _, _, _) => ClaimFuel(s, step);
    case DispatchStep(_, _) => DispatchFuel(s, step);
    case CompleteStep(_, _) => CompleteFuel(s, step);
    case FailStep(_, _) => FailFuel(s, step);
    case AbandonStep(_) => AbandonFuel(s, step);
  }

  // ---------- whole runs ----------

  function Dispatches(steps: seq<Step>): nat {
    if steps == [] then 0 else (if steps[0].DispatchStep? then 1 else 0) + Dispatches(steps[1..])
  }

  lemma {:induction false} RunFuel(s: World, steps: seq<Step>)
    requires Inv(s) && Runs(s, steps) && Undisturbed(steps)
    ensures Inv(After(s, steps)) && Fuel(After(s, steps)) + Dispatches(steps) <= Fuel(s)
    decreases |steps|
  {
    if steps != [] {
      NextKeepsInv(s, steps[0]);
      StepFuel(s, steps[0]);
      RunFuel(Next(s, steps[0]), steps[1..]);
    }
  }

  ghost predicate Idle(s: World) {
    forall w :: w in s.workers ==> s.workers[w].batch == []
  }

  predicate PendingRow(db: Db, id: int) {
    id in db.jobs && db.jobs[id].status == Pending
  }

  predicate ParseRow(db: Db, id: int) {
    PendingRow(db, id) && db.jobs[id].order.stage == PARSE
  }

  function PendingParse(db: Db, n: nat): nat {
    if n == 0 then 0 else PendingParse(db, n - 1) + if ParseRow(db, n) then 1 else 0
  }

  function PendingOther(db: Db, n: nat): nat {
    if n == 0 then 0 else PendingOther(db, n - 1) + if PendingRow(db, n) && !ParseRow(db, n) then 1 else 0
  }

  lemma {:induction false} IdleTotal(s: World, n: nat)
    requires Inv(s) && Idle(s)
    ensures Total(s, n) <= 8 * PendingParse(s.db, n) + 4 * PendingOther(s.db, n)
  {
    if n > 0 {
      IdleTotal(s, n - 1);
      if n in s.db.jobs {
        assert RowOk(s.db, n);
        assert forall w :: w in s.workers ==> !Working(s.workers[w], n) && !HoldsJob(s.workers[w], n);
      }
    }
  }

  lemma IdleFuel(s: World)
    requires Inv(s) && Idle(s)
    ensures var n := s.db.nextJob - 1; Fuel(s) <= 8 * PendingParse(s.db, n) + 4 * PendingOther(s.db, n)
  {
    IdleTotal(s, s.db.nextJob - 1);
  }

  lemma FuelNonNegative(s: World)
    requires RowsOk(s.db)
    ensures Fuel(s) >= 0
  {
    if s.db.nextJob >= 1 {
      TotalNonNegative(s, s.db.nextJob - 1);
    }
  }

  /** From idle workers on, at most 8 dispatches per pending PARSE job and 4 per other
      pending job can ever happen unless jobs are enqueued from outside. */
  lemma DispatchesBounded(s: World, steps: seq<Step>)
    requires Inv(s) && Idle(s) && Runs(s, steps) && Undisturbed(steps)
    ensures var n := s.db.nextJob - 1;
            Dispatches(steps) <= 8 * PendingParse(s.db, n) + 4 * PendingOther(s.db, n)
  {
    RunFuel(s, steps);
    IdleFuel(s);
    FuelNonNegative(After(s, steps));
  }

  lemma NoFuelNoPending(t: World, id: int)
    requires RowsOk(t.db) && Fuel(t) <= 0
    ensures !PendingRow(t.db, id)
  {
    TotalNonNegative(t, t.db.nextJob - 1);
    if id in t.db.jobs {
      assert RowOk(t.db, id);
    }
    assert PendingRow(t.db, id) ==> Potential(t, id) >= 1;
  }

  /** A run that has used up the bound leaves no job pending. */
  lemma SpentMeansDrained(s: World, steps: seq<Step>, id: int)
    requires Inv(s) && Idle(s) && Runs(s, steps) && Undisturbed(steps)
    requires var n := s.db.nextJob - 1;
             Dispatches(steps) == 8 * PendingParse(s.db, n) + 4 * PendingOther(s.db, n)
    ensures !PendingRow(After(s, steps).db, id)
  {
    RunFuel(s, steps);
    IdleFuel(s);
    NoFuelNoPending(After(s, steps), id);
  }

  /** As long as a job is pending, an idle worker's claim that commits takes at least
      one job, which then can be dispatched; so the bound is reached only by draining. */
  lemma PendingMeansProgress(s: World, w: int, limit: int, rows: seq<ClaimedJob>, id: int)
    requires PendingRow(s.db, id) && limit > 0
    requires Enabled(s, ClaimStep(w, limit, rows, Clean))
    ensures rows != []
    ensures forall reply :: Enabled(Next(s, ClaimStep(w, limit, rows, Clean)), DispatchStep(w, reply))
  {
    ClaimIsTop(s.db.jobs, limit);
    var ids := Claimed(s.db.jobs, limit);
    assert id in PendingIds(s.db.jobs);
    assert |PendingIds(s.db.jobs)| > 0 by {
      assert PendingIds(s.db.jobs) == (PendingIds(s.db.jobs) - {id}) + {id};
    }
    assert |ids| > 0;
    assert rows == [] ==> Ids(rows) == {};
  }
}
