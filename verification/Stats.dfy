/** The job counters of a project, and that no job is ever lost from the books. */
module Stats {
  import opened Domain
  import opened Claims
  import opened Protocol
  import opened Ownership
  import opened LifeCycle
  import opened Effects

  datatype JobStats = JobStats(pending: nat, processing: nat, completed: nat, failed: nat)

  function InStatus(jobs: Jobs, projectId: int, status: JobStatus): set<int> {
    set id | id in jobs && jobs[id].order.projectId == projectId && jobs[id].status == status
  }

  function RowsOfProject(jobs: Jobs, projectId: int): set<int> {
    set id | id in jobs && jobs[id].order.projectId == projectId
  }

  function CountOf(jobs: Jobs, projectId: int, status: JobStatus): nat {
    |InStatus(jobs, projectId, status)|
  }

  // ---------- GROUP BY ----------

  datatype Group = Group(status: JobStatus, count: nat)

  /** One row per status that occurs, with its count, in any order. */
  predicate Grouped(groups: seq<Group>, jobs: Jobs, projectId: int) {
    && (forall i :: 0 <= i < |groups| ==> groups[i].count == CountOf(jobs, projectId, groups[i].status) > 0)
    && (forall i, j :: 0 <= i < j < |groups| ==> groups[i].status != groups[j].status)
    && (forall status: JobStatus :: CountOf(jobs, projectId, status) > 0 ==> Listed(groups, status))
  }

  predicate Listed(groups: seq<Group>, status: JobStatus) {
    exists i :: 0 <= i < |groups| && groups[i].status == status
  }

  /** What the counters hold once the first n groups are read. */
  predicate ReadSoFar(stats: JobStats, groups: seq<Group>, n: nat, jobs: Jobs, projectId: int)
    requires n <= |groups|
  {
    && stats.pending == (if Listed(groups[..n], Pending) then CountOf(jobs, projectId, Pending) else 0)
    && stats.processing == (if Listed(groups[..n], Processing) then CountOf(jobs, projectId, Processing) else 0)
    && stats.completed == (if Listed(groups[..n], Completed) then CountOf(jobs, projectId, Completed) else 0)
    && stats.failed == (if Listed(groups[..n], Failed) then CountOf(jobs, projectId, Failed) else 0)
  }

  lemma ListedNext(groups: seq<Group>, n: nat, status: JobStatus)
    requires n < |groups|
    ensures Listed(groups[..n + 1], status) <==> Listed(groups[..n], status) || groups[n].status == status
  {
    if Listed(groups[..n], status) {
      var i :| 0 <= i < n && groups[..n][i].status == status;
      assert groups[..n + 1][i] == groups[i];
    }
    assert groups[..n + 1][n] == groups[n];
    if Listed(groups[..n + 1], status) && groups[n].status != status {
      var i :| 0 <= i < n + 1 && groups[..n + 1][i].status == status;
      assert groups[..n][i] == groups[i];
    }
  }

  /** The loop over the result rows of the grouped query; other statuses are ignored. */
  method GetStats(ghost jobs: Jobs, ghost projectId: int, groups: seq<Group>) returns (stats: JobStats)
    requires Grouped(groups, jobs, projectId)
    ensures stats.pending == |set id | id in jobs && jobs[id].order.projectId == projectId && jobs[id].status == Pending|
    ensures stats.processing == |set id | id in jobs && jobs[id].order.projectId == projectId && jobs[id].status == Processing|
    ensures stats.completed == |set id | id in jobs && jobs[id].order.projectId == projectId && jobs[id].status == Completed|
    ensures stats.failed == |set id | id in jobs && jobs[id].order.projectId == projectId && jobs[id].status == Failed|
  {
    stats := JobStats(0, 0, 0, 0);
    for n := 0 to |groups|
      invariant ReadSoFar(stats, groups, n, jobs, projectId)
    {
      forall status: JobStatus ensures Listed(groups[..n + 1], status) <==> Listed(groups[..n], status) || groups[n].status == status {
        ListedNext(groups, n, status);
      }
      match groups[n].status {
        case Pending => stats := stats.(pending := groups[n].count);
        case Processing => stats := stats.(processing := groups[n].count);
        case Completed => stats := stats.(completed := groups[n].count);
        case Failed => stats := stats.(failed := groups[n].count);
        case DeadLettered =>
      }
    }
    assert groups[..|groups|] == groups;
  }

  // ---------- the fields and the rows ----------

  function Sum(jobs: Jobs, projectId: int): nat {
    CountOf(jobs, projectId, Pending) + CountOf(jobs, projectId, Processing)
    + CountOf(jobs, projectId, Completed) + CountOf(jobs, projectId, Failed)
  }

  lemma Disjoint4(a: set<int>, b: set<int>, c: set<int>, d: set<int>)
    requires a !! b !! c !! d
    ensures |a + b + c + d| == |a| + |b| + |c| + |d|
  {
  }

  lemma AllRows(jobs: Jobs, projectId: int)
    ensures Sum(jobs, projectId) + CountOf(jobs, projectId, DeadLettered) == |RowsOfProject(jobs, projectId)|
  {
    var p, r := InStatus(jobs, projectId, Pending), InStatus(jobs, projectId, Processing);
    var c, f := InStatus(jobs, projectId, Completed), InStatus(jobs, projectId, Failed);
    var d := InStatus(jobs, projectId, DeadLettered);
    Disjoint4(p, r, c, f);
    assert (p + r + c + f) !! d;
    forall id | id in RowsOfProject(jobs, projectId) ensures id in (p + r + c + f) + d {
      match jobs[id].status
      case Pending => assert id in p;
      case Processing => assert id in r;
      case Completed => assert id in c;
      case Failed => assert id in f;
      case DeadLettered => assert id in d;
    }
    assert RowsOfProject(jobs, projectId) == (p + r + c + f) + d;
  }

  /** The four fields account for all rows of the project exactly if none is dead_lettered. */
  lemma SumExact(jobs: Jobs, projectId: int)
    ensures Sum(jobs, projectId) == |RowsOfProject(jobs, projectId)| <==> forall id :: id in RowsOfProject(jobs, projectId) ==> jobs[id].status != DeadLettered
  {
    AllRows(jobs, projectId);
    if InStatus(jobs, projectId, DeadLettered) != {} {
      var id := Member(InStatus(jobs, projectId, DeadLettered));
      assert id in RowsOfProject(jobs, projectId);
    }
    if id :| id in RowsOfProject(jobs, projectId) && jobs[id].status == DeadLettered {
      assert id in InStatus(jobs, projectId, DeadLettered);
    }
  }

  /** So they do in every state the workers can reach. */
  lemma StatsAccountForAll(s: World, steps: seq<Step>, projectId: int)
    requires Init(s) && Runs(s, steps)
    ensures Sum(After(s, steps).db.jobs, projectId) == |RowsOfProject(After(s, steps).db.jobs, projectId)|
    ensures CountOf(After(s, steps).db.jobs, projectId, Completed) == 0
  {
    RunKeepsInv(s, steps);
    var db := After(s, steps).db;
    assert forall id :: id in db.jobs ==> RowOk(db, id);
    SumExact(db.jobs, projectId);
    if InStatus(db.jobs, projectId, Completed) != {} {
      var id := Member(InStatus(db.jobs, projectId, Completed));
    }
  }

  // ---------- conservation ----------

  function AllInStatus(jobs: Jobs, status: JobStatus): set<int> {
    set id | id in jobs && jobs[id].status == status
  }

  function UpTo(n: nat): set<int> {
    if n == 0 then {} else UpTo(n - 1) + {n}
  }

  lemma {:induction false} UpToIs(n: nat)
    ensures |UpTo(n)| == n && forall id :: id in UpTo(n) <==> 1 <= id <= n
  {
    if n > 0 {
      UpToIs(n - 1);
    }
  }

  /** Every id handed out so far. */
  function Issued(db: Db): set<int> {
    if db.nextJob < 1 then {} else UpTo(db.nextJob - 1)
  }

  /** Ids whose work the log shows as applied. */
  function Finished(s: World): set<int> {
    set id | id in Issued(s.db) && LifeCycle.Count(s.log, AppliedKind, id) == 1
  }

  lemma FinishedAreDeleted(s: World, steps: seq<Step>)
    requires Init(s) && Runs(s, steps)
    ensures var t := After(s, steps);
            && RowsOk(t.db)
            && (forall id :: id in Finished(t) <==> 1 <= id < t.db.nextJob && id !in t.db.jobs)
            && |Issued(t.db)| == t.db.nextJob - 1 && forall id :: id in Issued(t.db) <==> 1 <= id < t.db.nextJob
  {
    RunKeepsInv(s, steps);
    var t := After(s, steps);
    UpToIs(t.db.nextJob - 1);
    forall id ensures id in Finished(t) <==> 1 <= id < t.db.nextJob && id !in t.db.jobs {
      if 1 <= id < t.db.nextJob {
        AppliedOnceIffDeleted(s, steps, id);
      }
    }
  }

  lemma FourPlaces(db: Db, p: set<int>, r: set<int>, f: set<int>, d: set<int>, all: set<int>)
    requires RowsOk(db)
    requires p == AllInStatus(db.jobs, Pending) && r == AllInStatus(db.jobs, Processing) && f == AllInStatus(db.jobs, Failed)
    requires forall id :: id in d <==> 1 <= id < db.nextJob && id !in db.jobs
    requires forall id :: id in all <==> 1 <= id < db.nextJob
    ensures p !! r !! f !! d && p + r + f + d == all
  {
    forall id | id in all ensures id in p + r + f + d {
      if id in db.jobs {
        assert RowOk(db, id);
      }
    }
    forall id | id in p + r + f + d ensures id in all {
      if id in db.jobs {
        assert RowOk(db, id);
      }
    }
    assert p + r + f + d == all;
    assert p !! r && (p + r) !! f;
    forall id | id in d ensures id !in p + r + f {
      assert id !in db.jobs;
    }
  }

  /** Every id ever issued is in exactly one of the four places, after any run. */
  lemma JobsConserved(s: World, steps: seq<Step>)
    requires Init(s) && Runs(s, steps)
    ensures var t := After(s, steps);
            var p, r, f, d := AllInStatus(t.db.jobs, Pending), AllInStatus(t.db.jobs, Processing), AllInStatus(t.db.jobs, Failed), Finished(t);
            && p !! r !! f !! d && p + r + f + d == Issued(t.db)
            && |p| + |r| + |f| + |d| == t.db.nextJob - 1
  {
    var t := After(s, steps);
    var p, r, f, d := AllInStatus(t.db.jobs, Pending), AllInStatus(t.db.jobs, Processing), AllInStatus(t.db.jobs, Failed), Finished(t);
    FinishedAreDeleted(s, steps);
    FourPlaces(t.db, p, r, f, d, Issued(t.db));
    Disjoint4(p, r, f, d);
    assert |Issued(t.db)| == t.db.nextJob - 1;
  }
}
