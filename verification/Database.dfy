/** The database handle: the stores' statements change its tables in place, the
    queue's operations wrap them in transactions that restore the tables on failure. */
module Store {
  import opened Text
  import opened Domain
  import opened Claims
  import opened Transactions
  import QueueOutcomes

  /** How a transaction body ended. */
  datatype Ending = Finished | Failing | Panicking

  class Database {
    var jobs: map<int, Job>
    var nextJob: int
    var deadLetters: seq<DeadLetter>
    var files: map<int, File>
    var nextFile: int
    var versions: map<int, Version>
    var nextVersion: int
    var features: map<int, Feature>
    var nextFeature: int
    var junctions: set<(int, int)>

    function State(): Db
      reads this
    {
      Db(jobs, nextJob, deadLetters, files, nextFile, versions, nextVersion, features, nextFeature, junctions)
    }

    /** The freshly migrated database. */
    constructor ()
      ensures State() == Db(map[], 1, [], map[], 1, map[], 1, map[], 1, {})
    {
      jobs, nextJob, deadLetters := map[], 1, [];
      files, nextFile, versions, nextVersion := map[], 1, map[], 1;
      features, nextFeature, junctions := map[], 1, {};
    }

    method Rollback(saved: Db)
      modifies this
      ensures State() == saved
    {
      jobs, nextJob, deadLetters := saved.jobs, saved.nextJob, saved.deadLetters;
      files, nextFile, versions, nextVersion := saved.files, saved.nextFile, saved.versions, saved.nextVersion;
      features, nextFeature, junctions := saved.features, saved.nextFeature, saved.junctions;
    }

    /** The deferred function of txn.Immediate. */
    method End(saved: Db, ending: Ending, fault: Fault) returns (report: Report)
      requires fault != BeginFails && (fault == StatementFails ==> ending == Failing)
      requires fault == WorkPanics <==> ending == Panicking
      modifies this
      ensures (State(), report)
           == Immediate(saved, if ending == Finished then Some(old(State())) else None, fault)
    {
      if ending == Panicking {
        Rollback(saved);
        report := Panic;
      } else if ending == Failing {
        Rollback(saved);
        report := Err;
      } else if fault == CommitFails {
        Rollback(saved);
        report := Err;
      } else {
        report := if fault == CommitLost then Err else Ok;
      }
    }

    // ---------- JobStore ----------

    method EnqueueMany(js: seq<NewJob>)
      modifies this
      ensures State() == InsertJobs(old(State()), js)
    {
      if js == [] {
        return;
      }
      for i := 0 to |js|
        invariant InsertJobs(State(), js[i..]) == InsertJobs(old(State()), js)
      {
        jobs, nextJob := jobs[nextJob := Job(js[i], Pending, 0)], nextJob + 1;
        assert js[i..][1..] == js[i + 1..];
      }
    }

    method SetStatus(id: int, status: JobStatus)
      modifies this
      ensures State() == UpdateStatus(old(State()), id, status)
    {
      if id in jobs {
        jobs := jobs[id := jobs[id].(status := status)];
      }
    }

    static method FirstOf(table: Jobs, s: set<int>) returns (x: int)
      requires s <= table.Keys && s != {}
      ensures IsFirst(table, s, x)
    {
      ghost var some := Member(s);
      x :| x in s;
      var left := s - {x};
      while left != {}
        invariant left <= s && x in s && x !in left
        invariant forall y :: y in s && y !in left && y != x ==> Before(table, x, y)
        decreases |left|
      {
        ghost var next := Member(left);
        var y :| y in left;
        if Before(table, y, x) {
          x := y;
        }
        left := left - {y};
      }
    }

    /** The claiming UPDATE ... RETURNING: which rows is fixed, in which order they come back is not. */
    method ClaimRows(limit: int) returns (rows: seq<ClaimedJob>)
      modifies this
      ensures State() == MarkProcessing(old(State()), Claimed(old(jobs), limit))
      ensures RowsOf(rows, jobs, Claimed(old(jobs), limit))
    {
      var chosen := SelectTop(jobs, limit);
      jobs := MarkProcessing(State(), chosen).jobs;
      rows := ReadRows(jobs, chosen);
    }

    static method ReadRows(table: Jobs, ids: set<int>) returns (rows: seq<ClaimedJob>)
      requires ids <= table.Keys
      ensures RowsOf(rows, table, ids)
    {
      rows := [];
      var unread := ids;
      while unread != {}
        invariant unread <= ids
        invariant RowsOf(rows, table, ids - unread)
        decreases |unread|
      {
        ghost var next := Member(unread);
        var id :| id in unread;
        RowsPush(rows, table, ids - unread, id);
        assert (ids - unread) + {id} == ids - (unread - {id});
        rows := rows + [ClaimedJob(id, table[id])];
        unread := unread - {id};
      }
    }

    static method SelectTop(table: Jobs, limit: int) returns (chosen: set<int>)
      ensures chosen == Claimed(table, limit)
    {
      var left := PendingIds(table);
      chosen := {};
      var n := Bound(limit, |left|);
      while |chosen| < n
        invariant chosen !! left && chosen + left == PendingIds(table) && |chosen| <= n
        invariant n <= |PendingIds(table)|
        invariant forall x, y :: x in chosen && y in left ==> Before(table, x, y)
      {
        assert |chosen + left| == |chosen| + |left|;
        var x := FirstOf(table, left);
        MoveFirst(table, chosen, left, x);
        chosen, left := chosen + {x}, left - {x};
      }
      assert left == PendingIds(table) - chosen;
      ClaimIsOnlyTop(table, limit, chosen);
    }

    // ---------- the work of a PARSE job ----------

    /** FeatureStore.Create: the unique index on (project, name) can refuse the row. */
    method CreateFeature(f: Feature) returns (id: Option<int>)
      modifies this
      ensures id == if FeatureNameTaken(old(State()), f) then None else Some(old(nextFeature))
      ensures State() == if id.Some? then InsertFeature(old(State()), f) else old(State())
    {
      if FeatureNameTaken(State(), f) {
        return None;
      }
      id := Some(nextFeature);
      features, nextFeature := features[nextFeature := f], nextFeature + 1;
    }

    /** FeatureStore.AddToFileVersion: either foreign key can refuse the row. */
    method AddToFileVersion(versionId: int, featureId: int) returns (ok: bool)
      modifies this
      ensures ok <==> versionId in versions && featureId in features
      ensures State() == if ok then AddJunction(old(State()), versionId, featureId) else old(State())
    {
      ok := versionId in versions && featureId in features;
      if ok {
        junctions := junctions + {(versionId, featureId)};
      }
    }

    /** The closure ParseHandler.Handle returns.  It may fail or panic at any of its
        statements, leaving the tables half changed; the transaction has to undo that. */
    method Perform(work: Work, fault: Fault) returns (ending: Ending)
      modifies this
      ensures fault == StatementFails ==> ending == Failing
      ensures fault == WorkPanics <==> ending == Panicking
      ensures fault != StatementFails && fault != WorkPanics ==>
                if DoWork(old(State()), work).Some?
                then ending == Finished && State() == DoWork(old(State()), work).value
                else ending == Failing
    {
      var stop := if fault == WorkPanics then Panicking else Failing;
      var troubled := fault == StatementFails || fault == WorkPanics;
      match work {
        case NoWork =>
        case ParseWork(p, v, summary, texts) =>
          if troubled {
            if * { return stop; }
          }
          if v in versions {
            versions := versions[v := versions[v].(summary := Some(summary))];
          }
          ghost var start := State();
          for i := 0 to |texts|
            invariant AddFeatures(State(), p, v, texts[i..]) == AddFeatures(start, p, v, texts)
          {
            if troubled {
              if * { return stop; }
            }
            var f := CreateFeature(FeatureRow(p, texts[i]));
            if f == None {
              return stop;
            }
            if troubled {
              if * { return stop; }
            }
            var ok := AddToFileVersion(v, f.value);
            if !ok {
              return stop;
            }
            assert texts[i..][1..] == texts[i + 1..];
          }
          if troubled {
            if * { return stop; }
          }
          EnqueueMany([Downstream(p, v)]);
      }
      ending := if troubled then stop else Finished;
    }

    // ---------- SQLiteQueue ----------

    method ClaimBatch(limit: int, fault: Fault) returns (rows: seq<ClaimedJob>, report: Report)
      requires fault != WorkPanics
      modifies this
      ensures (State(), report) == ClaimTx(old(State()), limit, fault)
      ensures report == Ok ==> RowsOf(rows, jobs, Claimed(old(jobs), limit))
      ensures report == Ok ==> forall r :: r in rows ==>
                r.id in old(jobs) && old(jobs)[r.id] == Job(r.row.order, Pending, r.row.retryCount) && r.row.status == Processing
      ensures report == Ok ==> forall r, y :: r in rows && y in jobs && jobs[y].status == Pending ==>
                r.row.order.priority > jobs[y].order.priority || (r.row.order.priority == jobs[y].order.priority && r.id < y)
    {
      rows := [];
      if fault == BeginFails {
        return rows, Err;
      }
      var saved := State();
      rows := ClaimRows(limit);
      ClaimedRows(saved, limit, rows);
      report := End(saved, if fault == StatementFails then Failing else Finished, fault);
    }

    method Complete(id: int, work: Work, fault: Fault) returns (report: Report)
      modifies this
      ensures (State(), report) == CompleteTx(old(State()), id, work, fault)
    {
      if fault == BeginFails {
        return Err;
      }
      var saved := State();
      var ending := Perform(work, fault);
      if ending == Finished {
        jobs := jobs - {id};
      }
      report := End(saved, ending, fault);
    }

    method Fail(id: int, payload: string, fault: Fault) returns (report: Report)
      requires fault != WorkPanics
      modifies this
      ensures (State(), report) == FailTx(old(State()), id, payload, fault)
      ensures report == Ok <==> id in old(jobs) && fault == Clean
      ensures !(id in old(jobs) && (fault == Clean || fault == CommitLost)) ==> State() == old(State())
      ensures id in old(jobs) && (fault == Clean || fault == CommitLost) ==>
                var row := old(jobs)[id];
                if row.retryCount < 3 then
                  && jobs == old(jobs)[id := Job(row.order, Pending, row.retryCount + 1)]
                  && deadLetters == old(deadLetters)
                else
                  && jobs == old(jobs)[id := Job(row.order, Failed, row.retryCount)]
                  && deadLetters == old(deadLetters) + [DeadLetter(id, payload, "max retries exceeded")]
    {
      if fault == BeginFails {
        return Err;
      }
      var saved := State();
      var ending := Finished;
      if id !in jobs {
        ending := Failing;
      } else {
        var retryCount := jobs[id].retryCount;
        if retryCount >= MAX_RETRIES {
          deadLetters := deadLetters + [DeadLetter(id, payload, "max retries exceeded")];
          SetStatus(id, Failed);
        } else {
          jobs := jobs[id := jobs[id].(status := Pending, retryCount := retryCount + 1)];
        }
      }
      report := End(saved, if fault == StatementFails then Failing else ending, fault);
      if id in saved.jobs && (fault == Clean || fault == CommitLost) {
        QueueOutcomes.FailOutcome(saved, id, payload, fault);
      } else {
        QueueOutcomes.FailWithoutEffect(saved, id, payload, fault);
      }
    }

    method Enqueue(js: seq<NewJob>, fault: Fault) returns (report: Report)
      requires fault != WorkPanics
      modifies this
      ensures (State(), report) == EnqueueTx(old(State()), js, fault)
    {
      if fault == BeginFails {
        return Err;
      }
      var saved := State();
      EnqueueMany(js);
      report := End(saved, if fault == StatementFails then Failing else Finished, fault);
    }
  }

  /** rows lists the rows with the given ids, each once, as they are in the table. */
  predicate RowsOf(rows: seq<ClaimedJob>, jobs: Jobs, ids: set<int>) {
    && DistinctIds(rows)
    && (forall i :: 0 <= i < |rows| ==> rows[i].id in jobs && jobs[rows[i].id] == rows[i].row)
    && ids == Ids(rows)
  }

  lemma RowsPush(rows: seq<ClaimedJob>, table: Jobs, ids: set<int>, id: int)
    requires RowsOf(rows, table, ids) && id in table && id !in ids
    ensures RowsOf(rows + [ClaimedJob(id, table[id])], table, ids + {id})
  {
    IdsPush(rows, ClaimedJob(id, table[id]));
    assert forall i :: 0 <= i < |rows| ==> rows[i].id in Ids(rows);
  }

  /** The rows of a claim, as they were before and as they are now, and the pending ones left behind. */
  lemma ClaimedRows(db: Db, limit: int, rows: seq<ClaimedJob>)
    requires RowsOf(rows, MarkProcessing(db, Claimed(db.jobs, limit)).jobs, Claimed(db.jobs, limit))
    ensures forall r :: r in rows ==>
              r.id in db.jobs && db.jobs[r.id] == Job(r.row.order, Pending, r.row.retryCount) && r.row.status == Processing
    ensures var after := MarkProcessing(db, Claimed(db.jobs, limit)).jobs;
            forall r, y :: r in rows && y in after && after[y].status == Pending ==>
              r.row.order.priority > after[y].order.priority || (r.row.order.priority == after[y].order.priority && r.id < y)
  {
    ClaimOrder(db.jobs, limit);
    forall r | r in rows ensures r.id in Claimed(db.jobs, limit) {
      var i :| 0 <= i < |rows| && rows[i] == r;
      assert rows[i].id in Ids(rows);
    }
  }
}
