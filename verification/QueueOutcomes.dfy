/** What the queue's transactions leave in the tables, row by row and in numbers: claims,
    failures and their retries, completed PARSE jobs, and one job handled from end to end. */
module QueueOutcomes {
  import opened Text
  import opened Domain
  import opened Claims
  import opened Transactions

  // ---------- transactions ----------

  /** Nothing but a clean commit and a commit with a lost reply has any effect, and only the
      first is reported as a success. */
  lemma TransactionOutcome(db: Db, body: Option<Db>, fault: Fault)
    ensures
      var (d, report) := Immediate(db, body, fault);
      && d == (if body.Some? && (fault == Clean || fault == CommitLost) then body.value else db)
      && (report == Ok <==> body.Some? && fault == Clean)
      && (report == Panic <==> fault == WorkPanics)
  {
  }

  // ---------- claiming ----------

  /** A committed claim turns the chosen rows to processing and leaves everything else as it is. */
  lemma ClaimOutcome(db: Db, limit: int, fault: Fault)
    requires fault == Clean || fault == CommitLost
    ensures
      var d := ClaimTx(db, limit, fault).0;
      && d == db.(jobs := d.jobs) && d.jobs.Keys == db.jobs.Keys
      && forall id :: id in db.jobs ==>
           d.jobs[id] == if id in Claimed(db.jobs, limit) then Job(db.jobs[id].order, Processing, db.jobs[id].retryCount)
                         else db.jobs[id]
  {
  }

  // ---------- failing ----------

  /** The first three failures put the job back with one more retry; the fourth parks it with a
      dead letter that carries the reported text. */
  lemma FailOutcome(db: Db, id: int, payload: string, fault: Fault)
    requires id in db.jobs && (fault == Clean || fault == CommitLost)
    ensures
      var row := db.jobs[id];
      FailTx(db, id, payload, fault).0
      == if row.retryCount < 3
         then db.(jobs := db.jobs[id := Job(row.order, Pending, row.retryCount + 1)])
         else db.(jobs := db.jobs[id := Job(row.order, Failed, row.retryCount)],
                  deadLetters := db.deadLetters + [DeadLetter(id, payload, "max retries exceeded")])
  {
  }

  /** A failure that does not commit, or that comes for a row that is gone, changes nothing. */
  lemma FailWithoutEffect(db: Db, id: int, payload: string, fault: Fault)
    requires id !in db.jobs || !(fault == Clean || fault == CommitLost)
    ensures FailTx(db, id, payload, fault).0 == db && FailTx(db, id, payload, fault).1 != Ok
  {
  }

  // ---------- completing a PARSE job ----------

  /** Feature ids are handed out in order. */
  predicate FreshFeatureIds(db: Db) {
    forall f :: f in db.features ==> f < db.nextFeature
  }

  /** The names are new to the project and to each other. */
  predicate NewNames(db: Db, projectId: int, texts: seq<FeatureText>) {
    && (forall f, i :: f in db.features && db.features[f].projectId == projectId && 0 <= i < |texts| ==>
          db.features[f].name != texts[i].name)
    && (forall i, j :: 0 <= i < j < |texts| ==> texts[i].name != texts[j].name)
  }

  /** What the feature loop leaves: one row and one link for each text, in order. */
  ghost predicate FeaturesAdded(db: Db, d: Db, projectId: int, versionId: int, texts: seq<FeatureText>) {
    && d.nextFeature == db.nextFeature + |texts|
    && (forall i :: 0 <= i < |texts| ==>
          db.nextFeature + i in d.features
          && d.features[db.nextFeature + i] == Feature(projectId, texts[i].name, texts[i].description))
    && (forall f :: f in d.features <==> f in db.features || db.nextFeature <= f < db.nextFeature + |texts|)
    && (forall f :: f in db.features ==> d.features[f] == db.features[f])
    && (forall v, f :: (v, f) in d.junctions <==>
          (v, f) in db.junctions || (v == versionId && db.nextFeature <= f < db.nextFeature + |texts|))
  }

  lemma {:induction false} AddFeaturesOutcome(db: Db, projectId: int, versionId: int, texts: seq<FeatureText>)
    requires FreshFeatureIds(db)
    ensures AddFeatures(db, projectId, versionId, texts).Some?
            <==> (texts == [] || versionId in db.versions) && NewNames(db, projectId, texts)
    ensures AddFeatures(db, projectId, versionId, texts).Some? ==>
              var d := AddFeatures(db, projectId, versionId, texts).value;
              && FeaturesAdded(db, d, projectId, versionId, texts)
              && d == db.(features := d.features, nextFeature := d.nextFeature, junctions := d.junctions)
    decreases |texts|
  {
    if texts != [] {
      FirstFeature(db, projectId, versionId, texts);
    }
  }

  lemma FirstFeature(db: Db, projectId: int, versionId: int, texts: seq<FeatureText>)
    requires FreshFeatureIds(db) && texts != []
    ensures AddFeatures(db, projectId, versionId, texts).Some?
            <==> (texts == [] || versionId in db.versions) && NewNames(db, projectId, texts)
    ensures AddFeatures(db, projectId, versionId, texts).Some? ==>
              var d := AddFeatures(db, projectId, versionId, texts).value;
              && FeaturesAdded(db, d, projectId, versionId, texts)
              && d == db.(features := d.features, nextFeature := d.nextFeature, junctions := d.junctions)
    decreases |texts|, 0
  {
    var row := FeatureRow(projectId, texts[0]);
    if !FeatureNameTaken(db, row) && versionId in db.versions {
      var e := AddJunction(InsertFeature(db, row), versionId, db.nextFeature);
      AddFeaturesOutcome(e, projectId, versionId, texts[1..]);
      NamesStep(db, e, projectId, texts);
      if AddFeatures(e, projectId, versionId, texts[1..]).Some? {
        AddedStep(db, e, AddFeatures(e, projectId, versionId, texts[1..]).value, projectId, versionId, texts);
      }
    } else if FeatureNameTaken(db, row) {
      var f :| f in db.features && db.features[f].projectId == row.projectId && db.features[f].name == row.name;
      assert db.features[f].name == texts[0].name;
    }
  }

  lemma NamesStep(db: Db, e: Db, projectId: int, texts: seq<FeatureText>)
    requires texts != [] && FreshFeatureIds(db) && !FeatureNameTaken(db, FeatureRow(projectId, texts[0]))
    requires e.features == db.features[db.nextFeature := Feature(projectId, texts[0].name, texts[0].description)]
    ensures NewNames(db, projectId, texts) <==> NewNames(e, projectId, texts[1..])
  {
    var rest := texts[1..];
    assert forall i :: 1 <= i < |texts| ==> texts[i] == rest[i - 1];
    if NewNames(e, projectId, rest) {
      forall i, j | 0 <= i < j < |texts| ensures texts[i].name != texts[j].name {
        assert e.features[db.nextFeature].name == texts[0].name && texts[j] == rest[j - 1];
      }
      forall f, i | f in db.features && db.features[f].projectId == projectId && 0 <= i < |texts|
        ensures db.features[f].name != texts[i].name
      {
        assert f != db.nextFeature && e.features[f] == db.features[f];
      }
    }
  }

  lemma AddedStep(db: Db, e: Db, d: Db, projectId: int, versionId: int, texts: seq<FeatureText>)
    requires texts != [] && FreshFeatureIds(db) && FeaturesAdded(e, d, projectId, versionId, texts[1..])
    requires e.features == db.features[db.nextFeature := Feature(projectId, texts[0].name, texts[0].description)]
    requires e.nextFeature == db.nextFeature + 1 && e.junctions == db.junctions + {(versionId, db.nextFeature)}
    ensures FeaturesAdded(db, d, projectId, versionId, texts)
  {
    var rest := texts[1..];
    forall i | 0 <= i < |texts|
      ensures db.nextFeature + i in d.features
      ensures d.features[db.nextFeature + i] == Feature(projectId, texts[i].name, texts[i].description)
    {
      if i > 0 {
        assert e.nextFeature + (i - 1) in d.features && texts[i] == rest[i - 1];
      } else {
        assert db.nextFeature in e.features;
      }
    }
  }

  /** The closure of a PARSE job can commit exactly if the version is there and the names are new. */
  lemma CompletesIff(db: Db, id: int, projectId: int, versionId: int, summary: string, texts: seq<FeatureText>)
    requires FreshFeatureIds(db)
    ensures CompleteBody(db, id, ParseWork(projectId, versionId, summary, texts)).Some?
            <==> (texts == [] || versionId in db.versions) && NewNames(db, projectId, texts)
  {
    var u := UpdateSummary(db, versionId, summary);
    AddFeaturesOutcome(u, projectId, versionId, texts);
    SummaryApart(db, u, projectId, versionId, texts);
  }

  /** What it leaves: the summary of the version, one feature and link per text, one downstream
      job, and the job's own row gone. */
  lemma CompleteOutcome(db: Db, id: int, projectId: int, versionId: int, summary: string, texts: seq<FeatureText>)
    requires FreshFeatureIds(db) && CompleteBody(db, id, ParseWork(projectId, versionId, summary, texts)).Some?
    ensures
      var d := CompleteBody(db, id, ParseWork(projectId, versionId, summary, texts)).value;
      && d.jobs == db.jobs[db.nextJob := Job(NewJob(projectId, versionId, "FILE_VERSION", "ANALYZE_STYLE", 5), Pending, 0)] - {id}
      && d.nextJob == db.nextJob + 1
      && d.versions.Keys == db.versions.Keys
      && (forall v :: v in db.versions ==>
            d.versions[v] == if v == versionId then db.versions[v].(summary := Some(summary)) else db.versions[v])
      && FeaturesAdded(db, d, projectId, versionId, texts)
      && d.deadLetters == db.deadLetters && d.files == db.files
      && d.nextFile == db.nextFile && d.nextVersion == db.nextVersion
  {
    var u := UpdateSummary(db, versionId, summary);
    AddFeaturesOutcome(u, projectId, versionId, texts);
    var e := AddFeatures(u, projectId, versionId, texts).value;
    DownstreamRow(e, id, projectId, versionId);
    SameFeatures(db, u, e, DeleteJob(InsertJob(e, Downstream(projectId, versionId)), id), projectId, versionId, texts);
  }

  lemma DownstreamRow(e: Db, id: int, projectId: int, versionId: int)
    ensures DeleteJob(InsertJob(e, Downstream(projectId, versionId)), id)
         == e.(jobs := e.jobs[e.nextJob := Job(NewJob(projectId, versionId, "FILE_VERSION", "ANALYZE_STYLE", 5), Pending, 0)] - {id},
               nextJob := e.nextJob + 1)
  {
  }

  lemma SameFeatures(db: Db, u: Db, e: Db, d: Db, projectId: int, versionId: int, texts: seq<FeatureText>)
    requires u == db.(versions := u.versions) && FeaturesAdded(u, e, projectId, versionId, texts)
    requires d == e.(jobs := d.jobs, nextJob := d.nextJob)
    ensures FeaturesAdded(db, d, projectId, versionId, texts)
  {
  }

  lemma SummaryApart(db: Db, u: Db, projectId: int, versionId: int, texts: seq<FeatureText>)
    requires u == db.(versions := u.versions)
    ensures NewNames(u, projectId, texts) <==> NewNames(db, projectId, texts)
  {
  }

  // ---------- one job from end to end ----------

  /** What a dispatch that hands over no work reports. */
  function RefusalText(db: Db, order: NewJob, registered: bool, reply: Reply): string {
    if order.stage != "PARSE" then "unknown job stage: " + order.stage
    else if !registered then "no handler registered for stage: " + order.stage
    else if order.targetId !in db.versions then "failed to get file version: not found"
    else
      match reply
      case Parsed(_, _) => ""
      case HandlerError(m) => m
      case HandlerPanics(m) => "panic: " + m
  }

  predicate HandsOver(db: Db, order: NewJob, registered: bool, reply: Reply) {
    order.stage == "PARSE" && registered && order.targetId in db.versions && reply.Parsed?
  }

  /** The handler's result is stored under the job's own project and version; if it cannot be, the
      failure report says so; and a completion that committed although it was reported as failed
      stays committed. */
  lemma ParsedOutcome(db: Db, job: ClaimedJob, registered: bool, reply: Reply, completing: Fault, failing: Fault)
    requires HandsOver(db, job.row.order, registered, reply)
    ensures
      var order := job.row.order;
      var body := CompleteBody(db, job.id, ParseWork(order.projectId, order.targetId, reply.summary, reply.features));
      ProcessJob(db, job, registered, reply, completing, failing)
      == if body.Some? && (completing == Clean || completing == CommitLost) then body.value
         else FailTx(db, job.id, if completing == WorkPanics then "panic: " else "completion error: ", failing).0
  {
    var order := job.row.order;
    var work := ParseWork(order.projectId, order.targetId, reply.summary, reply.features);
    assert Dispatch(db, order, registered, reply) == Hand(work);
    HandedOver(db, job, work, completing, failing);
  }

  /** Every other job is reported as failed, with the dispatcher's or the handler's own text. */
  lemma RefusedOutcome(db: Db, job: ClaimedJob, registered: bool, reply: Reply, completing: Fault, failing: Fault)
    requires !HandsOver(db, job.row.order, registered, reply)
    ensures ProcessJob(db, job, registered, reply, completing, failing)
         == FailTx(db, job.id, RefusalText(db, job.row.order, registered, reply), failing).0
  {
    Refusal(db, job.row.order, registered, reply);
  }

  lemma Refusal(db: Db, order: NewJob, registered: bool, reply: Reply)
    requires !HandsOver(db, order, registered, reply)
    ensures
      var text := RefusalText(db, order, registered, reply);
      Dispatch(db, order, registered, reply) in {Refused(text), Crashed(text)}
  {
  }

  lemma HandedOver(db: Db, job: ClaimedJob, work: Work, completing: Fault, failing: Fault)
    ensures
      var body := CompleteBody(db, job.id, work);
      var (d, report) := CompleteTx(db, job.id, work, completing);
      (if report == Ok then d else FailTx(d, job.id, CompletionPayload(report), failing).0)
      == if body.Some? && (completing == Clean || completing == CommitLost) then body.value
         else FailTx(db, job.id, if completing == WorkPanics then "panic: " else "completion error: ", failing).0
  {
    TransactionOutcome(db, CompleteBody(db, job.id, work), completing);
    if CompleteBody(db, job.id, work).Some? && completing == CommitLost {
      FailWithoutEffect(CompleteBody(db, job.id, work).value, job.id, CompletionPayload(Err), failing);
    }
  }
}
