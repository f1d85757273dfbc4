/** What one ingestion call leaves in the tables, row by row: the report, the file, the version,
    and every job of the queue; and that queued jobs always name a version of their own project. */
module IngestOutcomes {
  import opened Text
  import opened Domain
  import opened Claims
  import opened Transactions
  import opened Ingest
  import opened IngestLaws
  import opened Protocol
  import opened MixedRuns
  import opened WiredRuns
  import opened CommentLines
  import IngestRuns
  import Ownership

  // ---------- one call ----------

  /** The call succeeds exactly if nothing goes wrong. */
  lemma CallReport(db: Db, projectId: int, call: Call)
    requires IngestInv(db)
    ensures ProcessFile(db, projectId, call).1 == Ok <==> call.trouble == NoTrouble && call.fault == Clean
  {
    if call.trouble == NoTrouble {
      var f := File(projectId, call.path);
      GetOrCreateOk(db, f);
      TransactionReport(GetOrCreate(db, f), projectId, FoundOrNew(db, f), call.content, StructuralHash(call.path, call.content), call.fault);
    }
  }

  lemma TransactionReport(c: Db, projectId: int, fileId: int, content: string, hash: Digest, fault: Fault)
    requires IngestInv(c) && hash != NoDigest
    ensures Immediate(c, VersionBody(c, projectId, fileId, content, hash), fault).1 == Ok <==> fault == Clean
  {
    BodySucceeds(c, projectId, fileId, content, hash);
  }

  /** The file has its row unless reading it or the lookup failed, and no file row changes; without
      a commit nothing else does either. */
  lemma CallOutcome(db: Db, projectId: int, call: Call)
    requires IngestInv(db)
    ensures
      var d := ProcessFile(db, projectId, call).0;
      && (call.trouble == ReadFails || call.trouble == CreateFails ==> d == db)
      && (call.trouble != ReadFails && call.trouble != CreateFails ==>
            exists f :: f in d.files && d.files[f] == File(projectId, call.path))
      && (forall f :: f in db.files ==> f in d.files && d.files[f] == db.files[f])
      && (call.trouble != NoTrouble || call.fault !in {Clean, CommitLost} ==> d == db.(files := d.files, nextFile := d.nextFile))
  {
    var f := File(projectId, call.path);
    var c := GetOrCreate(db, f);
    FileKept(db, f);
    if IngestRuns.Commits(call) {
      IngestRuns.CommitIs(db, projectId, call, c);
      BodyVersions(c, projectId, FileId(c, f), call.content, StructuralHash(call.path, call.content));
    } else {
      IngestRuns.UncommittedCall(db, projectId, call);
    }
  }

  lemma FileKept(db: Db, f: File)
    requires IngestInv(db)
    ensures var d := GetOrCreate(db, f);
            && (forall g :: g in db.files ==> g in d.files && d.files[g] == db.files[g])
            && exists g :: g in d.files && d.files[g] == f
  {
    GetOrCreateOk(db, f);
    var g := FileId(GetOrCreate(db, f), f);
    assert g in GetOrCreate(db, f).files && GetOrCreate(db, f).files[g] == f;
  }

  /** The new version of the call and the file it belongs to. */
  lemma VersionRow(db: Db, projectId: int, call: Call)
    requires IngestInv(db) && IngestRuns.Commits(call)
    ensures
      var d := ProcessFile(db, projectId, call).0;
      && d.versions.Keys == db.versions.Keys + {db.nextVersion}
      && d.versions[db.nextVersion].fileId in d.files
      && d.files[d.versions[db.nextVersion].fileId] == File(projectId, call.path)
      && d.versions[db.nextVersion].content == call.content
      && d.versions[db.nextVersion].isLatest && d.versions[db.nextVersion].summary == None
      && (forall v :: v in db.versions && v != db.nextVersion ==> d.versions[v].fileId == db.versions[v].fileId)
  {
    var f := File(projectId, call.path);
    var c := GetOrCreate(db, f);
    GetOrCreateOk(db, f);
    IngestRuns.CommitIs(db, projectId, call, c);
    BodyVersions(c, projectId, FileId(c, f), call.content, StructuralHash(call.path, call.content));
  }

  /** A completed row of the outdated version goes back to pending, ten steps up; all others stay. */
  lemma InvalidatedRow(db: Db, oldId: int, id: int)
    requires id in db.jobs
    ensures
      var row := db.jobs[id];
      id in Invalidate(db, oldId).jobs
      && Invalidate(db, oldId).jobs[id]
         == if oldId != 0 && row.status == Completed && row.order.targetType == "File" && row.order.targetId == oldId
            then Job(row.order.(priority := row.order.priority + 10), Pending, row.retryCount)
            else row
  {
  }

  /** The queue after a committed call: untouched on a bypass; otherwise one new pending row for
      the version just created, in the ingesting project. */
  lemma JobRows(db: Db, projectId: int, call: Call)
    requires IngestInv(db) && Ownership.RowsOk(db) && IngestRuns.Commits(call)
    ensures
      var d := ProcessFile(db, projectId, call).0;
      var prev := IngestRuns.LatestOf(db, projectId, call.path);
      var same := prev in db.versions && IngestRuns.NormalForm(call.path, db.versions[prev].content) == IngestRuns.NormalForm(call.path, call.content);
      if same then d.jobs == db.jobs && d.nextJob == db.nextJob
      else
        && d.nextJob == db.nextJob + 1
        && d.jobs == db.jobs[db.nextJob := Job(NewJob(projectId, db.nextVersion, "File", "level_1_overview", 1), Pending, 0)]
  {
    IngestRuns.CommittedCall(db, projectId, call);
    IngestRuns.NothingToReset(db, IngestRuns.LatestOf(db, projectId, call.path));
  }

  // ---------- whole runs ----------

  /** Every queued job is for a version whose file is in the job's project. */
  ghost predicate JobsNameVersions(db: Db, projectId: int) {
    forall id :: id in db.jobs ==>
      var order := db.jobs[id].order;
      && order == NewJob(projectId, order.targetId, "File", "level_1_overview", 1)
      && order.targetId in db.versions
      && db.versions[order.targetId].fileId in db.files
      && db.files[db.versions[order.targetId].fileId].projectId == projectId
  }

  lemma CallKeepsNamed(db: Db, projectId: int, call: Call)
    requires IngestInv(db) && Ownership.RowsOk(db) && JobsNameVersions(db, projectId)
    ensures JobsNameVersions(ProcessFile(db, projectId, call).0, projectId)
  {
    CallOutcome(db, projectId, call);
    if IngestRuns.Commits(call) {
      JobRows(db, projectId, call);
      VersionRow(db, projectId, call);
      IdsPositive(db, 0);
    }
  }

  lemma WorkKeepsNamed(s: World, step: Step, projectId: int)
    requires Ownership.Inv(s) && OverviewsOnly(s.db) && JobsNameVersions(s.db, projectId)
    requires Enabled(s, step) && !step.OutsideStep?
    ensures JobsNameVersions(Next(s, step).db, projectId)
  {
    WorkKeeps(s, step);
    StepSameVersions(s, step);
    OrdersKept(s, step);
  }

  lemma OrdersKept(s: World, step: Step)
    requires Enabled(s, step) && !step.OutsideStep? && !step.CompleteStep?
    ensures Next(s, step).db.jobs.Keys == s.db.jobs.Keys
    ensures forall id :: id in s.db.jobs ==> Next(s, step).db.jobs[id].order == s.db.jobs[id].order
  {
  }

  lemma {:induction false} RunKeepsNamed(s: World, projectId: int, ms: seq<Move>, known: map<string, string>)
    requires Ownership.Inv(s) && IngestInv(s.db) && IngestRuns.Shows(s.db, projectId, known)
    requires CanRun(s, projectId, ms) && OverviewsOnly(s.db) && JobsNameVersions(s.db, projectId)
    ensures JobsNameVersions(Ran(s, projectId, ms).db, projectId)
    decreases |ms|
  {
    if ms != [] {
      MoveKeepsOverviews(s, projectId, ms[0], known);
      match ms[0] {
        case Work(step) => WorkKeepsNamed(s, step, projectId);
        case IngestFile(call) => CallKeepsNamed(s.db, projectId, call);
      }
      var step := MoveKeeps(s, projectId, ms[0], known);
      var next := if ms[0].IngestFile? then IngestRuns.Known(known, ms[0].call) else known;
      RunKeepsNamed(Moved(s, projectId, ms[0]), projectId, ms[1..], next);
    }
  }

  /** From empty tables on, over any interleaving of workers and ingestion. */
  lemma JobsAlwaysNameVersions(s: World, projectId: int, ms: seq<Move>)
    requires Empty(s) && CanRun(s, projectId, ms)
    ensures JobsNameVersions(Ran(s, projectId, ms).db, projectId)
  {
    EmptyIsReady(s, projectId);
    RunKeepsNamed(s, projectId, ms, map[]);
  }

  // ---------- commented files ----------

  /** A line of white space, or a line comment of the language of files with the extension e. */
  predicate Commentary(e: string, line: string, indent: string, text: string) {
    && White(indent) && '\n' !in text
    && (|| line == indent
        || (e != "py" && line == indent + "//" + text && Without(line, "/*") && Without(line, "*/"))
        || (e == "py" && line == indent + "#" + text && Without(line, "\"\"\"") && Without(line, "'''")))
  }

  lemma CommentaryIgnored(stem: string, ext: string, e: string, line: string, indent: string, text: string, a: string, b: string)
    requires e in {"go", "py", "js", "ts"} && |ext| == 3 && ext[0] == '.'
    requires forall i :: 0 <= i < |e| ==> ext[i + 1] == e[i] || ext[i + 1] == e[i] - 'a' + 'A'
    requires Commentary(e, line, indent, text) && (a == "" || a[|a| - 1] == '\n')
    ensures IngestRuns.NormalForm(stem + ext, Inserted(a, line, b)) == IngestRuns.NormalForm(stem + ext, a + b)
  {
    KnownFiles(stem, ext, e);
    var lang := LanguageFromPath(stem + ext);
    if line == indent {
      BlankLineIgnored(lang, indent, a, b);
    } else if e == "py" {
      HashCommentIgnored(indent, text, a, b);
    } else {
      SlashCommentIgnored(lang, indent, text, a, b);
    }
  }

  /** Adding such a line to a .go, .py, .js or .ts file, at any line boundary: the call stores the new
      content, enqueues nothing, and carries the features over. */
  lemma CommentaryBypasses(db: Db, projectId: int, stem: string, ext: string, e: string,
                           line: string, indent: string, text: string, a: string, b: string)
    requires IngestInv(db)
    requires e in {"go", "py", "js", "ts"} && |ext| == 3 && ext[0] == '.'
    requires forall i :: 0 <= i < |e| ==> ext[i + 1] == e[i] || ext[i + 1] == e[i] - 'a' + 'A'
    requires Commentary(e, line, indent, text) && (a == "" || a[|a| - 1] == '\n')
    requires IngestRuns.LatestContent(db, projectId, stem + ext) == Some(a + b)
    ensures
      var path := stem + ext;
      var d := ProcessFile(db, projectId, Call(path, Inserted(a, line, b), NoTrouble, Clean)).0;
      && d.jobs == db.jobs && d.nextJob == db.nextJob
      && IngestRuns.LatestContent(d, projectId, path) == Some(Inserted(a, line, b))
      && FeaturesOf(d, IngestRuns.LatestOf(d, projectId, path)) == FeaturesOf(db, IngestRuns.LatestOf(db, projectId, path))
  {
    CommentaryIgnored(stem, ext, e, line, indent, text, a, b);
    IngestRuns.CommittedCall(db, projectId, Call(stem + ext, Inserted(a, line, b), NoTrouble, Clean));
  }
}
