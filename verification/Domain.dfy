/** The rows of the embedded database and the database as a value. */
module Domain {
  import opened Text

  datatype JobStatus = Pending | Processing | Completed | Failed | DeadLettered

  /** What a caller supplies for a new row of job_queue. */
  datatype NewJob = NewJob(projectId: int, targetId: int, targetType: string, stage: string, priority: int)

  /** A row of job_queue; its id is the key it is stored under. */
  datatype Job = Job(order: NewJob, status: JobStatus, retryCount: int)

  /** A row as a claim returns it. */
  datatype ClaimedJob = ClaimedJob(id: int, row: Job)

  function Ids(rows: seq<ClaimedJob>): set<int> {
    set i | 0 <= i < |rows| :: rows[i].id
  }

  predicate DistinctIds(rows: seq<ClaimedJob>) {
    forall i, j :: 0 <= i < j < |rows| ==> rows[i].id != rows[j].id
  }

  lemma IdsPush(rows: seq<ClaimedJob>, r: ClaimedJob)
    ensures Ids(rows + [r]) == Ids(rows) + {r.id}
  {
    var more := rows + [r];
    assert more[|rows|] == r;
    forall i | 0 <= i < |rows| ensures rows[i].id in Ids(more) {
      assert more[i] == rows[i];
    }
    forall i | 0 <= i < |more| ensures more[i].id in Ids(rows) + {r.id} {
      assert i < |rows| ==> more[i] == rows[i];
    }
  }

  datatype DeadLetter = DeadLetter(jobId: int, payload: string, reason: string)

  datatype File = File(projectId: int, path: string)

  /** SHA-256 as an ideal hash: digests are equal just when the hashed texts are, and
      no digest equals the empty string that stands for "no previous version". */
  datatype Digest = NoDigest | Sha256(text: string)

  datatype Version = Version(fileId: int, content: string, astHash: Digest, isLatest: bool, summary: Option<string>)

  datatype Feature = Feature(projectId: int, name: string, description: string)

  /** One consistent state of the tables.  The next... counters are the AUTOINCREMENT
      sequences: an id is never handed out twice, also not after its row is deleted. */
  datatype Db = Db(
    jobs: map<int, Job>, nextJob: int,
    deadLetters: seq<DeadLetter>,
    files: map<int, File>, nextFile: int,
    versions: map<int, Version>, nextVersion: int,
    features: map<int, Feature>, nextFeature: int,
    junctions: set<(int, int)>)

  const PARSE: string := "PARSE"
  const ANALYZE_STYLE: string := "ANALYZE_STYLE"
  const LEVEL_1_OVERVIEW: string := "level_1_overview"
  const MAX_RETRIES := 3

  // ---------- job_queue and dead_letter_queue, statement by statement ----------

  /** INSERT INTO job_queue of one row. */
  function InsertJob(db: Db, j: NewJob): Db {
    db.(jobs := db.jobs[db.nextJob := Job(j, Pending, 0)], nextJob := db.nextJob + 1)
  }

  function InsertJobs(db: Db, js: seq<NewJob>): Db
    decreases |js|
  {
    if js == [] then db else InsertJobs(InsertJob(db, js[0]), js[1..])
  }

  /** UPDATE job_queue SET status WHERE id: no row, no change. */
  function UpdateStatus(db: Db, id: int, status: JobStatus): Db {
    if id in db.jobs then db.(jobs := db.jobs[id := db.jobs[id].(status := status)]) else db
  }

  function Retry(db: Db, id: int): Db
    requires id in db.jobs
  {
    var row := db.jobs[id];
    db.(jobs := db.jobs[id := row.(status := Pending, retryCount := row.retryCount + 1)])
  }

  function DeleteJob(db: Db, id: int): Db {
    db.(jobs := db.jobs - {id})
  }

  function InsertDeadLetter(db: Db, id: int, payload: string): Db {
    db.(deadLetters := db.deadLetters + [DeadLetter(id, payload, "max retries exceeded")])
  }

  /** Flip a set of rows to processing. */
  function MarkProcessing(db: Db, ids: set<int>): Db {
    db.(jobs := map id | id in db.jobs :: if id in ids then db.jobs[id].(status := Processing) else db.jobs[id])
  }

  /** completed rows of an outdated version go back to pending, ten priority steps up. */
  function ResetCompleted(db: Db, versionId: int): Db {
    db.(jobs := map id | id in db.jobs ::
      var row := db.jobs[id];
      if row.order.targetType == "File" && row.order.targetId == versionId && row.status == Completed
      then row.(status := Pending, order := row.order.(priority := row.order.priority + 10))
      else row)
  }

  // ---------- features and junctions ----------

  predicate FeatureNameTaken(db: Db, f: Feature) {
    exists id :: id in db.features && db.features[id].projectId == f.projectId && db.features[id].name == f.name
  }

  function InsertFeature(db: Db, f: Feature): Db {
    db.(features := db.features[db.nextFeature := f], nextFeature := db.nextFeature + 1)
  }

  function AddJunction(db: Db, versionId: int, featureId: int): Db {
    db.(junctions := db.junctions + {(versionId, featureId)})
  }

  function FeaturesOf(db: Db, versionId: int): set<int> {
    set p | p in db.junctions && p.0 == versionId :: p.1
  }

  /** UPDATE file_versions SET summary WHERE id. */
  function UpdateSummary(db: Db, versionId: int, summary: string): Db {
    if versionId in db.versions
    then db.(versions := db.versions[versionId := db.versions[versionId].(summary := Some(summary))])
    else db
  }
}
