/** Versioned ingestion on database values: the file and version statements and what
    one ProcessFile call does, bypass or structural change. */
module Ingest {
  import opened Text
  import opened Domain
  import opened Transactions
  import opened Normalizer

  // ---------- language detection ----------

  /** filepath.Ext: from the last dot of the last path element, or nothing. */
  function Ext(path: string): string {
    if path == "" || path[|path| - 1] == '/' then ""
    else if path[|path| - 1] == '.' then "."
    else
      var e := Ext(path[..|path| - 1]);
      if e == "" then "" else e + [path[|path| - 1]]
  }

  function LanguageFromPath(path: string): string {
    var e := ToLower(Ext(path));
    if e == ".go" then "go"
    else if e == ".py" then "python"
    else if e == ".js" then "javascript"
    else if e == ".ts" then "typescript"
    else ""
  }

  function StructuralHash(path: string, content: string): Digest {
    Sha256(Normalize(LanguageFromPath(path), content))
  }

  // ---------- statements ----------

  /** The first id from i on, below n, whose row is the given file; 0 if there is none. */
  function FindFile(files: map<int, File>, f: File, i: int, n: int): int
    decreases n - i
  {
    if i >= n then 0
    else if i in files && files[i] == f then i
    else FindFile(files, f, i + 1, n)
  }

  function FileId(db: Db, f: File): int {
    FindFile(db.files, f, 1, db.nextFile)
  }

  function InsertFile(db: Db, f: File): Db {
    db.(files := db.files[db.nextFile := f], nextFile := db.nextFile + 1)
  }

  /** The first version of the file flagged as latest; 0 if there is none. */
  function FindLatest(versions: map<int, Version>, fileId: int, i: int, n: int): int
    decreases n - i
  {
    if i >= n then 0
    else if i in versions && versions[i].fileId == fileId && versions[i].isLatest then i
    else FindLatest(versions, fileId, i + 1, n)
  }

  function LatestId(db: Db, fileId: int): int {
    FindLatest(db.versions, fileId, 1, db.nextVersion)
  }

  function InsertVersion(db: Db, v: Version): Db {
    db.(versions := db.versions[db.nextVersion := v], nextVersion := db.nextVersion + 1)
  }

  function Flag(db: Db, versionId: int, latest: bool): Db {
    if versionId in db.versions
    then db.(versions := db.versions[versionId := db.versions[versionId].(isLatest := latest)])
    else db
  }

  function SetLatest(db: Db, newId: int, oldId: int): Db {
    Flag(if oldId != 0 then Flag(db, oldId, false) else db, newId, true)
  }

  function Cloned(db: Db, oldId: int, newId: int): set<(int, int)> {
    set f | f in FeaturesOf(db, oldId) :: (newId, f)
  }

  /** INSERT ... SELECT: one duplicate primary key fails the whole statement. */
  function CloneJunctions(db: Db, oldId: int, newId: int): Option<Db> {
    var cloned := Cloned(db, oldId, newId);
    if cloned * db.junctions != {} then None else Some(db.(junctions := db.junctions + cloned))
  }

  function Invalidate(db: Db, oldId: int): Db {
    if oldId != 0 then ResetCompleted(db, oldId) else db
  }

  function Level1(projectId: int, versionId: int): NewJob {
    NewJob(projectId, versionId, "File", LEVEL_1_OVERVIEW, 1)
  }

  // ---------- ProcessFile ----------

  /** What can go wrong before the transaction; CreateLost created the file row all the same. */
  datatype Trouble = NoTrouble | ReadFails | CreateFails | CreateLost | LatestFails

  datatype Call = Call(path: string, content: string, trouble: Trouble, fault: Fault)

  function GetOrCreate(db: Db, f: File): Db {
    if FileId(db, f) != 0 then db else InsertFile(db, f)
  }

  /** The id GetOrCreate returns. */
  function FoundOrNew(db: Db, f: File): int {
    if FileId(db, f) != 0 then FileId(db, f) else db.nextFile
  }

  /** The transaction: insert the version, then either clone and flip, or flip,
      invalidate and enqueue. */
  function VersionBody(db: Db, projectId: int, fileId: int, content: string, hash: Digest): Option<Db> {
    var oldId := LatestId(db, fileId);
    var oldHash := if oldId in db.versions then db.versions[oldId].astHash else NoDigest;
    var newId := db.nextVersion;
    var d := InsertVersion(db, Version(fileId, content, hash, true, None));
    if oldHash == hash then
      match CloneJunctions(d, oldId, newId)
      case None => None
      case Some(c) => Some(SetLatest(c, newId, oldId))
    else
      Some(InsertJob(Invalidate(SetLatest(d, newId, oldId), oldId), Level1(projectId, newId)))
  }

  /** The effect of one call on the database, and what the caller is told. */
  function ProcessFile(db: Db, projectId: int, call: Call): (Db, Report) {
    var f := File(projectId, call.path);
    match call.trouble
    case ReadFails => (db, Err)
    case CreateFails => (db, Err)
    case CreateLost => (GetOrCreate(db, f), Err)
    case LatestFails => (GetOrCreate(db, f), Err)
    case NoTrouble =>
      var d := GetOrCreate(db, f);
      Immediate(d, VersionBody(d, projectId, FoundOrNew(db, f), call.content, StructuralHash(call.path, call.content)), call.fault)
  }

  /** One call after the other. */
  function ProcessFiles(db: Db, projectId: int, calls: seq<Call>): Db
    decreases |calls|
  {
    if calls == [] then db else ProcessFiles(ProcessFile(db, projectId, calls[0]).0, projectId, calls[1..])
  }
}
