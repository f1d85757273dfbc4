/** The ingestion service: the stores' statements on the shared database handle and
    ProcessFile's sequence of them, inside and outside its transaction. */
module IngestService {
  import opened Text
  import opened Domain
  import opened Transactions
  import opened Store
  import opened Normalizer
  import opened Ingest

  class FileStore {
    const db: Database

    constructor (db: Database)
      ensures this.db == db
    {
      this.db := db;
    }

    /** Two statements of their own, outside the ingestion transaction. */
    method GetOrCreate(f: File, trouble: Trouble) returns (id: Option<int>)
      requires trouble != ReadFails
      modifies db
      ensures db.State() == if trouble == CreateFails then old(db.State()) else Ingest.GetOrCreate(old(db.State()), f)
      ensures trouble == CreateFails || trouble == CreateLost ==> id == None
      ensures trouble == LatestFails || trouble == NoTrouble ==>
                id == Some(FoundOrNew(old(db.State()), f))
    {
      if trouble == CreateFails {
        return None;
      }
      var found := FileId(db.State(), f);
      if found == 0 {
        found := db.nextFile;
        db.files, db.nextFile := db.files[found := f], found + 1;
      }
      id := if trouble == CreateLost then None else Some(found);
    }
  }

  class FileVersionStore {
    const db: Database

    constructor (db: Database)
      ensures this.db == db
    {
      this.db := db;
    }

    method InsertVersion(v: Version) returns (id: int)
      modifies db
      ensures id == old(db.nextVersion) && db.State() == Ingest.InsertVersion(old(db.State()), v)
    {
      id := db.nextVersion;
      db.versions, db.nextVersion := db.versions[id := v], id + 1;
    }

    method SetFlag(id: int, latest: bool)
      modifies db
      ensures db.State() == Flag(old(db.State()), id, latest)
    {
      if id in db.versions {
        db.versions := db.versions[id := db.versions[id].(isLatest := latest)];
      }
    }

    method SetLatest(newId: int, oldId: int)
      modifies db
      ensures db.State() == Ingest.SetLatest(old(db.State()), newId, oldId)
    {
      if oldId != 0 {
        SetFlag(oldId, false);
      }
      SetFlag(newId, true);
    }

    method CloneJunctions(oldId: int, newId: int) returns (ok: bool)
      modifies db
      ensures ok <==> Ingest.CloneJunctions(old(db.State()), oldId, newId).Some?
      ensures db.State() == if ok then Ingest.CloneJunctions(old(db.State()), oldId, newId).value else old(db.State())
    {
      var cloned := Cloned(db.State(), oldId, newId);
      ok := cloned * db.junctions == {};
      if ok {
        db.junctions := db.junctions + cloned;
      }
    }
  }

  class Service {
    const db: Database
    const files: FileStore
    const versions: FileVersionStore
    const projectId: int

    ghost predicate Wired() {
      files.db == db && versions.db == db
    }

    constructor (db: Database, projectId: int)
      ensures this.db == db && this.projectId == projectId && Wired()
    {
      this.db, this.projectId := db, projectId;
      files := new FileStore(db);
      versions := new FileVersionStore(db);
    }

    /** The body of the transaction, statement by statement; on an error the tables
        are left as they are, for the transaction to restore. */
    method IngestVersion(fileId: int, latestId: int, latestHash: Digest, content: string, astHash: Digest)
      returns (ok: bool)
      requires Wired()
      requires latestId == LatestId(db.State(), fileId)
      requires latestHash == if latestId in db.versions then db.versions[latestId].astHash else NoDigest
      modifies db
      ensures ok <==> VersionBody(old(db.State()), projectId, fileId, content, astHash).Some?
      ensures ok ==> db.State() == VersionBody(old(db.State()), projectId, fileId, content, astHash).value
    {
      var newId := versions.InsertVersion(Version(fileId, content, astHash, true, None));
      if latestHash == astHash {
        ok := versions.CloneJunctions(latestId, newId);
        if !ok {
          return;
        }
        versions.SetLatest(newId, latestId);
        return;
      }
      versions.SetLatest(newId, latestId);
      if latestId != 0 {
        db.jobs := ResetCompleted(db.State(), latestId).jobs;
      }
      db.EnqueueMany([Level1(projectId, newId)]);
      ok := true;
    }

    method ProcessFile(call: Call) returns (report: Report)
      requires Wired() && call.fault != WorkPanics
      modifies db
      ensures (db.State(), report) == Ingest.ProcessFile(old(db.State()), projectId, call)
    {
      if call.trouble == ReadFails {
        return Err;
      }
      var normalized := StripByLanguage(LanguageFromPath(call.path), call.content);
      var astHash := Sha256(normalized);
      var f := File(projectId, call.path);
      var fileId := files.GetOrCreate(f, call.trouble);
      if fileId == None || call.trouble == LatestFails {
        return Err;
      }
      var latestId := LatestId(db.State(), fileId.value);
      var latestHash := if latestId in db.versions then db.versions[latestId].astHash else NoDigest;
      if call.fault == BeginFails {
        return Err;
      }
      var saved := db.State();
      var ok := IngestVersion(fileId.value, latestId, latestHash, call.content, astHash);
      report := db.End(saved, if ok && call.fault != StatementFails then Finished else Failing, call.fault);
    }

    /** Every scanned file in turn; a file that fails is skipped. */
    method Run(calls: seq<Call>)
      requires Wired() && forall k :: 0 <= k < |calls| ==> calls[k].fault != WorkPanics
      modifies db
      ensures db.State() == ProcessFiles(old(db.State()), projectId, calls)
    {
      for i := 0 to |calls|
        invariant ProcessFiles(db.State(), projectId, calls[i..]) == ProcessFiles(old(db.State()), projectId, calls)
      {
        var report := ProcessFile(calls[i]);
        assert calls[i..][1..] == calls[i + 1..];
      }
    }
  }
}
