/** What ingestion promises: one latest version per file, one extraction job per
    structural change, features carried along a bypass. */
module IngestLaws {
  import opened Text
  import opened Domain
  import opened Transactions
  import opened Normalizer
  import opened NormalizerLaws
  import opened Ingest
  import Claims

  // ---------- the invariant ----------

  ghost predicate FilesOk(db: Db) {
    && db.nextFile >= 1
    && (forall i :: i in db.files ==> 1 <= i < db.nextFile)
    && (forall i, j :: i in db.files && j in db.files && db.files[i] == db.files[j] ==> i == j)
  }

  ghost predicate Newest(db: Db, v: int)
    requires v in db.versions
  {
    forall u :: u in db.versions && db.versions[u].fileId == db.versions[v].fileId ==> u <= v
  }

  /** Flagged as latest just when it is the newest of its file. */
  ghost predicate FlagOk(db: Db, v: int)
    requires v in db.versions
  {
    1 <= v < db.nextVersion && (db.versions[v].isLatest <==> Newest(db, v))
  }

  ghost predicate FlagsOk(db: Db) {
    db.nextVersion >= 1 && forall v :: v in db.versions ==> FlagOk(db, v)
  }

  predicate HashOk(db: Db, v: int)
    requires v in db.versions
  {
    var row := db.versions[v];
    row.fileId in db.files && row.astHash == StructuralHash(db.files[row.fileId].path, row.content)
  }

  ghost predicate VersionsOk(db: Db) {
    && FlagsOk(db)
    && (forall v :: v in db.versions ==> HashOk(db, v))
    && (forall p :: p in db.junctions ==> p.0 < db.nextVersion)
  }

  /** (project, path) names one file; of a file's versions exactly the one with the
      greatest id is flagged, and every version holds the hash of its content. */
  ghost predicate IngestInv(db: Db) {
    FilesOk(db) && VersionsOk(db)
  }

  // ---------- lookups ----------

  lemma {:induction false} FindFileExact(files: map<int, File>, f: File, i: int, n: int)
    requires i >= 1
    ensures var r := FindFile(files, f, i, n);
            if r == 0 then forall k :: i <= k < n && k in files ==> files[k] != f
            else i <= r < n && r in files && files[r] == f
    decreases n - i
  {
    if i < n && !(i in files && files[i] == f) {
      FindFileExact(files, f, i + 1, n);
    }
  }

  lemma FileIdExact(db: Db, f: File)
    requires FilesOk(db)
    ensures var r := FileId(db, f);
            if r == 0 then forall k :: k in db.files ==> db.files[k] != f else r in db.files && db.files[r] == f
  {
    FindFileExact(db.files, f, 1, db.nextFile);
  }

  lemma {:induction false} FindLatestExact(versions: map<int, Version>, fileId: int, i: int, n: int)
    requires i >= 1
    ensures var r := FindLatest(versions, fileId, i, n);
            if r == 0 then forall k :: i <= k < n && k in versions && versions[k].fileId == fileId ==> !versions[k].isLatest
            else i <= r < n && r in versions && versions[r].fileId == fileId && versions[r].isLatest
    decreases n - i
  {
    if i < n && !(i in versions && versions[i].fileId == fileId && versions[i].isLatest) {
      FindLatestExact(versions, fileId, i + 1, n);
    }
  }

  /** A non-empty set of ids has a greatest element. */
  lemma {:induction false} Greatest(s: set<int>) returns (m: int)
    requires s != {}
    ensures m in s && forall x :: x in s ==> x <= m
    decreases |s|
  {
    var some := Claims.Member(s);
    var rest := s - {some};
    m := some;
    if rest != {} {
      var k := Greatest(rest);
      if k > some {
        m := k;
      }
    }
    assert forall x :: x in s ==> x == some || x in rest;
  }

  lemma NoLatestNoVersion(db: Db, fileId: int)
    requires FlagsOk(db) && LatestId(db, fileId) == 0
    ensures forall v :: v in db.versions ==> db.versions[v].fileId != fileId
  {
    FindLatestExact(db.versions, fileId, 1, db.nextVersion);
    var own := set v | v in db.versions && db.versions[v].fileId == fileId;
    if own != {} {
      var m := Greatest(own);
      forall u | u in db.versions && db.versions[u].fileId == db.versions[m].fileId ensures u <= m {
        assert u in own;
      }
    } else {
      assert forall v :: v in db.versions && db.versions[v].fileId == fileId ==> v in own;
    }
  }

  /** The latest version of a file exists as soon as any version does, and it is the newest. */
  lemma LatestExact(db: Db, fileId: int)
    requires FlagsOk(db)
    ensures var r := LatestId(db, fileId);
            if r == 0 then forall v :: v in db.versions ==> db.versions[v].fileId != fileId
            else r in db.versions && db.versions[r].fileId == fileId && db.versions[r].isLatest && Newest(db, r)
  {
    var r := LatestId(db, fileId);
    if r == 0 {
      NoLatestNoVersion(db, fileId);
    } else {
      FindLatestExact(db.versions, fileId, 1, db.nextVersion);
      assert FlagOk(db, r);
    }
  }

  // ---------- one call ----------

  lemma FileIdIs(db: Db, f: File, i: int)
    requires FilesOk(db) && i in db.files && db.files[i] == f
    ensures FileId(db, f) == i
  {
    FileIdExact(db, f);
  }

  lemma InsertFileIds(db: Db, f: File, g: File)
    requires FilesOk(db) && FileId(db, f) == 0
    ensures FilesOk(InsertFile(db, f))
    ensures FileId(InsertFile(db, f), g) == if g == f then db.nextFile else FileId(db, g)
  {
    var d := InsertFile(db, f);
    FileIdExact(db, f);
    FileIdExact(db, g);
    if g == f {
      FileIdIs(d, g, db.nextFile);
    } else if FileId(db, g) != 0 {
      FileIdIs(d, g, FileId(db, g));
    } else {
      FileIdExact(d, g);
    }
  }

  lemma GetOrCreateOk(db: Db, f: File)
    requires IngestInv(db)
    ensures var d := GetOrCreate(db, f);
            && IngestInv(d) && FileId(d, f) in d.files && d.files[FileId(d, f)] == f
            && d == db.(files := d.files, nextFile := d.nextFile)
            && FileId(d, f) == FoundOrNew(db, f) && db.files.Keys <= d.files.Keys
            && (FileId(db, f) == 0 ==> LatestId(d, FileId(d, f)) == 0)
  {
    FileIdExact(db, f);
    var d := GetOrCreate(db, f);
    if FileId(db, f) == 0 {
      InsertFileIds(db, f, f);
      forall v | v in d.versions ensures FlagOk(d, v) && HashOk(d, v) && db.versions[v].fileId != db.nextFile {
        assert FlagOk(db, v) && HashOk(db, v);
        assert Newest(d, v) <==> Newest(db, v);
      }
      LatestExact(d, db.nextFile);
    }
  }

  /** The latest version of the file has the same hash: no extraction is needed. */
  predicate Bypass(db: Db, fileId: int, hash: Digest) {
    LatestId(db, fileId) in db.versions && db.versions[LatestId(db, fileId)].astHash == hash
  }

  lemma IdsPositive(db: Db, fileId: int)
    requires FlagsOk(db)
    ensures 0 !in db.versions
    ensures LatestId(db, fileId) != 0 <==> LatestId(db, fileId) in db.versions
    ensures LatestId(db, fileId) < db.nextVersion && db.nextVersion !in db.versions
  {
    LatestExact(db, fileId);
    assert 0 in db.versions ==> FlagOk(db, 0);
    assert db.nextVersion in db.versions ==> FlagOk(db, db.nextVersion);
    assert LatestId(db, fileId) in db.versions ==> FlagOk(db, LatestId(db, fileId));
  }

  /** The transaction body never fails by itself, cloning included. */
  lemma BodySucceeds(db: Db, projectId: int, fileId: int, content: string, hash: Digest)
    requires VersionsOk(db)
    ensures VersionBody(db, projectId, fileId, content, hash).Some?
  {
    IdsPositive(db, fileId);
    var d := InsertVersion(db, Version(fileId, content, hash, true, None));
    assert Cloned(d, LatestId(db, fileId), db.nextVersion) * d.junctions == {};
  }

  lemma SetLatestRows(db: Db, newId: int, oldId: int)
    requires newId in db.versions && newId != oldId && (oldId != 0 <==> oldId in db.versions)
    ensures var d := SetLatest(db, newId, oldId);
            && d == db.(versions := d.versions) && d.versions.Keys == db.versions.Keys
            && forall v :: v in db.versions ==>
                 d.versions[v] == db.versions[v].(isLatest := if v == newId then true else if v == oldId then false else db.versions[v].isLatest)
  {
  }

  predicate OnlyNewVersion(db: Db, d: Db, fileId: int, content: string, hash: Digest) {
    var oldId := LatestId(db, fileId);
    && d.nextVersion == db.nextVersion + 1
    && d.versions.Keys == db.versions.Keys + {db.nextVersion}
    && d.versions[db.nextVersion] == Version(fileId, content, hash, true, None)
    && (forall v :: v in db.versions && v != db.nextVersion ==>
          d.versions[v] == if v == oldId then db.versions[v].(isLatest := false) else db.versions[v])
    && d.files == db.files && d.nextFile == db.nextFile
    && d.features == db.features && d.nextFeature == db.nextFeature && d.deadLetters == db.deadLetters
  }

  /** The new version is flagged, the old one is not any more, nothing else changed in the table. */
  lemma BodyVersions(db: Db, projectId: int, fileId: int, content: string, hash: Digest)
    requires VersionsOk(db) && hash != NoDigest
    ensures VersionBody(db, projectId, fileId, content, hash).Some?
    ensures OnlyNewVersion(db, VersionBody(db, projectId, fileId, content, hash).value, fileId, content, hash)
  {
    BodySucceeds(db, projectId, fileId, content, hash);
    IdsPositive(db, fileId);
    var oldId, newId := LatestId(db, fileId), db.nextVersion;
    var d := InsertVersion(db, Version(fileId, content, hash, true, None));
    if Bypass(db, fileId, hash) {
      BypassVersions(db, projectId, fileId, content, hash);
    } else {
      SetLatestRows(d, newId, oldId);
    }
  }

  lemma FlipOnlyNew(db: Db, c: Db, fileId: int, content: string, hash: Digest)
    requires VersionsOk(db)
    requires
      var d := InsertVersion(db, Version(fileId, content, hash, true, None));
      c == d.(junctions := c.junctions)
    ensures OnlyNewVersion(db, SetLatest(c, db.nextVersion, LatestId(db, fileId)), fileId, content, hash)
  {
    IdsPositive(db, fileId);
    SetLatestRows(c, db.nextVersion, LatestId(db, fileId));
  }

  lemma BypassVersions(db: Db, projectId: int, fileId: int, content: string, hash: Digest)
    requires VersionsOk(db) && hash != NoDigest && Bypass(db, fileId, hash)
    requires VersionBody(db, projectId, fileId, content, hash).Some?
    ensures OnlyNewVersion(db, VersionBody(db, projectId, fileId, content, hash).value, fileId, content, hash)
  {
    var d := InsertVersion(db, Version(fileId, content, hash, true, None));
    FlipOnlyNew(db, CloneJunctions(d, LatestId(db, fileId), db.nextVersion).value, fileId, content, hash);
  }

  /** A bypass touches no job; a structural change enqueues one level-1 job for the new version. */
  lemma BodyJobs(db: Db, projectId: int, fileId: int, content: string, hash: Digest)
    requires VersionsOk(db) && hash != NoDigest
    ensures VersionBody(db, projectId, fileId, content, hash).Some?
    ensures var d := VersionBody(db, projectId, fileId, content, hash).value;
            if Bypass(db, fileId, hash) then d.jobs == db.jobs && d.nextJob == db.nextJob
            else
              && d.nextJob == db.nextJob + 1
              && d.jobs == Invalidate(db, LatestId(db, fileId)).jobs[db.nextJob := Job(NewJob(projectId, db.nextVersion, "File", "level_1_overview", 1), Pending, 0)]
  {
    BodySucceeds(db, projectId, fileId, content, hash);
    IdsPositive(db, fileId);
  }

  /** The new version gets the features of the old one on a bypass, and none otherwise;
      the features of all other versions stay. */
  lemma BodyFeatures(db: Db, projectId: int, fileId: int, content: string, hash: Digest, v: int)
    requires VersionsOk(db) && hash != NoDigest
    ensures VersionBody(db, projectId, fileId, content, hash).Some?
    ensures var d := VersionBody(db, projectId, fileId, content, hash).value;
            && d.junctions == db.junctions + (if Bypass(db, fileId, hash) then Cloned(db, LatestId(db, fileId), db.nextVersion) else {})
            && FeaturesOf(d, v) == if v != db.nextVersion then FeaturesOf(db, v)
                                   else if Bypass(db, fileId, hash) then FeaturesOf(db, LatestId(db, fileId)) else {}
  {
    BodySucceeds(db, projectId, fileId, content, hash);
    IdsPositive(db, fileId);
    var d1 := InsertVersion(db, Version(fileId, content, hash, true, None));
    var oldId := LatestId(db, fileId);
    assert FeaturesOf(d1, oldId) == FeaturesOf(db, oldId);
    var d := VersionBody(db, projectId, fileId, content, hash).value;
    if Bypass(db, fileId, hash) {
      assert d.junctions == db.junctions + Cloned(db, oldId, db.nextVersion);
      assert forall f :: f in FeaturesOf(db, oldId) <==> (db.nextVersion, f) in Cloned(db, oldId, db.nextVersion);
    }
  }

  lemma BodyKeepsInv(db: Db, projectId: int, fileId: int, content: string)
    requires IngestInv(db) && fileId in db.files
    ensures var hash := StructuralHash(db.files[fileId].path, content);
            && VersionBody(db, projectId, fileId, content, hash).Some?
            && IngestInv(VersionBody(db, projectId, fileId, content, hash).value)
  {
    var hash := StructuralHash(db.files[fileId].path, content);
    BodyVersions(db, projectId, fileId, content, hash);
    BodyFeatures(db, projectId, fileId, content, hash, 0);
    IdsPositive(db, fileId);
    var d := VersionBody(db, projectId, fileId, content, hash).value;
    VersionsStayOk(db, d, fileId, content, hash);
    assert db.nextVersion !in db.versions;
  }

  lemma VersionsStayOk(db: Db, d: Db, fileId: int, content: string, hash: Digest)
    requires IngestInv(db) && fileId in db.files && hash == StructuralHash(db.files[fileId].path, content)
    requires db.nextVersion !in db.versions && OnlyNewVersion(db, d, fileId, content, hash)
    ensures forall v :: v in d.versions ==> FlagOk(d, v) && HashOk(d, v)
  {
    forall v | v in d.versions ensures FlagOk(d, v) && HashOk(d, v) {
      NewVersionFlag(db, d, fileId, content, hash, v);
      assert v in db.versions ==> HashOk(db, v);
    }
  }

  lemma NewVersionFlag(db: Db, d: Db, fileId: int, content: string, hash: Digest, v: int)
    requires FlagsOk(db) && v in d.versions && db.nextVersion !in db.versions
    requires OnlyNewVersion(db, d, fileId, content, hash)
    ensures FlagOk(d, v)
  {
    var newId := db.nextVersion;
    if v == newId {
      assert forall u :: u in db.versions ==> FlagOk(db, u);
    } else {
      assert FlagOk(db, v);
      if db.versions[v].fileId == fileId {
        LatestUniqueAmong(db, fileId, v);
        assert d.versions[newId].fileId == fileId;
        assert !Newest(d, v);
      } else {
        SameNewest(db, d, v, newId);
        LatestExact(db, fileId);
      }
    }
  }

  lemma LatestUniqueAmong(db: Db, fileId: int, v: int)
    requires FlagsOk(db) && v in db.versions && db.versions[v].fileId == fileId
    ensures Newest(db, v) <==> v == LatestId(db, fileId)
  {
    LatestExact(db, fileId);
  }

  lemma SameNewest(db: Db, d: Db, v: int, newId: int)
    requires v in db.versions && v in d.versions && newId in d.versions && newId !in db.versions
    requires d.versions.Keys == db.versions.Keys + {newId}
    requires forall u :: u in db.versions ==> d.versions[u].fileId == db.versions[u].fileId
    requires d.versions[newId].fileId != db.versions[v].fileId
    ensures Newest(d, v) <==> Newest(db, v)
  {
    assert forall u :: u in db.versions ==> u in d.versions;
  }
}
