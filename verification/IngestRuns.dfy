/** Whole ingestion runs against a simple picture: a map from path to the last
    committed content, where a job is due exactly when a normal form changes. */
module IngestRuns {
  import opened Text
  import opened Domain
  import opened Transactions
  import opened Normalizer
  import opened NormalizerLaws
  import opened Ingest
  import opened IngestLaws
  import Claims
  import Protocol
  import Ownership

  // ---------- the simple picture ----------

  /** The transaction of the call takes effect, whatever is reported. */
  predicate Commits(call: Call) {
    call.trouble == NoTrouble && (call.fault == Clean || call.fault == CommitLost)
  }

  function Known(m: map<string, string>, call: Call): map<string, string> {
    if Commits(call) then m[call.path := call.content] else m
  }

  function NormalForm(path: string, content: string): string {
    Normalize(LanguageFromPath(path), content)
  }

  /** New, or with another normal form than the last committed content of its path. */
  predicate StructuralChange(m: map<string, string>, call: Call) {
    Commits(call) && (call.path !in m || NormalForm(call.path, m[call.path]) != NormalForm(call.path, call.content))
  }

  function KnownAfter(m: map<string, string>, calls: seq<Call>): map<string, string>
    decreases |calls|
  {
    if calls == [] then m else KnownAfter(Known(m, calls[0]), calls[1..])
  }

  function Changes(m: map<string, string>, calls: seq<Call>): nat
    decreases |calls|
  {
    if calls == [] then 0
    else (if StructuralChange(m, calls[0]) then 1 else 0) + Changes(Known(m, calls[0]), calls[1..])
  }

  // ---------- what the database shows of it ----------

  /** The id of the latest version of a path; 0 if it has none. */
  function LatestOf(db: Db, projectId: int, path: string): int {
    var fileId := FileId(db, File(projectId, path));
    if fileId == 0 then 0 else LatestId(db, fileId)
  }

  function LatestContent(db: Db, projectId: int, path: string): Option<string> {
    var v := LatestOf(db, projectId, path);
    if v in db.versions then Some(db.versions[v].content) else None
  }

  ghost predicate Shows(db: Db, projectId: int, m: map<string, string>) {
    forall path: string :: LatestContent(db, projectId, path) == if path in m then Some(m[path]) else None
  }

  // ---------- one call refines one step of the picture ----------

  lemma CreateKeepsLatest(db: Db, projectId: int, f: File, path: string)
    requires IngestInv(db)
    ensures LatestOf(GetOrCreate(db, f), projectId, path) == LatestOf(db, projectId, path)
    ensures LatestContent(GetOrCreate(db, f), projectId, path) == LatestContent(db, projectId, path)
  {
    GetOrCreateOk(db, f);
    FileIdExact(db, f);
    if FileId(db, f) == 0 {
      InsertFileIds(db, f, File(projectId, path));
      IdsPositive(db, 0);
    }
  }

  lemma BodyLatest(db: Db, d: Db, fileId: int, content: string, hash: Digest, other: int)
    requires FlagsOk(db) && FlagsOk(d) && OnlyNewVersion(db, d, fileId, content, hash)
    ensures LatestId(d, other) == if other == fileId then db.nextVersion else LatestId(db, other)
  {
    IdsPositive(db, fileId);
    LatestExact(db, other);
    LatestExact(d, other);
    assert d.versions[db.nextVersion].fileId == fileId;
    assert forall v :: v in db.versions ==> FlagOk(db, v);
    if other != fileId {
      SameOwnVersions(db, d, fileId, other);
    }
  }

  lemma SameOwnVersions(db: Db, d: Db, fileId: int, other: int)
    requires FlagsOk(db) && FlagsOk(d) && other != fileId
    requires d.versions.Keys == db.versions.Keys + {db.nextVersion}
    requires d.versions[db.nextVersion].fileId == fileId
    requires forall v :: v in db.versions && v != db.nextVersion ==> d.versions[v].fileId == db.versions[v].fileId
    ensures LatestId(d, other) == LatestId(db, other)
  {
    IdsPositive(db, other);
    LatestExact(db, other);
    LatestExact(d, other);
    var r, t := LatestId(db, other), LatestId(d, other);
    if r != 0 {
      assert r in d.versions && d.versions[r].fileId == other;
      assert t in db.versions && db.versions[t].fileId == other;
      assert Newest(db, r) && Newest(d, t);
    }
  }

  lemma AllFeatures(c: Db, projectId: int, fileId: int, content: string, hash: Digest)
    requires VersionsOk(c) && hash != NoDigest
    ensures VersionBody(c, projectId, fileId, content, hash).Some?
    ensures forall u :: FeaturesOf(VersionBody(c, projectId, fileId, content, hash).value, u)
                     == if u != c.nextVersion then FeaturesOf(c, u)
                        else if Bypass(c, fileId, hash) then FeaturesOf(c, LatestId(c, fileId)) else {}
  {
    BodySucceeds(c, projectId, fileId, content, hash);
    var d := VersionBody(c, projectId, fileId, content, hash).value;
    forall u ensures FeaturesOf(d, u) == if u != c.nextVersion then FeaturesOf(c, u)
                                         else if Bypass(c, fileId, hash) then FeaturesOf(c, LatestId(c, fileId)) else {} {
      BodyFeatures(c, projectId, fileId, content, hash, u);
    }
  }

  lemma BodyHere(c: Db, projectId: int, f: File, content: string)
    requires IngestInv(c) && FileId(c, f) in c.files && c.files[FileId(c, f)] == f && f.projectId == projectId
    ensures var hash := StructuralHash(f.path, content);
            var body := VersionBody(c, projectId, FileId(c, f), content, hash);
            && body.Some? && IngestInv(body.value) && OnlyNewVersion(c, body.value, FileId(c, f), content, hash)
            && LatestOf(body.value, projectId, f.path) == c.nextVersion
  {
    var fileId, hash := FileId(c, f), StructuralHash(f.path, content);
    BodyVersions(c, projectId, fileId, content, hash);
    BodyKeepsInv(c, projectId, fileId, content);
    var d := VersionBody(c, projectId, fileId, content, hash).value;
    BodyLatest(c, d, fileId, content, hash, fileId);
    SameFileIds(c, d);
    FileIdExact(c, f);
  }

  /** A committed call is its transaction body on the database with the file's row in it. */
  lemma CommitIs(db: Db, projectId: int, call: Call, c: Db)
    requires IngestInv(db) && Commits(call) && c == GetOrCreate(db, File(projectId, call.path))
    ensures var f := File(projectId, call.path);
            && IngestInv(c) && c.versions == db.versions && c.nextVersion == db.nextVersion
            && FileId(c, f) in c.files && c.files[FileId(c, f)] == f
            && (var body := VersionBody(c, projectId, FileId(c, f), call.content, StructuralHash(call.path, call.content));
                body.Some? && ProcessFile(db, projectId, call).0 == body.value)
  {
    var f := File(projectId, call.path);
    GetOrCreateOk(db, f);
    BodySucceeds(c, projectId, FileId(c, f), call.content, StructuralHash(call.path, call.content));
  }

  /** The latest version after a committed call. */
  lemma CommittedLatest(db: Db, projectId: int, call: Call, d: Db)
    requires IngestInv(db) && Commits(call) && d == ProcessFile(db, projectId, call).0
    ensures IngestInv(d) && LatestOf(d, projectId, call.path) == db.nextVersion && d.nextVersion == db.nextVersion + 1
    ensures db.nextVersion in d.versions && d.versions[db.nextVersion].content == call.content
    ensures d.versions[db.nextVersion].astHash == StructuralHash(call.path, call.content)
    ensures forall u :: u in db.versions ==> u in d.versions && d.versions[u].content == db.versions[u].content
  {
    var f := File(projectId, call.path);
    var c := GetOrCreate(db, f);
    CommitIs(db, projectId, call, c);
    BodyHere(c, projectId, f, call.content);
    IdsPositive(c, FileId(c, f));
  }

  /** What a committed call does, as seen from outside. */
  lemma CommittedCall(db: Db, projectId: int, call: Call)
    requires IngestInv(db) && Commits(call)
    ensures var d := ProcessFile(db, projectId, call).0;
            var prev := LatestOf(db, projectId, call.path);
            var v := db.nextVersion;
            var same := prev in db.versions && NormalForm(call.path, db.versions[prev].content) == NormalForm(call.path, call.content);
            && IngestInv(d)
            && LatestOf(d, projectId, call.path) == v
            && (forall path: string :: path != call.path ==> LatestOf(d, projectId, path) == LatestOf(db, projectId, path))
            && v in d.versions && d.versions[v].content == call.content && d.versions[v].astHash == StructuralHash(call.path, call.content)
            && d.nextVersion == v + 1
            && d.nextJob == db.nextJob + (if same then 0 else 1)
            && d.jobs == (if same then db.jobs
                          else Invalidate(db, prev).jobs[db.nextJob := Job(NewJob(projectId, v, "File", "level_1_overview", 1), Pending, 0)])
            && FeaturesOf(d, v) == (if same then FeaturesOf(db, prev) else {})
            && (forall u :: u != v ==> FeaturesOf(d, u) == FeaturesOf(db, u))
            && (forall u :: u in db.versions ==> u in d.versions && d.versions[u].content == db.versions[u].content)
  {
    var f := File(projectId, call.path);
    var c := GetOrCreate(db, f);
    var fileId, hash := FileId(c, f), StructuralHash(call.path, call.content);
    var d := ProcessFile(db, projectId, call).0;
    CommittedLatest(db, projectId, call, d);
    OtherPaths(db, projectId, call, d);
    GetOrCreateOk(db, f);
    CreateKeepsLatest(db, projectId, f, call.path);
    BodyJobs(c, projectId, fileId, call.content, hash);
    BypassMeansSameForm(c, fileId, call.path, call.content);
    AllFeatures(c, projectId, fileId, call.content, hash);
    assert LatestOf(db, projectId, call.path) == LatestId(c, fileId);
    assert d == VersionBody(c, projectId, fileId, call.content, hash).value;
  }

  lemma BodyElsewhere(c: Db, projectId: int, f: File, content: string, path: string)
    requires IngestInv(c) && FileId(c, f) in c.files && c.files[FileId(c, f)] == f && f.projectId == projectId && path != f.path
    ensures var body := VersionBody(c, projectId, FileId(c, f), content, StructuralHash(f.path, content));
            body.Some? && LatestOf(body.value, projectId, path) == LatestOf(c, projectId, path)
  {
    var fileId, hash := FileId(c, f), StructuralHash(f.path, content);
    BodyVersions(c, projectId, fileId, content, hash);
    BodyKeepsInv(c, projectId, fileId, content);
    OtherPath(c, VersionBody(c, projectId, fileId, content, hash).value, projectId, f.path, path, fileId, content, hash);
  }

  /** Calls for one path leave the latest versions of all others alone. */
  lemma OtherPaths(db: Db, projectId: int, call: Call, d: Db)
    requires IngestInv(db) && Commits(call) && d == ProcessFile(db, projectId, call).0
    ensures forall path: string :: path != call.path ==> LatestOf(d, projectId, path) == LatestOf(db, projectId, path)
  {
    var f := File(projectId, call.path);
    var c := GetOrCreate(db, f);
    GetOrCreateOk(db, f);
    forall path: string | path != call.path ensures LatestOf(d, projectId, path) == LatestOf(db, projectId, path) {
      CreateKeepsLatest(db, projectId, f, path);
      BodyElsewhere(c, projectId, f, call.content, path);
    }
  }

  lemma SameFileIds(c: Db, d: Db)
    requires d.files == c.files && d.nextFile == c.nextFile
    ensures forall f :: FileId(d, f) == FileId(c, f)
  {
  }

  lemma BypassMeansSameForm(c: Db, fileId: int, path: string, content: string)
    requires IngestInv(c) && fileId in c.files && c.files[fileId].path == path
    ensures Bypass(c, fileId, StructuralHash(path, content))
            <==>
            LatestId(c, fileId) in c.versions
            && NormalForm(path, c.versions[LatestId(c, fileId)].content) == NormalForm(path, content)
  {
    LatestExact(c, fileId);
    var prev := LatestId(c, fileId);
    assert prev in c.versions ==> HashOk(c, prev);
    IdsPositive(c, fileId);
  }

  lemma OtherPath(c: Db, d: Db, projectId: int, path: string, other: string, fileId: int, content: string, hash: Digest)
    requires IngestInv(c) && IngestInv(d) && other != path
    requires OnlyNewVersion(c, d, fileId, content, hash)
    requires FileId(c, File(projectId, path)) == fileId && fileId in c.files && c.files[fileId] == File(projectId, path)
    ensures LatestOf(d, projectId, other) == LatestOf(c, projectId, other)
  {
    SameFileIds(c, d);
    FileIdExact(c, File(projectId, other));
    var g := FileId(c, File(projectId, other));
    BodyLatest(c, d, fileId, content, hash, g);
  }

  /** A call that does not commit changes at most the file table. */
  lemma UncommittedCall(db: Db, projectId: int, call: Call)
    requires IngestInv(db) && !Commits(call)
    ensures var d := ProcessFile(db, projectId, call).0;
            && IngestInv(d)
            && d == db.(files := d.files, nextFile := d.nextFile)
            && (forall path: string :: LatestOf(d, projectId, path) == LatestOf(db, projectId, path))
  {
    var f := File(projectId, call.path);
    GetOrCreateOk(db, f);
    forall path: string ensures LatestOf(GetOrCreate(db, f), projectId, path) == LatestOf(db, projectId, path) {
      CreateKeepsLatest(db, projectId, f, path);
    }
  }

  lemma CommittedShowsAt(db: Db, projectId: int, m: map<string, string>, call: Call, path: string)
    requires IngestInv(db) && Shows(db, projectId, m) && Commits(call)
    ensures LatestContent(ProcessFile(db, projectId, call).0, projectId, path)
            == if path in Known(m, call) then Some(Known(m, call)[path]) else None
  {
    assert LatestContent(db, projectId, path) == if path in m then Some(m[path]) else None;
    LatestOfOther(db, ProcessFile(db, projectId, call).0, projectId, call, path);
  }

  lemma CommittedShows(db: Db, projectId: int, m: map<string, string>, call: Call)
    requires IngestInv(db) && Shows(db, projectId, m) && Commits(call)
    ensures Shows(ProcessFile(db, projectId, call).0, projectId, Known(m, call))
  {
    var d := ProcessFile(db, projectId, call).0;
    forall path: string ensures LatestContent(d, projectId, path)
                             == if path in Known(m, call) then Some(Known(m, call)[path]) else None {
      CommittedShowsAt(db, projectId, m, call, path);
    }
  }

  lemma CommittedCount(db: Db, projectId: int, m: map<string, string>, call: Call)
    requires IngestInv(db) && Shows(db, projectId, m) && Commits(call)
    ensures var d := ProcessFile(db, projectId, call).0;
            IngestInv(d) && d.nextJob == db.nextJob + if StructuralChange(m, call) then 1 else 0
  {
    CommittedCall(db, projectId, call);
    assert LatestContent(db, projectId, call.path) == if call.path in m then Some(m[call.path]) else None;
  }

  lemma CallRefines(db: Db, projectId: int, m: map<string, string>, call: Call)
    requires IngestInv(db) && Shows(db, projectId, m)
    ensures var d := ProcessFile(db, projectId, call).0;
            && IngestInv(d) && Shows(d, projectId, Known(m, call))
            && d.nextJob == db.nextJob + if StructuralChange(m, call) then 1 else 0
  {
    if Commits(call) {
      CommittedShows(db, projectId, m, call);
      CommittedCount(db, projectId, m, call);
    } else {
      UncommittedCall(db, projectId, call);
      var d := ProcessFile(db, projectId, call).0;
      forall path: string ensures LatestContent(d, projectId, path) == LatestContent(db, projectId, path) {
      }
    }
  }

  lemma LatestOfOther(db: Db, d: Db, projectId: int, call: Call, path: string)
    requires IngestInv(db) && Commits(call) && d == ProcessFile(db, projectId, call).0
    ensures LatestContent(d, projectId, path)
         == if path == call.path then Some(call.content) else LatestContent(db, projectId, path)
  {
    CommittedCall(db, projectId, call);
    var v := LatestOf(db, projectId, path);
    if path != call.path && v !in db.versions {
      var fileId := FileId(db, File(projectId, path));
      IdsPositive(db, fileId);
      assert v == 0;
      IdsPositive(d, fileId);
    }
  }

  /** Over every sequence of ingestion calls, failing and lost ones included: the
      invariant holds, each path shows its last committed content, and the jobs
      enqueued are exactly the structural changes. */
  lemma {:induction false} RunRefines(db: Db, projectId: int, m: map<string, string>, calls: seq<Call>)
    requires IngestInv(db) && Shows(db, projectId, m)
    ensures var d := ProcessFiles(db, projectId, calls);
            && IngestInv(d) && Shows(d, projectId, KnownAfter(m, calls))
            && d.nextJob == db.nextJob + Changes(m, calls)
    decreases |calls|
  {
    if calls != [] {
      CallRefines(db, projectId, m, calls[0]);
      RunRefines(ProcessFile(db, projectId, calls[0]).0, projectId, Known(m, calls[0]), calls[1..]);
    }
  }

  /** Successful ingests of one file cost one job for the first content and one for
      every neighbouring pair with different normal forms. */
  function PairChanges(path: string, contents: seq<string>): nat {
    if |contents| <= 1 then |contents|
    else PairChanges(path, contents[..|contents| - 1])
         + if NormalForm(path, contents[|contents| - 2]) != NormalForm(path, contents[|contents| - 1]) then 1 else 0
  }

  function IngestsOf(path: string, contents: seq<string>): seq<Call> {
    seq(|contents|, i requires 0 <= i < |contents| => Call(path, contents[i], NoTrouble, Clean))
  }

  lemma {:induction false} ChangesAppend(m: map<string, string>, a: seq<Call>, b: seq<Call>)
    ensures KnownAfter(m, a + b) == KnownAfter(KnownAfter(m, a), b)
    ensures Changes(m, a + b) == Changes(m, a) + Changes(KnownAfter(m, a), b)
    decreases |a|
  {
    if a == [] {
      assert a + b == b;
    } else {
      ChangesAppend(Known(m, a[0]), a[1..], b);
      assert (a + b)[1..] == a[1..] + b;
    }
  }

  function LastKnown(path: string, contents: seq<string>): map<string, string> {
    if contents == [] then map[] else map[path := contents[|contents| - 1]]
  }

  lemma NextKnown(path: string, before: seq<string>, call: Call)
    requires call.path == path && Commits(call)
    ensures Known(LastKnown(path, before), call) == map[path := call.content]
    ensures StructuralChange(LastKnown(path, before), call)
            <==> before == [] || NormalForm(path, before[|before| - 1]) != NormalForm(path, call.content)
  {
  }

  lemma {:induction false} PairStep(path: string, before: seq<string>, content: string)
    ensures
      var last := if before == [] || NormalForm(path, before[|before| - 1]) != NormalForm(path, content) then 1 else 0;
      PairChanges(path, before + [content]) == PairChanges(path, before) + last
  {
    assert (before + [content])[..|before|] == before;
  }

  /** One more content, seen as the next call. */
  lemma LastChange(path: string, before: seq<string>, call: Call)
    requires call.path == path && Commits(call)
    ensures Known(LastKnown(path, before), call) == LastKnown(path, before + [call.content])
    ensures PairChanges(path, before + [call.content])
            == PairChanges(path, before) + if StructuralChange(LastKnown(path, before), call) then 1 else 0
  {
    NextKnown(path, before, call);
    PairStep(path, before, call.content);
  }

  lemma {:induction false} ChangesArePairs(path: string, contents: seq<string>)
    ensures Changes(map[], IngestsOf(path, contents)) == PairChanges(path, contents)
    ensures KnownAfter(map[], IngestsOf(path, contents)) == LastKnown(path, contents)
    decreases |contents|
  {
    if contents != [] {
      var n := |contents| - 1;
      var front, call := contents[..n], Call(path, contents[n], NoTrouble, Clean);
      assert contents == front + [call.content];
      assert IngestsOf(path, contents) == IngestsOf(path, front) + [call];
      ChangesArePairs(path, front);
      ChangesAppend(map[], IngestsOf(path, front), [call]);
      LastCall(LastKnown(path, front), call);
      LastChange(path, front, call);
    }
  }

  lemma LastCall(m: map<string, string>, call: Call)
    ensures Changes(m, [call]) == if StructuralChange(m, call) then 1 else 0
    ensures KnownAfter(m, [call]) == Known(m, call)
  {
    assert [call][1..] == [];
  }

  /** Where every history starts: empty tables show no content for any path. */
  lemma FreshDatabase(db: Db, projectId: int)
    requires db.files == map[] && db.nextFile == 1 && db.versions == map[] && db.nextVersion == 1 && db.junctions == {}
    ensures IngestInv(db) && Shows(db, projectId, map[])
  {
    forall path: string ensures LatestContent(db, projectId, path) == None {
      FileIdExact(db, File(projectId, path));
    }
  }

  lemma WorkEqualsStructuralChanges(db: Db, projectId: int, path: string, contents: seq<string>)
    requires IngestInv(db) && Shows(db, projectId, map[])
    ensures ProcessFiles(db, projectId, IngestsOf(path, contents)).nextJob == db.nextJob + PairChanges(path, contents)
  {
    RunRefines(db, projectId, map[], IngestsOf(path, contents));
    ChangesArePairs(path, contents);
  }

  // ---------- features along a run of bypasses ----------

  /** No committed call of the run gives path another normal form. */
  predicate Steady(calls: seq<Call>, path: string, form: string) {
    forall k :: 0 <= k < |calls| && Commits(calls[k]) && calls[k].path == path ==>
      NormalForm(path, calls[k].content) == form
  }

  /** The latest version of the path has this normal form, by its hash, and these features. */
  ghost predicate Carries(db: Db, projectId: int, path: string, form: string, features: set<int>) {
    var v := LatestOf(db, projectId, path);
    v in db.versions && db.versions[v].astHash == Sha256(form) && FeaturesOf(db, v) == features
  }

  lemma LatestHash(db: Db, projectId: int, path: string)
    requires IngestInv(db)
    ensures var v := LatestOf(db, projectId, path);
            v in db.versions ==> db.versions[v].astHash == Sha256(NormalForm(path, db.versions[v].content))
  {
    var f := File(projectId, path);
    FileIdExact(db, f);
    LatestExact(db, FileId(db, f));
    var v := LatestOf(db, projectId, path);
    assert v in db.versions ==> FlagOk(db, v) && HashOk(db, v);
    IdsPositive(db, FileId(db, f));
  }

  lemma CallCarries(db: Db, projectId: int, call: Call, path: string, form: string, features: set<int>)
    requires IngestInv(db) && Carries(db, projectId, path, form, features) && Steady([call], path, form)
    ensures IngestInv(ProcessFile(db, projectId, call).0)
    ensures Carries(ProcessFile(db, projectId, call).0, projectId, path, form, features)
  {
    if Commits(call) {
      assert [call][0] == call;
      LatestHash(db, projectId, path);
      CommittedCall(db, projectId, call);
      IdsPositive(db, 0);
      LatestHash(ProcessFile(db, projectId, call).0, projectId, path);
    } else {
      UncommittedCall(db, projectId, call);
    }
  }

  /** As long as its normal form stays, the latest version of a path carries the same
      features, whatever else is ingested and whatever fails in between. */
  lemma {:induction false} FeaturesCarried(db: Db, projectId: int, calls: seq<Call>, path: string, form: string, features: set<int>)
    requires IngestInv(db) && Carries(db, projectId, path, form, features) && Steady(calls, path, form)
    ensures Carries(ProcessFiles(db, projectId, calls), projectId, path, form, features)
    decreases |calls|
  {
    if calls != [] {
      assert Steady([calls[0]], path, form);
      CallCarries(db, projectId, calls[0], path, form, features);
      assert forall k :: 0 <= k < |calls[1..]| ==> calls[1..][k] == calls[k + 1];
      FeaturesCarried(ProcessFile(db, projectId, calls[0]).0, projectId, calls[1..], path, form, features);
    }
  }

  // ---------- the bypass, end to end ----------

  /** Re-ingesting a file that differs from its latest version only by inserted blank
      and comment lines enqueues no job, creates the new latest version, and gives it
      exactly the features of the version before. */
  lemma DecoratedFileBypasses(db: Db, projectId: int, path: string, after: string)
    requires IngestInv(db)
    requires LatestContent(db, projectId, path).Some?
    requires Decorated(FamilyOf(LanguageFromPath(path)), Split(LatestContent(db, projectId, path).value), Split(after))
    ensures var (d, report) := ProcessFile(db, projectId, Call(path, after, NoTrouble, Clean));
            var v := LatestOf(d, projectId, path);
            && report == Ok && IngestInv(d)
            && d.jobs == db.jobs && d.nextJob == db.nextJob
            && v == db.nextVersion && v !in db.versions && v in d.versions && d.versions[v].content == after
            && FeaturesOf(d, v) == FeaturesOf(db, LatestOf(db, projectId, path))
  {
    var call := Call(path, after, NoTrouble, Clean);
    CommittedCall(db, projectId, call);
    InsertionsInvisible(LanguageFromPath(path), LatestContent(db, projectId, path).value, after);
    IdsPositive(db, 0);
  }

  // ---------- ingestion beside the workers ----------

  /** What the transaction leaves alone besides the queue. */
  lemma BodyLeaves(c: Db, projectId: int, fileId: int, content: string, hash: Digest)
    requires VersionsOk(c) && hash != NoDigest
    ensures VersionBody(c, projectId, fileId, content, hash).Some?
    ensures var d := VersionBody(c, projectId, fileId, content, hash).value;
            && d.deadLetters == c.deadLetters && d.features == c.features && d.nextFeature == c.nextFeature
            && c.junctions <= d.junctions && c.versions.Keys <= d.versions.Keys
            && forall v :: v in d.versions ==>
                 d.versions[v].summary == if v in c.versions then c.versions[v].summary else None
  {
    BodyVersions(c, projectId, fileId, content, hash);
    BodyFeatures(c, projectId, fileId, content, hash, 0);
    IdsPositive(c, fileId);
  }

  lemma BodyIsOutside(c: Db, projectId: int, fileId: int, content: string, hash: Digest) returns (js: seq<NewJob>)
    requires VersionsOk(c) && Ownership.RowsOk(c) && hash != NoDigest
    ensures |js| <= 1 && VersionBody(c, projectId, fileId, content, hash).Some?
    ensures Protocol.Outside(c, VersionBody(c, projectId, fileId, content, hash).value, js)
  {
    BodyLeaves(c, projectId, fileId, content, hash);
    BodyJobs(c, projectId, fileId, content, hash);
    NothingToReset(c, LatestId(c, fileId));
    js := if Bypass(c, fileId, hash) then [] else [Level1(projectId, c.nextVersion)];
    InsertedOne(c, js);
  }

  lemma InsertedOne(db: Db, js: seq<NewJob>)
    requires |js| <= 1
    ensures InsertJobs(db, js) == if js == [] then db else InsertJob(db, js[0])
  {
    if js != [] {
      assert InsertJobs(InsertJob(db, js[0]), js[1..]) == InsertJob(db, js[0]);
    }
  }

  /** For the workers, an ingestion call is an outside step: it enqueues at most one
      job and leaves queued jobs, features and summaries alone. */
  lemma IngestIsOutside(db: Db, projectId: int, call: Call) returns (js: seq<NewJob>)
    requires IngestInv(db) && Ownership.RowsOk(db)
    ensures |js| <= 1 && Protocol.Outside(db, ProcessFile(db, projectId, call).0, js)
  {
    var f := File(projectId, call.path);
    var c := GetOrCreate(db, f);
    GetOrCreateOk(db, f);
    js := [];
    if Commits(call) {
      assert forall id :: id in c.jobs ==> Ownership.RowOk(db, id) && Ownership.RowOk(c, id);
      js := BodyIsOutside(c, projectId, FileId(c, f), call.content, StructuralHash(call.path, call.content));
      OutsideThrough(db, c, ProcessFile(db, projectId, call).0, js);
    } else {
      UncommittedCall(db, projectId, call);
    }
  }

  lemma OutsideThrough(db: Db, c: Db, d: Db, js: seq<NewJob>)
    requires c == db.(files := c.files, nextFile := c.nextFile) && |js| <= 1 && Protocol.Outside(c, d, js)
    ensures Protocol.Outside(db, d, js)
  {
    InsertedOne(c, js);
    InsertedOne(db, js);
  }

  /** The wired path never leaves a row `completed`, so there is nothing to reset. */
  lemma NothingToReset(db: Db, versionId: int)
    requires Ownership.RowsOk(db)
    ensures Invalidate(db, versionId).jobs == db.jobs
  {
    forall id | id in db.jobs ensures db.jobs[id].status != Completed {
      assert Ownership.RowOk(db, id);
    }
  }
}
