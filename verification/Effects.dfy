/** Exactly-once effects: over every run, whatever fails, panics or is reported
    wrongly, the work of a job is in the tables once if its row is deleted, and not at all otherwise. */
module Effects {
  import opened Text
  import opened Domain
  import opened Claims
  import opened Transactions
  import opened Store
  import opened Protocol
  import opened Ownership
  import opened LifeCycle

  /** The features in creation order, the version-feature links and the summaries
      that a sequence of completed jobs stands for. */
  datatype Written = Written(features: seq<Feature>, links: set<(int, int)>, summaries: map<int, string>)

  function Rows(work: Work): seq<Feature>
    requires work.ParseWork?
  {
    seq(|work.features|, i requires 0 <= i < |work.features| => FeatureRow(work.projectId, work.features[i]))
  }

  function NewLinks(versionId: int, first: int, n: nat): set<(int, int)> {
    set i | first <= i < first + n :: (versionId, i)
  }

  function Write(w: Written, e: Event): Written {
    if e.Applied? && e.work.ParseWork? then
      Written(w.features + Rows(e.work),
              w.links + NewLinks(e.work.versionId, |w.features| + 1, |e.work.features|),
              w.summaries[e.work.versionId := e.work.summary])
    else w
  }

  /** Every completed job of the log, once each, in log order. */
  function Replay(log: seq<Event>): Written {
    if log == [] then Written([], {}, map[])
    else Write(Replay(log[..|log| - 1]), log[|log| - 1])
  }

  ghost predicate ShowsFeatures(db: Db, features: seq<Feature>) {
    && db.nextFeature == |features| + 1
    && (forall i :: i in db.features <==> 1 <= i <= |features|)
    && (forall i :: 1 <= i <= |features| ==> db.features[i] == features[i - 1])
  }

  ghost predicate ShowsSummaries(db: Db, summaries: map<int, string>) {
    && summaries.Keys <= db.versions.Keys
    && (forall v :: v in db.versions ==>
          db.versions[v].summary == if v in summaries then Some(summaries[v]) else None)
  }

  /** The tables hold exactly what w says: the same features under consecutive ids,
      the same summaries, and all the links. */
  ghost predicate Shows(db: Db, w: Written) {
    ShowsFeatures(db, w.features) && ShowsSummaries(db, w.summaries) && w.links <= db.junctions
  }

  // ---------- the feature loop ----------

  lemma {:induction false} AddedLinks(db: Db, p: int, v: int, texts: seq<FeatureText>)
    requires AddFeatures(db, p, v, texts).Some?
    ensures var d := AddFeatures(db, p, v, texts).value;
            && d.nextFeature == db.nextFeature + |texts|
            && d.junctions == db.junctions + NewLinks(v, db.nextFeature, |texts|)
    decreases |texts|
  {
    if texts != [] {
      var d := AddJunction(InsertFeature(db, FeatureRow(p, texts[0])), v, db.nextFeature);
      AddedLinks(d, p, v, texts[1..]);
      FirstLink(v, db.nextFeature, |texts|);
    }
  }

  lemma {:induction false} AddedFeatures(db: Db, p: int, v: int, texts: seq<FeatureText>)
    requires AddFeatures(db, p, v, texts).Some?
    requires forall i :: i in db.features ==> i < db.nextFeature
    ensures var d := AddFeatures(db, p, v, texts).value;
            && d.nextFeature == db.nextFeature + |texts|
            && (forall i :: i in d.features <==> i in db.features || db.nextFeature <= i < d.nextFeature)
            && (forall i :: i in db.features ==> d.features[i] == db.features[i])
            && (forall i :: db.nextFeature <= i < d.nextFeature ==> d.features[i] == FeatureRow(p, texts[i - db.nextFeature]))
    decreases |texts|
  {
    if texts != [] {
      var d := AddJunction(InsertFeature(db, FeatureRow(p, texts[0])), v, db.nextFeature);
      AddedFeatures(d, p, v, texts[1..]);
    }
  }

  lemma FirstLink(v: int, first: int, n: nat)
    requires n > 0
    ensures NewLinks(v, first, n) == {(v, first)} + NewLinks(v, first + 1, n - 1)
  {
  }

  lemma AddedShows(db: Db, d: Db, work: Work, features: seq<Feature>)
    requires work.ParseWork? && ShowsFeatures(db, features)
    requires AddFeatures(db, work.projectId, work.versionId, work.features) == Some(d)
    ensures ShowsFeatures(d, features + Rows(work))
    ensures d.junctions == db.junctions + NewLinks(work.versionId, |features| + 1, |work.features|)
  {
    AddedFeatures(db, work.projectId, work.versionId, work.features);
    AddedLinks(db, work.projectId, work.versionId, work.features);
    var all := features + Rows(work);
    forall i | 1 <= i <= |all| ensures d.features[i] == all[i - 1] {
      if i <= |features| {
        assert db.features[i] == features[i - 1];
      }
    }
  }

  lemma CompletedShows(db: Db, id: int, work: Work, w: Written)
    requires Shows(db, w) && work.ParseWork? && work.versionId in db.versions && CompleteBody(db, id, work).Some?
    ensures Shows(CompleteBody(db, id, work).value, Write(w, Applied(id, work)))
  {
    var d0 := UpdateSummary(db, work.versionId, work.summary);
    var d1 := AddFeatures(d0, work.projectId, work.versionId, work.features).value;
    var w1 := Write(w, Applied(id, work));
    AddedShows(d0, d1, work, w.features);
    AddFeaturesKeepsJobs(d0, work.projectId, work.versionId, work.features);
    assert ShowsSummaries(d0, w1.summaries);
    var d := CompleteBody(db, id, work).value;
    assert d.features == d1.features && d.nextFeature == d1.nextFeature && d.junctions == d1.junctions && d.versions == d0.versions;
  }

  // ---------- the log ----------

  lemma ReplayOne(log: seq<Event>, e: Event)
    ensures Replay(log + [e]) == Write(Replay(log), e)
  {
    assert (log + [e])[..|log|] == log;
  }

  lemma {:induction false} ReplayQuiet(log: seq<Event>, events: seq<Event>)
    requires forall k :: 0 <= k < |events| ==> !events[k].Applied?
    ensures Replay(log + events) == Replay(log)
    decreases |events|
  {
    if events == [] {
      assert log + events == log;
    } else {
      ReplayOne(log, events[0]);
      ReplayQuiet(log + [events[0]], events[1..]);
      assert log + [events[0]] + events[1..] == log + events;
    }
  }

  lemma ReplayApplied(log: seq<Event>, db: Db, id: int, work: Work)
    ensures Replay(log + AppliedEvents(db, id, work)) == Write(Replay(log), Applied(id, work))
  {
    ReplayOne(log, Applied(id, work));
    if work.ParseWork? {
      ReplayOne(log + [Applied(id, work)], Enqueued(db.nextJob, id));
      assert log + AppliedEvents(db, id, work) == log + [Applied(id, work)] + [Enqueued(db.nextJob, id)];
    }
  }

  /** Claims and failures touch neither features nor links nor summaries. */
  lemma RowStepKeepsShows(s: World, next: World, events: seq<Event>)
    requires Shows(s.db, Replay(s.log)) && Quiet(s, next, events)
    ensures Shows(next.db, Replay(next.log))
  {
    ReplayQuiet(s.log, events);
    assert next.db.features == s.db.features && next.db.versions == s.db.versions && next.db.junctions == s.db.junctions;
  }

  lemma ClaimEvents(s: World, step: Step) returns (events: seq<Event>)
    requires step.ClaimStep? && Enabled(s, step)
    ensures Quiet(s, Next(s, step), events)
  {
    var body := Some(MarkProcessing(s.db, Claimed(s.db.jobs, step.limit)));
    events := if TakesEffect(Some(s.db), step.fault) then TakenEvents(step.rows, step.w) else [];
    assert Next(s, step).db == Immediate(s.db, body, step.fault).0;
  }

  lemma FailEvents(s: World, step: Step) returns (events: seq<Event>)
    requires step.FailStep? && Enabled(s, step)
    ensures Quiet(s, Next(s, step), events)
  {
    var id, payload := s.workers[step.w].batch[0].id, s.workers[step.w].phase.payload;
    events := if TakesEffect(FailBody(s.db, id, payload), step.fault) then [FailEvent(s.db, id)] else [];
  }

  /** From s to t the log has grown by events that apply and enqueue nothing, and only job rows and dead letters changed. */
  ghost predicate Quiet(s: World, t: World, events: seq<Event>) {
    && t.log == s.log + events
    && (forall k :: 0 <= k < |events| ==> !events[k].Applied? && !events[k].Enqueued?)
    && t.db.(jobs := s.db.jobs, deadLetters := s.db.deadLetters) == s.db
  }

  lemma NextQuiet(s: World, step: Step) returns (events: seq<Event>)
    requires Enabled(s, step) && !step.CompleteStep? && !step.OutsideStep?
    ensures Quiet(s, Next(s, step), events)
  {
    match step
    case ClaimStep(_, _, _, _) => events := ClaimEvents(s, step);
    case FailStep(_, _) => events := FailEvents(s, step);
    case _ =>
      events := [];
      NoLog(s.log);
  }

  lemma NextKeepsShows(s: World, step: Step)
    requires Inv(s) && Enabled(s, step) && Shows(s.db, Replay(s.log))
    ensures Shows(Next(s, step).db, Replay(Next(s, step).log))
  {
    match step
    case CompleteStep(_, _) => CompleteKeepsShows(s, step);
    case OutsideStep(after, js) =>
      ReplayQuiet(s.log, EnqueuedEvents(s.db.nextJob, |js|));
      OutsideShows(s.db, after, js, Replay(s.log));
    case _ =>
      var events := NextQuiet(s, step);
      RowStepKeepsShows(s, Next(s, step), events);
  }

  lemma CompleteKeepsShows(s: World, step: Step)
    requires Inv(s) && step.CompleteStep? && Enabled(s, step) && Shows(s.db, Replay(s.log))
    ensures Shows(Next(s, step).db, Replay(Next(s, step).log))
  {
    var CompleteStep(w, fault) := step;
    assert WorkerOk(s.db, s.workers[w]);
    var id, work := s.workers[w].batch[0].id, s.workers[w].phase.work;
    NoLog(s.log);
    if TakesEffect(CompleteBody(s.db, id, work), fault) {
      ReplayApplied(s.log, s.db, id, work);
      CompletedShows(s.db, id, work, Replay(s.log));
    }
  }

  lemma OutsideShows(before: Db, after: Db, js: seq<NewJob>, w: Written)
    requires Shows(before, w) && Outside(before, after, js)
    ensures Shows(after, w)
  {
  }

  // ---------- the links, exactly ----------

  /** The links a step from outside brings in. */
  function LinksOf(db: Db, step: Step): set<(int, int)> {
    if step.OutsideStep? then step.after.junctions - db.junctions else {}
  }

  /** The links all steps from outside have brought in over a run. */
  ghost function OutsideLinks(s: World, steps: seq<Step>): set<(int, int)>
    requires Runs(s, steps)
    decreases |steps|
  {
    if steps == [] then {} else LinksOf(s.db, steps[0]) + OutsideLinks(Next(s, steps[0]), steps[1..])
  }

  lemma {:induction false} NoOutsideLinks(s: World, steps: seq<Step>)
    requires Runs(s, steps) && Undisturbed(steps)
    ensures OutsideLinks(s, steps) == {}
    decreases |steps|
  {
    if steps != [] {
      NoOutsideLinks(Next(s, steps[0]), steps[1..]);
    }
  }

  lemma AppliedLinks(db: Db, id: int, work: Work, w: Written)
    requires Shows(db, w) && work.ParseWork? && CompleteBody(db, id, work).Some?
    ensures CompleteBody(db, id, work).value.junctions == db.junctions + Write(w, Applied(id, work)).links
  {
    var d0 := UpdateSummary(db, work.versionId, work.summary);
    AddedLinks(d0, work.projectId, work.versionId, work.features);
  }

  /** From s to t file_features has grown by the links committed meanwhile and by extra. */
  ghost predicate LinksGrown(s: World, t: World, extra: set<(int, int)>) {
    && t.db.junctions == s.db.junctions + Replay(t.log).links + extra
    && Replay(s.log).links <= Replay(t.log).links
  }

  lemma QuietLinks(s: World, t: World, events: seq<Event>, extra: set<(int, int)>)
    requires Shows(s.db, Replay(s.log)) && t.log == s.log + events && t.db.junctions == s.db.junctions + extra
    requires forall k :: 0 <= k < |events| ==> !events[k].Applied?
    ensures LinksGrown(s, t, extra)
  {
    ReplayQuiet(s.log, events);
  }

  lemma CommittedLinks(s: World, t: World, id: int, work: Work)
    requires Shows(s.db, Replay(s.log)) && work.ParseWork? && CompleteBody(s.db, id, work).Some?
    requires t.db == CompleteBody(s.db, id, work).value && t.log == s.log + AppliedEvents(s.db, id, work)
    ensures LinksGrown(s, t, {})
  {
    ReplayApplied(s.log, s.db, id, work);
    AppliedLinks(s.db, id, work, Replay(s.log));
  }

  lemma CompleteLinks(s: World, step: Step)
    requires Inv(s) && step.CompleteStep? && Enabled(s, step) && Shows(s.db, Replay(s.log))
    ensures LinksGrown(s, Next(s, step), {})
  {
    var CompleteStep(w, fault) := step;
    assert WorkerOk(s.db, s.workers[w]);
    var id, work := s.workers[w].batch[0].id, s.workers[w].phase.work;
    if TakesEffect(CompleteBody(s.db, id, work), fault) {
      CommittedLinks(s, Next(s, step), id, work);
    } else {
      QuietLinks(s, Next(s, step), [], {});
    }
  }

  /** A step adds to file_features the links it commits or brings in, and nothing else. */
  lemma NextLinks(s: World, step: Step)
    requires Inv(s) && Enabled(s, step) && Shows(s.db, Replay(s.log))
    ensures LinksGrown(s, Next(s, step), LinksOf(s.db, step))
  {
    var t := Next(s, step);
    match step
    case CompleteStep(_, _) => CompleteLinks(s, step);
    case OutsideStep(after, js) => QuietLinks(s, t, EnqueuedEvents(s.db.nextJob, |js|), LinksOf(s.db, step));
    case _ =>
      var events := NextQuiet(s, step);
      QuietLinks(s, t, events, {});
  }

  lemma {:induction false} RunLinks(s: World, steps: seq<Step>)
    requires Inv(s) && Runs(s, steps) && Shows(s.db, Replay(s.log))
    ensures LinksGrown(s, After(s, steps), OutsideLinks(s, steps))
    decreases |steps|
  {
    if steps != [] {
      NextKeepsInv(s, steps[0]);
      NextKeepsShows(s, steps[0]);
      NextLinks(s, steps[0]);
      RunLinks(Next(s, steps[0]), steps[1..]);
    }
  }

  lemma InitShows(s: World)
    requires Init(s)
    ensures Shows(s.db, Replay(s.log))
  {
  }

  lemma {:induction false} RunKeepsShows(s: World, steps: seq<Step>)
    requires Inv(s) && Runs(s, steps) && Shows(s.db, Replay(s.log))
    ensures Shows(After(s, steps).db, Replay(After(s, steps).log))
    decreases |steps|
  {
    if steps != [] {
      NextKeepsInv(s, steps[0]);
      NextKeepsShows(s, steps[0]);
      RunKeepsShows(Next(s, steps[0]), steps[1..]);
    }
  }

  // ---------- downstream jobs ----------

  predicate Asks(e: Event, parent: int) {
    e.Enqueued? && e.parent == parent
  }

  /** How many jobs the work of job `parent` has enqueued. */
  function Spawned(log: seq<Event>, parent: int): nat {
    if log == [] then 0
    else Spawned(log[..|log| - 1], parent) + if Asks(log[|log| - 1], parent) then 1 else 0
  }

  /** Every downstream row was enqueued together with the completion of its parent
      and still carries the order the parent's work gave it. */
  ghost predicate SpawnRows(db: Db, log: seq<Event>) {
    forall k :: 0 <= k < |log| && log[k].Enqueued? && log[k].parent != 0 ==>
      && k > 0 && log[k - 1].Applied? && log[k - 1].id == log[k].parent && log[k - 1].work.ParseWork?
      && log[k].id < db.nextJob
      && (log[k].id in db.jobs ==>
            db.jobs[log[k].id].order == Downstream(log[k - 1].work.projectId, log[k - 1].work.versionId))
  }

  ghost predicate SpawnInv(s: World) {
    && (forall p :: p != 0 ==> Spawned(s.log, p) == Count(s.log, AppliedKind, p))
    && SpawnRows(s.db, s.log)
  }

  lemma {:induction false} SpawnQuiet(log: seq<Event>, events: seq<Event>, p: int)
    requires p != 0 && forall k :: 0 <= k < |events| ==> !events[k].Applied? && !Asks(events[k], p)
    ensures Spawned(log + events, p) == Spawned(log, p)
    ensures Count(log + events, AppliedKind, p) == Count(log, AppliedKind, p)
    decreases |events|
  {
    if events == [] {
      assert log + events == log;
    } else {
      SpawnOne(log, events[0], p);
      SpawnQuiet(log + [events[0]], events[1..], p);
      assert log + [events[0]] + events[1..] == log + events;
    }
  }

  lemma SpawnOne(log: seq<Event>, e: Event, p: int)
    ensures Spawned(log + [e], p) == Spawned(log, p) + if Asks(e, p) then 1 else 0
    ensures Count(log + [e], AppliedKind, p) == Count(log, AppliedKind, p) + if Is(e, AppliedKind, p) then 1 else 0
  {
    assert (log + [e])[..|log|] == log;
  }

  /** Job orders with issued ids never change, except that their rows may go away. */
  ghost predicate KeepsOrders(before: Db, after: Db) {
    before.nextJob <= after.nextJob
    && forall id :: id < before.nextJob && id in after.jobs ==>
         id in before.jobs && after.jobs[id].order == before.jobs[id].order
  }

  lemma QuietKeepsSpawn(s: World, next: World, events: seq<Event>)
    requires SpawnInv(s) && next.log == s.log + events && KeepsOrders(s.db, next.db)
    requires forall k :: 0 <= k < |events| ==> !events[k].Applied? && (events[k].Enqueued? ==> events[k].parent == 0)
    ensures SpawnInv(next)
  {
    forall p | p != 0 ensures Spawned(next.log, p) == Count(next.log, AppliedKind, p) {
      SpawnQuiet(s.log, events, p);
    }
    forall k | 0 <= k < |next.log| && next.log[k].Enqueued? && next.log[k].parent != 0
      ensures k < |s.log| && next.log[k] == s.log[k]
    {
    }
  }

  lemma AppliedKeepsSpawn(s: World, next: World, id: int, work: Work)
    requires SpawnInv(s) && id != 0 && work.ParseWork?
    requires next.log == s.log + [Applied(id, work)] + [Enqueued(s.db.nextJob, id)]
    requires next.db.jobs == s.db.jobs[s.db.nextJob := Job(Downstream(work.projectId, work.versionId), Pending, 0)] - {id}
    requires next.db.nextJob == s.db.nextJob + 1
    ensures SpawnInv(next)
  {
    var e0, e1 := Applied(id, work), Enqueued(s.db.nextJob, id);
    forall p | p != 0 ensures Spawned(next.log, p) == Count(next.log, AppliedKind, p) {
      SpawnOne(s.log, e0, p);
      SpawnOne(s.log + [e0], e1, p);
    }
    var n := |s.log|;
    assert next.log[n] == e0 && next.log[n + 1] == e1;
    forall k | 0 <= k < n ensures next.log[k] == s.log[k] {
    }
  }

  lemma CompleteKeepsSpawn(s: World, step: Step)
    requires Inv(s) && SpawnInv(s) && step.CompleteStep? && Enabled(s, step)
    ensures SpawnInv(Next(s, step))
  {
    var CompleteStep(w, fault) := step;
    assert WorkerOk(s.db, s.workers[w]);
    var id, work := s.workers[w].batch[0].id, s.workers[w].phase.work;
    assert RowOk(s.db, id);
    var next := Next(s, step);
    NoLog(s.log);
    if TakesEffect(CompleteBody(s.db, id, work), fault) {
      CompletedJobs(s.db, id, work);
      assert next.log == s.log + [Applied(id, work)] + [Enqueued(s.db.nextJob, id)];
      AppliedKeepsSpawn(s, next, id, work);
    } else {
      QuietKeepsSpawn(s, next, []);
    }
  }

  lemma NextKeepsOrders(s: World, step: Step)
    requires Inv(s) && Enabled(s, step) && !step.CompleteStep? && !step.OutsideStep?
    ensures KeepsOrders(s.db, Next(s, step).db)
  {
    if step.ClaimStep? {
      ClaimIsTop(s.db.jobs, step.limit);
    }
  }

  lemma OutsideKeepsSpawn(s: World, step: Step)
    requires Inv(s) && SpawnInv(s) && step.OutsideStep? && Enabled(s, step)
    ensures SpawnInv(Next(s, step))
  {
    InsertedJobs(s.db, step.js);
    QuietKeepsSpawn(s, Next(s, step), EnqueuedEvents(s.db.nextJob, |step.js|));
  }

  lemma NextKeepsSpawn(s: World, step: Step)
    requires Inv(s) && SpawnInv(s) && Enabled(s, step)
    ensures SpawnInv(Next(s, step))
  {
    match step
    case OutsideStep(_, _) => OutsideKeepsSpawn(s, step);
    case CompleteStep(_, _) => CompleteKeepsSpawn(s, step);
    case _ =>
      var events := NextQuiet(s, step);
      NextKeepsOrders(s, step);
      QuietKeepsSpawn(s, Next(s, step), events);
  }

  lemma {:induction false} RunKeepsSpawn(s: World, steps: seq<Step>)
    requires Inv(s) && Runs(s, steps) && SpawnInv(s)
    ensures SpawnInv(After(s, steps))
    decreases |steps|
  {
    if steps != [] {
      NextKeepsInv(s, steps[0]);
      NextKeepsSpawn(s, steps[0]);
      RunKeepsSpawn(Next(s, steps[0]), steps[1..]);
    }
  }

  // ---------- the theorem ----------

  /** In every reachable world and for every id ever issued: the job's work was
      committed once and enqueued one downstream job if its row is gone, and neither
      if the row is there. */
  lemma AppliedOnceIffDeleted(s: World, steps: seq<Step>, id: int)
    requires Init(s) && Runs(s, steps) && 1 <= id < After(s, steps).db.nextJob
    ensures var t := After(s, steps);
            Count(t.log, AppliedKind, id) == Spawned(t.log, id) == if id in t.db.jobs then 0 else 1
  {
    RunKeepsLife(s, steps);
    RunKeepsSpawn(s, steps);
    var t := After(s, steps);
    CountsByLife(t.log, id);
    assert Live(Unborn, t.log, id) == RowLife(t.db, id);
    if id in t.db.jobs {
      assert RowOk(t.db, id);
    }
  }

  /** In every reachable world the features and summaries in the tables are those of the
      committed works, each counted once, and the links are those of the committed works,
      those there at the start and those brought in from outside; nothing of a failed,
      panicked or rolled back attempt is left, and every downstream row has its parent's order. */
  lemma TablesShowCommittedWork(s: World, steps: seq<Step>)
    requires Init(s) && Runs(s, steps)
    ensures Shows(After(s, steps).db, Replay(After(s, steps).log))
    ensures After(s, steps).db.junctions == s.db.junctions + Replay(After(s, steps).log).links + OutsideLinks(s, steps)
    ensures Undisturbed(steps) ==> OutsideLinks(s, steps) == {}
    ensures SpawnRows(After(s, steps).db, After(s, steps).log)
  {
    InitShows(s);
    RunKeepsShows(s, steps);
    RunKeepsSpawn(s, steps);
    RunLinks(s, steps);
    if Undisturbed(steps) {
      NoOutsideLinks(s, steps);
    }
  }
}
