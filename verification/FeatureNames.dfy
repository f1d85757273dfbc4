/** The unique index on feature names: in every reachable world a project has no two features
    of the same name, and feature ids are never reused. */
module FeatureNames {
  import opened Text
  import opened Domain
  import opened Claims
  import opened Transactions
  import opened Protocol
  import opened Ownership
  import Effects
  import QueueOutcomes

  ghost predicate NamesUnique(db: Db) {
    && QueueOutcomes.FreshFeatureIds(db)
    && forall f, g :: f in db.features && g in db.features && f != g ==>
         db.features[f].projectId != db.features[g].projectId || db.features[f].name != db.features[g].name
  }

  lemma AddedStayUnique(db: Db, d: Db, projectId: int, versionId: int, texts: seq<FeatureText>)
    requires NamesUnique(db) && QueueOutcomes.NewNames(db, projectId, texts)
    requires QueueOutcomes.FeaturesAdded(db, d, projectId, versionId, texts)
    ensures NamesUnique(d)
  {
    forall f, g | f in d.features && g in d.features && f < g
      ensures d.features[f].projectId != d.features[g].projectId || d.features[f].name != d.features[g].name
    {
      if g >= db.nextFeature {
        NewRow(db, d, projectId, versionId, texts, g);
        if f >= db.nextFeature {
          NewRow(db, d, projectId, versionId, texts, f);
        }
      }
    }
  }

  lemma NewRow(db: Db, d: Db, projectId: int, versionId: int, texts: seq<FeatureText>, f: int)
    requires QueueOutcomes.FreshFeatureIds(db) && QueueOutcomes.FeaturesAdded(db, d, projectId, versionId, texts)
    requires f in d.features && f >= db.nextFeature
    ensures f - db.nextFeature < |texts|
    ensures var t := texts[f - db.nextFeature]; d.features[f] == Feature(projectId, t.name, t.description)
  {
    var i := f - db.nextFeature;
    assert db.nextFeature + i == f;
  }

  lemma NextKeepsNames(s: World, step: Step)
    requires Inv(s) && NamesUnique(s.db) && Enabled(s, step)
    ensures NamesUnique(Next(s, step).db)
  {
    match step
    case CompleteStep(w, fault) => CompleteKeepsNames(s, step);
    case OutsideStep(_, _) =>
    case _ => var events := Effects.NextQuiet(s, step);
  }

  lemma CompleteKeepsNames(s: World, step: Step)
    requires Inv(s) && NamesUnique(s.db) && step.CompleteStep? && Enabled(s, step)
    ensures NamesUnique(Next(s, step).db)
  {
    var wk := s.workers[step.w];
    assert WorkerOk(s.db, wk);
    var id, work := wk.batch[0].id, wk.phase.work;
    if TakesEffect(CompleteBody(s.db, id, work), step.fault) {
      QueueOutcomes.CompletesIff(s.db, id, work.projectId, work.versionId, work.summary, work.features);
      QueueOutcomes.CompleteOutcome(s.db, id, work.projectId, work.versionId, work.summary, work.features);
      AddedStayUnique(s.db, CompleteBody(s.db, id, work).value, work.projectId, work.versionId, work.features);
    }
  }

  /** Over every run of any number of workers, with ingestion in between. */
  lemma {:induction false} RunKeepsNames(s: World, steps: seq<Step>)
    requires Inv(s) && NamesUnique(s.db) && Runs(s, steps)
    ensures NamesUnique(After(s, steps).db)
    decreases |steps|
  {
    if steps != [] {
      NextKeepsInv(s, steps[0]);
      NextKeepsNames(s, steps[0]);
      RunKeepsNames(Next(s, steps[0]), steps[1..]);
    }
  }
}
