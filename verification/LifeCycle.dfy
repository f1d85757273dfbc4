/** The life of one job as the log tells it, and that the table always shows exactly
    that life: retry accounting, dead-lettering, and what lies between two claims. */
module LifeCycle {
  import opened Text
  import opened Domain
  import opened Claims
  import opened Transactions
  import opened Store
  import opened Protocol
  import opened Ownership

  /** Waiting and Running carry the number of committed retries so far. */
  datatype Life = Unborn | Waiting(n: int) | Running(n: int) | Dead | Done | Illegal

  function Advance(l: Life, e: Event): Life {
    match e
    case Enqueued(_, _) => if l == Unborn then Waiting(0) else Illegal
    case Taken(_, _) => if l.Waiting? then Running(l.n) else Illegal
    case Applied(_, _) => if l.Running? then Done else Illegal
    case Retried(_) => if l.Running? && l.n < MAX_RETRIES then Waiting(l.n + 1) else Illegal
    case Died(_) => if l == Running(MAX_RETRIES) then Dead else Illegal
  }

  function Live(l: Life, events: seq<Event>, id: int): Life
    decreases |events|
  {
    if events == [] then l
    else Live(if events[0].id == id then Advance(l, events[0]) else l, events[1..], id)
  }

  /** What the table shows of a job. */
  function RowLife(db: Db, id: int): Life {
    if !(1 <= id < db.nextJob) then Unborn
    else if id !in db.jobs then Done
    else
      match db.jobs[id].status
      case Pending => Waiting(db.jobs[id].retryCount)
      case Processing => Running(db.jobs[id].retryCount)
      case Failed => Dead
      case _ => Illegal
  }

  ghost predicate LifeInv(s: World) {
    forall id :: Live(Unborn, s.log, id) == RowLife(s.db, id)
  }

  // ---------- the log grows ----------

  lemma {:induction false} LiveConcat(l: Life, a: seq<Event>, b: seq<Event>, id: int)
    ensures Live(l, a + b, id) == Live(Live(l, a, id), b, id)
    decreases |a|
  {
    if a == [] {
      assert a + b == b;
    } else {
      assert (a + b)[1..] == a[1..] + b;
      LiveConcat(if a[0].id == id then Advance(l, a[0]) else l, a[1..], b, id);
    }
  }

  lemma {:induction false} LiveTaken(l: Life, rows: seq<ClaimedJob>, w: int, id: int)
    requires DistinctIds(rows)
    ensures Live(l, TakenEvents(rows, w), id) == if id in Ids(rows) then Advance(l, Taken(id, w)) else l
    decreases |rows|
  {
    if rows != [] {
      var rest := rows[1..];
      assert TakenEvents(rows, w)[1..] == TakenEvents(rest, w);
      LiveTaken(if rows[0].id == id then Advance(l, Taken(id, w)) else l, rest, w, id);
      assert rows == [rows[0]] + rest;
      assert id in Ids(rows) <==> id == rows[0].id || id in Ids(rest) by {
        assert forall i :: 0 <= i < |rest| ==> rows[i + 1] == rest[i];
        assert forall i :: 0 < i < |rows| ==> rest[i - 1] == rows[i];
        if id == rows[0].id { assert rows[0].id in Ids(rows); }
      }
      assert rows[0].id !in Ids(rest);
    }
  }

  lemma {:induction false} LiveEnqueued(l: Life, first: int, n: nat, id: int)
    ensures Live(l, EnqueuedEvents(first, n), id)
         == if first <= id < first + n then Advance(l, Enqueued(id, 0)) else l
    decreases n
  {
    if n > 0 {
      assert EnqueuedEvents(first, n)[1..] == EnqueuedEvents(first + 1, n - 1);
      LiveEnqueued(if first == id then Advance(l, Enqueued(id, 0)) else l, first + 1, n - 1, id);
    }
  }

  lemma LiveApplied(l: Life, db: Db, head: int, work: Work, id: int)
    requires work.ParseWork? && head < db.nextJob
    ensures Live(l, AppliedEvents(db, head, work), id)
         == if id == head then Advance(l, Applied(head, work))
            else if id == db.nextJob then Advance(l, Enqueued(id, head)) else l
  {
    assert AppliedEvents(db, head, work) == [Applied(head, work)] + [Enqueued(db.nextJob, head)];
    LiveConcat(l, [Applied(head, work)], [Enqueued(db.nextJob, head)], id);
    LiveOne(l, Applied(head, work), id);
    LiveOne(Live(l, [Applied(head, work)], id), Enqueued(db.nextJob, head), id);
  }

  lemma LiveOne(l: Life, e: Event, id: int)
    ensures Live(l, [e], id) == if e.id == id then Advance(l, e) else l
  {
    assert [e][1..] == [];
  }

  lemma NoLog(log: seq<Event>)
    ensures log + [] == log
  {
  }

  lemma ClaimKeepsLife(s: World, step: Step, id: int)
    requires Inv(s) && LifeInv(s) && step.ClaimStep? && Enabled(s, step)
    ensures Live(Unborn, Next(s, step).log, id) == RowLife(Next(s, step).db, id)
  {
    var ClaimStep(w, limit, rows, fault) := step;
    ClaimIsTop(s.db.jobs, limit);
    NoLog(s.log);
    assert Live(Unborn, s.log, id) == RowLife(s.db, id);
    if TakesEffect(Some(s.db), fault) {
      LiveConcat(Unborn, s.log, TakenEvents(rows, w), id);
      LiveTaken(RowLife(s.db, id), rows, w, id);
      assert id in s.db.jobs ==> RowOk(s.db, id);
    }
  }

  lemma CompleteKeepsLife(s: World, step: Step, id: int)
    requires Inv(s) && LifeInv(s) && step.CompleteStep? && Enabled(s, step)
    ensures Live(Unborn, Next(s, step).log, id) == RowLife(Next(s, step).db, id)
  {
    var CompleteStep(w, fault) := step;
    var wk := s.workers[w];
    assert WorkerOk(s.db, wk);
    var head, work := wk.batch[0].id, wk.phase.work;
    NoLog(s.log);
    assert Live(Unborn, s.log, id) == RowLife(s.db, id);
    assert RowOk(s.db, head);
    if TakesEffect(CompleteBody(s.db, head, work), fault) {
      CompletedJobs(s.db, head, work);
      LiveConcat(Unborn, s.log, AppliedEvents(s.db, head, work), id);
      LiveApplied(RowLife(s.db, id), s.db, head, work, id);
    }
  }

  lemma FailKeepsLife(s: World, step: Step, id: int)
    requires Inv(s) && LifeInv(s) && step.FailStep? && Enabled(s, step)
    ensures Live(Unborn, Next(s, step).log, id) == RowLife(Next(s, step).db, id)
  {
    var FailStep(w, fault) := step;
    var wk := s.workers[w];
    assert WorkerOk(s.db, wk);
    var head := wk.batch[0].id;
    NoLog(s.log);
    assert Live(Unborn, s.log, id) == RowLife(s.db, id);
    if head in s.db.jobs {
      assert RowOk(s.db, head);
      LiveConcat(Unborn, s.log, [FailEvent(s.db, head)], id);
    }
  }

  lemma OutsideKeepsLife(s: World, step: Step, id: int)
    requires Inv(s) && LifeInv(s) && step.OutsideStep? && Enabled(s, step)
    ensures Live(Unborn, Next(s, step).log, id) == RowLife(Next(s, step).db, id)
  {
    var OutsideStep(after, js) := step;
    InsertedJobs(s.db, js);
    assert Live(Unborn, s.log, id) == RowLife(s.db, id);
    LiveConcat(Unborn, s.log, EnqueuedEvents(s.db.nextJob, |js|), id);
    LiveEnqueued(RowLife(s.db, id), s.db.nextJob, |js|, id);
  }

  lemma NextKeepsLife(s: World, step: Step)
    requires Inv(s) && LifeInv(s) && Enabled(s, step)
    ensures LifeInv(Next(s, step))
  {
    forall id ensures Live(Unborn, Next(s, step).log, id) == RowLife(Next(s, step).db, id) {
      assert Live(Unborn, s.log, id) == RowLife(s.db, id);
      match step
      case ClaimStep(_, _, _, _) => ClaimKeepsLife(s, step, id);
      case CompleteStep(_, _) => CompleteKeepsLife(s, step, id);
      case FailStep(_, _) => FailKeepsLife(s, step, id);
      case OutsideStep(_, _) => OutsideKeepsLife(s, step, id);
      case DispatchStep(_, _) =>
      case AbandonStep(_) =>
    }
  }

  lemma {:induction false} RunKeepsLife(s: World, steps: seq<Step>)
    requires Inv(s) && LifeInv(s) && Runs(s, steps)
    ensures Inv(After(s, steps)) && LifeInv(After(s, steps))
    decreases |steps|
  {
    if steps != [] {
      NextKeepsInv(s, steps[0]);
      NextKeepsLife(s, steps[0]);
      RunKeepsLife(Next(s, steps[0]), steps[1..]);
    }
  }

  // ---------- counting ----------

  datatype Kind = TakenKind | AppliedKind | RetriedKind | DiedKind

  predicate Is(e: Event, kind: Kind, id: int) {
    e.id == id &&
    match kind
    case TakenKind => e.Taken?
    case AppliedKind => e.Applied?
    case RetriedKind => e.Retried?
    case DiedKind => e.Died?
  }

  function Count(log: seq<Event>, kind: Kind, id: int): nat {
    if log == [] then 0
    else Count(log[..|log| - 1], kind, id) + if Is(log[|log| - 1], kind, id) then 1 else 0
  }

  predicate CountsAre(log: seq<Event>, id: int, taken: int, applied: int, retried: int, died: int) {
    && Count(log, TakenKind, id) == taken
    && Count(log, AppliedKind, id) == applied
    && Count(log, RetriedKind, id) == retried
    && Count(log, DiedKind, id) == died
  }

  /** Completed after n retries. */
  predicate DoneCounts(log: seq<Event>, id: int, n: int) {
    CountsAre(log, id, n + 1, 1, n, 0)
  }

  predicate LifeCounts(log: seq<Event>, id: int, l: Life) {
    match l
    case Unborn => CountsAre(log, id, 0, 0, 0, 0)
    case Waiting(n) => 0 <= n <= 3 && CountsAre(log, id, n, 0, n, 0)
    case Running(n) => 0 <= n <= 3 && CountsAre(log, id, n + 1, 0, n, 0)
    case Dead => CountsAre(log, id, 4, 0, 3, 1)
    case Done => exists n :: 0 <= n <= 3 && DoneCounts(log, id, n)
    case Illegal => true
  }

  /** The life a log tells fixes how often each thing happened to the job. */
  lemma {:induction false} CountsByLife(log: seq<Event>, id: int)
    ensures LifeCounts(log, id, Live(Unborn, log, id))
  {
    if log != [] {
      var init, e := log[..|log| - 1], log[|log| - 1];
      assert log == init + [e];
      CountsByLife(init, id);
      LiveConcat(Unborn, init, [e], id);
      var l := Live(Unborn, init, id);
      if e.id == id && e.Applied? && l.Running? {
        assert DoneCounts(log, id, l.n);
      } else if e.id != id && l.Done? {
        var n :| 0 <= n <= 3 && DoneCounts(init, id, n);
        assert DoneCounts(log, id, n);
      }
    }
  }

  /** Retry accounting: how often a job was claimed and put back is readable from its row. */
  lemma RetryAccounting(s: World, steps: seq<Step>, id: int)
    requires Init(s) && Runs(s, steps)
    ensures var t := After(s, steps);
            id in t.db.jobs ==>
              var row := t.db.jobs[id];
              && 0 <= row.retryCount <= 3
              && (row.status == Pending ==> CountsAre(t.log, id, row.retryCount, 0, row.retryCount, 0))
              && (row.status == Processing ==> CountsAre(t.log, id, row.retryCount + 1, 0, row.retryCount, 0))
              && (row.status == Failed ==> CountsAre(t.log, id, 4, 0, 3, 1))
              && (row.status == Pending || row.status == Processing || row.status == Failed)
  {
    RunKeepsLife(s, steps);
    var t := After(s, steps);
    CountsByLife(t.log, id);
    assert Live(Unborn, t.log, id) == RowLife(t.db, id);
    if id in t.db.jobs {
      assert RowOk(t.db, id);
    }
  }

  // ---------- between two claims ----------

  lemma {:induction false} LiveIllegal(events: seq<Event>, id: int)
    ensures Live(Illegal, events, id) == Illegal
    decreases |events|
  {
    if events != [] {
      LiveIllegal(events[1..], id);
    }
  }

  predicate HasRetry(events: seq<Event>, id: int) {
    exists k :: 0 <= k < |events| && events[k] == Retried(id)
  }

  /** Without a retry, a running, dead or finished job does not wait again. */
  lemma {:induction false} NoRetryNoWait(l: Life, events: seq<Event>, id: int)
    requires !l.Waiting? && l != Unborn && !HasRetry(events, id)
    ensures !Live(l, events, id).Waiting? && Live(l, events, id) != Unborn
    decreases |events|
  {
    if events != [] {
      assert events[0] != Retried(id);
      assert forall k :: 0 <= k < |events[1..]| ==> events[1..][k] == events[k + 1];
      NoRetryNoWait(if events[0].id == id then Advance(l, events[0]) else l, events[1..], id);
    }
  }

  /** The life of a log cut at two of its events. */
  lemma LiveCut(log: seq<Event>, i: nat, j: nat, id: int)
    requires i < j < |log| && log[i].id == id && log[j].id == id
    ensures var l1 := Advance(Live(Unborn, log[..i], id), log[i]);
            Live(Unborn, log, id) == Live(Advance(Live(l1, log[i + 1..j], id), log[j]), log[j + 1..], id)
  {
    LiveBehind(Unborn, log, i, id);
    LiveBehind(Advance(Live(Unborn, log[..i], id), log[i]), log[i + 1..], j - i - 1, id);
    assert log[i + 1..][..j - i - 1] == log[i + 1..j] && log[i + 1..][j - i..] == log[j + 1..];
  }

  lemma LiveBehind(l: Life, log: seq<Event>, i: nat, id: int)
    requires i < |log| && log[i].id == id
    ensures Live(l, log, id) == Live(Advance(Live(l, log[..i], id), log[i]), log[i + 1..], id)
  {
    LiveConcat(l, log[..i], log[i..], id);
    assert log == log[..i] + log[i..] && log[i..][1..] == log[i + 1..];
  }

  /** Two claims of one job are always separated by a committed retry of it. */
  lemma RetryBetweenClaims(s: World, steps: seq<Step>, i: nat, j: nat, id: int)
    requires Init(s) && Runs(s, steps)
    requires i < j < |After(s, steps).log|
    requires Is(After(s, steps).log[i], TakenKind, id) && Is(After(s, steps).log[j], TakenKind, id)
    ensures HasRetry(After(s, steps).log[i + 1..j], id)
  {
    RunKeepsLife(s, steps);
    var t := After(s, steps);
    assert Live(Unborn, t.log, id) == RowLife(t.db, id);
    assert id in t.db.jobs ==> RowOk(t.db, id);
    LegalHasRetry(t.log, i, j, id);
  }

  lemma LegalHasRetry(log: seq<Event>, i: nat, j: nat, id: int)
    requires i < j < |log| && Is(log[i], TakenKind, id) && Is(log[j], TakenKind, id)
    requires Live(Unborn, log, id) != Illegal
    ensures HasRetry(log[i + 1..j], id)
  {
    LiveCut(log, i, j, id);
    LiveIllegal(log[j + 1..], id);
    if !HasRetry(log[i + 1..j], id) {
      NoRetryNoWait(Advance(Live(Unborn, log[..i], id), log[i]), log[i + 1..j], id);
    }
  }

  // ---------- dead letters ----------

  function DeadLettersOf(letters: seq<DeadLetter>, id: int): nat {
    if letters == [] then 0
    else DeadLettersOf(letters[..|letters| - 1], id) + if letters[|letters| - 1].jobId == id then 1 else 0
  }

  ghost predicate LettersInv(db: Db) {
    forall id :: DeadLettersOf(db.deadLetters, id) == if id in db.jobs && db.jobs[id].status == Failed then 1 else 0
  }

  lemma CompleteKeepsLetters(s: World, step: Step)
    requires Inv(s) && LettersInv(s.db) && step.CompleteStep? && Enabled(s, step)
    ensures LettersInv(Next(s, step).db)
  {
    var wk := s.workers[step.w];
    assert WorkerOk(s.db, wk);
    if Next(s, step).db != s.db {
      CompletedJobs(s.db, wk.batch[0].id, wk.phase.work);
    }
  }

  lemma FailKeepsLetters(s: World, step: Step)
    requires Inv(s) && LettersInv(s.db) && step.FailStep? && Enabled(s, step)
    ensures LettersInv(Next(s, step).db)
  {
    var next := Next(s, step).db;
    assert WorkerOk(s.db, s.workers[step.w]);
    if next.deadLetters != s.db.deadLetters {
      assert next.deadLetters[..|next.deadLetters| - 1] == s.db.deadLetters;
    }
  }

  lemma NextKeepsLetters(s: World, step: Step)
    requires Inv(s) && LettersInv(s.db) && Enabled(s, step)
    ensures LettersInv(Next(s, step).db)
  {
    match step
    case ClaimStep(_, limit, _, _) => ClaimIsTop(s.db.jobs, limit);
    case DispatchStep(_, _) =>
    case AbandonStep(_) =>
    case OutsideStep(after, js) =>
      InsertedJobs(s.db, js);
      forall id | id in after.jobs && id !in s.db.jobs ensures DeadLettersOf(s.db.deadLetters, id) == 0 {
      }
    case CompleteStep(_, _) => CompleteKeepsLetters(s, step);
    case FailStep(_, _) => FailKeepsLetters(s, step);
  }

  lemma {:induction false} RunKeepsLetters(s: World, steps: seq<Step>)
    requires Inv(s) && LettersInv(s.db) && Runs(s, steps)
    ensures LettersInv(After(s, steps).db)
    decreases |steps|
  {
    if steps != [] {
      NextKeepsInv(s, steps[0]);
      NextKeepsLetters(s, steps[0]);
      RunKeepsLetters(Next(s, steps[0]), steps[1..]);
    }
  }

  /** A row is failed if and only if exactly one dead letter names it; no other job has any. */
  lemma DeadLettersExact(s: World, steps: seq<Step>, id: int)
    requires Init(s) && Runs(s, steps)
    ensures var db := After(s, steps).db;
            DeadLettersOf(db.deadLetters, id) == if id in db.jobs && db.jobs[id].status == Failed then 1 else 0
  {
    RunKeepsLetters(s, steps);
  }

  // ---------- the end is the end ----------

  /** A failed row and a deleted row stay as they are. */
  ghost predicate Final(db: Db, id: int) {
    1 <= id < db.nextJob && (id in db.jobs ==> db.jobs[id].status == Failed)
  }

  lemma NextKeepsFinal(s: World, step: Step, id: int)
    requires Inv(s) && Enabled(s, step) && Final(s.db, id)
    ensures SameRow(s.db, Next(s, step).db, id) && Final(Next(s, step).db, id)
  {
    match step
    case ClaimStep(_, limit, _, _) => ClaimIsTop(s.db.jobs, limit);
    case OutsideStep(_, js) => InsertedJobs(s.db, js);
    case DispatchStep(_, _) =>
    case AbandonStep(_) =>
    case CompleteStep(w, fault) =>
      assert WorkerOk(s.db, s.workers[w]);
      if Next(s, step).db != s.db {
        CompletedJobs(s.db, s.workers[w].batch[0].id, s.workers[w].phase.work);
      }
    case FailStep(w, _) => assert WorkerOk(s.db, s.workers[w]);
  }

  /** Whatever happens later, a dead-lettered job is never claimed or changed again and
      a completed job never comes back; a late Fail finds no row and changes nothing. */
  lemma {:induction false} FinalIsForever(s: World, steps: seq<Step>, id: int)
    requires Inv(s) && Runs(s, steps) && Final(s.db, id)
    ensures SameRow(s.db, After(s, steps).db, id) && Final(After(s, steps).db, id)
    decreases |steps|
  {
    if steps != [] {
      NextKeepsInv(s, steps[0]);
      NextKeepsFinal(s, steps[0], id);
      FinalIsForever(Next(s, steps[0]), steps[1..], id);
    }
  }
}
