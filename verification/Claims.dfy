/** Which rows JobStore.ClaimBatch takes: the first `limit` pending rows in
    (priority DESC, id ASC) order, and what repeated claims amount to. */
module Claims {
  import opened Domain

  type Jobs = map<int, Job>

  function PendingIds(jobs: Jobs): set<int> {
    set id | id in jobs && jobs[id].status == Pending
  }

  /** ORDER BY priority DESC, id ASC. */
  predicate Before(jobs: Jobs, a: int, b: int)
    requires a in jobs && b in jobs
  {
    var p, q := jobs[a].order.priority, jobs[b].order.priority;
    p > q || (p == q && a < b)
  }

  lemma Irreversible(jobs: Jobs, a: int, b: int)
    requires a in jobs && b in jobs
    ensures a != b ==> (Before(jobs, a, b) <==> !Before(jobs, b, a))
  {
  }

  lemma Member<T>(s: set<T>) returns (x: T)
    requires s != {}
    ensures x in s
  {
    x :| x in s;
  }

  ghost predicate IsFirst(jobs: Jobs, s: set<int>, x: int)
    requires s <= jobs.Keys
  {
    x in s && forall y :: y in s && y != x ==> Before(jobs, x, y)
  }

  /** Moving the first of the rest over keeps all chosen ones in front. */
  lemma MoveFirst(jobs: Jobs, chosen: set<int>, left: set<int>, x: int)
    requires chosen <= jobs.Keys && left <= jobs.Keys && chosen !! left && IsFirst(jobs, left, x)
    requires forall a, b :: a in chosen && b in left ==> Before(jobs, a, b)
    ensures chosen + {x} !! left - {x} && (chosen + {x}) + (left - {x}) == chosen + left
    ensures |chosen + {x}| == |chosen| + 1
    ensures forall a, b :: a in chosen + {x} && b in left - {x} ==> Before(jobs, a, b)
  {
  }

  lemma {:induction false} FirstExists(jobs: Jobs, s: set<int>)
    requires s <= jobs.Keys && s != {}
    ensures exists x :: IsFirst(jobs, s, x)
    decreases |s|
  {
    var x := Member(s);
    var rest := s - {x};
    if rest == {} {
      assert s == {x};
      assert IsFirst(jobs, s, x);
    } else {
      FirstExists(jobs, rest);
      var y :| IsFirst(jobs, rest, y);
      var z := if Before(jobs, y, x) then y else x;
      forall w | w in s && w != z ensures Before(jobs, z, w) {
        assert w == x || w in rest;
      }
      assert IsFirst(jobs, s, z);
    }
  }

  ghost function First(jobs: Jobs, s: set<int>): (x: int)
    requires s <= jobs.Keys && s != {}
    ensures IsFirst(jobs, s, x)
  {
    FirstExists(jobs, s);
    var x :| IsFirst(jobs, s, x);
    x
  }

  /** The k first rows of s, in order. */
  ghost function Top(jobs: Jobs, s: set<int>, k: nat): (r: seq<int>)
    requires s <= jobs.Keys
    ensures forall x :: x in r ==> x in s
    decreases k
  {
    if k == 0 || s == {} then []
    else
      var x := First(jobs, s);
      [x] + Top(jobs, s - {x}, k - 1)
  }

  /** LIMIT: a negative limit is none. */
  function Bound(limit: int, n: nat): nat {
    if limit < 0 || limit > n then n else limit
  }

  ghost function Claimed(jobs: Jobs, limit: int): set<int> {
    set x | x in Top(jobs, PendingIds(jobs), Bound(limit, |PendingIds(jobs)|))
  }

  /** ids is what a claim may take: as many pending rows as the limit allows, none
      of them behind a pending row that stays. */
  ghost predicate TopChoice(jobs: Jobs, limit: int, ids: set<int>) {
    var pending := PendingIds(jobs);
    && ids <= pending
    && |ids| == Bound(limit, |pending|)
    && forall x, y :: x in ids && y in pending - ids ==> Before(jobs, x, y)
  }

  predicate Distinct(r: seq<int>) {
    forall i, j :: 0 <= i < j < |r| ==> r[i] != r[j]
  }

  lemma {:induction false} TopSorted(jobs: Jobs, s: set<int>, k: nat)
    requires s <= jobs.Keys
    ensures var r := Top(jobs, s, k);
            && (forall i, j :: 0 <= i < j < |r| ==> Before(jobs, r[i], r[j]))
            && (forall x, y :: x in r && y in s && y !in r ==> Before(jobs, x, y))
  {
    if k != 0 && s != {} {
      TopSorted(jobs, s - {First(jobs, s)}, k - 1);
    }
  }

  lemma {:induction false} TopSize(jobs: Jobs, s: set<int>, k: nat)
    requires s <= jobs.Keys
    ensures |Top(jobs, s, k)| == if k <= |s| then k else |s|
    ensures Distinct(Top(jobs, s, k))
  {
    TopSorted(jobs, s, k);
    if k != 0 && s != {} {
      TopSize(jobs, s - {First(jobs, s)}, k - 1);
    }
  }

  lemma {:induction false} DistinctSet(r: seq<int>)
    requires Distinct(r)
    ensures |set x | x in r| == |r|
  {
    if r != [] {
      DistinctSet(r[1..]);
      assert (set x | x in r) == {r[0]} + (set x | x in r[1..]);
      assert r[0] !in r[1..];
    }
  }

  /** A claim takes exactly min(limit, pending) rows and no row behind one it leaves. */
  lemma ClaimIsTop(jobs: Jobs, limit: int)
    ensures TopChoice(jobs, limit, Claimed(jobs, limit))
  {
    var s := PendingIds(jobs);
    var k := Bound(limit, |s|);
    TopSorted(jobs, s, k);
    TopSize(jobs, s, k);
    DistinctSet(Top(jobs, s, k));
  }

  /** The same in numbers: the higher priority goes first, and among equal priorities the smaller id. */
  lemma ClaimOrder(jobs: Jobs, limit: int)
    ensures
      var ids := Claimed(jobs, limit);
      var pending := set id | id in jobs && jobs[id].status == Pending;
      && ids <= pending
      && |ids| == (if limit < 0 || limit > |pending| then |pending| else limit)
      && forall x, y :: x in ids && y in pending && y !in ids ==>
           jobs[x].order.priority > jobs[y].order.priority
           || (jobs[x].order.priority == jobs[y].order.priority && x < y)
  {
    ClaimIsTop(jobs, limit);
    var ids, pending := Claimed(jobs, limit), PendingIds(jobs);
    assert pending == set id | id in jobs && jobs[id].status == Pending;
    forall x, y | x in ids && y in pending && y !in ids ensures Before(jobs, x, y) {
      assert y in pending - ids;
    }
  }

  /** There is one such set of rows, whatever way the engine finds it. */
  lemma ClaimIsOnlyTop(jobs: Jobs, limit: int, ids: set<int>)
    requires TopChoice(jobs, limit, ids)
    ensures ids == Claimed(jobs, limit)
  {
    ClaimIsTop(jobs, limit);
    var c := Claimed(jobs, limit);
    if ids != c {
      var x, y := SameSizeDiffer(ids, c);
      Irreversible(jobs, x, y);
    }
  }

  lemma SameSizeDiffer(a: set<int>, b: set<int>) returns (x: int, y: int)
    requires |a| == |b| && a != b
    ensures x in a && x !in b && y in b && y !in a
  {
    assert a == (a - b) + a * b && b == (b - a) + a * b;
    assert |a| == |a - b| + |a * b| && |b| == |b - a| + |a * b|;
    assert a - b != {} || b - a != {};
    assert |a - b| > 0 && |b - a| > 0;
    x := Member(a - b);
    y := Member(b - a);
  }

  // ---------- claim after claim ----------

  lemma {:induction false} TopSame(jobs: Jobs, other: Jobs, s: set<int>, k: nat)
    requires s <= jobs.Keys && s <= other.Keys
    requires forall x :: x in s ==> jobs[x].order == other[x].order
    ensures Top(jobs, s, k) == Top(other, s, k)
  {
    if k != 0 && s != {} {
      var x, y := First(jobs, s), First(other, s);
      Irreversible(jobs, x, y);
      TopSame(jobs, other, s - {x}, k - 1);
    }
  }

  lemma {:induction false} TopSplits(jobs: Jobs, s: set<int>, a: nat, b: nat)
    requires s <= jobs.Keys
    ensures Top(jobs, s, a + b) == Top(jobs, s, a) + Top(jobs, s - (set x | x in Top(jobs, s, a)), b)
  {
    if a == 0 || s == {} {
      assert s - (set x | x in Top(jobs, s, a)) == s;
    } else {
      var x := First(jobs, s);
      TopSplits(jobs, s - {x}, a - 1, b);
      var rest := Top(jobs, s - {x}, a - 1);
      assert s - (set y | y in [x] + rest) == s - {x} - (set y | y in rest);
    }
  }

  /** Claims with the given limits, one after the other, on rows nobody else touches:
      the claimed ids in claim order, batch by batch. */
  ghost function Batches(db: Db, limits: seq<nat>): seq<int>
    decreases |limits|
  {
    if limits == [] then []
    else
      Top(db.jobs, PendingIds(db.jobs), limits[0]) + Batches(MarkProcessing(db, Claimed(db.jobs, limits[0])), limits[1..])
  }

  function Sum(limits: seq<nat>): nat {
    if limits == [] then 0 else limits[0] + Sum(limits[1..])
  }

  lemma {:induction false} BatchesAreTop(db: Db, limits: seq<nat>)
    ensures Batches(db, limits) == Top(db.jobs, PendingIds(db.jobs), Sum(limits))
    decreases |limits|
  {
    if limits != [] {
      BatchesAreTop(MarkProcessing(db, Claimed(db.jobs, limits[0])), limits[1..]);
      NextBatch(db, limits[0], Sum(limits[1..]));
    }
  }

  lemma NextBatch(db: Db, k: nat, n: nat)
    ensures var after := MarkProcessing(db, Claimed(db.jobs, k));
            Top(db.jobs, PendingIds(db.jobs), k) + Top(after.jobs, PendingIds(after.jobs), n)
            == Top(db.jobs, PendingIds(db.jobs), k + n)
  {
    var s := PendingIds(db.jobs);
    var left := s - (set x | x in Top(db.jobs, s, k));
    var after := MarkProcessing(db, Claimed(db.jobs, k));
    PendingAfterClaim(db, k);
    TopSame(after.jobs, db.jobs, left, n);
    TopSplits(db.jobs, s, k, n);
  }

  lemma PendingAfterClaim(db: Db, k: nat)
    ensures PendingIds(MarkProcessing(db, Claimed(db.jobs, k)).jobs)
         == PendingIds(db.jobs) - (set x | x in Top(db.jobs, PendingIds(db.jobs), k))
  {
    TopBeyondSize(db.jobs, PendingIds(db.jobs), k);
  }

  lemma {:induction false} TopBeyondSize(jobs: Jobs, s: set<int>, k: nat)
    requires s <= jobs.Keys
    ensures Top(jobs, s, k) == Top(jobs, s, Bound(k, |s|))
  {
    if k > |s| {
      TopSplits(jobs, s, |s|, k - |s|);
      TopSize(jobs, s, |s|);
      var r := Top(jobs, s, |s|);
      DistinctSet(r);
      assert (set x | x in r) <= s;
      AllOf((set x | x in r), s);
      assert s - (set x | x in r) == {};
    }
  }

  lemma AllOf(a: set<int>, b: set<int>)
    requires a <= b && |a| == |b|
    ensures a == b
  {
    assert b == a + (b - a);
    assert |b| == |a| + |b - a|;
  }

  /** Claims that together reach the number of pending rows hand out every pending
      row once, in (priority DESC, id ASC) order across all the batches. */
  lemma ClaimsDrainInOrder(db: Db, limits: seq<nat>)
    requires Sum(limits) >= |PendingIds(db.jobs)|
    ensures var r := Batches(db, limits);
            && Distinct(r)
            && (set x | x in r) == PendingIds(db.jobs)
            && forall i, j :: 0 <= i < j < |r| ==> r[i] in db.jobs && r[j] in db.jobs && Before(db.jobs, r[i], r[j])
  {
    var s := PendingIds(db.jobs);
    BatchesAreTop(db, limits);
    TopSorted(db.jobs, s, Sum(limits));
    TopSize(db.jobs, s, Sum(limits));
    var r := Top(db.jobs, s, Sum(limits));
    DistinctSet(r);
    AllOf((set x | x in r), s);
  }

  /** Across all batches priorities only fall, and ids rise within one priority. */
  lemma BatchesOrder(db: Db, limits: seq<nat>)
    ensures
      var r := Batches(db, limits);
      && (forall i :: 0 <= i < |r| ==> r[i] in db.jobs && db.jobs[r[i]].status == Pending)
      && forall i, j :: 0 <= i < j < |r| ==>
           db.jobs[r[i]].order.priority > db.jobs[r[j]].order.priority
           || (db.jobs[r[i]].order.priority == db.jobs[r[j]].order.priority && r[i] < r[j])
  {
    BatchesAreTop(db, limits);
    TopSorted(db.jobs, PendingIds(db.jobs), Sum(limits));
    var r := Batches(db, limits);
    forall i | 0 <= i < |r| ensures r[i] in PendingIds(db.jobs) {
      assert r[i] in r;
    }
    forall i, j | 0 <= i < j < |r| ensures Before(db.jobs, r[i], r[j]) {
    }
  }
}
