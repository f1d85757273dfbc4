/** The depth-bounded recursive query behind DiscoverMacroPipelines: a queue of rows
    evaluated with UNION ALL, on graphs that may have cycles and repeated edges. */
module Graph {

  /** A row of feature_interactions. */
  datatype Edge = Edge(from: int, to: int)

  /** A row of feature_paths. */
  datatype PathRow = PathRow(node: int, depth: nat)

  const MAX_DEPTH := 7

  // ---------- the meaning: bounded reachability ----------

  /** The project's features with an outgoing edge. */
  function Roots(edges: seq<Edge>, own: set<int>): set<int> {
    set e | e in edges && e.from in own :: e.from
  }

  function Successors(edges: seq<Edge>, nodes: set<int>): set<int> {
    set e | e in edges && e.from in nodes :: e.to
  }

  predicate IsWalk(edges: seq<Edge>, walk: seq<int>) {
    |walk| >= 1 && forall i :: 0 <= i < |walk| - 1 ==> Edge(walk[i], walk[i + 1]) in edges
  }

  ghost predicate ReachedIn(edges: seq<Edge>, own: set<int>, x: int, k: nat) {
    exists walk: seq<int> :: IsWalk(edges, walk) && |walk| == k + 1 && walk[0] in Roots(edges, own) && walk[k] == x
  }

  /** Nodes some walk of at most bound - 1 edges leads to. */
  ghost predicate Reached(edges: seq<Edge>, own: set<int>, bound: nat, x: int) {
    exists k: nat :: k < bound && ReachedIn(edges, own, x, k)
  }

  /** The nodes at the end of walks of exactly k edges. */
  function Layer(edges: seq<Edge>, own: set<int>, k: nat): set<int> {
    if k == 0 then Roots(edges, own) else Successors(edges, Layer(edges, own, k - 1))
  }

  lemma {:induction false} LayerIsReachedIn(edges: seq<Edge>, own: set<int>, k: nat, x: int)
    ensures x in Layer(edges, own, k) <==> ReachedIn(edges, own, x, k)
  {
    if k == 0 {
      if x in Roots(edges, own) {
        assert IsWalk(edges, [x]);
      }
    } else {
      if x in Layer(edges, own, k) {
        var e :| e in edges && e.from in Layer(edges, own, k - 1) && e.to == x;
        LayerIsReachedIn(edges, own, k - 1, e.from);
        var walk: seq<int> :| IsWalk(edges, walk) && |walk| == k && walk[0] in Roots(edges, own) && walk[k - 1] == e.from;
        assert e == Edge(walk[k - 1], x);
        assert IsWalk(edges, walk + [x]);
      }
      if ReachedIn(edges, own, x, k) {
        var walk: seq<int> :| IsWalk(edges, walk) && |walk| == k + 1 && walk[0] in Roots(edges, own) && walk[k] == x;
        assert IsWalk(edges, walk[..k]);
        LayerIsReachedIn(edges, own, k - 1, walk[k - 1]);
        assert Edge(walk[k - 1], walk[k - 1 + 1]) in edges;
      }
    }
  }

  // ---------- the evaluation ----------

  /** The initial select: one row per edge that leaves a project feature. */
  function Seeds(edges: seq<Edge>, own: set<int>): seq<PathRow> {
    if edges == [] then []
    else (if edges[0].from in own then [PathRow(edges[0].from, 1)] else []) + Seeds(edges[1..], own)
  }

  /** The recursive select for one extracted row. */
  function Extend(edges: seq<Edge>, row: PathRow, bound: nat): seq<PathRow> {
    if edges == [] then []
    else (if row.depth < bound && edges[0].from == row.node then [PathRow(edges[0].to, row.depth + 1)] else [])
         + Extend(edges[1..], row, bound)
  }

  lemma {:induction false} SeedsAre(edges: seq<Edge>, own: set<int>, r: PathRow)
    ensures r in Seeds(edges, own) <==> r.depth == 1 && r.node in Roots(edges, own)
  {
    if edges != [] {
      SeedsAre(edges[1..], own, r);
      assert edges == [edges[0]] + edges[1..];
    }
  }

  lemma {:induction false} ExtendIs(edges: seq<Edge>, row: PathRow, bound: nat, r: PathRow)
    ensures r in Extend(edges, row, bound) <==>
              row.depth < bound && r.depth == row.depth + 1 && Edge(row.node, r.node) in edges
    ensures |Extend(edges, row, bound)| <= |edges|
    ensures row.depth >= bound ==> Extend(edges, row, bound) == []
  {
    if edges != [] {
      ExtendIs(edges[1..], row, bound, r);
      assert edges == [edges[0]] + edges[1..];
    }
  }

  // ---------- termination ----------

  function Power(b: nat, n: nat): nat {
    if n == 0 then 1 else b * Power(b, n - 1)
  }

  /** No row breeds more rows than this, itself included: a tree of |edges| branches
      at each of the remaining levels. */
  function RowWeight(edges: seq<Edge>, bound: nat, row: PathRow): nat {
    Power(|edges| + 1, if row.depth < bound then bound - row.depth else 0)
  }

  function QueueWeight(edges: seq<Edge>, bound: nat, queue: seq<PathRow>): nat {
    if queue == [] then 0
    else RowWeight(edges, bound, queue[0]) + QueueWeight(edges, bound, queue[1..])
  }

  lemma {:induction false} WeightConcat(edges: seq<Edge>, bound: nat, a: seq<PathRow>, b: seq<PathRow>)
    ensures QueueWeight(edges, bound, a + b) == QueueWeight(edges, bound, a) + QueueWeight(edges, bound, b)
  {
    if a == [] {
      assert a + b == b;
    } else {
      assert (a + b)[1..] == a[1..] + b;
      WeightConcat(edges, bound, a[1..], b);
    }
  }

  lemma OneMore(n: nat, w: nat)
    ensures (n + 1) * w == n * w + w
  {
  }

  lemma {:induction false} UniformWeight(edges: seq<Edge>, bound: nat, rows: seq<PathRow>, w: nat)
    requires forall r :: r in rows ==> RowWeight(edges, bound, r) == w
    ensures QueueWeight(edges, bound, rows) == |rows| * w
  {
    if rows != [] {
      var rest := rows[1..];
      assert RowWeight(edges, bound, rows[0]) == w && forall r :: r in rest ==> r in rows;
      UniformWeight(edges, bound, rest, w);
      OneMore(|rest|, w);
    }
  }

  lemma {:induction false} PowerPositive(b: nat, n: nat)
    requires b >= 1
    ensures Power(b, n) >= 1
  {
    if n > 0 {
      PowerPositive(b, n - 1);
      assert b * Power(b, n - 1) >= 1 * Power(b, n - 1);
    }
  }

  lemma FewerWeighLess(m: nat, n: nat, w: nat)
    requires m <= n && w >= 1
    ensures m * w < (n + 1) * w
  {
    MulMono(m, n, w);
    OneMore(n, w);
  }

  /** The rows a row breeds all have the weight of the next level. */
  lemma BredWeight(edges: seq<Edge>, bound: nat, row: PathRow, w: nat)
    requires row.depth < bound && w == Power(|edges| + 1, bound - row.depth - 1)
    ensures QueueWeight(edges, bound, Extend(edges, row, bound)) == |Extend(edges, row, bound)| * w
  {
    var bred := Extend(edges, row, bound);
    forall r | r in bred ensures RowWeight(edges, bound, r) == w {
      ExtendIs(edges, row, bound, r);
    }
    UniformWeight(edges, bound, bred, w);
  }

  lemma LevelWeight(edges: seq<Edge>, bound: nat, row: PathRow, w: nat)
    requires row.depth < bound && w == Power(|edges| + 1, bound - row.depth - 1)
    ensures RowWeight(edges, bound, row) == (|edges| + 1) * w
  {
  }

  lemma BredWeighLess(edges: seq<Edge>, bound: nat, row: PathRow)
    ensures QueueWeight(edges, bound, Extend(edges, row, bound)) < RowWeight(edges, bound, row)
  {
    ExtendIs(edges, row, bound, row);
    if row.depth < bound {
      var w := Power(|edges| + 1, bound - row.depth - 1);
      BredWeight(edges, bound, row, w);
      LevelWeight(edges, bound, row, w);
      PowerPositive(|edges| + 1, bound - row.depth - 1);
      FewerWeighLess(|Extend(edges, row, bound)|, |edges|, w);
    } else {
      PowerPositive(|edges| + 1, 0);
    }
  }

  /** Replacing an extracted row by the rows it breeds lowers the weight of the queue. */
  lemma ExtractionLowersWeight(edges: seq<Edge>, bound: nat, a: seq<PathRow>, row: PathRow, b: seq<PathRow>)
    ensures QueueWeight(edges, bound, a + b + Extend(edges, row, bound)) < QueueWeight(edges, bound, a + [row] + b)
  {
    BredWeighLess(edges, bound, row);
    WeightConcat(edges, bound, a + b, Extend(edges, row, bound));
    WeightConcat(edges, bound, a, b);
    WeightConcat(edges, bound, a + [row], b);
    WeightConcat(edges, bound, a, [row]);
    assert QueueWeight(edges, bound, [row]) == RowWeight(edges, bound, row) by {
      assert [row][1..] == [];
    }
  }

  lemma MulMono(a: nat, b: nat, c: nat)
    requires a <= b
    ensures a * c <= b * c
  {
  }

  // ---------- correctness ----------

  ghost predicate Sound(edges: seq<Edge>, own: set<int>, bound: nat, rows: seq<PathRow>) {
    forall r :: r in rows ==> 1 <= r.depth <= bound && r.node in Layer(edges, own, r.depth - 1)
  }

  /** Every row that has to come is there or comes from a row that is still queued. */
  ghost predicate Complete(edges: seq<Edge>, own: set<int>, bound: nat, found: set<PathRow>, queue: seq<PathRow>) {
    && (forall x :: x in Roots(edges, own) ==> PathRow(x, 1) in found || PathRow(x, 1) in queue)
    && (forall r, y :: r in found && r.depth < bound && Edge(r.node, y) in edges ==>
          PathRow(y, r.depth + 1) in found || PathRow(y, r.depth + 1) in queue)
  }

  lemma {:induction false} LayersFound(edges: seq<Edge>, own: set<int>, bound: nat, found: set<PathRow>, k: nat, x: int)
    requires Complete(edges, own, bound, found, []) && k < bound && x in Layer(edges, own, k)
    ensures PathRow(x, k + 1) in found
  {
    if k > 0 {
      var e :| e in edges && e.from in Layer(edges, own, k - 1) && e.to == x;
      LayersFound(edges, own, bound, found, k - 1, e.from);
      assert e == Edge(e.from, x);
    }
  }

  ghost function Nodes(rows: set<PathRow>): set<int> {
    set r | r in rows :: r.node
  }

  ghost predicate Evaluated(edges: seq<Edge>, own: set<int>, bound: nat, found: set<PathRow>, queue: seq<PathRow>) {
    && Sound(edges, own, bound, queue)
    && (forall r :: r in found ==> 1 <= r.depth <= bound && r.node in Layer(edges, own, r.depth - 1))
    && Complete(edges, own, bound, found, queue)
  }

  lemma StartEvaluated(edges: seq<Edge>, own: set<int>, bound: nat)
    requires bound >= 1
    ensures Evaluated(edges, own, bound, {}, Seeds(edges, own))
  {
    forall r ensures r in Seeds(edges, own) <==> r.depth == 1 && r.node in Roots(edges, own) {
      SeedsAre(edges, own, r);
    }
  }

  lemma ExtendSound(edges: seq<Edge>, own: set<int>, bound: nat, row: PathRow)
    requires 1 <= row.depth <= bound && row.node in Layer(edges, own, row.depth - 1)
    ensures Sound(edges, own, bound, Extend(edges, row, bound))
  {
    forall r | r in Extend(edges, row, bound) ensures 1 <= r.depth <= bound && r.node in Layer(edges, own, r.depth - 1) {
      ExtendIs(edges, row, bound, r);
      assert Edge(row.node, r.node) in edges;
    }
  }

  lemma ExtractionComplete(edges: seq<Edge>, own: set<int>, bound: nat, found: set<PathRow>, queue: seq<PathRow>, row: PathRow, next: seq<PathRow>)
    requires Complete(edges, own, bound, found, queue)
    requires forall r :: r in queue ==> r == row || r in next
    requires forall r :: r in Extend(edges, row, bound) ==> r in next
    ensures Complete(edges, own, bound, found + {row}, next)
  {
    forall r, y | r in found + {row} && r.depth < bound && Edge(r.node, y) in edges
      ensures PathRow(y, r.depth + 1) in found + {row} || PathRow(y, r.depth + 1) in next
    {
      if r == row {
        ExtendIs(edges, row, bound, PathRow(y, r.depth + 1));
      }
    }
  }

  lemma ExtractionEvaluated(edges: seq<Edge>, own: set<int>, bound: nat, found: set<PathRow>, a: seq<PathRow>, row: PathRow, b: seq<PathRow>)
    requires Evaluated(edges, own, bound, found, a + [row] + b)
    ensures Evaluated(edges, own, bound, found + {row}, a + b + Extend(edges, row, bound))
  {
    var queue, next := a + [row] + b, a + b + Extend(edges, row, bound);
    assert forall r :: r in queue <==> r in a || r == row || r in b;
    assert forall r :: r in next <==> r in a || r in b || r in Extend(edges, row, bound);
    assert row in queue;
    ExtendSound(edges, own, bound, row);
    ExtractionComplete(edges, own, bound, found, queue, row, next);
  }

  /** SELECT DISTINCT current_id over the evaluated rows.  Rows leave the queue in no
      particular order.  The query terminates on every graph and yields exactly the
      nodes within bound - 1 edges of a project feature that has an outgoing edge. */
  method DiscoverWithin(edges: seq<Edge>, own: set<int>, bound: nat) returns (ids: seq<int>)
    requires bound >= 1
    ensures forall i, j :: 0 <= i < j < |ids| ==> ids[i] != ids[j]
    ensures forall x :: x in ids <==> Reached(edges, own, bound, x)
  {
    var queue := Seeds(edges, own);
    ghost var found: set<PathRow> := {};
    ids := [];
    StartEvaluated(edges, own, bound);
    while queue != []
      invariant Evaluated(edges, own, bound, found, queue)
      invariant forall i, j :: 0 <= i < j < |ids| ==> ids[i] != ids[j]
      invariant forall x :: x in ids <==> x in Nodes(found)
      decreases QueueWeight(edges, bound, queue)
    {
      assert 0 <= 0 < |queue|;
      var i :| 0 <= i < |queue|;
      var row := queue[i];
      var a, b := queue[..i], queue[i + 1..];
      assert queue == a + [row] + b;
      ExtractionLowersWeight(edges, bound, a, row, b);
      ExtractionEvaluated(edges, own, bound, found, a, row, b);
      if row.node !in ids {
        ids := ids + [row.node];
      }
      found := found + {row};
      queue := a + b + Extend(edges, row, bound);
    }
    forall x ensures x in ids <==> Reached(edges, own, bound, x) {
      FoundIsReached(edges, own, bound, found, x);
    }
  }

  lemma FoundIsReached(edges: seq<Edge>, own: set<int>, bound: nat, found: set<PathRow>, x: int)
    requires Evaluated(edges, own, bound, found, [])
    ensures x in Nodes(found) <==> Reached(edges, own, bound, x)
  {
    if x in Nodes(found) {
      var r :| r in found && r.node == x;
      LayerIsReachedIn(edges, own, r.depth - 1, x);
    }
    if k: nat :| k < bound && ReachedIn(edges, own, x, k) {
      LayerIsReachedIn(edges, own, k, x);
      LayersFound(edges, own, bound, found, k, x);
    }
  }

  method DiscoverMacroPipelines(edges: seq<Edge>, own: set<int>) returns (ids: seq<int>)
    ensures forall i, j :: 0 <= i < j < |ids| ==> ids[i] != ids[j]
    ensures forall x :: x in ids <==> Reached(edges, own, 7, x)
  {
    ids := DiscoverWithin(edges, own, MAX_DEPTH);
  }

  /** A path of interactions that starts at a project feature with one of its own. */
  predicate Pipeline(edges: seq<Edge>, own: set<int>, path: seq<int>) {
    && path != [] && path[0] in own && (exists e :: e in edges && e.from == path[0])
    && forall i :: 0 <= i < |path| - 1 ==> Edge(path[i], path[i + 1]) in edges
  }

  /** The features found are the ends of paths of at most seven features. */
  lemma MacroPipelinesAre(edges: seq<Edge>, own: set<int>, x: int)
    ensures Reached(edges, own, 7, x)
            <==> exists path: seq<int> :: Pipeline(edges, own, path) && |path| <= 7 && path[|path| - 1] == x
  {
    if k: nat :| k < 7 && ReachedIn(edges, own, x, k) {
      var path: seq<int> :| IsWalk(edges, path) && |path| == k + 1 && path[0] in Roots(edges, own) && path[k] == x;
      assert Pipeline(edges, own, path);
    }
    if path: seq<int> :| Pipeline(edges, own, path) && |path| <= 7 && path[|path| - 1] == x {
      assert IsWalk(edges, path) && path[0] in Roots(edges, own);
      assert ReachedIn(edges, own, x, |path| - 1);
    }
  }

  // ---------- a breadth-first search that visits no node twice ----------

  /** Layered search: frontier of new nodes, seen nodes, remaining levels. */
  function Search(edges: seq<Edge>, frontier: set<int>, seen: set<int>, levels: nat): set<int>
    decreases levels
  {
    if levels == 0 then seen
    else
      var next := Successors(edges, frontier) - seen;
      Search(edges, next, seen + next, levels - 1)
  }

  /** The nodes of the first n layers. */
  function Within(edges: seq<Edge>, own: set<int>, n: nat): set<int> {
    if n == 0 then {} else Within(edges, own, n - 1) + Layer(edges, own, n - 1)
  }

  lemma {:induction false} WithinIsReached(edges: seq<Edge>, own: set<int>, n: nat, x: int)
    ensures x in Within(edges, own, n) <==> Reached(edges, own, n, x)
  {
    if n > 0 {
      WithinIsReached(edges, own, n - 1, x);
      LayerIsReachedIn(edges, own, n - 1, x);
      if Reached(edges, own, n, x) {
        var k: nat :| k < n && ReachedIn(edges, own, x, k);
        assert k < n - 1 ==> Reached(edges, own, n - 1, x);
      }
      if Reached(edges, own, n - 1, x) {
        var k: nat :| k < n - 1 && ReachedIn(edges, own, x, k);
      }
    }
  }

  /** New successors of the new nodes of one layer are the new nodes of the next. */
  lemma NextFrontier(edges: seq<Edge>, own: set<int>, n: nat)
    ensures var seen := Within(edges, own, n + 1);
            var next := Successors(edges, Layer(edges, own, n) - Within(edges, own, n)) - seen;
            next == Layer(edges, own, n + 1) - seen && seen + next == Within(edges, own, n + 2)
  {
    SuccessorsOfSeen(edges, own, n);
  }

  lemma {:induction false} SearchIsWithin(edges: seq<Edge>, own: set<int>, n: nat, frontier: set<int>, seen: set<int>, levels: nat)
    requires frontier == Layer(edges, own, n) - Within(edges, own, n) && seen == Within(edges, own, n + 1)
    ensures Search(edges, frontier, seen, levels) == Within(edges, own, n + 1 + levels)
    decreases levels
  {
    if levels > 0 {
      var next := Successors(edges, frontier) - seen;
      NextFrontier(edges, own, n);
      SearchIsWithin(edges, own, n + 1, next, seen + next, levels - 1);
    }
  }

  /** Successors of the first n layers lie in the first n + 1. */
  lemma {:induction false} SuccessorsOfSeen(edges: seq<Edge>, own: set<int>, n: nat)
    ensures Successors(edges, Within(edges, own, n)) <= Within(edges, own, n + 1)
  {
    if n > 0 {
      SuccessorsOfSeen(edges, own, n - 1);
      forall y | y in Successors(edges, Within(edges, own, n)) ensures y in Within(edges, own, n + 1) {
        var e :| e in edges && e.from in Within(edges, own, n) && e.to == y;
        if e.from in Within(edges, own, n - 1) {
          assert y in Successors(edges, Within(edges, own, n - 1));
        } else {
          assert y in Layer(edges, own, n);
        }
      }
    }
  }

  /** The duplicate-laden row queue and the deduplicating search find the same nodes. */
  lemma SearchAgrees(edges: seq<Edge>, own: set<int>, bound: nat, x: int)
    requires bound >= 1
    ensures x in Search(edges, Roots(edges, own), Roots(edges, own), bound - 1) <==> Reached(edges, own, bound, x)
  {
    assert Layer(edges, own, 0) - Within(edges, own, 0) == Roots(edges, own);
    assert Within(edges, own, 1) == Roots(edges, own);
    SearchIsWithin(edges, own, 0, Roots(edges, own), Roots(edges, own), bound - 1);
    WithinIsReached(edges, own, bound, x);
  }
}
