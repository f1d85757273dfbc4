/** The search for a model's context limit: probes at halved steps against a completer
    that may answer anything, and the bracket it finds when the completer has a limit. */
module Discovery {
  import opened History

  datatype Reply = Success | Overflow | OtherError

  /** The completer: its reply to the i-th request, with a payload of so many tokens. */
  type Completer = (nat, int) -> Reply

  /** Where the loop stands. */
  datatype Search = Search(current: int, step: int, threshold: int, probes: nat)

  predicate Done(s: Search, epsilon: int) {
    s.step <= epsilon
  }

  function Probe(s: Search, reply: Reply): Search
    requires s.step >= 0 && reply != OtherError
  {
    if reply == Overflow then Search(s.current - s.step, s.step / 2, s.threshold, s.probes + 1)
    else Search(s.current + s.step, s.step / 2, s.current, s.probes + 1)
  }

  datatype Result = Safe(tokens: int) | Failed

  /** int(float64(threshold) * 0.9). */
  function NineTenths(threshold: int): int {
    threshold * 9 / 10
  }

  /** The search from a state on; None after an unexpected error. */
  function Explore(completer: Completer, s: Search, epsilon: nat): (r: Search)
    requires s.step >= 0
    ensures r.step >= 0
    decreases s.step
  {
    if Done(s, epsilon) || completer(s.probes, s.current) == OtherError then s
    else Explore(completer, Probe(s, completer(s.probes, s.current)), epsilon)
  }

  function Outcome(s: Search, epsilon: nat): Result {
    if !Done(s, epsilon) || s.threshold == 0 then Failed else Safe(NineTenths(s.threshold))
  }

  /** The loop of DiscoverBoundary, for any start and step. */
  method DiscoverFrom(completer: Completer, tInit: int, step0: nat, epsilon: nat) returns (r: Result)
    ensures r == Outcome(Explore(completer, Search(tInit, step0, 0, 0), epsilon), epsilon)
  {
    var step := step0;
    var currentT := tInit;
    var convergedThreshold := 0;
    var probes := 0;
    while step > epsilon
      invariant step >= 0
      invariant Explore(completer, Search(currentT, step, convergedThreshold, probes), epsilon)
             == Explore(completer, Search(tInit, step0, 0, 0), epsilon)
      decreases step
    {
      var err := completer(probes, currentT);
      if err == Overflow {
        currentT := currentT - step;
        step := step / 2;
      } else if err != Success {
        return Failed;
      } else {
        convergedThreshold := currentT;
        currentT := currentT + step;
        step := step / 2;
      }
      probes := probes + 1;
    }
    if convergedThreshold == 0 {
      return Failed;
    }
    r := Safe(NineTenths(convergedThreshold));
  }

  const T_INIT := 1000000
  const STEP := 250000
  const EPSILON := 5000

  method DiscoverBoundary(completer: Completer) returns (r: Result)
    ensures r == Outcome(Explore(completer, Search(1000000, 250000, 0, 0), 5000), 5000)
  {
    r := DiscoverFrom(completer, T_INIT, STEP, EPSILON);
  }

  /** A payload that the heuristic counter takes for exactly the given number of tokens. */
  method GenerateDummyPayload(tokens: nat) returns (payload: seq<byte>)
    ensures forall k :: 0 <= k < |payload| ==> payload[k] == 'a' as byte
    ensures Count(payload) == tokens && |payload| % 4 == 0
  {
    var bytes := new byte[tokens * 4];
    for i := 0 to bytes.Length
      invariant forall k :: 0 <= k < i ==> bytes[k] == 'a' as byte
    {
      bytes[i] := 'a' as byte;
    }
    payload := bytes[..];
  }

  // ---------- any completer ----------

  datatype Probed = Probed(tokens: int, reply: Reply)

  /** The requests sent from a state on, with their replies. */
  function Probes(completer: Completer, s: Search, epsilon: nat): seq<Probed>
    requires s.step >= 0
    decreases s.step
  {
    if Done(s, epsilon) then []
    else
      var reply := completer(s.probes, s.current);
      [Probed(s.current, reply)] + if reply == OtherError then [] else Probes(completer, Probe(s, reply), epsilon)
  }

  /** How far the steps still to come can carry the probe. */
  function Reach(step: nat): nat {
    if step == 0 then 0 else step + Reach(step / 2)
  }

  lemma {:induction false} ReachBound(step: nat)
    ensures step > 0 ==> Reach(step) < 2 * step
  {
    if step > 0 {
      ReachBound(step / 2);
    }
  }

  lemma {:induction false} ProbesWithinReach(completer: Completer, s: Search, epsilon: nat, k: nat)
    requires s.step >= 0 && k < |Probes(completer, s, epsilon)|
    ensures s.current - Reach(s.step) <= Probes(completer, s, epsilon)[k].tokens <= s.current + Reach(s.step)
    decreases s.step
  {
    if k > 0 {
      ProbesWithinReach(completer, Probe(s, completer(s.probes, s.current)), epsilon, k - 1);
    }
  }

  /** Whatever the completer answers: every probe after a success is larger and every
      probe after an overflow is smaller. */
  lemma {:induction false} ProbesOrdered(completer: Completer, s: Search, epsilon: nat, i: nat, j: nat)
    requires s.step >= 0 && i < j < |Probes(completer, s, epsilon)|
    ensures var p := Probes(completer, s, epsilon);
            && (p[i].reply == Success ==> p[j].tokens > p[i].tokens)
            && (p[i].reply == Overflow ==> p[j].tokens < p[i].tokens)
    decreases s.step
  {
    var next := Probe(s, completer(s.probes, s.current));
    if i > 0 {
      ProbesOrdered(completer, next, epsilon, i - 1, j - 1);
    } else {
      ProbesWithinReach(completer, next, epsilon, j - 1);
      ReachBound(next.step);
    }
  }

  ghost predicate LargestSuccess(p: seq<Probed>, t: int) {
    && (exists k :: 0 <= k < |p| && p[k] == Probed(t, Success))
    && (forall k :: 0 <= k < |p| && p[k].reply == Success ==> p[k].tokens <= t)
  }

  predicate Succeeded(p: seq<Probed>) {
    exists k :: 0 <= k < |p| && p[k].reply == Success
  }

  /** One more probe in front, smaller than all behind it if it succeeded. */
  lemma LargestOfRest(first: Probed, rest: seq<Probed>, t: int)
    requires first.reply == Success ==> forall k :: 0 <= k < |rest| ==> rest[k].tokens > first.tokens
    requires if Succeeded(rest) then LargestSuccess(rest, t) else first.reply == Success ==> t == first.tokens
    ensures Succeeded([first] + rest) <==> first.reply == Success || Succeeded(rest)
    ensures Succeeded([first] + rest) ==> LargestSuccess([first] + rest, t)
  {
    var p := [first] + rest;
    assert p[0] == first && forall k :: 0 <= k < |rest| ==> p[k + 1] == rest[k];
  }

  /** The recorded threshold is the largest successful probe, if any probe succeeded. */
  lemma {:induction false} ThresholdIsLargestSuccess(completer: Completer, s: Search, epsilon: nat)
    requires s.step >= 0
    ensures var p := Probes(completer, s, epsilon);
            var t := Explore(completer, s, epsilon).threshold;
            if Succeeded(p) then LargestSuccess(p, t) else t == s.threshold
    decreases s.step
  {
    var p := Probes(completer, s, epsilon);
    if !Done(s, epsilon) {
      var reply := completer(s.probes, s.current);
      if reply != OtherError {
        var next := Probe(s, reply);
        var rest := Probes(completer, next, epsilon);
        ThresholdIsLargestSuccess(completer, next, epsilon);
        assert p == [Probed(s.current, reply)] + rest;
        if reply == Success {
          forall k | 0 <= k < |rest| ensures rest[k].tokens > s.current {
            ProbesOrdered(completer, s, epsilon, 0, k + 1);
          }
        }
        LargestOfRest(p[0], rest, Explore(completer, s, epsilon).threshold);
      }
    }
  }

  // ---------- a completer with a limit ----------

  ghost predicate HasLimit(completer: Completer, limit: int) {
    forall i: nat, t: int :: completer(i, t) == if t > limit then Overflow else Success
  }

  /** Width of the final bracket: twice the last step, plus one for every odd step halved. */
  function Width(step: nat, excess: nat, epsilon: nat): nat {
    if step / 2 <= epsilon then 2 * step + excess else Width(step / 2, excess + step % 2, epsilon)
  }

  /** The last probe when every probe overflows. */
  function Lowest(current: int, step: nat, epsilon: nat): int
    decreases step
  {
    if step / 2 <= epsilon then current else Lowest(current - step, step / 2, epsilon)
  }

  /** The limit stays between the threshold and the threshold plus the final width. */
  lemma {:induction false} Bracket(completer: Completer, limit: int, s: Search, epsilon: nat, low: int, high: int, excess: nat)
    requires HasLimit(completer, limit) && s.step > epsilon
    requires low <= limit < high && (s.threshold == 0 || s.threshold == low)
    requires s.current - low <= 2 * s.step + excess && high - s.current <= 2 * s.step + excess
    ensures var t := Explore(completer, s, epsilon).threshold;
            t == 0 || t <= limit < t + Width(s.step, excess, epsilon)
    decreases s.step
  {
    var next := Probe(s, completer(s.probes, s.current));
    if next.step > epsilon {
      if s.current > limit {
        Bracket(completer, limit, next, epsilon, low, s.current, excess + s.step % 2);
      } else {
        Bracket(completer, limit, next, epsilon, s.current, high, excess + s.step % 2);
      }
    }
  }

  lemma {:induction false} ThresholdStaysPositive(completer: Completer, s: Search, epsilon: nat)
    requires s.step >= 0 && s.threshold > 0 && s.current > Reach(s.step)
    ensures Explore(completer, s, epsilon).threshold > 0
    decreases s.step
  {
    var reply := completer(s.probes, s.current);
    if !Done(s, epsilon) && reply != OtherError {
      ThresholdStaysPositive(completer, Probe(s, reply), epsilon);
    }
  }

  /** A threshold is found exactly when the limit admits the lowest probe. */
  lemma {:induction false} FoundExactly(completer: Completer, limit: int, s: Search, epsilon: nat)
    requires HasLimit(completer, limit) && s.step > epsilon && s.threshold == 0 && s.current > Reach(s.step)
    ensures Explore(completer, s, epsilon).threshold == 0 <==> limit < Lowest(s.current, s.step, epsilon)
    ensures Lowest(s.current, s.step, epsilon) <= s.current
    decreases s.step
  {
    var next := Probe(s, completer(s.probes, s.current));
    if s.current > limit {
      if next.step > epsilon {
        FoundExactly(completer, limit, next, epsilon);
      }
    } else {
      LowestBelow(s.current, s.step, epsilon);
      ThresholdStaysPositive(completer, next, epsilon);
    }
  }

  lemma {:induction false} LowestBelow(current: int, step: nat, epsilon: nat)
    ensures Lowest(current, step, epsilon) <= current
    decreases step
  {
    if step / 2 > epsilon {
      LowestBelow(current - step, step / 2, epsilon);
    }
  }

  /** The threshold itself never exceeds the limit, so the result is safe to use. */
  lemma {:induction false} ThresholdSafe(completer: Completer, limit: int, s: Search, epsilon: nat)
    requires HasLimit(completer, limit) && s.step >= 0 && (s.threshold == 0 || s.threshold <= limit)
    ensures var t := Explore(completer, s, epsilon).threshold; t == 0 || t <= limit
    ensures Done(Explore(completer, s, epsilon), epsilon)
    decreases s.step
  {
    if !Done(s, epsilon) {
      ThresholdSafe(completer, limit, Probe(s, completer(s.probes, s.current)), epsilon);
    }
  }

  /** How often the step can be halved before it is within the tolerance. */
  function Halvings(step: nat, epsilon: nat): nat {
    if step <= epsilon then 0 else 1 + Halvings(step / 2, epsilon)
  }

  /** The completer accepts or overflows, in whatever order: it need not have a limit. */
  ghost predicate NeverBreaks(completer: Completer) {
    forall i: nat, t: int :: completer(i, t) != OtherError
  }

  /** The number of requests does not depend on the replies, except that an unexpected error ends the search early. */
  lemma {:induction false} ProbeCount(completer: Completer, s: Search, epsilon: nat)
    requires s.step >= 0
    ensures |Probes(completer, s, epsilon)| <= Halvings(s.step, epsilon)
    ensures NeverBreaks(completer) ==> |Probes(completer, s, epsilon)| == Halvings(s.step, epsilon)
    decreases s.step
  {
    if !Done(s, epsilon) && completer(s.probes, s.current) != OtherError {
      ProbeCount(completer, Probe(s, completer(s.probes, s.current)), epsilon);
    }
  }

  lemma SixProbes(completer: Completer)
    ensures |Probes(completer, Search(T_INIT, STEP, 0, 0), EPSILON)| <= 6
    ensures NeverBreaks(completer) ==> |Probes(completer, Search(T_INIT, STEP, 0, 0), EPSILON)| == 6
  {
    ProbeCount(completer, Search(T_INIT, STEP, 0, 0), EPSILON);
    assert Halvings(STEP, EPSILON) == 6;
  }

  lemma ShippedNumbers()
    ensures Width(STEP, 0, EPSILON) == 15625 && Lowest(T_INIT, STEP, EPSILON) == 515625
  {
    assert Width(7812, 1, EPSILON) == 15625 && Lowest(515625, 7812, EPSILON) == 515625;
    assert Width(15625, 0, EPSILON) == 15625 && Lowest(531250, 15625, EPSILON) == 515625;
    assert Width(31250, 0, EPSILON) == 15625 && Lowest(562500, 31250, EPSILON) == 515625;
    assert Width(62500, 0, EPSILON) == 15625 && Lowest(625000, 62500, EPSILON) == 515625;
    assert Width(125000, 0, EPSILON) == 15625 && Lowest(750000, 125000, EPSILON) == 515625;
  }

  /** With the shipped constants: an error exactly below 515625; up to 1500000 the
      limit is found to within 15625; and the result never exceeds the limit. */
  lemma ShippedSearch(completer: Completer, limit: int)
    requires HasLimit(completer, limit)
    ensures var r := Outcome(Explore(completer, Search(T_INIT, STEP, 0, 0), EPSILON), EPSILON);
            && (r == Failed <==> limit < 515625)
            && (r.Safe? ==> r.tokens <= limit)
            && (515625 <= limit < 1500000 ==>
                  exists t :: t <= limit < t + 15625 && r == Safe(t * 9 / 10))
  {
    var s := Search(T_INIT, STEP, 0, 0);
    ShippedNumbers();
    ReachBound(STEP);
    FoundExactly(completer, limit, s, EPSILON);
    ThresholdSafe(completer, limit, s, EPSILON);
    ThresholdIsLargestSuccess(completer, s, EPSILON);
    var t := Explore(completer, s, EPSILON).threshold;
    if 515625 <= limit < 1500000 {
      Bracket(completer, limit, s, EPSILON, 500000, 1500000, 0);
      assert t <= limit < t + 15625;
    }
    if t != 0 {
      PositiveThreshold(completer, s, EPSILON);
    }
  }

  lemma {:induction false} PositiveThreshold(completer: Completer, s: Search, epsilon: nat)
    requires s.step >= 0 && s.threshold >= 0 && s.current > Reach(s.step)
    ensures Explore(completer, s, epsilon).threshold >= 0
    decreases s.step
  {
    var reply := completer(s.probes, s.current);
    if !Done(s, epsilon) && reply != OtherError {
      PositiveThreshold(completer, Probe(s, reply), epsilon);
    }
  }

  /** Whatever the completer answers, no request is for fewer than half the initial tokens,
      so a payload can be built for each. */
  lemma PayloadsPossible(completer: Completer)
    ensures forall k :: 0 <= k < |Probes(completer, Search(T_INIT, STEP, 0, 0), EPSILON)| ==>
              Probes(completer, Search(T_INIT, STEP, 0, 0), EPSILON)[k].tokens > T_INIT / 2
  {
    var s := Search(T_INIT, STEP, 0, 0);
    forall k | 0 <= k < |Probes(completer, s, EPSILON)| ensures Probes(completer, s, EPSILON)[k].tokens > T_INIT / 2 {
      ProbesWithinReach(completer, s, EPSILON, k);
      ReachBound(STEP);
    }
  }

  /** The search reaches its tolerance exactly if no probe ended in an unexpected error. */
  lemma {:induction false} ErrorEndsSearch(completer: Completer, s: Search, epsilon: nat)
    requires s.step >= 0
    ensures Done(Explore(completer, s, epsilon), epsilon) <==> !Broken(Probes(completer, s, epsilon))
    decreases s.step
  {
    var reply := completer(s.probes, s.current);
    if !Done(s, epsilon) {
      var p := Probes(completer, s, epsilon);
      if reply == OtherError {
        assert p[0].reply == OtherError;
      } else {
        var rest := Probes(completer, Probe(s, reply), epsilon);
        ErrorEndsSearch(completer, Probe(s, reply), epsilon);
        assert p == [Probed(s.current, reply)] + rest;
        assert forall k :: 0 <= k < |rest| ==> p[k + 1] == rest[k];
      }
    }
  }

  predicate Broken(p: seq<Probed>) {
    exists k :: 0 <= k < |p| && p[k].reply == OtherError
  }

  /** For any completer, from 1000000 tokens with steps from 250000 down to 5000: an unexpected
      error makes the search fail whatever has succeeded before, and otherwise the result is
      nine tenths of the largest request that succeeded. */
  lemma DiscoveryResult(completer: Completer)
    ensures
      var s := Search(1000000, 250000, 0, 0);
      var p := Probes(completer, s, 5000);
      var r := Outcome(Explore(completer, s, 5000), 5000);
      if Broken(p) || !Succeeded(p) then r == Failed
      else exists t :: LargestSuccess(p, t) && r == Safe(t * 9 / 10)
  {
    var s := Search(1000000, 250000, 0, 0);
    var p := Probes(completer, s, 5000);
    ErrorEndsSearch(completer, s, 5000);
    ThresholdIsLargestSuccess(completer, s, 5000);
    PayloadsPossible(completer);
    if Succeeded(p) {
      assert Explore(completer, s, 5000).threshold > 0;
    }
  }
}
