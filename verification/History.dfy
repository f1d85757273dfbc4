/** Conversation history and token-aware trimming.  Text is counted in bytes, as Go's
    len does. */
module History {

  newtype byte = b: int | 0 <= b < 256
  datatype Message = Message(role: string, content: seq<byte>)

  const SYSTEM := "system"

  // ---------- the heuristic counter ----------

  function Count(text: seq<byte>): nat {
    |text| / 4
  }

  function Weight(m: Message): nat {
    Count(m.content) + 4
  }

  function Weights(msgs: seq<Message>): nat {
    if msgs == [] then 0 else Weight(msgs[0]) + Weights(msgs[1..])
  }

  function Tokens(msgs: seq<Message>): nat {
    Weights(msgs) + 3
  }

  method CountMessages(msgs: seq<Message>) returns (total: nat)
    ensures total == Tokens(msgs)
  {
    total := 0;
    for i := 0 to |msgs|
      invariant total + Weights(msgs[i..]) == Weights(msgs)
    {
      assert msgs[i..][1..] == msgs[i + 1..];
      total := total + |msgs[i].content| / 4;
      total := total + 4;
    }
    total := total + 3;
  }

  /** A quarter of each text, four tokens for each message and three for the prompt. */
  lemma {:induction false} TokensStep(msgs: seq<Message>, m: Message)
    ensures Tokens([]) == 3
    ensures Tokens(msgs + [m]) == Tokens(msgs) + |m.content| / 4 + 4
  {
    if msgs == [] {
      assert msgs + [m] == [m] && [m][1..] == [];
    } else {
      assert (msgs + [m])[1..] == msgs[1..] + [m];
      TokensStep(msgs[1..], m);
    }
  }

  // ---------- what trimming may keep ----------

  /** Each message is on one side, by its role. */
  lemma {:induction false} SidesByRole(msgs: seq<Message>, m: Message)
    ensures m in System(msgs) <==> m in msgs && m.role == "system"
    ensures m in Others(msgs) <==> m in msgs && m.role != "system"
    ensures |System(msgs)| + |Others(msgs)| == |msgs|
  {
    if msgs != [] {
      SidesByRole(msgs[1..], m);
      assert msgs == [msgs[0]] + msgs[1..];
    }
  }

  function System(msgs: seq<Message>): seq<Message> {
    if msgs == [] then [] else (if msgs[0].role == SYSTEM then [msgs[0]] else []) + System(msgs[1..])
  }

  function Others(msgs: seq<Message>): seq<Message> {
    if msgs == [] then [] else (if msgs[0].role == SYSTEM then [] else [msgs[0]]) + Others(msgs[1..])
  }

  /** The messages without the first k non-system ones, everything else in its place. */
  function Drop(msgs: seq<Message>, k: nat): seq<Message> {
    if msgs == [] then []
    else if msgs[0].role != SYSTEM && k > 0 then Drop(msgs[1..], k - 1)
    else [msgs[0]] + Drop(msgs[1..], k)
  }

  lemma {:induction false} DropNone(msgs: seq<Message>)
    ensures Drop(msgs, 0) == msgs
  {
    if msgs != [] {
      DropNone(msgs[1..]);
    }
  }

  lemma ConsOthers(m: Message, rest: seq<Message>)
    ensures Others([m] + rest) == (if m.role == SYSTEM then [] else [m]) + Others(rest)
    ensures System([m] + rest) == (if m.role == SYSTEM then [m] else []) + System(rest)
  {
    assert ([m] + rest)[1..] == rest;
  }

  /** All but the first k messages. */
  function Behind(msgs: seq<Message>, k: nat): seq<Message> {
    if k <= |msgs| then msgs[k..] else []
  }

  lemma ConsBehind(m: Message, rest: seq<Message>, k: nat)
    requires k > 0
    ensures Behind([m] + rest, k) == Behind(rest, k - 1)
  {
  }

  /** Dropping keeps every system message and the newest of the others, in order. */
  lemma {:induction false} DropKeeps(msgs: seq<Message>, k: nat)
    ensures System(Drop(msgs, k)) == System(msgs)
    ensures Others(Drop(msgs, k)) == Behind(Others(msgs), k)
  {
    if k == 0 {
      DropNone(msgs);
    } else if msgs != [] {
      var m, rest := msgs[0], msgs[1..];
      if m.role != SYSTEM {
        DropKeeps(rest, k - 1);
        ConsBehind(m, Others(rest), k);
      } else {
        DropKeeps(rest, k);
        ConsOthers(m, Drop(rest, k));
      }
    }
  }

  lemma {:induction false} DropTwice(msgs: seq<Message>, j: nat, k: nat)
    ensures Drop(Drop(msgs, j), k) == Drop(msgs, j + k)
  {
    if msgs != [] {
      var rest := msgs[1..];
      if msgs[0].role != SYSTEM && j > 0 {
        DropTwice(rest, j - 1, k);
      } else {
        DropTwice(rest, j, k);
        var d := [msgs[0]] + Drop(rest, j);
        assert d[1..] == Drop(rest, j);
        if msgs[0].role != SYSTEM {
          DropNone(rest);
          assert Drop(msgs, j) == msgs by { DropNone(msgs); }
        }
      }
    }
  }

  lemma {:induction false} WeightsSplit(msgs: seq<Message>)
    ensures Weights(msgs) == Weights(System(msgs)) + Weights(Others(msgs))
  {
    if msgs != [] {
      WeightsSplit(msgs[1..]);
      if msgs[0].role == SYSTEM {
        assert System(msgs)[0] == msgs[0] && System(msgs)[1..] == System(msgs[1..]);
        assert Others(msgs) == Others(msgs[1..]);
      } else {
        assert Others(msgs)[0] == msgs[0] && Others(msgs)[1..] == Others(msgs[1..]);
        assert System(msgs) == System(msgs[1..]);
      }
    }
  }

  // ---------- trimming with any counter ----------

  /** A counter's answer: the count, or None for an error. */
  datatype Answer = Error | Tokenized(n: int)

  type Counter = seq<Message> -> Answer

  predicate Stops(counter: Counter, msgs: seq<Message>, budget: int) {
    counter(msgs) == Error || counter(msgs).n <= budget || Others(msgs) == []
  }

  /** The first of msgs, msgs less one, msgs less two, ... at which trimming stops. */
  function Trimmed(counter: Counter, msgs: seq<Message>, budget: int): seq<Message>
    decreases |Others(msgs)|
  {
    if Stops(counter, msgs, budget) then msgs
    else
      DropKeeps(msgs, 1);
      Trimmed(counter, Drop(msgs, 1), budget)
  }

  class History {
    var messages: seq<Message>
    const counter: Counter

    constructor (counter: Counter)
      ensures messages == [] && this.counter == counter
    {
      messages := [];
      this.counter := counter;
    }

    method Append(role: string, content: seq<byte>)
      modifies this
      ensures messages == old(messages) + [Message(role, content)]
    {
      messages := messages + [Message(role, content)];
    }

    method TrimToBudget(maxTokens: int)
      modifies this
      ensures messages == Trimmed(counter, old(messages), maxTokens)
    {
      while true
        invariant Trimmed(counter, messages, maxTokens) == Trimmed(counter, old(messages), maxTokens)
        decreases |Others(messages)|
      {
        var tokens := counter(messages);
        if tokens == Error || tokens.n <= maxTokens {
          break;
        }
        var removeIdx := -1;
        for i := 0 to |messages|
          invariant removeIdx == -1
          invariant forall k :: 0 <= k < i ==> messages[k].role == SYSTEM
        {
          if messages[i].role != SYSTEM {
            removeIdx := i;
            break;
          }
        }
        NoOthers(messages);
        if removeIdx == -1 {
          break;
        }
        RemoveFirst(messages, removeIdx);
        DropKeeps(messages, 1);
        messages := messages[..removeIdx] + messages[removeIdx + 1..];
      }
    }
  }

  lemma {:induction false} NoOthers(msgs: seq<Message>)
    ensures Others(msgs) == [] <==> forall k :: 0 <= k < |msgs| ==> msgs[k].role == SYSTEM
  {
    if msgs != [] {
      NoOthers(msgs[1..]);
      assert forall k :: 1 <= k < |msgs| ==> msgs[k] == msgs[1..][k - 1];
      assert forall k :: 0 <= k < |msgs| - 1 ==> msgs[1..][k] == msgs[k + 1];
    }
  }

  /** Cutting out the first non-system message is dropping one. */
  lemma {:induction false} RemoveFirst(msgs: seq<Message>, i: nat)
    requires i < |msgs| && msgs[i].role != SYSTEM && forall k :: 0 <= k < i ==> msgs[k].role == SYSTEM
    ensures msgs[..i] + msgs[i + 1..] == Drop(msgs, 1)
    ensures Others(msgs) != []
  {
    if i == 0 {
      DropNone(msgs[1..]);
    } else {
      assert forall k :: 0 <= k < i - 1 ==> msgs[1..][k] == msgs[k + 1];
      RemoveFirst(msgs[1..], i - 1);
      assert msgs[..i] + msgs[i + 1..] == [msgs[0]] + (msgs[1..][..i - 1] + msgs[1..][i..]);
    }
  }

  // ---------- maximal fit ----------

  /** k is the least number of dropped messages at which the counter lets go. */
  ghost predicate LeastDrop(counter: Counter, msgs: seq<Message>, budget: int, k: nat) {
    && k <= |Others(msgs)|
    && Stops(counter, Drop(msgs, k), budget)
    && forall j: nat :: j < k ==> !Stops(counter, Drop(msgs, j), budget)
  }

  /** With any counter, trimming removes the oldest non-system messages, as few as
      possible, and touches nothing else. */
  lemma {:induction false} TrimIsLeastDrop(counter: Counter, msgs: seq<Message>, budget: int) returns (k: nat)
    ensures LeastDrop(counter, msgs, budget, k) && Trimmed(counter, msgs, budget) == Drop(msgs, k)
    decreases |Others(msgs)|
  {
    DropNone(msgs);
    if Stops(counter, msgs, budget) {
      k := 0;
    } else {
      DropKeeps(msgs, 1);
      var j := TrimIsLeastDrop(counter, Drop(msgs, 1), budget);
      k := j + 1;
      DropTwice(msgs, 1, j);
      forall i: nat | i < k ensures !Stops(counter, Drop(msgs, i), budget) {
        if i > 0 {
          DropTwice(msgs, 1, i - 1);
        }
      }
    }
  }

  const Heuristic: Counter := msgs => Tokenized(Tokens(msgs))

  /** What keeping the last n non-system messages costs: all system messages, that
      suffix, four tokens each and three for the prompt. */
  function SuffixCost(msgs: seq<Message>, n: nat): nat
    requires n <= |Others(msgs)|
  {
    Weights(System(msgs)) + Weights(Others(msgs)[|Others(msgs)| - n..]) + 3
  }

  lemma {:induction false} WeightsGrow(msgs: seq<Message>, i: nat, j: nat)
    requires i <= j <= |msgs|
    ensures Weights(msgs[j..]) <= Weights(msgs[i..])
    decreases j - i
  {
    if i < j {
      assert msgs[i..][1..] == msgs[i + 1..];
      WeightsGrow(msgs, i + 1, j);
    }
  }

  lemma DropCost(msgs: seq<Message>, k: nat)
    requires k <= |Others(msgs)|
    ensures Tokens(Drop(msgs, k)) == SuffixCost(msgs, |Others(msgs)| - k)
  {
    WeightsSplit(Drop(msgs, k));
    DropKeeps(msgs, k);
  }

  lemma LongestSuffix(msgs: seq<Message>, budget: int, k: nat)
    requires LeastDrop(Heuristic, msgs, budget, k)
    ensures
      var n := |Others(msgs)| - k;
      && (n > 0 ==> SuffixCost(msgs, n) <= budget)
      && forall m: nat :: n < m <= |Others(msgs)| ==> SuffixCost(msgs, m) > budget
  {
    var all := |Others(msgs)|;
    DropKeeps(msgs, k);
    DropCost(msgs, k);
    forall m: nat | all - k < m <= all ensures SuffixCost(msgs, m) > budget {
      assert !Stops(Heuristic, Drop(msgs, all - m), budget);
      DropCost(msgs, all - m);
    }
  }

  /** With the heuristic counter the result keeps all system messages and the longest
      suffix of the others that fits, in order; it keeps none of the others only if no
      non-empty suffix fits. */
  lemma TrimIsMaximalFit(msgs: seq<Message>, budget: int) returns (n: nat)
    ensures n <= |Others(msgs)|
    ensures Trimmed(Heuristic, msgs, budget) == Drop(msgs, |Others(msgs)| - n)
    ensures System(Trimmed(Heuristic, msgs, budget)) == System(msgs)
    ensures Others(Trimmed(Heuristic, msgs, budget)) == Others(msgs)[|Others(msgs)| - n..]
    ensures n > 0 ==> SuffixCost(msgs, n) <= budget
    ensures forall m: nat :: n < m <= |Others(msgs)| ==> SuffixCost(msgs, m) > budget
  {
    var k := TrimIsLeastDrop(Heuristic, msgs, budget);
    n := |Others(msgs)| - k;
    DropKeeps(msgs, k);
    LongestSuffix(msgs, budget, k);
  }

  // ---------- trimming composes ----------

  function Min(a: int, b: int): int {
    if a <= b then a else b
  }

  /** For any counter: trimming to one budget and then to another is trimming once to
      the smaller; so the order does not matter and trimming twice is trimming once. */
  lemma {:induction false} TrimsCompose(counter: Counter, msgs: seq<Message>, b1: int, b2: int)
    ensures Trimmed(counter, Trimmed(counter, msgs, b1), b2) == Trimmed(counter, msgs, Min(b1, b2))
    decreases |Others(msgs)|
  {
    if !Stops(counter, msgs, b1) {
      DropKeeps(msgs, 1);
      TrimsCompose(counter, Drop(msgs, 1), b1, b2);
    }
  }

  /** With the heuristic counter what is left fits the budget, unless nothing but system messages is left. */
  lemma {:induction false} TrimFits(msgs: seq<Message>, budget: int)
    ensures var r := Trimmed(Heuristic, msgs, budget);
            Tokens(r) <= budget || forall k :: 0 <= k < |r| ==> r[k].role == "system"
    decreases |Others(msgs)|
  {
    if Stops(Heuristic, msgs, budget) {
      NoOthers(msgs);
    } else {
      DropKeeps(msgs, 1);
      TrimFits(Drop(msgs, 1), budget);
    }
  }
}
