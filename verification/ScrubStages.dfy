/** Single stages of the scrubber: how the engine cuts a text, what a hit turns into, and
    what a stage hides and keeps. */
module ScrubStages {
  import opened Scrub
  import opened ScrubMatch
  import opened ScrubLaws

  // ---------- a text cut at its matches ----------

  /** A text that is a secret from end to end. */
  ghost predicate Whole(rule: Rule, x: string) {
    InLang(rule, x) && (rule != Pem ==> Match(rule, x) == |x|)
  }

  /** Every hit is a secret and the match at its place, and no secret starts at any other character. */
  ghost predicate Chopped(rule: Rule, bits: seq<Bit>) {
    bits != [] ==>
      && (if bits[0].Hit? then Whole(rule, bits[0].x) && Match(rule, TextOf(bits)) == |bits[0].x|
          else Match(rule, TextOf(bits)) == 0)
      && Chopped(rule, bits[1..])
  }

  lemma MatchWhole(rule: Rule, u: string)
    requires InLang(rule, u)
    ensures Whole(rule, u) && u != ""
  {
    MatchComplete(rule, u, "");
    assert u + "" == u;
  }

  lemma MatchIsWhole(rule: Rule, s: string)
    requires Match(rule, s) > 0
    ensures Whole(rule, s[..Match(rule, s)])
  {
    MatchSound(rule, s);
    MatchWhole(rule, s[..Match(rule, s)]);
  }

  lemma HitInFront(rule: Rule, x: string, bits: seq<Bit>)
    requires Whole(rule, x) && Match(rule, x + TextOf(bits)) == |x| && Chopped(rule, bits)
    ensures Chopped(rule, [Hit(x)] + bits) && TextOf([Hit(x)] + bits) == x + TextOf(bits)
  {
    assert ([Hit(x)] + bits)[1..] == bits;
  }

  lemma OtherInFront(rule: Rule, c: char, bits: seq<Bit>)
    requires Match(rule, [c] + TextOf(bits)) == 0 && Chopped(rule, bits)
    ensures Chopped(rule, [Other(c)] + bits) && TextOf([Other(c)] + bits) == [c] + TextOf(bits)
  {
    assert ([Other(c)] + bits)[1..] == bits;
  }

  lemma ChopHit(rule: Rule, s: string, m: nat)
    requires 0 < m == Match(rule, s)
    ensures Chop(rule, s) == [Hit(s[..m])] + Chop(rule, s[m..])
  {
  }

  lemma ChopOther(rule: Rule, s: string)
    requires s != "" && Match(rule, s) == 0
    ensures Chop(rule, s) == [Other(s[0])] + Chop(rule, s[1..]) && s == [s[0]] + s[1..]
  {
  }

  /** The engine's cut: it loses nothing, hits only secrets, and misses none. */
  lemma {:induction false} ChopSound(rule: Rule, s: string)
    ensures TextOf(Chop(rule, s)) == s && Chopped(rule, Chop(rule, s))
  {
    if s != "" {
      var m := Match(rule, s);
      if m > 0 {
        ChopSound(rule, s[m..]);
        MatchIsWhole(rule, s);
        ChopHit(rule, s, m);
        CutAt(s, m);
        HitInFront(rule, s[..m], Chop(rule, s[m..]));
      } else {
        ChopSound(rule, s[1..]);
        ChopOther(rule, s);
        OtherInFront(rule, s[0], Chop(rule, s[1..]));
      }
    }
  }

  // ---------- the group of the last stage ----------

  lemma GreedyCons(p: Part, ps: seq<Part>, s: string)
    ensures
      var n := Fit(p, s);
      Greedy([p] + ps, s) == if n < p.min || Greedy(ps, s[n..]) < 0 then -1 else n + Greedy(ps, s[n..])
  {
    assert ([p] + ps)[1..] == ps;
  }

  const QUOTED_PARTS: seq<Part> := [Maybe(QuoteMark)] + HEX_TAIL

  predicate AQuote(r: string) { |r| <= 1 && All(QuoteMark, r) }
  predicate AllDigits(h: string) { |h| >= 32 && All(Hex, h) }

  /** No digit from the m-th character on. */
  predicate NoDigits(m: nat, p: string) {
    forall t :: m <= t < |p| ==> !In(Hex, p[t])
  }

  lemma FitCut(p: Part, s: string) returns (a: string, rest: string)
    ensures s == a + rest && |a| == Fit(p, s) && rest == s[Fit(p, s)..] && All(p.cls, a)
  {
    var n := Fit(p, s);
    a, rest := s[..n], s[n..];
    RunSound(p.cls, s);
    assert a == s[..Run(p.cls, s)][..n];
  }

  /** The first part's share of a text that the parts match from end to end. */
  lemma GreedyCut(p: Part, ps: seq<Part>, s: string) returns (a: string, rest: string)
    requires Greedy([p] + ps, s) == |s|
    ensures s == a + rest && |a| == Fit(p, s) >= p.min && rest == s[|a|..] && All(p.cls, a)
    ensures Greedy(ps, rest) == |rest|
  {
    GreedyCons(p, ps, s);
    a, rest := FitCut(p, s);
  }

  lemma DigitsCut(d: string) returns (h: string, r: string)
    requires Greedy(HEX_TAIL, d) == |d|
    ensures d == h + r && AllDigits(h) && AQuote(r) && |h| == Run(Hex, d)
  {
    h, r := GreedyCut(AtLeast(Hex, 32), [Maybe(QuoteMark)], d);
    QuoteCut(r);
  }

  lemma QuoteCut(r: string)
    requires Greedy([Maybe(QuoteMark)], r) == |r|
    ensures AQuote(r)
  {
    assert [Maybe(QuoteMark)] == [Maybe(QuoteMark)] + [];
    var a, rest := GreedyCut(Maybe(QuoteMark), [], r);
    assert a == r;
  }

  lemma QuotedCut(t: string) returns (q: string, h: string, r: string)
    requires Greedy(QUOTED_PARTS, t) == |t|
    ensures t == q + (h + r) && AQuote(q) && AllDigits(h) && AQuote(r)
    ensures QuotedGroup(t) == (|q|, |q| + |h|)
  {
    var d;
    q, d := QuoteFirst(Maybe(QuoteMark), HEX_TAIL, t);
    h, r := DigitsCut(d);
  }

  lemma QuoteFirst(p: Part, ps: seq<Part>, t: string) returns (q: string, d: string)
    requires p == Maybe(QuoteMark) && Greedy([p] + ps, t) == |t|
    ensures t == q + d && AQuote(q) && Greedy(ps, d) == |d|
    ensures QuotedGroup(t) == (|q|, |q| + Run(Hex, d))
  {
    q, d := GreedyCut(p, ps, t);
    QuotedGroupIs(t, |q|, d, Run(Hex, d));
  }

  lemma QuotedGroupIs(t: string, m: nat, d: string, n: nat)
    requires m == Fit(Maybe(QuoteMark), t) && d == t[m..] && n == Run(Hex, d)
    ensures QuotedGroup(t) == (m, m + n)
  {
  }

  lemma HexPartsSplit()
    ensures Parts(HexKv) == [AtLeast(Sep, 1)] + QUOTED_PARTS
  {
  }

  lemma TailCut(s: string) returns (a: string, q: string, h: string, r: string)
    requires Greedy(Parts(HexKv), s) == |s|
    ensures s == a + (q + (h + r)) && All(Sep, a) && AQuote(q) && AllDigits(h) && AQuote(r)
    ensures TailGroup(s) == (|a| + |q|, |a| + |q| + |h|)
  {
    HexPartsSplit();
    var t;
    a, t := GreedyCut(AtLeast(Sep, 1), QUOTED_PARTS, s);
    q, h, r := QuotedCut(t);
  }

  lemma {:induction false} ShortKeyword(words: seq<string>, s: string)
    requires forall w :: w in words ==> |w| <= 8
    ensures KeywordLen(words, s) <= 8
  {
    if words != [] {
      assert words[0] in words && forall w :: w in words[1..] ==> w in words;
      ShortKeyword(words[1..], s);
    }
  }

  lemma ShortHead(rule: Rule, s: string)
    requires AnyCase(rule)
    ensures HeadLen(rule, s) <= 8
  {
    var words := Words(rule);
    assert forall w :: w in words ==> |w| <= 8;
    ShortKeyword(words, s);
  }

  /** What a found hex assignment consists of: a text without digits past its eighth
      character, the digits, and at most a quote. */
  predicate Grouped(x: string, p: string, h: string, r: string) {
    x == p + (h + r) && NoDigits(8, p) && AllDigits(h) && AQuote(r)
  }

  lemma HeadNoDigits(k: string, a: string, q: string)
    requires |k| <= 8 && All(Sep, a) && AQuote(q)
    ensures NoDigits(8, k + (a + q))
  {
    var p := k + (a + q);
    forall t | 8 <= t < |p| ensures !In(Hex, p[t]) {
      if t < |k| + |a| {
        assert p[t] == a[t - |k|];
      } else {
        assert p[t] == q[t - |k| - |a|];
      }
    }
  }

  lemma Rejoin(x: string, k: string, s: string, a: string, q: string, d: string)
    requires x == k + s && s == a + (q + d)
    ensures x == k + (a + q) + d
  {
    Flat3(a, q, d);
    Flat3(k, a + q, d);
  }

  lemma HexMatchParts(rule: Rule, x: string) returns (k: string, s: string)
    requires rule == HexKv && Match(rule, x) > 0
    ensures x == k + s && |k| == HeadLen(rule, x) && s == x[|k|..] && Match(rule, x) == |k| + Greedy(Parts(HexKv), s)
  {
    k, s := x[..HeadLen(rule, x)], x[HeadLen(rule, x)..];
  }

  lemma GroupShape(rule: Rule, x: string) returns (p: string, h: string, r: string)
    requires rule == HexKv && 0 < Match(rule, x) == |x|
    ensures Grouped(x, p, h, r) && Group(rule, x) == (|p|, |p| + |h|)
  {
    var k, s := HexMatchParts(rule, x);
    ShortHead(rule, x);
    p, h, r := HeadAndTail(x, k, s);
  }

  lemma HeadAndTail(x: string, k: string, s: string) returns (p: string, h: string, r: string)
    requires x == k + s && |k| <= 8 && Greedy(Parts(HexKv), s) == |s|
    ensures Grouped(x, p, h, r) && (|k| + TailGroup(s).0, |k| + TailGroup(s).1) == (|p|, |p| + |h|)
  {
    var a, q;
    a, q, h, r := TailCut(s);
    p := k + (a + q);
    HeadNoDigits(k, a, q);
    Rejoin(x, k, s, a, q, h + r);
  }

  // ---------- stages as pieces ----------

  function Keeps(s: string): seq<Piece> {
    if s == "" then [] else [Keep(s[0])] + Keeps(s[1..])
  }

  /** A marker in place of the digits h, with the text around them kept. */
  function Around(p: string, h: string, r: string): seq<Piece> {
    Keeps(p) + ([Hide(h)] + Keeps(r))
  }

  /** What one match turns into: a marker, or for the last stage a marker for the digits only. */
  function Found(rule: Rule, x: string): seq<Piece> {
    if rule == HexKv then AroundGroup(x, Group(rule, x)) else [Hide(x)]
  }

  function AroundGroup(x: string, g: (nat, nat)): seq<Piece>
    requires g.0 <= g.1 <= |x|
  {
    Around(x[..g.0], x[g.0..g.1], x[g.1..])
  }

  function Pieces(rule: Rule, bits: seq<Bit>): seq<Piece> {
    if bits == [] then []
    else (match bits[0] case Other(c) => [Keep(c)] case Hit(x) => Found(rule, x)) + Pieces(rule, bits[1..])
  }

  lemma ConsPiece(p: Piece, ps: seq<Piece>)
    ensures Source([p] + ps) == Before(p) + Source(ps) && Render([p] + ps) == After(p) + Render(ps)
  {
    assert ([p] + ps)[1..] == ps;
  }

  lemma Regrouped(p: Piece, a: seq<Piece>, rest: seq<Piece>, b: seq<Piece>)
    requires a != [] && p == a[0] && rest == a[1..]
    ensures a + b == [p] + (rest + b) && a == [p] + rest
  {
  }

  lemma {:induction false} Appended(a: seq<Piece>, b: seq<Piece>)
    ensures Source(a + b) == Source(a) + Source(b)
    ensures Render(a + b) == Render(a) + Render(b)
  {
    if a == [] {
      assert a + b == b;
    } else {
      var p, rest := a[0], a[1..];
      Appended(rest, b);
      ConsPiece(p, rest + b);
      Flat3(Before(p), Source(rest), Source(b));
      Flat3(After(p), Render(rest), Render(b));
      Regrouped(p, a, rest, b);
    }
  }

  lemma {:induction false} KeepsAll(s: string)
    ensures Source(Keeps(s)) == s && Render(Keeps(s)) == s
  {
    if s != "" {
      KeepsAll(s[1..]);
    }
  }

  lemma AroundShape(p: string, h: string, r: string)
    ensures Source(Around(p, h, r)) == p + (h + r) && Render(Around(p, h, r)) == p + (MARKER + r)
  {
    Appended(Keeps(p), [Hide(h)] + Keeps(r));
    ConsPiece(Hide(h), Keeps(r));
    KeepsAll(p);
    KeepsAll(r);
  }

  lemma CutOutGroup(x: string, p: string, h: string, r: string)
    requires x == p + (h + r)
    ensures AroundGroup(x, (|p|, |p| + |h|)) == Around(p, h, r) && CutOut(x, (|p|, |p| + |h|)) == p + MARKER + r
  {
    assert x[..|p|] == p && x[|p|..|p| + |h|] == h && x[|p| + |h|..] == r;
  }

  lemma FoundGroup(rule: Rule, x: string) returns (p: string, h: string, r: string)
    requires rule == HexKv && Whole(rule, x)
    ensures Grouped(x, p, h, r) && Found(rule, x) == Around(p, h, r) && RedactGroup(rule, x) == p + MARKER + r
  {
    MatchWhole(rule, x);
    p, h, r := GroupShape(rule, x);
    CutOutGroup(x, p, h, r);
  }

  lemma FoundShape(rule: Rule, x: string)
    requires Whole(rule, x)
    ensures Source(Found(rule, x)) == x && Render(Found(rule, x)) == Redacted(rule, x)
  {
    if rule == HexKv {
      var p, h, r := FoundGroup(rule, x);
      AroundShape(p, h, r);
      Flat3(p, MARKER, r);
    } else {
      ConsPiece(Hide(x), []);
      assert [Hide(x)] + [] == [Hide(x)];
    }
  }

  lemma {:induction false} PiecesShape(rule: Rule, bits: seq<Bit>)
    requires Chopped(rule, bits)
    ensures Source(Pieces(rule, bits)) == TextOf(bits) && Render(Pieces(rule, bits)) == Splice(rule, bits)
  {
    if bits != [] {
      var rest := Pieces(rule, bits[1..]);
      PiecesShape(rule, bits[1..]);
      match bits[0]
      case Hit(x) =>
        FoundShape(rule, x);
        Appended(Found(rule, x), rest);
      case Other(c) =>
        Appended([Keep(c)], rest);
        KeepsAll([c]);
        assert Keeps([c]) == [Keep(c)];
    }
  }

  /** A stage turns the source of its pieces into their rendering. */
  lemma StageShape(rule: Rule, s: string)
    ensures Source(Pieces(rule, Chop(rule, s))) == s && Render(Pieces(rule, Chop(rule, s))) == ReplaceAll(rule, s)
  {
    ChopSound(rule, s);
    PiecesShape(rule, Chop(rule, s));
  }

  // ---------- what a stage hides ----------

  function Hidden(ps: seq<Piece>): seq<string> {
    if ps == [] then [] else (if ps[0].Hide? then [ps[0].x] else []) + Hidden(ps[1..])
  }

  lemma {:induction false} HiddenAppended(a: seq<Piece>, b: seq<Piece>)
    ensures Hidden(a + b) == Hidden(a) + Hidden(b)
  {
    if a == [] {
      assert a + b == b;
    } else {
      assert (a + b)[1..] == a[1..] + b;
      HiddenAppended(a[1..], b);
    }
  }

  lemma {:induction false} KeepsHideNothing(s: string)
    ensures Hidden(Keeps(s)) == []
  {
    if s != "" {
      KeepsHideNothing(s[1..]);
    }
  }

  lemma AroundHides(p: string, h: string, r: string)
    ensures Hidden(Around(p, h, r)) == [h]
  {
    HiddenAppended(Keeps(p), [Hide(h)] + Keeps(r));
    KeepsHideNothing(p);
    KeepsHideNothing(r);
    assert ([Hide(h)] + Keeps(r))[1..] == Keeps(r);
  }

  /** What one marker may stand for. */
  ghost predicate Secret(rule: Rule, x: string) {
    if rule == HexKv then |x| >= 32 && All(Hex, x) else InLang(rule, x)
  }

  ghost predicate AllSecret(rule: Rule, hs: seq<string>) {
    forall i :: 0 <= i < |hs| ==> Secret(rule, hs[i])
  }

  lemma FoundHides(rule: Rule, x: string)
    requires Whole(rule, x)
    ensures |Hidden(Found(rule, x))| == 1 && Secret(rule, Hidden(Found(rule, x))[0])
  {
    if rule == HexKv {
      var p, h, r := FoundGroup(rule, x);
      AroundHides(p, h, r);
    } else {
      assert Hidden([Hide(x)]) == [x];
    }
  }

  lemma HitHides(rule: Rule, x: string, rest: seq<Piece>)
    requires Whole(rule, x) && AllSecret(rule, Hidden(rest))
    ensures |Hidden(Found(rule, x) + rest)| == 1 + |Hidden(rest)| && AllSecret(rule, Hidden(Found(rule, x) + rest))
  {
    FoundHides(rule, x);
    HiddenAppended(Found(rule, x), rest);
  }

  lemma {:induction false} PiecesHide(rule: Rule, bits: seq<Bit>)
    requires Chopped(rule, bits)
    ensures |Hidden(Pieces(rule, bits))| == |Hits(bits)| && AllSecret(rule, Hidden(Pieces(rule, bits)))
  {
    if bits != [] {
      PiecesHide(rule, bits[1..]);
      var rest := Pieces(rule, bits[1..]);
      match bits[0]
      case Hit(x) => HitHides(rule, x, rest);
      case Other(c) =>
        assert ([Keep(c)] + rest)[1..] == rest;
    }
  }

  /** Each hit is one marker and each marker stands for one secret (or its digits); with
      StageShape, everything else is kept in place. */
  lemma StageHides(rule: Rule, s: string)
    ensures
      var hidden := Hidden(Pieces(rule, Chop(rule, s)));
      |hidden| == |FindAll(rule, s)| && AllSecret(rule, hidden)
  {
    ChopSound(rule, s);
    PiecesHide(rule, Chop(rule, s));
  }
}
