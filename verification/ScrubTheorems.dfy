/** The pipeline as a whole: no secret of any rule survives it, scrubbing twice changes nothing,
    and the hit count is zero exactly on texts without secrets. */
module ScrubTheorems {
  import opened Scrub
  import opened ScrubMatch
  import opened ScrubLaws
  import opened ScrubStages

  // ---------- stages keep clean rules clean ----------

  /** If the original text is clean and nothing hidden can join a secret, every head is quiet. */
  lemma {:induction false} QuietFromClean(rule: Rule, ps: seq<Piece>)
    requires Clean(rule, Source(ps)) && HidesOk(rule, ps)
    ensures Quiet(rule, ps)
  {
    if ps != [] {
      match ps[0]
      case Keep(c) =>
        assert Source(ps)[1..] == Source(ps[1..]);
        QuietFromClean(rule, ps[1..]);
        QuietFromSource(rule, ps);
      case Hide(x) =>
        CleanTail(rule, x, Source(ps[1..]));
        QuietFromClean(rule, ps[1..]);
    }
  }

  lemma QuietFromSource(rule: Rule, ps: seq<Piece>)
    requires Match(rule, Source(ps)) == 0
    ensures QuietHead(rule, ps)
  {
    if rule !in {Password, Pem} && Match(rule, Plain(ps)) > 0 {
      PlainIsPrefix(ps);
      MatchMono(rule, Plain(ps), Source(ps));
    }
  }

  /** The hidden texts of a stage cannot hurt a rule, unless they are multi-line and the rule is Pem. */
  predicate Harmless(stage: Rule, rule: Rule) {
    rule != Pem || stage !in {Bearer, Password}
  }

  lemma FoldIsValue(c: char, k: char)
    requires Lower(k) && FoldsTo(c, k)
    ensures In(Value, c) && !In(QuoteMark, c)
  {
  }

  lemma HeadIsValue(rule: Rule, k: string)
    requires IsHead(rule, k)
    ensures k != "" && In(Value, k[0]) && !In(QuoteMark, k[0])
  {
    if AnyCase(rule) {
      var w :| w in Words(rule) && |w| == |k| && Spells(k, w);
      WordsDistinct(rule);
      assert FoldsTo(k[0], w[0]);
      FoldIsValue(k[0], w[0]);
    } else {
      LiteralIsValue(rule, k);
    }
  }

  lemma LiteralIsValue(rule: Rule, k: string)
    requires !AnyCase(rule) && k in Words(rule)
    ensures k != "" && In(Value, k[0]) && !In(QuoteMark, k[0])
  {
  }

  lemma FirstIsValue(rule: Rule, x: string)
    requires InLang(rule, x)
    ensures x != "" && In(Value, x[0]) && !In(QuoteMark, x[0])
  {
    var k, c := LangStart(rule, x);
    HeadIsValue(rule, k);
    assert x[0] == k[0];
  }

  lemma PemHasFooter(x: string)
    requires InLang(Pem, x)
    ensures FooterEnd(x) >= 0
  {
    var k, v :| Joined(Pem, x, k, v);
    FooterComplete(v, "");
    assert v + "" == v;
    FooterPrepend(k, v);
  }

  lemma {:induction false} SpelledOneLine(ps: seq<Part>, u: string)
    requires Spelled(ps, u) && forall p :: p in ps ==> !In(p.cls, '\n')
    ensures '\n' !in u
  {
    if ps != [] {
      assert ps == [ps[0]] + ps[1..];
      var a, rest := SpelledStep(ps[0], ps[1..], u);
      SpelledOneLine(ps[1..], rest);
      assert !In(ps[0].cls, '\n');
    }
  }

  lemma PartsOneLine(rule: Rule)
    requires rule in {Aws, Jwt, Pat}
    ensures forall p :: p in Parts(rule) ==> !In(p.cls, '\n')
    ensures forall w :: w in Words(rule) ==> '\n' !in w
  {
  }

  lemma OneLine(rule: Rule, x: string)
    requires rule in {Aws, Jwt, Pat} && InLang(rule, x)
    ensures '\n' !in x
  {
    var k, v :| Joined(rule, x, k, v);
    PartsOneLine(rule);
    SpelledOneLine(Parts(rule), v);
  }

  lemma SecretHideOk(stage: Rule, rule: Rule, x: string)
    requires stage != HexKv && Harmless(stage, rule) && InLang(stage, x)
    ensures HideOk(rule, x)
  {
    FirstIsValue(stage, x);
    if rule == Pem {
      if stage == Pem {
        PemHasFooter(x);
      } else {
        OneLine(stage, x);
      }
    }
  }

  lemma DigitsHideOk(rule: Rule, x: string)
    requires |x| >= 32 && All(Hex, x)
    ensures HideOk(rule, x)
  {
    assert In(Hex, x[0]);
    assert '\n' in x ==> In(Hex, '\n');
  }

  lemma {:induction false} KeepsHideOk(rule: Rule, s: string, ps: seq<Piece>)
    requires HidesOk(rule, ps)
    ensures HidesOk(rule, Keeps(s) + ps)
  {
    if s == "" {
      assert Keeps(s) + ps == ps;
    } else {
      assert (Keeps(s) + ps)[1..] == Keeps(s[1..]) + ps;
      KeepsHideOk(rule, s[1..], ps);
    }
  }

  lemma HideAndHidesOk(rule: Rule, x: string, ps: seq<Piece>)
    requires HideOk(rule, x) && HidesOk(rule, ps)
    ensures HidesOk(rule, [Hide(x)] + ps)
  {
    assert ([Hide(x)] + ps)[1..] == ps;
  }

  lemma AroundAnd(p: string, h: string, r: string, ps: seq<Piece>)
    ensures Around(p, h, r) + ps == Keeps(p) + ([Hide(h)] + (Keeps(r) + ps))
  {
  }

  lemma GroupHidesOk(rule: Rule, p: string, h: string, r: string, ps: seq<Piece>)
    requires AllDigits(h) && HidesOk(rule, ps)
    ensures HidesOk(rule, Around(p, h, r) + ps)
  {
    DigitsHideOk(rule, h);
    KeepsHideOk(rule, r, ps);
    HideAndHidesOk(rule, h, Keeps(r) + ps);
    KeepsHideOk(rule, p, [Hide(h)] + (Keeps(r) + ps));
    AroundAnd(p, h, r, ps);
  }

  lemma FoundHidesOk(stage: Rule, rule: Rule, x: string, ps: seq<Piece>)
    requires Harmless(stage, rule) && Whole(stage, x) && HidesOk(rule, ps)
    ensures HidesOk(rule, Found(stage, x) + ps)
  {
    if stage == HexKv {
      var p, h, r := FoundGroup(stage, x);
      GroupHidesOk(rule, p, h, r, ps);
    } else {
      SecretHideOk(stage, rule, x);
      HideAndHidesOk(rule, x, ps);
    }
  }

  lemma {:induction false} PiecesHidesOk(stage: Rule, rule: Rule, bits: seq<Bit>)
    requires Harmless(stage, rule) && Chopped(stage, bits)
    ensures HidesOk(rule, Pieces(stage, bits))
  {
    if bits != [] {
      var rest := Pieces(stage, bits[1..]);
      PiecesHidesOk(stage, rule, bits[1..]);
      match bits[0]
      case Hit(x) => FoundHidesOk(stage, rule, x, rest);
      case Other(c) =>
        assert ([Keep(c)] + rest)[1..] == rest;
    }
  }

  /** A harmless stage brings no secret of the rule into a text that has none. */
  lemma StageKeepsClean(stage: Rule, rule: Rule, s: string)
    requires Harmless(stage, rule) && Clean(rule, s)
    ensures Clean(rule, ReplaceAll(stage, s))
  {
    var ps := Pieces(stage, Chop(stage, s));
    ChopSound(stage, s);
    StageShape(stage, s);
    PiecesHidesOk(stage, rule, Chop(stage, s));
    QuietFromClean(rule, ps);
    RenderClean(rule, ps);
  }

  // ---------- a stage leaves no secret of its own ----------

  lemma QuietHide(rule: Rule, x: string, ps: seq<Piece>)
    requires HideOk(rule, x) && Quiet(rule, ps)
    ensures Quiet(rule, [Hide(x)] + ps)
  {
    assert ([Hide(x)] + ps)[1..] == ps;
  }

  lemma QuietOther(rule: Rule, c: char, ps: seq<Piece>)
    requires Match(rule, [c] + Source(ps)) == 0 && Quiet(rule, ps)
    ensures Quiet(rule, [Keep(c)] + ps)
  {
    var qs := [Keep(c)] + ps;
    assert qs[1..] == ps;
    QuietFromSource(rule, qs);
  }

  /** A hex secret has a digit past its eighth character. */
  lemma LateDigit(rule: Rule, u: string) returns (t: nat)
    requires rule == HexKv && InLang(rule, u)
    ensures 8 <= t < |u| && In(Hex, u[t])
  {
    MatchWhole(rule, u);
    var p, h, r := GroupShape(rule, u);
    t := |p| + 8;
    assert u[t] == h[8];
  }

  /** A text with no hex digit past its eighth character has no hex secret. */
  lemma {:induction false} FewDigitsClean(rule: Rule, y: string)
    requires rule == HexKv && NoDigits(8, y)
    ensures Clean(rule, y)
  {
    if y != "" {
      FewDigitsClean(rule, y[1..]);
      if Match(rule, y) > 0 {
        var u := SecretAt(rule, y);
        var t := LateDigit(rule, u);
      }
    }
  }

  lemma KeepInFront(rule: Rule, c: char, ps: seq<Piece>)
    requires rule == HexKv && Match(rule, [c] + Plain(ps)) == 0 && Quiet(rule, ps)
    ensures Quiet(rule, [Keep(c)] + ps) && Plain([Keep(c)] + ps) == [c] + Plain(ps)
  {
    assert ([Keep(c)] + ps)[1..] == ps;
  }

  lemma KeepsCons(y: string, ps: seq<Piece>)
    requires y != ""
    ensures y == [y[0]] + y[1..] && Keeps(y) + ps == [Keep(y[0])] + (Keeps(y[1..]) + ps)
  {
  }

  /** Kept text in front of a hidden one is quiet if it is clean on its own. */
  lemma {:induction false} KeepsQuiet(rule: Rule, y: string, ps: seq<Piece>)
    requires rule == HexKv && Clean(rule, y) && Quiet(rule, ps) && ps != [] && ps[0].Hide?
    ensures Quiet(rule, Keeps(y) + ps) && Plain(Keeps(y) + ps) == y
  {
    if y == "" {
      assert Keeps(y) + ps == ps;
    } else {
      KeepsQuiet(rule, y[1..], ps);
      KeepsCons(y, ps);
      KeepInFront(rule, y[0], Keeps(y[1..]) + ps);
    }
  }

  lemma QuoteQuiet(rule: Rule, z: string, ps: seq<Piece>)
    requires rule == HexKv && AQuote(z) && Quiet(rule, ps)
    ensures Quiet(rule, Keeps(z) + ps)
  {
    if z == "" {
      assert Keeps(z) + ps == ps;
    } else {
      assert z == [z[0]] && Keeps(z) == [Keep(z[0])];
      assert In(QuoteMark, z[0]);
      NoQuoteFirst(rule, z[0], Plain(ps));
      KeepInFront(rule, z[0], ps);
    }
  }

  lemma NoQuoteFirst(rule: Rule, c: char, t: string)
    requires In(QuoteMark, c)
    ensures Match(rule, [c] + t) == 0
  {
    if Match(rule, [c] + t) > 0 {
      var u := SecretAt(rule, [c] + t);
      FirstIsValue(rule, u);
    }
  }

  lemma GroupQuiet(rule: Rule, x: string, ps: seq<Piece>)
    requires rule == HexKv && Whole(rule, x) && Quiet(rule, ps)
    ensures Quiet(rule, Found(rule, x) + ps)
  {
    var p, h, r := FoundGroup(rule, x);
    QuoteQuiet(rule, r, ps);
    var behind := Keeps(r) + ps;
    DigitsHideOk(rule, h);
    QuietHide(rule, h, behind);
    FewDigitsClean(rule, p);
    KeepsQuiet(rule, p, [Hide(h)] + behind);
    AroundAnd(p, h, r, ps);
  }

  lemma HitQuiet(rule: Rule, x: string, ps: seq<Piece>)
    requires Whole(rule, x) && Quiet(rule, ps)
    ensures Quiet(rule, Found(rule, x) + ps)
  {
    if rule == HexKv {
      GroupQuiet(rule, x, ps);
    } else {
      SecretHideOk(rule, rule, x);
      QuietHide(rule, x, ps);
    }
  }

  lemma {:induction false} PiecesQuiet(rule: Rule, bits: seq<Bit>)
    requires Chopped(rule, bits)
    ensures Quiet(rule, Pieces(rule, bits))
  {
    if bits != [] {
      var rest := Pieces(rule, bits[1..]);
      PiecesQuiet(rule, bits[1..]);
      match bits[0]
      case Hit(x) => HitQuiet(rule, x, rest);
      case Other(c) =>
        PiecesShape(rule, bits[1..]);
        QuietOther(rule, c, rest);
    }
  }

  /** A stage leaves no secret of its rule. */
  lemma StageCleans(rule: Rule, s: string)
    ensures Clean(rule, ReplaceAll(rule, s))
  {
    ChopSound(rule, s);
    PiecesQuiet(rule, Chop(rule, s));
    StageShape(rule, s);
    RenderClean(rule, Pieces(rule, Chop(rule, s)));
  }

  // ---------- the whole pipeline ----------

  /** The text after the first n stages, and the hits so far. */
  function UpTo(n: nat, s: string): Redaction
    requires n <= |STAGES|
  {
    Scrubbed(STAGES[..n], s)
  }

  lemma StageStep(stages: seq<Rule>, n: nat, s: string)
    requires 0 < n <= |stages|
    ensures
      var before := Scrubbed(stages[..n - 1], s);
      var rule := stages[n - 1];
      Scrubbed(stages[..n], s) == Redaction(ReplaceAll(rule, before.text), before.hits + |FindAll(rule, before.text)|)
  {
    assert stages[..n][..n - 1] == stages[..n - 1];
  }

  lemma AllStages(s: string)
    ensures UpTo(|STAGES|, s) == Scrubbed(STAGES, s)
  {
    assert STAGES[..|STAGES|] == STAGES;
  }

  /** Pem comes after the stages that may hide several lines. */
  lemma LaterHarmless(k: nat, n: nat)
    requires k < n < |STAGES|
    ensures Harmless(STAGES[n], STAGES[k])
  {
  }

  lemma {:induction false} UpToClean(n: nat, k: nat, s: string)
    requires k < n <= |STAGES|
    ensures Clean(STAGES[k], UpTo(n, s).text)
  {
    var before := UpTo(n - 1, s).text;
    StageStep(STAGES, n, s);
    if k == n - 1 {
      StageCleans(STAGES[k], before);
    } else {
      UpToClean(n - 1, k, s);
      LaterHarmless(k, n - 1);
      StageKeepsClean(STAGES[n - 1], STAGES[k], before);
    }
  }

  lemma StageIndex(rule: Rule) returns (k: nat)
    ensures k < |STAGES| && STAGES[k] == rule
  {
    k := match rule case Aws => 0 case Bearer => 1 case Password => 2 case Jwt => 3 case Pem => 4 case Pat => 5 case HexKv => 6;
  }

  lemma OutputClean(rule: Rule, s: string)
    ensures Clean(rule, Scrubbed(STAGES, s).text)
  {
    AllStages(s);
    var k := StageIndex(rule);
    UpToClean(|STAGES|, k, s);
  }

  /** No secret of any rule survives the pipeline, whatever the later stages rewrite. */
  lemma NoSecretSurvives(rule: Rule, s: string)
    ensures !Contains(rule, Scrubbed(STAGES, s).text)
  {
    OutputClean(rule, s);
    CleanIffNoSecret(rule, Scrubbed(STAGES, s).text);
  }

  // ---------- clean texts are left alone ----------

  lemma {:induction false} CleanChop(rule: Rule, s: string)
    requires Clean(rule, s)
    ensures FindAll(rule, s) == []
  {
    if s != "" {
      CleanChop(rule, s[1..]);
      ChopOther(rule, s);
      assert ([Other(s[0])] + Chop(rule, s[1..]))[1..] == Chop(rule, s[1..]);
    }
  }

  lemma CleanUnchanged(rule: Rule, s: string)
    requires Clean(rule, s)
    ensures ReplaceAll(rule, s) == s && FindAll(rule, s) == []
  {
    CleanChop(rule, s);
    NothingToReplace(rule, s);
  }

  lemma NoFindClean(rule: Rule, s: string)
    requires FindAll(rule, s) == []
    ensures ReplaceAll(rule, s) == s && Clean(rule, s)
  {
    NothingToReplace(rule, s);
    StageCleans(rule, s);
  }

  /** The text has no secret of any rule. */
  predicate AllClean(s: string) {
    forall rule: Rule :: Clean(rule, s)
  }

  lemma {:induction false} AllCleanUpTo(n: nat, s: string)
    requires n <= |STAGES| && AllClean(s)
    ensures UpTo(n, s) == Redaction(s, 0)
  {
    if n > 0 {
      AllCleanUpTo(n - 1, s);
      StageStep(STAGES, n, s);
      CleanUnchanged(STAGES[n - 1], s);
    }
  }

  /** Scrubbing a scrubbed text changes nothing and counts nothing. */
  lemma ScrubTwice(s: string)
    ensures Scrubbed(STAGES, Scrubbed(STAGES, s).text) == Redaction(Scrubbed(STAGES, s).text, 0)
  {
    var t := Scrubbed(STAGES, s).text;
    forall rule: Rule ensures Clean(rule, t) {
      OutputClean(rule, s);
    }
    AllCleanUpTo(|STAGES|, t);
    AllStages(t);
  }

  lemma IdleStage(stages: seq<Rule>, n: nat, s: string)
    requires 0 < n <= |stages| && Scrubbed(stages[..n], s).hits == 0
    ensures Scrubbed(stages[..n - 1], s).hits == 0 && Scrubbed(stages[..n], s).text == Scrubbed(stages[..n - 1], s).text
    ensures Clean(stages[n - 1], Scrubbed(stages[..n], s).text)
  {
    StageStep(stages, n, s);
    NoFindClean(stages[n - 1], Scrubbed(stages[..n - 1], s).text);
  }

  lemma {:induction false} NoHitsText(stages: seq<Rule>, n: nat, s: string)
    requires n <= |stages| && Scrubbed(stages[..n], s).hits == 0
    ensures Scrubbed(stages[..n], s).text == s
  {
    if n > 0 {
      IdleStage(stages, n, s);
      NoHitsText(stages, n - 1, s);
    }
  }

  lemma {:induction false} NoHitsClean(stages: seq<Rule>, n: nat, k: nat, s: string)
    requires k < n <= |stages| && Scrubbed(stages[..n], s).hits == 0
    ensures Clean(stages[k], s)
  {
    IdleStage(stages, n, s);
    if k == n - 1 {
      NoHitsText(stages, n, s);
    } else {
      NoHitsClean(stages, n - 1, k, s);
    }
  }

  lemma NoHitsAllClean(s: string)
    requires Scrubbed(STAGES, s).hits == 0
    ensures AllClean(s)
  {
    AllStages(s);
    forall rule: Rule ensures Clean(rule, s) {
      var k := StageIndex(rule);
      NoHitsClean(STAGES, |STAGES|, k, s);
    }
  }

  lemma UnchangedAllClean(s: string)
    requires Scrubbed(STAGES, s).text == s
    ensures AllClean(s)
  {
    forall rule: Rule ensures Clean(rule, s) {
      OutputClean(rule, s);
    }
  }

  lemma AllCleanIffNoSecrets(s: string)
    ensures AllClean(s) <==> forall rule: Rule :: !Contains(rule, s)
  {
    forall rule: Rule ensures Clean(rule, s) <==> !Contains(rule, s) {
      CleanIffNoSecret(rule, s);
    }
  }

  lemma AllCleanScrubbed(s: string)
    requires AllClean(s)
    ensures Scrubbed(STAGES, s) == Redaction(s, 0)
  {
    AllCleanUpTo(|STAGES|, s);
    AllStages(s);
  }

  /** No hits, an unchanged text and a text without secrets are the same thing. */
  lemma HitsExact(s: string)
    ensures Scrubbed(STAGES, s).hits == 0 <==> Scrubbed(STAGES, s).text == s
    ensures Scrubbed(STAGES, s).hits == 0 <==> forall rule: Rule :: !Contains(rule, s)
  {
    AllCleanIffNoSecrets(s);
    if Scrubbed(STAGES, s).hits == 0 {
      NoHitsAllClean(s);
    }
    if Scrubbed(STAGES, s).text == s {
      UnchangedAllClean(s);
    }
    if AllClean(s) {
      AllCleanScrubbed(s);
    }
  }

  // ---------- hits are not markers ----------

  lemma WholeStage(rule: Rule, u: string)
    requires rule !in {Pem, HexKv} && InLang(rule, u)
    ensures ReplaceAll(rule, u) == MARKER && |FindAll(rule, u)| == 1
  {
    MatchWhole(rule, u);
    ChopHit(rule, u, |u|);
    assert u[..|u|] == u && u[|u|..] == "";
    assert Chop(rule, "") == [];
    OneHit(rule, u);
  }

  lemma OneHit(rule: Rule, u: string)
    requires rule != HexKv
    ensures Splice(rule, [Hit(u)] + []) == MARKER && Hits([Hit(u)] + []) == [u]
  {
    var bits := [Hit(u)] + [];
    assert bits[1..] == [];
    assert Splice(rule, []) == "" && MARKER + "" == MARKER;
  }

  /** A text whose first letter is not the rule's is not matched. */
  lemma OtherFirst(rule: Rule, w: string, s: string)
    requires Words(rule) == [w] && w != "" && !AnyCase(rule) && (s == "" || s[0] != w[0])
    ensures Match(rule, s) == 0
  {
    assert LiteralLen(Words(rule), s) == 0;
  }

  lemma OtherStage(rule: Rule, c: char, t: string)
    requires Match(rule, [c] + t) == 0
    ensures ReplaceAll(rule, [c] + t) == [c] + ReplaceAll(rule, t) && FindAll(rule, [c] + t) == FindAll(rule, t)
  {
    ChopOther(rule, [c] + t);
    assert ([c] + t)[1..] == t;
    assert ([Other(c)] + Chop(rule, t))[1..] == Chop(rule, t);
  }

  lemma SkipLetter(rule: Rule, c: char, a: string, t: string)
    requires rule == Aws && c != 'A'
    ensures
      var s := ([c] + a) + t;
      ReplaceAll(rule, s) == [c] + ReplaceAll(rule, a + t) && FindAll(rule, s) == FindAll(rule, a + t)
  {
    Flat3([c], a, t);
    OtherFirst(rule, "AKIA", [c] + (a + t));
    OtherStage(rule, c, a + t);
  }

  lemma {:induction false} BeforeKey(rule: Rule, a: string, key: string)
    requires rule == Aws && 'A' !in a && InLang(rule, key)
    ensures ReplaceAll(rule, a + key) == a + MARKER && |FindAll(rule, a + key)| == 1
  {
    if a == "" {
      assert a + key == key;
      WholeStage(rule, key);
    } else {
      var c, b := a[0], a[1..];
      assert a == [c] + b;
      SkipLetter(rule, c, b, key);
      BeforeKey(rule, b, key);
      Flat3([c], b, MARKER);
    }
  }

  lemma {:induction false} NoBearer(rule: Rule, s: string)
    requires rule == Bearer && 'B' !in s
    ensures Clean(rule, s)
  {
    if s != "" {
      NoBearer(rule, s[1..]);
      OtherFirst(rule, "Bearer", s);
    }
  }

  lemma MarkerUntouched(rule: Rule)
    ensures ReplaceAll(rule, MARKER) == MARKER && FindAll(rule, MARKER) == []
  {
    MarkerClean(rule, 0, "");
    assert MARKER[0..] + "" == MARKER;
    CleanUnchanged(rule, MARKER);
  }

  lemma {:induction false} SpellsItself(w: string)
    ensures Spells(w, w)
  {
    if w != "" {
      SpellsItself(w[1..]);
    }
  }

  lemma WordIsHead(rule: Rule, k: string)
    requires k in Words(rule)
    ensures IsHead(rule, k)
  {
    SpellsItself(k);
  }

  lemma ValueIsSecret(rule: Rule, k: string, a: string, b: string)
    requires rule == Password && IsHead(rule, k) && a != "" && All(Sep, a) && b != "" && All(Value, b)
    ensures InLang(rule, k + a + b)
  {
    ValueSpelledOut(a, b);
    Flat3(k, a, b);
    assert Joined(rule, k + a + b, k, a + b);
  }

  lemma MarkerStep(stages: seq<Rule>, n: nat, s: string)
    requires n < |stages| && Scrubbed(stages[..n], s).text == MARKER
    ensures Scrubbed(stages[..n + 1], s) == Scrubbed(stages[..n], s)
  {
    StageStep(stages, n + 1, s);
    MarkerUntouched(stages[n]);
  }

  lemma {:induction false} MarkerFrom(stages: seq<Rule>, n: nat, s: string)
    requires n <= |stages| && Scrubbed(stages[..n], s).text == MARKER
    ensures Scrubbed(stages[..|stages|], s) == Scrubbed(stages[..n], s)
    decreases |stages| - n
  {
    if n < |stages| {
      MarkerStep(stages, n, s);
      MarkerFrom(stages, n + 1, s);
    }
  }

  lemma TwoHits(s: string, t: string, aws: Rule, bearer: Rule, password: Rule)
    requires STAGES[..3] == [aws, bearer, password]
    requires ReplaceAll(aws, s) == t && |FindAll(aws, s)| == 1 && Clean(bearer, t)
    requires ReplaceAll(password, t) == MARKER && |FindAll(password, t)| == 1
    ensures UpTo(3, s) == Redaction(MARKER, 2)
  {
    var stages := [aws, bearer, password];
    assert STAGES[..3] == stages[..3];
    StageStep(stages, 1, s);
    StageStep(stages, 2, s);
    CleanUnchanged(bearer, t);
    StageStep(stages, 3, s);
    assert stages[..0] == [];
  }

  lemma TokenIsHead(k: string, password: Rule)
    requires k == "token" && password == Password
    ensures IsHead(password, k)
  {
    WordIsHead(password, k);
  }

  lemma TokenFacts(k: string, a: string)
    requires k == "token" && a == "="
    ensures All(Sep, a) && 'A' !in k + a && 'B' !in k + a + MARKER && All(Value, MARKER)
  {
  }

  lemma SwallowedMarker(k: string, a: string, key: string, aws: Rule, bearer: Rule, password: Rule)
    requires STAGES[..3] == [aws, bearer, password] && aws == Aws && bearer == Bearer && password == Password
    requires IsHead(password, k) && a != "" && All(Sep, a) && 'A' !in k + a && InLang(aws, key)
    requires 'B' !in k + a + MARKER && All(Value, MARKER)
    ensures Scrubbed(STAGES, k + a + key) == Redaction(MARKER, 2)
  {
    var t := k + a + MARKER;
    BeforeKey(aws, k + a, key);
    NoBearer(bearer, t);
    ValueIsSecret(password, k, a, MARKER);
    WholeStage(password, t);
    TwoHits(k + a + key, t, aws, bearer, password);
    MarkerFrom(STAGES, 3, k + a + key);
    AllStages(k + a + key);
  }

  /** A later stage can swallow an earlier marker: an AWS key assigned to a token is counted
      twice and leaves one marker. */
  lemma CountedTwice(key: string)
    requires InLang(Aws, key)
    ensures Scrubbed(STAGES, "token=" + key) == Redaction(MARKER, 2)
  {
    var k, a := "token", "=";
    TokenIsHead(k, Password);
    TokenFacts(k, a);
    SwallowedMarker(k, a, key, Aws, Bearer, Password);
    assert k + a == "token=";
  }
}
