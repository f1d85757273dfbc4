/** Why the PEM stage has to come late: hiding a secret of several lines can join a PEM footer. */
module ScrubPem {
  import opened Scrub
  import opened ScrubMatch
  import opened ScrubLaws
  import opened ScrubStages
  import opened ScrubTheorems

  // ---------- a PEM block with a broken footer ----------

  const DASHES := "-----"
  const BEGIN_KEY := "BEGIN PRIVATE KEY"
  const TAIL := " PRIVATE KEY-----"

  /** A header and the first half of a footer. */
  function Opening(t: string): string {
    DASHES + (BEGIN_KEY + (DASHES + ("x" + (END_MARK + t))))
  }

  /** The footer's line breaks behind the word w. */
  function Broken(w: string): string {
    Opening(w + ("\na" + TAIL))
  }

  /** Fewer dashes than a footer has, or the right number and another letter. */
  predicate ShortDashes(d: string, t: string) {
    && |d| <= 5 && All(Only('-'), d)
    && (t != "" ==> t[0] != '-' && (|d| == 5 ==> t[0] != 'E'))
  }

  lemma NoEndAt(d: string, t: string)
    requires ShortDashes(d, t)
    ensures !(END_MARK <= d + t)
  {
    if t != "" && |d + t| >= |END_MARK| {
      assert (d + t)[|d|] == t[0] != END_MARK[|d|];
    }
  }

  lemma {:induction false} DashesSkip(d: string, t: string)
    requires ShortDashes(d, t) && FooterEnd(d + t) >= 0
    ensures FooterEnd(t) >= 0
  {
    if d == "" {
      assert d + t == t;
    } else {
      NoEndAt(d, t);
      LeadsIff(END_MARK, d + t);
      assert (d + t)[1..] == d[1..] + t;
      DashesSkip(d[1..], t);
    }
  }

  /** No footer ends before the first half of the broken one. */
  lemma OpeningSkip(t: string)
    requires FooterEnd(Opening(t)) >= 0
    ensures FooterEnd(END_MARK + t) >= 0
  {
    var behind := "x" + (END_MARK + t);
    DashesSkip(DASHES, BEGIN_KEY + (DASHES + behind));
    FooterSkips(BEGIN_KEY, DASHES + behind);
    DashesSkip(DASHES, behind);
    FooterSkips("x", END_MARK + t);
  }

  /** A line break stops the footer. */
  lemma NoKeyBeforeBreak(w: string, t: string)
    requires 'P' !in w
    ensures KeyEnd(w + ("\n" + t)) < 0
  {
    if KeyEnd(w + ("\n" + t)) >= 0 {
      KeySkips(w, "\n" + t);
      NoKeyAt("\n" + t, '\n');
    }
  }

  /** What is left of a footer that is broken off has too few dashes for another. */
  lemma RestFootless(m: string)
    requires '-' !in m
    ensures FooterEnd("----" + ("END" + (m + DASHES))) < 0
  {
    assert DASHES + "" == DASHES;
    if FooterEnd("----" + ("END" + (m + DASHES))) >= 0 {
      DashesSkip("----", "END" + (m + DASHES));
      FooterSkips("END", m + DASHES);
      FooterSkips(m, DASHES);
      DashesSkip(DASHES, "");
    }
  }

  lemma NoFooterEnds(t: string, m: string)
    requires KeyEnd(t) < 0 && t == m + DASHES && '-' !in m
    ensures FooterEnd(END_MARK + t) < 0
  {
    var s := END_MARK + t;
    assert s[|END_MARK|..] == t;
    assert s[1..] == "----" + ("END" + (m + DASHES));
    RestFootless(m);
  }

  lemma BrokenFootless(w: string)
    requires '-' !in w && 'P' !in w
    ensures FooterEnd(Broken(w)) < 0
  {
    var t, m := w + ("\na" + TAIL), w + "\na PRIVATE KEY";
    assert t == w + ("\n" + ("a" + TAIL)) == m + DASHES;
    NoKeyBeforeBreak(w, "a" + TAIL);
    NoFooterEnds(t, m);
    if FooterEnd(Broken(w)) >= 0 {
      OpeningSkip(t);
    }
  }

  /** A text without a footer has no PEM secret. */
  lemma {:induction false} FootlessClean(rule: Rule, s: string)
    requires rule == Pem && FooterEnd(s) < 0
    ensures Clean(rule, s)
  {
    if s != "" {
      FootlessClean(rule, s[1..]);
      if Match(rule, s) > 0 {
        var k, n := MatchParts(rule, s);
        CutAt(s, k);
        FooterPrepend(s[..k], s[k..]);
      }
    }
  }

  lemma BrokenClean(w: string, rule: Rule)
    requires '-' !in w && 'P' !in w && rule == Pem
    ensures Clean(rule, Broken(w))
  {
    BrokenFootless(w);
    FootlessClean(rule, Broken(w));
  }

  lemma OpeningParts(m: string)
    ensures Opening(m + TAIL) == (DASHES + BEGIN_KEY + DASHES) + ("x" + END_MARK + (m + " ") + KEY_MARK)
  {
    assert TAIL == " " + KEY_MARK;
  }

  /** With a single line in the middle the footer is complete. */
  lemma MendedIsSecret(m: string, rule: Rule)
    requires '\n' !in m && rule == Pem
    ensures InLang(rule, Opening(m + TAIL))
  {
    var h, v := DASHES + BEGIN_KEY + DASHES, "x" + END_MARK + (m + " ") + KEY_MARK;
    HeaderIsHead(rule, h);
    assert FooterParts(v, "x", m + " ");
    OpeningParts(m);
    assert Joined(rule, h + v, h, v);
  }

  lemma HeaderIsHead(rule: Rule, h: string)
    requires rule == Pem && h == DASHES + BEGIN_KEY + DASHES
    ensures IsHead(rule, h)
  {
    assert h == Words(rule)[3];
  }

  lemma MendedNotClean(m: string, rule: Rule)
    requires '\n' !in m && rule == Pem
    ensures !Clean(rule, Opening(m + TAIL))
  {
    var u := Opening(m + TAIL);
    MendedIsSecret(m, rule);
    MatchComplete(rule, u, "");
    assert u + "" == u;
  }

  // ---------- what the two stages do to it ----------

  /** A letter among the first three of every secret of the rule. */
  predicate Marked(rule: Rule, c: char) {
    if rule == Bearer then c == 'a' else FoldsTo(c, 's') || FoldsTo(c, 'o')
  }

  predicate Unmarked(rule: Rule, s: string) {
    forall c :: c in s ==> !Marked(rule, c)
  }

  lemma ThreeLetters(k: string, w: string)
    requires |w| >= 3 && Spells(k, w)
    ensures |k| >= 3 && FoldsTo(k[0], w[0]) && FoldsTo(k[1], w[1]) && FoldsTo(k[2], w[2])
  {
    SpellsLength(k, w);
    TwoLetters(k[1..], w[1..]);
  }

  predicate MarkedStart(rule: Rule, s: string) {
    |s| >= 3 && (Marked(rule, s[0]) || Marked(rule, s[1]) || Marked(rule, s[2]))
  }

  lemma HeadMarked(rule: Rule, k: string)
    requires rule in {Bearer, Password} && IsHead(rule, k)
    ensures MarkedStart(rule, k)
  {
    if rule == Password {
      var w :| w in Words(rule) && |w| == |k| && Spells(k, w);
      ThreeLetters(k, w);
    }
  }

  lemma MatchMarked(rule: Rule, s: string)
    requires rule in {Bearer, Password} && Match(rule, s) > 0
    ensures MarkedStart(rule, s)
  {
    HeadSound(rule, s);
    HeadMarked(rule, s[..HeadLen(rule, s)]);
  }

  lemma NotHere(rule: Rule, b: string, t: string)
    requires rule in {Bearer, Password} && |b| >= 3 && Unmarked(rule, b)
    ensures Match(rule, b + t) == 0
  {
    assert (b + t)[..3] == b[..3];
    if Match(rule, b + t) > 0 {
      MatchMarked(rule, b + t);
    }
  }

  lemma Shifted(c: char, b: string, v: string, t: string)
    ensures ([c] + b) + (v + t) == [c] + (b + (v + t)) == (([c] + b) + v) + t
  {
  }

  lemma SkipOne(rule: Rule, c: char, b: string, v: string, t: string, r: string)
    requires rule in {Bearer, Password} && |v| == 2 && Unmarked(rule, ([c] + b) + v)
    requires ReplaceAll(rule, b + (v + t)) == b + r
    ensures ReplaceAll(rule, ([c] + b) + (v + t)) == ([c] + b) + r
  {
    Shifted(c, b, v, t);
    NotHere(rule, ([c] + b) + v, t);
    OtherStage(rule, c, b + (v + t));
    Flat3([c], b, r);
  }

  lemma UnmarkedRest(rule: Rule, c: char, b: string, v: string)
    requires Unmarked(rule, ([c] + b) + v)
    ensures Unmarked(rule, b + v)
  {
    assert ([c] + b) + v == [c] + (b + v);
  }

  /** Unmarked text is left alone, whatever starts two letters later. */
  lemma {:induction false} SkipQuiet(rule: Rule, a: string, v: string, t: string)
    requires rule in {Bearer, Password} && |v| == 2 && Unmarked(rule, a + v)
    ensures ReplaceAll(rule, a + (v + t)) == a + ReplaceAll(rule, v + t)
  {
    if a == "" {
      assert a + (v + t) == v + t;
    } else {
      var c, b := a[0], a[1..];
      assert a == [c] + b;
      UnmarkedRest(rule, c, b, v);
      SkipQuiet(rule, b, v, t);
      SkipOne(rule, c, b, v, t, ReplaceAll(rule, v + t));
    }
  }

  lemma {:induction false} UnmarkedClean(rule: Rule, s: string)
    requires rule in {Bearer, Password} && Unmarked(rule, s)
    ensures Clean(rule, s)
  {
    if s != "" {
      UnmarkedClean(rule, s[1..]);
      if Match(rule, s) > 0 {
        MatchMarked(rule, s);
      }
    }
  }

  /** A word that starts a secret of the rule. */
  function Word(rule: Rule): string
    requires rule in {Bearer, Password}
  {
    if rule == Bearer then "Bearer" else "password"
  }

  lemma TokenEnds(t: string)
    requires t != "" && t[0] == ' '
    ensures Greedy([AtLeast(TokenChar, 1), AtLeast(Equals, 0)], "a" + t) == 1
  {
    var p, q := AtLeast(TokenChar, 1), AtLeast(Equals, 0);
    RunIs(TokenChar, "a", t);
    RunIs(Equals, "", t);
    assert "" + t == t && [q] + [] == [q] && [p] + [q] == [p, q];
    GreedyStep(q, [], "", t);
    GreedyStep(p, [q], "a", t);
  }

  lemma BearerTail(t: string)
    requires t != "" && t[0] == ' '
    ensures Greedy(Parts(Bearer), "\n" + ("a" + t)) == 2
  {
    var ps := [AtLeast(TokenChar, 1), AtLeast(Equals, 0)];
    TokenEnds(t);
    RunIs(Space, "\n", "a" + t);
    GreedyStep(AtLeast(Space, 1), ps, "\n", "a" + t);
    assert [AtLeast(Space, 1)] + ps == Parts(Bearer);
  }

  lemma PasswordTail(t: string)
    requires t != "" && t[0] == ' '
    ensures ValueEnd("\n" + ("a" + t)) == 2
  {
    var rest := "\n" + ("a" + t);
    RunIs(Sep, "\n", "a" + t);
    RunIs(Value, "a", t);
    assert rest[1..] == "a" + t;
  }

  lemma TailTaken(rule: Rule, t: string)
    requires rule in {Bearer, Password} && t != "" && t[0] == ' '
    ensures TailLen(rule, "\na" + t) == 2
  {
    assert "\na" + t == "\n" + ("a" + t);
    if rule == Bearer {
      BearerTail(t);
    } else {
      PasswordTail(t);
    }
  }

  /** The match takes the word, the line break and the letter behind it. */
  lemma WordTaken(rule: Rule, w: string, t: string)
    requires rule in {Bearer, Password} && w in Words(rule) && t != "" && t[0] == ' '
    ensures Match(rule, w + ("\na" + t)) == |w| + 2
  {
    if AnyCase(rule) {
      WordIsHead(rule, w);
    }
    HeadComplete(rule, w, "\na" + t);
    assert (w + ("\na" + t))[|w|..] == "\na" + t;
    TailTaken(rule, t);
  }

  lemma HitAndRest(rule: Rule, x: string, t: string)
    requires rule != HexKv && 0 < |x| == Match(rule, x + t) && Clean(rule, t)
    ensures ReplaceAll(rule, x + t) == MARKER + t
  {
    ChopHit(rule, x + t, |x|);
    assert (x + t)[..|x|] == x && (x + t)[|x|..] == t;
    CleanUnchanged(rule, t);
    assert ([Hit(x)] + Chop(rule, t))[1..] == Chop(rule, t);
  }

  lemma WordHidden(rule: Rule, w: string)
    requires rule in {Bearer, Password} && w in Words(rule) && Unmarked(rule, TAIL)
    ensures ReplaceAll(rule, w + ("\na" + TAIL)) == MARKER + TAIL
  {
    WordTaken(rule, w, TAIL);
    UnmarkedClean(rule, TAIL);
    Flat3(w, "\na", TAIL);
    HitAndRest(rule, w + "\na", TAIL);
  }

  lemma OpeningIs(t: string)
    ensures Opening(t) == Opening("") + t
  {
  }

  /** The stage mends the broken footer. */
  lemma Mends(rule: Rule, w: string)
    requires rule in {Bearer, Password} && w in Words(rule) && |w| > 2
    requires Unmarked(rule, TAIL) && Unmarked(rule, Opening("") + w[..2])
    ensures ReplaceAll(rule, Broken(w)) == Opening(MARKER + TAIL)
  {
    var rest := w + ("\na" + TAIL);
    WordHidden(rule, w);
    OpeningIs(rest);
    OpeningIs(MARKER + TAIL);
    assert rest == w[..2] + rest[2..];
    SkipQuiet(rule, Opening(""), w[..2], rest[2..]);
  }

  lemma WordFits(rule: Rule, w: string)
    requires rule in {Bearer, Password} && w == Word(rule)
    ensures w in Words(rule) && |w| > 2 && '-' !in w && 'P' !in w
    ensures Unmarked(rule, w[..2])
  {
  }

  lemma TailUnmarked(rule: Rule)
    requires rule in {Bearer, Password}
    ensures Unmarked(rule, TAIL)
  {
  }

  lemma OpeningUnmarked(rule: Rule, v: string)
    requires rule in {Bearer, Password} && Unmarked(rule, v)
    ensures Unmarked(rule, Opening("") + v)
  {
  }

  /** Hiding a bearer token or a password that runs over a line break can make a PEM block. */
  lemma HiddenBreakMakesPem(stage: Rule, rule: Rule)
    requires stage in {Bearer, Password} && rule == Pem
    ensures
      var s := Broken(Word(stage));
      Clean(rule, s) && !Clean(rule, ReplaceAll(stage, s))
  {
    var w := Word(stage);
    WordFits(stage, w);
    TailUnmarked(stage);
    OpeningUnmarked(stage, w[..2]);
    BrokenClean(w, rule);
    Mends(stage, w);
    MendedNotClean(MARKER, rule);
  }

  /** Exactly the pairs called harmless are: the stage brings no secret of the rule into any text without one. */
  lemma HarmlessExact(stage: Rule, rule: Rule)
    ensures Harmless(stage, rule) <==> forall s | Clean(rule, s) :: Clean(rule, ReplaceAll(stage, s))
  {
    if Harmless(stage, rule) {
      forall s | Clean(rule, s) ensures Clean(rule, ReplaceAll(stage, s)) {
        StageKeepsClean(stage, rule, s);
      }
    } else {
      HiddenBreakMakesPem(stage, rule);
    }
  }
}
