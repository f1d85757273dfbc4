/** What the hit count means: markers are conserved, except those that a later match swallows. */
module ScrubCounts {
  import opened Scrub
  import opened ScrubMatch
  import opened ScrubLaws
  import opened ScrubStages
  import opened ScrubTheorems

  // ---------- counting markers ----------

  /** How many markers a text holds. */
  function Marks(s: string): nat {
    if s == "" then 0 else (if Leads(MARKER, s) then 1 else 0) + Marks(s[1..])
  }

  ghost predicate HasMarker(s: string) {
    exists i :: 0 <= i <= |s| && MARKER <= s[i..]
  }

  lemma {:induction false} MarksIff(s: string)
    ensures Marks(s) > 0 <==> HasMarker(s)
  {
    if s != "" {
      MarksIff(s[1..]);
      LeadsIff(MARKER, s);
      assert s[0..] == s;
      if HasMarker(s) {
        var i :| 0 <= i <= |s| && MARKER <= s[i..];
        assert i > 0 ==> s[1..][i - 1..] == s[i..];
      }
      if HasMarker(s[1..]) {
        var i :| 0 <= i <= |s[1..]| && MARKER <= s[1..][i..];
        assert s[1..][i..] == s[i + 1..];
      }
    }
  }

  lemma NotAMarker(s: string)
    requires s == "" || s[0] != '['
    ensures !Leads(MARKER, s)
  {
    assert MARKER[0] == '[';
  }

  lemma {:induction false} MarksBehind(a: string, t: string)
    requires BracketFree(a)
    ensures Marks(a + t) == Marks(t)
  {
    if a == "" {
      assert a + t == t;
    } else {
      MarksBehind(a[1..], t);
      assert (a + t)[0] == a[0] && (a + t)[1..] == a[1..] + t;
      NotAMarker(a + t);
    }
  }

  lemma NoMarks(a: string)
    requires BracketFree(a)
    ensures Marks(a) == 0
  {
    MarksBehind(a, "");
    assert a + "" == a;
  }

  lemma MarksOfMarker(t: string)
    ensures Marks(MARKER + t) == 1 + Marks(t)
  {
    LeadsJoin(MARKER, t);
    MarksBehind(MARKER[1..], t);
    assert (MARKER + t)[1..] == MARKER[1..] + t;
  }

  function SumMarks(xs: seq<string>): nat {
    if xs == [] then 0 else Marks(xs[0]) + SumMarks(xs[1..])
  }

  lemma {:induction false} SumMarksZero(xs: seq<string>)
    ensures SumMarks(xs) == 0 <==> forall x :: x in xs ==> !HasMarker(x)
  {
    if xs != [] {
      SumMarksZero(xs[1..]);
      MarksIff(xs[0]);
      assert xs == [xs[0]] + xs[1..];
    }
  }

  // ---------- markers in a rewritten text ----------

  /** The markers among the kept characters. */
  function KeptMarks(ps: seq<Piece>): nat {
    if ps == [] then 0 else (if Leads(MARKER, Plain(ps)) then 1 else 0) + KeptMarks(ps[1..])
  }

  lemma {:induction false} PlainIsRendered(ps: seq<Piece>)
    ensures Plain(ps) <= Render(ps)
  {
    if ps != [] && ps[0].Keep? {
      PlainIsRendered(ps[1..]);
    }
  }

  /** A marker that starts at a kept character is kept as a whole. */
  lemma KeptMarker(ps: seq<Piece>)
    requires ps != [] && ps[0].Keep?
    ensures Leads(MARKER, Render(ps)) <==> Leads(MARKER, Plain(ps))
  {
    LeadsIff(MARKER, Render(ps));
    LeadsIff(MARKER, Plain(ps));
    PlainIsRendered(ps);
    if MARKER <= Render(ps) {
      assert Render(ps) == [ps[0].c] + Render(ps[1..]);
      RestKept(ps);
    } else if MARKER <= Plain(ps) {
      PrefixOfPrefix(MARKER, Plain(ps), Render(ps));
    }
  }

  lemma ConsPrefix(a: char, m: string, c: char, t: string)
    ensures [a] + m <= [c] + t <==> a == c && m <= t
  {
    if [a] + m <= [c] + t {
      assert ([a] + m)[0] == ([c] + t)[0];
      assert ([a] + m)[1..] == m && ([c] + t)[1..] == t;
    }
  }

  lemma RestKept(ps: seq<Piece>)
    requires ps != [] && ps[0].Keep? && MARKER <= [ps[0].c] + Render(ps[1..])
    ensures MARKER <= Plain(ps)
  {
    TailKept(MARKER[0], MARKER[1..], ps[0].c, ps[1..]);
    assert MARKER == [MARKER[0]] + MARKER[1..];
  }

  lemma TailKept(a: char, m: string, c: char, ps: seq<Piece>)
    requires BracketFree(m) && [a] + m <= [c] + Render(ps)
    ensures [a] + m <= [c] + Plain(ps)
  {
    ConsPrefix(a, m, c, Render(ps));
    KeptSplit(m, ps);
    ConsPrefix(a, m, c, Plain(ps));
  }

  lemma {:induction false} MarksRendered(ps: seq<Piece>)
    ensures Marks(Render(ps)) == KeptMarks(ps) + |Hidden(ps)|
  {
    if ps != [] {
      MarksRendered(ps[1..]);
      if ps[0].Keep? {
        KeptMarker(ps);
        assert Render(ps)[1..] == Render(ps[1..]);
      } else {
        MarksOfMarker(Render(ps[1..]));
        NotAMarker(Plain(ps));
      }
    }
  }

  // ---------- markers in the original text ----------

  /** No marker of x + t lies across the seam. */
  predicate Unsplit(x: string, t: string) {
    Marks(x + t) == Marks(x) + Marks(t)
  }

  /** No marker of the original text lies across the edge of a hidden one. */
  predicate Undivided(ps: seq<Piece>) {
    ps != [] ==>
      && (match ps[0]
          case Hide(x) => Unsplit(x, Source(ps[1..]))
          case Keep(_) => Leads(MARKER, Source(ps)) ==> Leads(MARKER, Plain(ps)))
      && Undivided(ps[1..])
  }

  lemma {:induction false} MarksSource(ps: seq<Piece>)
    requires Undivided(ps)
    ensures Marks(Source(ps)) == KeptMarks(ps) + SumMarks(Hidden(ps))
  {
    if ps != [] {
      MarksSource(ps[1..]);
      match ps[0]
      case Hide(x) =>
        NotAMarker(Plain(ps));
        assert ([x] + Hidden(ps[1..]))[1..] == Hidden(ps[1..]);
      case Keep(c) =>
        SourceMarker(ps);
        assert Source(ps)[1..] == Source(ps[1..]);
        assert Hidden(ps) == Hidden(ps[1..]);
    }
  }

  lemma SourceMarker(ps: seq<Piece>)
    requires Undivided(ps) && ps != [] && ps[0].Keep?
    ensures Leads(MARKER, Source(ps)) <==> Leads(MARKER, Plain(ps))
  {
    LeadsIff(MARKER, Source(ps));
    LeadsIff(MARKER, Plain(ps));
    PlainIsPrefix(ps);
    if MARKER <= Plain(ps) {
      PrefixOfPrefix(MARKER, Plain(ps), Source(ps));
    }
  }

  /** No hidden text starts inside a marker. */
  ghost predicate NoneInside(ps: seq<Piece>) {
    ps != [] ==>
      && (ps[0].Hide? ==> forall j :: 1 <= j < |MARKER| ==> !(MARKER[j..] <= Source(ps)))
      && NoneInside(ps[1..])
  }

  lemma {:induction false} SuffixKept(ps: seq<Piece>, j: nat)
    requires NoneInside(ps) && 1 <= j <= |MARKER| && MARKER[j..] <= Source(ps)
    ensures MARKER[j..] <= Plain(ps)
  {
    if j < |MARKER| {
      SuffixCons(j);
      if ps[0].Keep? {
        assert Source(ps) == [ps[0].c] + Source(ps[1..]);
        assert MARKER[j..][1..] == MARKER[j + 1..];
        SuffixKept(ps[1..], j + 1);
      }
    }
  }

  lemma SuffixCons(j: nat)
    requires j < |MARKER|
    ensures MARKER[j..] == [MARKER[j]] + MARKER[j + 1..]
  {
  }

  lemma KeptFromSource(ps: seq<Piece>)
    requires NoneInside(ps) && ps != [] && ps[0].Keep? && Leads(MARKER, Source(ps))
    ensures Leads(MARKER, Plain(ps))
  {
    LeadsIff(MARKER, Source(ps));
    LeadsIff(MARKER, Plain(ps));
    assert MARKER[0..] == MARKER;
    SuffixCons(0);
    assert Source(ps) == [ps[0].c] + Source(ps[1..]);
    SuffixKept(ps[1..], 1);
  }

  predicate SeamsOk(ps: seq<Piece>) {
    ps != [] ==> (ps[0].Hide? ==> Unsplit(ps[0].x, Source(ps[1..]))) && SeamsOk(ps[1..])
  }

  lemma {:induction false} WholeMarkers(ps: seq<Piece>)
    requires NoneInside(ps) && SeamsOk(ps)
    ensures Undivided(ps)
  {
    if ps != [] {
      WholeMarkers(ps[1..]);
      if ps[0].Keep? && Leads(MARKER, Source(ps)) {
        KeptFromSource(ps);
      }
    }
  }

  // ---------- the seams of a hit ----------

  /** x ends with a dash, or what follows cannot go on inside a marker. */
  predicate EndsTight(x: string, t: string) {
    x != "" ==> x[|x| - 1] == '-' || t == "" || !In(Value, t[0])
  }

  lemma NoMarkerAcross(x: string, t: string)
    requires EndsTight(x, t) && x != "" && |x| < |MARKER|
    ensures !(MARKER <= x + t)
  {
    if MARKER <= x + t {
      assert (x + t)[|x| - 1] == MARKER[|x| - 1] == x[|x| - 1];
      assert (x + t)[|x|] == MARKER[|x|] == t[0];
      MarkerIsValue(|x|);
    }
  }

  lemma MarkerIsValue(i: nat)
    requires i < |MARKER|
    ensures In(Value, MARKER[i]) && MARKER[i] != '-'
  {
  }

  lemma SameLead(x: string, t: string)
    requires EndsTight(x, t) && x != ""
    ensures Leads(MARKER, x + t) <==> Leads(MARKER, x)
  {
    LeadsIff(MARKER, x + t);
    LeadsIff(MARKER, x);
    if |x| < |MARKER| {
      NoMarkerAcross(x, t);
    } else if MARKER <= x + t {
      assert MARKER == (x + t)[..|MARKER|] == x[..|MARKER|];
    }
  }

  lemma {:induction false} TightUnsplit(x: string, t: string)
    requires EndsTight(x, t)
    ensures Unsplit(x, t)
  {
    if x == "" {
      assert x + t == t;
    } else {
      SameLead(x, t);
      assert (x + t)[1..] == x[1..] + t;
      TightUnsplit(x[1..], t);
    }
  }

  lemma {:induction false} RunStops(cls: Class, s: string)
    ensures Run(cls, s) < |s| ==> !In(cls, s[Run(cls, s)])
  {
    if s != "" && In(cls, s[0]) {
      RunStops(cls, s[1..]);
    }
  }

  /** A password match takes the whole value. */
  lemma PasswordStops(rule: Rule, s: string)
    requires rule == Password && 0 < Match(rule, s) < |s|
    ensures !In(Value, s[Match(rule, s)])
  {
    var k, n := MatchParts(rule, s);
    ValueStops(s[k..]);
    assert s[k..][n] == s[k + n];
  }

  lemma ValueStops(rest: string)
    requires 0 < ValueEnd(rest) < |rest|
    ensures !In(Value, rest[ValueEnd(rest)])
  {
    var n := Run(Sep, rest);
    var m := if Run(Value, rest[n..]) > 0 then n else LastAssign(rest, n);
    RunStops(Value, rest[m..]);
    assert rest[m..][Run(Value, rest[m..])] == rest[m + Run(Value, rest[m..])];
  }

  lemma PemEndsDashed(x: string)
    requires InLang(Pem, x)
    ensures x != "" && x[|x| - 1] == '-'
  {
    var k, v :| Joined(Pem, x, k, v);
    var body, mid :| FooterParts(v, body, mid);
    assert x == (k + (body + END_MARK + mid)) + KEY_MARK;
    assert KEY_MARK[|KEY_MARK| - 1] == '-';
  }

  /** No marker lies across the end of a hit of a full-match rule. */
  lemma HitSeam(rule: Rule, x: string, t: string)
    requires rule != HexKv && InLang(rule, x) && Match(rule, x + t) == |x|
    ensures Unsplit(x, t)
  {
    if rule == Pem {
      PemEndsDashed(x);
      TightUnsplit(x, t);
    } else if rule == Password {
      if t != "" {
        FirstIsValue(rule, x);
        PasswordStops(rule, x + t);
        assert (x + t)[|x|] == t[0];
      }
      TightUnsplit(x, t);
    } else {
      LangBracketFree(rule, x);
      MarksBehind(x, t);
      NoMarks(x);
    }
  }

  /** No hit starts inside a marker. */
  lemma HitStart(rule: Rule, s: string)
    requires Match(rule, s) > 0
    ensures forall j :: 1 <= j < |MARKER| ==> !(MARKER[j..] <= s)
  {
    forall j | 1 <= j < |MARKER| ensures !(MARKER[j..] <= s) {
      if MARKER[j..] <= s {
        assert s == MARKER[j..] + s[|MARKER| - j..];
        MarkerQuiet(rule, j, s[|MARKER| - j..]);
      }
    }
  }

  // ---------- one stage ----------

  lemma {:induction false} KeepsInFront(s: string, ps: seq<Piece>)
    requires NoneInside(ps) && SeamsOk(ps)
    ensures NoneInside(Keeps(s) + ps) && SeamsOk(Keeps(s) + ps)
  {
    if s == "" {
      assert Keeps(s) + ps == ps;
    } else {
      KeepsInFront(s[1..], ps);
      assert (Keeps(s) + ps)[1..] == Keeps(s[1..]) + ps;
    }
  }

  lemma HideInFront(x: string, ps: seq<Piece>)
    requires NoneInside(ps) && SeamsOk(ps) && Unsplit(x, Source(ps))
    requires forall j :: 1 <= j < |MARKER| ==> !(MARKER[j..] <= x + Source(ps))
    ensures NoneInside([Hide(x)] + ps) && SeamsOk([Hide(x)] + ps)
  {
    assert ([Hide(x)] + ps)[1..] == ps;
  }

  /** Thirty-two digits do not fit between a place inside a marker and its end. */
  lemma DigitsOutside(h: string, t: string)
    requires AllDigits(h)
    ensures forall j :: 1 <= j < |MARKER| ==> !(MARKER[j..] <= h + t)
  {
    forall j | 1 <= j < |MARKER| ensures !(MARKER[j..] <= h + t) {
      var i := |MARKER| - 1 - j;
      assert MARKER[j..][i] == ']';
      assert (h + t)[i] == h[i] && In(Hex, h[i]);
    }
  }

  lemma DigitsBracketFree(h: string)
    requires AllDigits(h)
    ensures BracketFree(h)
  {
    assert '[' in h ==> In(Hex, '[');
  }

  lemma GroupSeams(p: string, h: string, r: string, ps: seq<Piece>)
    requires AllDigits(h) && NoneInside(ps) && SeamsOk(ps)
    ensures NoneInside(Around(p, h, r) + ps) && SeamsOk(Around(p, h, r) + ps)
  {
    KeepsInFront(r, ps);
    var behind := Keeps(r) + ps;
    DigitsOutside(h, Source(behind));
    DigitsBracketFree(h);
    MarksBehind(h, Source(behind));
    NoMarks(h);
    HideInFront(h, behind);
    KeepsInFront(p, [Hide(h)] + behind);
    AroundAnd(p, h, r, ps);
  }

  lemma FoundSeams(rule: Rule, x: string, ps: seq<Piece>)
    requires Whole(rule, x) && Match(rule, x + Source(ps)) == |x| > 0 && NoneInside(ps) && SeamsOk(ps)
    ensures NoneInside(Found(rule, x) + ps) && SeamsOk(Found(rule, x) + ps)
  {
    if rule == HexKv {
      var p, h, r := FoundGroup(rule, x);
      GroupSeams(p, h, r, ps);
    } else {
      HitSeam(rule, x, Source(ps));
      HitStart(rule, x + Source(ps));
      HideInFront(x, ps);
    }
  }

  lemma {:induction false} PiecesSeams(rule: Rule, bits: seq<Bit>)
    requires Chopped(rule, bits)
    ensures NoneInside(Pieces(rule, bits)) && SeamsOk(Pieces(rule, bits))
  {
    if bits != [] {
      var rest := Pieces(rule, bits[1..]);
      PiecesSeams(rule, bits[1..]);
      PiecesShape(rule, bits[1..]);
      match bits[0]
      case Hit(x) =>
        MatchWhole(rule, x);
        FoundSeams(rule, x, rest);
      case Other(c) =>
        assert ([Keep(c)] + rest)[1..] == rest;
    }
  }

  /** The markers that the hits of a stage swallow. */
  function Swallows(rule: Rule, s: string): nat {
    if rule == HexKv then 0 else SumMarks(FindAll(rule, s))
  }

  lemma {:induction false} FullHidden(rule: Rule, bits: seq<Bit>)
    requires rule != HexKv
    ensures Hidden(Pieces(rule, bits)) == Hits(bits)
  {
    if bits != [] {
      var rest := Pieces(rule, bits[1..]);
      FullHidden(rule, bits[1..]);
      match bits[0]
      case Hit(x) => assert ([Hide(x)] + rest)[1..] == rest;
      case Other(c) => assert ([Keep(c)] + rest)[1..] == rest;
    }
  }

  lemma {:induction false} FreeSum(hs: seq<string>)
    requires forall i :: 0 <= i < |hs| ==> BracketFree(hs[i])
    ensures SumMarks(hs) == 0
  {
    if hs != [] {
      NoMarks(hs[0]);
      FreeSum(hs[1..]);
    }
  }

  lemma HiddenSum(rule: Rule, s: string)
    ensures SumMarks(Hidden(Pieces(rule, Chop(rule, s)))) == Swallows(rule, s)
  {
    if rule == HexKv {
      StageHides(rule, s);
      var hs := Hidden(Pieces(rule, Chop(rule, s)));
      forall i | 0 <= i < |hs| ensures BracketFree(hs[i]) {
        assert Secret(rule, hs[i]);
        DigitsBracketFree(hs[i]);
      }
      FreeSum(hs);
    } else {
      FullHidden(rule, Chop(rule, s));
    }
  }

  /** A stage adds one marker per hit and takes away those inside its hits. */
  lemma StageMarks(rule: Rule, s: string)
    ensures Marks(ReplaceAll(rule, s)) + Swallows(rule, s) == Marks(s) + |FindAll(rule, s)|
  {
    var ps := Pieces(rule, Chop(rule, s));
    ChopSound(rule, s);
    StageShape(rule, s);
    PiecesSeams(rule, Chop(rule, s));
    WholeMarkers(ps);
    MarksSource(ps);
    MarksRendered(ps);
    StageHides(rule, s);
    HiddenSum(rule, s);
  }

  lemma OnlyTwoSwallow(rule: Rule, s: string)
    requires rule !in {Password, Pem}
    ensures Swallows(rule, s) == 0
  {
    if rule != HexKv {
      StageHides(rule, s);
      FullHidden(rule, Chop(rule, s));
      var hs := FindAll(rule, s);
      forall i | 0 <= i < |hs| ensures BracketFree(hs[i]) {
        assert Secret(rule, hs[i]);
        LangBracketFree(rule, hs[i]);
      }
      FreeSum(hs);
    }
  }

  // ---------- the pipeline ----------

  /** The markers swallowed by the first n stages. */
  function SwallowedUpTo(n: nat, s: string): nat
    requires n <= |STAGES|
  {
    if n == 0 then 0 else SwallowedUpTo(n - 1, s) + Swallows(STAGES[n - 1], UpTo(n - 1, s).text)
  }

  lemma {:induction false} MarksUpTo(n: nat, s: string)
    requires n <= |STAGES|
    ensures Marks(UpTo(n, s).text) + SwallowedUpTo(n, s) == Marks(s) + UpTo(n, s).hits
  {
    if n > 0 {
      MarksUpTo(n - 1, s);
      StageStep(STAGES, n, s);
      StageMarks(STAGES[n - 1], UpTo(n - 1, s).text);
    }
  }

  /** The markers inside the password and PEM matches of their stages. */
  function Swallowed(s: string): nat {
    SumMarks(FindAll(Password, UpTo(2, s).text)) + SumMarks(FindAll(Pem, UpTo(4, s).text))
  }

  lemma SwallowedIs(s: string)
    ensures SwallowedUpTo(|STAGES|, s) == Swallowed(s)
  {
    forall n: nat | 0 < n <= |STAGES| ensures SwallowedUpTo(n, s) == SwallowedUpTo(n - 1, s) + Swallows(STAGES[n - 1], UpTo(n - 1, s).text) {
    }
    forall n: nat | n < |STAGES| && n != 2 && n != 4 ensures Swallows(STAGES[n], UpTo(n, s).text) == 0 {
      OnlyTwoSwallow(STAGES[n], UpTo(n, s).text);
    }
  }

  /** Markers are conserved: those of the output and the swallowed ones are those of the input and the hits. */
  lemma MarkersConserved(s: string)
    ensures Marks(Scrubbed(STAGES, s).text) + Swallowed(s) == Marks(s) + Scrubbed(STAGES, s).hits
  {
    AllStages(s);
    MarksUpTo(|STAGES|, s);
    SwallowedIs(s);
  }

  /** The hit count is the growth in markers exactly if no password or PEM match takes in a
      marker, whether of the input or put in by an earlier stage. */
  lemma HitsAreMarkersIff(s: string)
    ensures Scrubbed(STAGES, s).hits == Marks(Scrubbed(STAGES, s).text) - Marks(s)
            <==>
            && (forall x :: x in FindAll(Password, UpTo(2, s).text) ==> !HasMarker(x))
            && (forall x :: x in FindAll(Pem, UpTo(4, s).text) ==> !HasMarker(x))
  {
    MarkersConserved(s);
    SumMarksZero(FindAll(Password, UpTo(2, s).text));
    SumMarksZero(FindAll(Pem, UpTo(4, s).text));
  }

  // ---------- a condition on the input ----------

  /** No PEM header starts anywhere in the text. */
  predicate Headless(s: string) {
    s != "" ==> HeadLen(Pem, s) == 0 && Headless(s[1..])
  }

  lemma {:induction false} HeadlessClean(rule: Rule, s: string)
    requires rule == Pem && Headless(s)
    ensures Clean(rule, s)
  {
    if s != "" {
      HeadlessClean(rule, s[1..]);
    }
  }

  lemma {:induction false} HeadlessTail(a: string, t: string)
    requires Headless(a + t)
    ensures Headless(t)
  {
    if a == "" {
      assert a + t == t;
    } else {
      assert (a + t)[1..] == a[1..] + t;
      HeadlessTail(a[1..], t);
    }
  }

  lemma NoHeadFirst(rule: Rule, s: string)
    requires rule == Pem && (s == "" || s[0] != '-')
    ensures HeadLen(rule, s) == 0
  {
    if HeadLen(rule, s) > 0 {
      HeadSound(rule, s);
      var h := s[..HeadLen(rule, s)];
      DashFirst(rule, h);
    }
  }

  lemma DashFirst(rule: Rule, h: string)
    requires rule == Pem && h in Words(rule)
    ensures h != "" && h[0] == '-'
  {
  }

  lemma {:induction false} HeadlessBehind(a: string, t: string)
    requires '-' !in a && Headless(t)
    ensures Headless(a + t)
  {
    if a == "" {
      assert a + t == t;
    } else {
      HeadlessBehind(a[1..], t);
      assert (a + t)[0] == a[0] && (a + t)[1..] == a[1..] + t;
      NoHeadFirst(Pem, a + t);
    }
  }

  /** A rewriting brings no header into a text that has none. */
  lemma {:induction false} RenderHeadless(ps: seq<Piece>)
    requires Headless(Source(ps))
    ensures Headless(Render(ps))
  {
    if ps != [] {
      HeadlessTail(Before(ps[0]), Source(ps[1..]));
      RenderHeadless(ps[1..]);
      if ps[0].Hide? {
        HeadlessBehind(MARKER, Render(ps[1..]));
      } else {
        assert Render(ps)[1..] == Render(ps[1..]);
        if HeadLen(Pem, Render(ps)) > 0 {
          HeadKept(Pem, ps);
        }
      }
    }
  }

  lemma HeadKept(rule: Rule, ps: seq<Piece>)
    requires rule == Pem && HeadLen(rule, Render(ps)) > 0
    ensures HeadLen(rule, Source(ps)) > 0
  {
    HeadSound(rule, Render(ps));
    var h := Render(ps)[..HeadLen(rule, Render(ps))];
    HeadBracketFree(rule, h);
    KeptSplit(h, ps);
    HeadComplete(rule, h, Source(ps[|h|..]));
  }

  lemma StageHeadless(rule: Rule, s: string)
    requires Headless(s)
    ensures Headless(ReplaceAll(rule, s))
  {
    StageShape(rule, s);
    RenderHeadless(Pieces(rule, Chop(rule, s)));
  }

  lemma {:induction false} UpToHeadless(n: nat, s: string)
    requires n <= |STAGES| && Headless(s)
    ensures Headless(UpTo(n, s).text)
  {
    if n > 0 {
      UpToHeadless(n - 1, s);
      StageStep(STAGES, n, s);
      StageHeadless(STAGES[n - 1], UpTo(n - 1, s).text);
    } else {
      assert STAGES[..0] == [];
    }
  }

  lemma {:induction false} UpToStaysClean(n: nat, rule: Rule, s: string)
    requires n <= |STAGES| && rule != Pem && Clean(rule, s)
    ensures Clean(rule, UpTo(n, s).text)
  {
    if n > 0 {
      UpToStaysClean(n - 1, rule, s);
      StageStep(STAGES, n, s);
      StageKeepsClean(STAGES[n - 1], rule, UpTo(n - 1, s).text);
    } else {
      assert STAGES[..0] == [];
    }
  }

  lemma PlainFindsNothing(s: string)
    requires !Contains(Password, s) && Headless(s)
    ensures FindAll(Password, UpTo(2, s).text) == [] && FindAll(Pem, UpTo(4, s).text) == []
  {
    CleanIffNoSecret(Password, s);
    UpToStaysClean(2, Password, s);
    CleanChop(Password, UpTo(2, s).text);
    UpToHeadless(4, s);
    HeadlessClean(Pem, UpTo(4, s).text);
    CleanChop(Pem, UpTo(4, s).text);
  }

  /** Without a password secret and without a PEM header in the input the hits are the new markers. */
  lemma HitsAreMarkersIfPlain(s: string)
    requires !Contains(Password, s) && Headless(s)
    ensures Scrubbed(STAGES, s).hits == Marks(Scrubbed(STAGES, s).text) - Marks(s)
  {
    PlainFindsNothing(s);
    HitsAreMarkersIff(s);
  }
}
