/** Where the normal form does change: inserted block comments, edited lines, and
    normalising a second time, each with the exact condition. */
module NormalizerLimits {
  import opened Text
  import opened Normalizer
  import opened NormalizerLaws

  // ---------- whole-line block comments ----------

  /** A block comment standing on lines of its own. */
  function BlockLines(body: string): string {
    "/*" + body + "*/\n"
  }

  /** The body does not close the comment early. */
  predicate CommentBody(body: string) {
    After(body + "*/", "*/") == Some("")
  }

  lemma {:induction false} ClosedStrip(a: string, x: string, d: Delim)
    requires Proper(d) && Closed(a, d) && Cut(a, x)
    ensures Strip(a + x, d) == Strip(a, d) + Strip(x, d)
    ensures EndsLine(a) ==> EndsLine(Strip(a, d))
    decreases |a|
  {
    if a == "" {
      assert a + x == x;
    } else {
      PairAtSeam(a, x, d);
      if d.open <= a {
        PairEndsLine(a, d);
        ClosedStrip(PairAt(a, d).value, x, d);
      } else {
        ClosedStrip(a[1..], x, d);
        StripChar(a, x, d);
        InFront([a[0]], Strip(a[1..], d), Strip(x, d));
      }
    }
  }

  /** The residue in front of the opening mark that a leaves open. */
  function Head(a: string, d: Delim): string
    requires Proper(d)
    decreases |a|
  {
    if a == "" then ""
    else if d.open <= a then (if PairAt(a, d).Some? then Head(PairAt(a, d).value, d) else "")
    else [a[0]] + Head(a[1..], d)
  }

  lemma {:induction false} OpenStrip(a: string, x: string, d: Delim)
    requires Proper(d) && !Closed(a, d) && Cut(a, x) && After(x, d.close).Some?
    ensures Strip(a + x, d) == Head(a, d) + Strip(After(x, d.close).value, d)
    decreases |a|
  {
    PairAtSeam(a, x, d);
    if d.open <= a {
      if PairAt(a, d).Some? {
        PairEndsLine(a, d);
        OpenStrip(PairAt(a, d).value, x, d);
      }
    } else {
      assert (a + x)[1..] == a[1..] + x;
      OpenStrip(a[1..], x, d);
    }
  }

  lemma StripBlockLines(body: string, b: string)
    requires CommentBody(body)
    ensures Strip(BlockLines(body) + b, BLOCK) == "\n" + Strip(b, BLOCK)
  {
    var s := BlockLines(body) + b;
    assert s[2..] == body + "*/" + ("\n" + b);
    AfterIn(body + "*/", "\n" + b, "*/");
    assert PairAt(s, BLOCK) == Some("" + ("\n" + b));
    assert "" + ("\n" + b) == "\n" + b;
    StripPlain("\n", b, BLOCK);
  }

  lemma ClosedBlockInvisible(a: string, body: string, b: string)
    requires (a == "" || EndsLine(a)) && Closed(a, BLOCK) && CommentBody(body)
    ensures CodeLines(CLike, a + (BlockLines(body) + b)) == CodeLines(CLike, a + b)
  {
    ClosedStrip(a, BlockLines(body) + b, BLOCK);
    ClosedStrip(a, b, BLOCK);
    StripBlockLines(body, b);
    assert Strip("", BLOCK) == "";
    assert a == "" ==> Strip(a, BLOCK) == "";
    FilterInsert(CodeFilter(CLike), Strip(a, BLOCK), "\n", Strip(b, BLOCK), "");
  }

  lemma EmptyBlockClosed()
    ensures CommentBody("")
    ensures After(BlockLines("") + "*/", "*/") == Some("\n*/")
    ensures After("*/", "*/") == Some("")
  {
    assert "" + "*/" == "*/";
    var x1, x2 := "**/\n*/", "*/\n*/";
    var x := ['/'] + x1;
    assert BlockLines("") + "*/" == x;
    assert x[1..] == x1 && x1[1..] == x2 && x2[2..] == "\n*/";
    assert x[0] == '/' && x1[1] == '*' && x2[0] == '*' && x2[1] == '/';
  }

  lemma CloseAloneStays()
    ensures Strip("\n*/", BLOCK) == "\n*/"
  {
    var t, t1, t2 := "\n*/", "*/", "/";
    assert t[1..] == t1 && t1[1..] == t2 && t2[1..] == "";
    assert t[0] == '\n' && t1[0] == '*';
    assert Strip(t2, BLOCK) == [t2[0]] + Strip("", BLOCK) == t2;
    assert Strip(t1, BLOCK) == [t1[0]] + t2 == t1;
    assert Strip(t, BLOCK) == [t[0]] + t1 == t;
  }

  lemma CloseAloneKept()
    ensures Keep(CodeFilter(CLike), ["*/"]) == ["*/"]
  {
    var t := "*/";
    assert t[0] == '*' && t[1] == '/';
    assert TrimSpace(t) == t;
    assert Keeps(CodeFilter(CLike), t);
    assert Keep(CodeFilter(CLike), [t]) == [t];
  }

  lemma OpenBlockVisible(a: string)
    requires EndsLine(a) && !Closed(a, BLOCK)
    ensures CommentBody("")
    ensures CodeLines(CLike, a + (BlockLines("") + "*/")) != CodeLines(CLike, a + "*/")
  {
    EmptyBlockClosed();
    CloseAloneStays();
    CloseAloneKept();
    var h := Head(a, BLOCK);
    OpenStrip(a, BlockLines("") + "*/", BLOCK);
    assert h + "\n*/" == h + "\n" + "*/";
    OpenStrip(a, "*/", BLOCK);
    assert h + "" == h;
    SplitAtNewline(h, "*/");
    SplitLine("*/");
    KeepConcat(CodeFilter(CLike), Split(h), ["*/"]);
  }

  /** A block comment on its own lines is invisible to every continuation exactly
      when the text in front of it has closed all of its own comments. */
  lemma BlockInsertionExact(lang: string, a: string)
    requires FamilyOf(lang) == CLike && (a == "" || EndsLine(a))
    ensures Closed(a, BLOCK)
       <==> forall body: string, b: string | CommentBody(body) ::
              Normalize(lang, a + (BlockLines(body) + b)) == Normalize(lang, a + b)
  {
    if Closed(a, BLOCK) {
      forall body: string, b: string | CommentBody(body)
        ensures Normalize(lang, a + (BlockLines(body) + b)) == Normalize(lang, a + b)
      {
        ClosedBlockInvisible(a, body, b);
      }
    } else {
      OpenBlockVisible(a);
      NormalFormsAgree(lang, a + (BlockLines("") + "*/"), a + "*/");
    }
  }

  // ---------- edited lines ----------

  /** The delimiter stage of the family finds nothing to remove. */
  predicate NoPairs(fam: Family, s: string) {
    match fam
    case CLike => !HasPair(s, BLOCK)
    case Python => !HasPair(s, DOUBLE) && !HasPair(s, SINGLE)
    case Other => true
  }

  lemma {:induction false} StripLength(s: string, d: Delim)
    requires Proper(d)
    ensures |Strip(s, d)| <= |s|
    ensures if HasPair(s, d) then |Strip(s, d)| < |s| else Strip(s, d) == s
    decreases |s|
  {
    if s != "" {
      if PairAt(s, d).Some? {
        StripLength(PairAt(s, d).value, d);
      } else {
        StripLength(s[1..], d);
      }
    }
  }

  lemma UncommentedLength(fam: Family, s: string)
    ensures if NoPairs(fam, s) then Uncommented(fam, s) == s else |Uncommented(fam, s)| < |s|
  {
    match fam
    case Other =>
    case CLike => StripLength(s, BLOCK);
    case Python =>
      StripLength(s, DOUBLE);
      StripLength(Strip(s, DOUBLE), SINGLE);
  }

  /** The lines kept of a residue that ends a line, and of one that starts with a line break. */
  function Front(f: LineFilter, o: string): seq<string> {
    if o == "" then [] else Keep(f, Split(o[..|o| - 1]))
  }

  function Back(f: LineFilter, o: string): seq<string> {
    if o == "" then [] else Keep(f, Split(o[1..]))
  }

  lemma KeepAround(f: LineFilter, p: string, x: string, q: string)
    requires (p == "" || EndsLine(p)) && (q == "" || q[0] == '\n')
    ensures Keep(f, Split(p + (x + q))) == Front(f, p) + Keep(f, Split(x)) + Back(f, q)
  {
    KeepBefore(f, x, q);
    KeepFront(f, p, x + q);
    Regroup(Front(f, p), Keep(f, Split(x)), Back(f, q));
  }

  lemma KeepFront(f: LineFilter, p: string, t: string)
    requires p == "" || EndsLine(p)
    ensures Keep(f, Split(p + t)) == Front(f, p) + Keep(f, Split(t))
  {
    if p == "" {
      assert p + t == t;
    } else {
      KeepBehindLine(f, p, t);
    }
  }

  lemma KeepBefore(f: LineFilter, x: string, q: string)
    requires q == "" || q[0] == '\n'
    ensures Keep(f, Split(x + q)) == Keep(f, Split(x)) + Back(f, q)
  {
    if q == "" {
      assert x + q == x;
    } else {
      var r := q[1..];
      FirstBreak(x, q, r);
      SplitAtNewline(x, r);
      KeepConcat(f, Split(x), Split(r));
    }
  }

  lemma FirstBreak(x: string, q: string, r: string)
    requires q != "" && q[0] == '\n' && r == q[1..]
    ensures x + q == x + "\n" + r
  {
  }

  /** With the same residue around them, two texts are exchangeable exactly if the same lines of them are kept. */
  lemma FrameExact(f: LineFilter, p: string, x: string, y: string, q: string)
    requires (p == "" || EndsLine(p)) && (q == "" || q[0] == '\n')
    ensures Keep(f, Split(p + (x + q))) == Keep(f, Split(p + (y + q))) <==> Keep(f, Split(x)) == Keep(f, Split(y))
  {
    KeepAround(f, p, x, q);
    KeepAround(f, p, y, q);
    SameFrame(Front(f, p), Keep(f, Split(x)), Keep(f, Split(y)), Back(f, q));
  }

  /** Of two lines the same is kept if they are the same line, or if neither is kept. */
  predicate SameKept(f: LineFilter, x: string, y: string) {
    x == y || (!Keeps(f, x) && !Keeps(f, y))
  }

  lemma KeepLine(f: LineFilter, x: string)
    requires '\n' !in x
    ensures Keep(f, Split(x)) == if Keeps(f, x) then [x] else []
  {
    SplitLine(x);
  }

  lemma LinesExact(f: LineFilter, x: string, y: string)
    requires '\n' !in x && '\n' !in y
    ensures Keep(f, Split(x)) == Keep(f, Split(y)) <==> SameKept(f, x, y)
  {
    KeepLine(f, x);
    KeepLine(f, y);
  }

  /** Editing a line without comment marks, in any text: the edit is invisible exactly if the
      line lies in a comment that is closed behind it, or is the same, or is dropped before and
      after.  So changed white space inside a code line, or a changed comment behind code on
      the same line, does cost a new extraction. */
  lemma LineEditExact(lang: string, a: string, before: string, after: string, tail: string)
    requires (a == "" || EndsLine(a)) && (tail == "" || tail[0] == '\n') && '\n' !in before && '\n' !in after
    requires Markless(FamilyOf(lang), before) && Markless(FamilyOf(lang), after)
    ensures var f := CodeFilter(FamilyOf(lang));
            Normalize(lang, a + (before + tail)) == Normalize(lang, a + (after + tail))
            <==> PlaceIn(FamilyOf(lang), a, tail).Inside? || SameKept(f, before, after)
  {
    var fam := FamilyOf(lang);
    InsertUncommented(fam, a, before, tail);
    InsertUncommented(fam, a, after, tail);
    PlaceInShape(fam, a, tail);
    NormalFormsAgree(lang, a + (before + tail), a + (after + tail));
    var pl := PlaceIn(fam, a, tail);
    if pl.Between? {
      FrameExact(CodeFilter(fam), pl.left, before, after, pl.right);
      LinesExact(CodeFilter(fam), before, after);
    }
  }

  /** The text has closed all comments it opened, in both stages for docstrings. */
  predicate Shut(fam: Family, a: string) {
    match fam
    case CLike => Closed(a, BLOCK)
    case Python => Closed(a, DOUBLE) && Closed(Strip(a, DOUBLE), SINGLE)
    case Other => true
  }

  /** a leaves a comment open that b closes. */
  predicate OpenAcross(a: string, b: string, d: Delim)
    requires Proper(d)
  {
    !Closed(a, d) && After(b, d.close).Some?
  }

  /** When a line lies in a comment that is closed behind it, in either stage for docstrings;
      never behind text that has closed its comments. */
  lemma InCommentIff(fam: Family, a: string, tail: string)
    requires (a == "" || EndsLine(a)) && (tail == "" || tail[0] == '\n')
    ensures PlaceIn(fam, a, tail).Inside?
            <==>
            match fam
            case CLike => OpenAcross(a, tail, BLOCK)
            case Other => false
            case Python =>
              || OpenAcross(a, tail, DOUBLE)
              || (var pl := Place(a, tail, DOUBLE); pl.Between? && OpenAcross(pl.left, pl.right, SINGLE))
    ensures Shut(fam, a) ==> PlaceIn(fam, a, tail).Between?
  {
    match fam
    case CLike => InsideIff(a, tail, BLOCK);
    case Other =>
    case Python => InDocstringIff(a, tail);
  }

  lemma InDocstringIff(a: string, tail: string)
    requires (a == "" || EndsLine(a)) && (tail == "" || tail[0] == '\n')
    ensures var pl := Place(a, tail, DOUBLE);
            PlaceIn(Python, a, tail).Inside?
            <==> OpenAcross(a, tail, DOUBLE) || (pl.Between? && OpenAcross(pl.left, pl.right, SINGLE))
    ensures Shut(Python, a) ==> PlaceIn(Python, a, tail).Between?
  {
    InsideIff(a, tail, DOUBLE);
    PlaceShape(a, tail, DOUBLE);
    var pl := Place(a, tail, DOUBLE);
    if pl.Between? {
      InsideIff(pl.left, pl.right, SINGLE);
    }
    if Shut(Python, a) {
      ClosedPlace(a, tail, DOUBLE);
    }
  }

  lemma {:induction false} ClosedPlace(a: string, b: string, d: Delim)
    requires Proper(d) && Closed(a, d) && Cut(a, b)
    ensures Place(a, b, d) == Between(Strip(a, d), Strip(b, d))
    decreases |a|
  {
    if a != "" {
      PairAtSeam(a, b, d);
      if PairAt(a, d).Some? {
        PairEndsLine(a, d);
        ClosedPlace(PairAt(a, d).value, b, d);
      } else {
        ClosedPlace(a[1..], b, d);
      }
    }
  }

  lemma ClosedStage(a: string, x: string, tail: string, d: Delim)
    requires Proper(d) && Closed(a, d) && Closed(x, d)
    requires (a == "" || EndsLine(a)) && (tail == "" || tail[0] == '\n')
    ensures Strip(a + (x + tail), d) == Strip(a, d) + (Strip(x, d) + Strip(tail, d))
    ensures (Strip(a, d) == "" || EndsLine(Strip(a, d))) && (Strip(tail, d) == "" || Strip(tail, d)[0] == '\n')
  {
    ClosedStrip(a, x + tail, d);
    ClosedStrip(x, tail, d);
    PlaceShape("", tail, d);
    assert a == "" ==> Strip(a, d) == "";
  }

  lemma ShutResidue(fam: Family, a: string, x: string, tail: string)
    requires (a == "" || EndsLine(a)) && (tail == "" || tail[0] == '\n') && Shut(fam, a) && Shut(fam, x)
    ensures var p, q := Uncommented(fam, a), Uncommented(fam, tail);
            && (p == "" || EndsLine(p)) && (q == "" || q[0] == '\n')
            && Uncommented(fam, a + (x + tail)) == p + (Uncommented(fam, x) + q)
  {
    match fam
    case Other =>
    case CLike => ClosedStage(a, x, tail, BLOCK);
    case Python =>
      ClosedStage(a, x, tail, DOUBLE);
      ClosedStage(Strip(a, DOUBLE), Strip(x, DOUBLE), Strip(tail, DOUBLE), SINGLE);
  }

  /** Replacing whole lines, comments and all, between any text whose comments are closed and any
      text at all: if the lines close their comments too, the edit is invisible exactly if the
      same code lines remain of them. */
  lemma ShutEditExact(lang: string, a: string, before: string, after: string, tail: string)
    requires (a == "" || EndsLine(a)) && (tail == "" || tail[0] == '\n')
    requires Shut(FamilyOf(lang), a) && Shut(FamilyOf(lang), before) && Shut(FamilyOf(lang), after)
    ensures Normalize(lang, a + (before + tail)) == Normalize(lang, a + (after + tail))
            <==> CodeLines(FamilyOf(lang), before) == CodeLines(FamilyOf(lang), after)
  {
    var fam := FamilyOf(lang);
    NormalFormsAgree(lang, a + (before + tail), a + (after + tail));
    ShutResidue(fam, a, before, tail);
    ShutResidue(fam, a, after, tail);
    var p, q := Uncommented(fam, a), Uncommented(fam, tail);
    FrameExact(CodeFilter(fam), p, Uncommented(fam, before), Uncommented(fam, after), q);
  }

  /** No comment starts in the line. */
  predicate Openless(fam: Family, line: string) {
    match fam
    case CLike => After(line, "/*").None?
    case Python => After(line, "\"\"\"").None? && After(line, "'''").None?
    case Other => true
  }

  lemma {:induction false} OpenlessStage(s: string, d: Delim)
    requires Proper(d) && After(s, d.open).None?
    ensures Closed(s, d) && Strip(s, d) == s
  {
    if s != "" {
      OpenlessStage(s[1..], d);
    }
  }

  lemma OpenlessShut(fam: Family, line: string)
    requires Openless(fam, line)
    ensures Shut(fam, line) && Uncommented(fam, line) == line
  {
    match fam
    case Other =>
    case CLike => OpenlessStage(line, BLOCK);
    case Python =>
      OpenlessStage(line, DOUBLE);
      OpenlessStage(line, SINGLE);
  }

  /** Behind text with all comments closed the marks that close a comment do not matter either. */
  lemma ClosedLineEditExact(lang: string, a: string, before: string, after: string, tail: string)
    requires (a == "" || EndsLine(a)) && (tail == "" || tail[0] == '\n') && '\n' !in before && '\n' !in after
    requires Shut(FamilyOf(lang), a) && Openless(FamilyOf(lang), before) && Openless(FamilyOf(lang), after)
    ensures Normalize(lang, a + (before + tail)) == Normalize(lang, a + (after + tail))
            <==> SameKept(CodeFilter(FamilyOf(lang)), before, after)
  {
    var fam := FamilyOf(lang);
    OpenlessShut(fam, before);
    OpenlessShut(fam, after);
    ShutEditExact(lang, a, before, after, tail);
    LinesExact(CodeFilter(fam), before, after);
  }

  lemma SameFrame<T>(p: seq<T>, x: seq<T>, y: seq<T>, q: seq<T>)
    ensures p + x + q == p + y + q <==> x == y
  {
    if p + x + q == p + y + q {
      assert |x| == |y|;
      assert x == (p + x + q)[|p|..|p| + |x|];
      assert y == (p + y + q)[|p|..|p| + |y|];
    }
  }

  // ---------- block comments on a line ----------

  /** A line of code with a block comment in it. */
  function Inline(u: string, body: string, v: string): string {
    u + ("/*" + (body + "*/" + v))
  }

  lemma CommentGone(body: string, v: string, d: Delim)
    requires d == BLOCK && CommentBody(body) && After(v, d.open).None?
    ensures var s := "/*" + (body + "*/" + v); Closed(s, d) && Strip(s, d) == v
  {
    var s := "/*" + (body + "*/" + v);
    assert s[2..] == body + "*/" + v && "" + v == v;
    AfterIn(body + "*/", v, "*/");
    assert PairAt(s, d) == Some(v);
    OpenlessStage(v, d);
  }

  lemma {:induction false} PlainInFront(u: string, w: string, d: Delim)
    requires d == BLOCK && w != "" && w[0] == '/' && After(u, d.open).None? && Closed(w, d)
    ensures Closed(u + w, d) && Strip(u + w, d) == u + Strip(w, d)
  {
    if u == "" {
      assert u + w == w;
    } else {
      var c, b := u[0], u[1..];
      PlainInFront(b, w, d);
      NoOpenAtSeam(u, w, d);
      assert u == [c] + b;
      InFront([c], b, w);
      CharInFront(c, b + w, d);
      InFront([c], b, Strip(w, d));
    }
  }

  lemma CharInFront(c: char, t: string, d: Delim)
    requires Proper(d) && !(d.open <= [c] + t) && Closed(t, d)
    ensures Closed([c] + t, d) && Strip([c] + t, d) == [c] + Strip(t, d)
  {
    assert ([c] + t)[1..] == t;
  }

  lemma NoOpenAtSeam(u: string, w: string, d: Delim)
    requires d == BLOCK && u != "" && w != "" && w[0] == '/' && After(u, d.open).None?
    ensures !(d.open <= u + w)
  {
    assert d.open[1] == '*';
    if |u| >= 2 {
      assert (u + w)[..2] == u[..2];
    } else {
      assert (u + w)[1] == w[0];
    }
  }

  lemma InlineShut(u: string, body: string, v: string)
    requires CommentBody(body) && After(u, "/*").None? && After(v, "/*").None?
    ensures Shut(CLike, Inline(u, body, v)) && Uncommented(CLike, Inline(u, body, v)) == u + v
  {
    CommentGone(body, v, BLOCK);
    PlainInFront(u, "/*" + (body + "*/" + v), BLOCK);
  }

  /** What a comment in a code line says never matters.  Taking it out is invisible exactly if the
      line that is left is the old one without the comment, its spaces included, or neither is kept. */
  lemma InlineCommentExact(lang: string, a: string, u: string, body: string, body2: string, v: string, line: string, tail: string)
    requires FamilyOf(lang) == CLike && (a == "" || EndsLine(a)) && (tail == "" || tail[0] == '\n') && Closed(a, BLOCK)
    requires CommentBody(body) && CommentBody(body2) && '\n' !in u + v && '\n' !in line
    requires After(u, "/*").None? && After(v, "/*").None? && After(line, "/*").None?
    ensures Normalize(lang, a + (Inline(u, body, v) + tail)) == Normalize(lang, a + (Inline(u, body2, v) + tail))
    ensures Normalize(lang, a + (Inline(u, body, v) + tail)) == Normalize(lang, a + (line + tail))
            <==> SameKept(CodeFilter(CLike), u + v, line)
  {
    InlineShut(u, body, v);
    InlineShut(u, body2, v);
    OpenlessShut(CLike, line);
    ShutEditExact(lang, a, Inline(u, body, v), Inline(u, body2, v), tail);
    ShutEditExact(lang, a, Inline(u, body, v), line, tail);
    LinesExact(CodeFilter(CLike), u + v, line);
  }

  // ---------- two edits that are seen ----------

  lemma {:induction false} CharOfMark(s: string, m: string, c: char)
    requires m != "" && c in m && c !in s
    ensures After(s, m).None?
  {
    if !(m <= s) && s != "" {
      CharOfMark(s[1..], m, c);
    }
  }

  lemma {:induction false} PlainBody(body: string)
    requires '*' !in body
    ensures CommentBody(body)
  {
    var s := body + "*/";
    if body == "" {
      assert s == "*/" && s[2..] == "";
    } else {
      assert s[0] == body[0] && s[1..] == body[1..] + "*/";
      PlainBody(body[1..]);
    }
  }

  lemma CodeLineKept(s: string)
    requires |s| >= 3 && Lower(s[0]) && Lower(s[|s| - 1])
    ensures Keeps(CodeFilter(CLike), s)
  {
    assert TrimSpace(s) == s;
  }

  predicate Lower(c: char) { 'a' <= c <= 'z' }

  /** Two texts of one line each, without comments. */
  lemma OneLineSeen(x: string, y: string)
    requires '\n' !in x && '\n' !in y && After(x, "/*").None? && After(y, "/*").None?
    requires x != y && Keeps(CodeFilter(CLike), x)
    ensures Normalize("go", x) != Normalize("go", y)
  {
    assert ToLower("go") == "go";
    ClosedLineEditExact("go", "", x, y, "");
    assert "" + (x + "") == x && "" + (y + "") == y;
  }

  /** The README promises a bypass whenever only comments changed; a comment behind code refutes it. */
  lemma TrailingCommentSeen()
    ensures Normalize("go", "x // a") != Normalize("go", "x // b")
  {
    var x, y := "x // a", "x // b";
    CharOfMark(x, "/*", '*');
    CharOfMark(y, "/*", '*');
    CodeLineKept(x);
    assert x[5] != y[5];
    OneLineSeen(x, y);
  }

  /** The second way the promise fails: a comment removed from the middle of a code line
      leaves the white space on both of its sides. */
  lemma InlineCommentSeen()
    ensures Normalize("go", "a /* c */ b") != Normalize("go", "a b")
  {
    var u, body, v, line := "a ", " c ", " b", "a b";
    InlineText(u, body, v);
    PlainBody(body);
    SpacesStay(u, v, line);
    TakenOutSeen(u, body, v, line);
  }

  lemma InlineText(u: string, body: string, v: string)
    requires u == "a " && body == " c " && v == " b"
    ensures Inline(u, body, v) == "a /* c */ b" && '*' !in body
  {
    assert body + "*/" == " c */";
    assert " c */" + v == " c */ b";
    assert "/*" + " c */ b" == "/* c */ b";
  }

  lemma SpacesStay(u: string, v: string, line: string)
    requires u == "a " && v == " b" && line == "a b"
    ensures '/' !in u && '/' !in v && '/' !in line && '\n' !in u + v && '\n' !in line && u + v != line
    ensures Keeps(CodeFilter(CLike), line)
  {
    CodeLineKept(line);
    assert |u + v| != |line|;
  }

  lemma TakenOutSeen(u: string, body: string, v: string, line: string)
    requires CommentBody(body) && '/' !in u && '/' !in v && '/' !in line && '\n' !in u + v && '\n' !in line
    requires u + v != line && Keeps(CodeFilter(CLike), line)
    ensures Normalize("go", Inline(u, body, v)) != Normalize("go", line)
  {
    assert ToLower("go") == "go";
    CharOfMark(u, "/*", '/');
    CharOfMark(v, "/*", '/');
    CharOfMark(line, "/*", '/');
    InlineCommentExact("go", "", u, body, body, v, line, "");
    assert "" + (Inline(u, body, v) + "") == Inline(u, body, v) && "" + (line + "") == line;
  }

  // ---------- normalising twice ----------

  lemma {:induction false} KeepJoinLength(f: LineFilter, lines: seq<string>)
    ensures |Join(Keep(f, lines))| <= |Join(lines)|
  {
    if |lines| > 1 {
      KeepJoinLength(f, lines[1..]);
      var rest := Keep(f, lines[1..]);
      if !Keeps(f, lines[0]) {
        assert Keep(f, lines) == rest;
      } else if rest == [] {
        assert Keep(f, lines) == [lines[0]];
      } else {
        JoinConcat([lines[0]], rest);
      }
    } else if |lines| == 1 {
      assert Keep(f, lines[1..]) == [];
    }
  }

  /** Normalising a second time changes nothing exactly when the first normal form
      holds no complete comment pair; taking one comment out can expose another. */
  lemma IdempotentExact(lang: string, s: string)
    ensures var n := Normalize(lang, s);
            Normalize(lang, n) == n <==> NoPairs(FamilyOf(lang), n)
  {
    var fam := FamilyOf(lang);
    var f := CodeFilter(fam);
    var n := Normalize(lang, s);
    UncommentedLength(fam, n);
    if NoPairs(fam, n) {
      FiltersIdempotent(f, Uncommented(fam, s));
    } else {
      KeepJoinLength(f, Split(Uncommented(fam, n)));
      JoinSplit(Uncommented(fam, n));
    }
  }

  // ---------- a quiet residue is enough ----------

  /** Whatever mark or pair t holds, s holds as well. */
  predicate Covers(s: string, t: string, d: Delim)
    requires Proper(d)
  {
    && (After(t, d.close).Some? ==> After(s, d.close).Some?)
    && (HasPair(t, d) ==> HasPair(s, d))
  }

  lemma CoversClose(a: string, s: string, t: string, d: Delim)
    requires Proper(d) && EndsLine(a) && Covers(s, t, d) && After(a + t, d.close).Some?
    ensures After(a + s, d.close).Some?
  {
    if After(a, d.close).Some? {
      AfterIn(a, s, d.close);
    } else {
      AfterSkip(a, t, d.close);
      AfterSkip(a, s, d.close);
    }
  }

  lemma {:induction false} CoversPair(a: string, s: string, t: string, d: Delim)
    requires Proper(d) && (a == "" || EndsLine(a)) && Covers(s, t, d) && HasPair(a + t, d)
    ensures HasPair(a + s, d)
  {
    if a == "" {
      assert a + t == t && a + s == s;
    } else {
      PairAtSeam(a, t, d);
      PairAtSeam(a, s, d);
      assert (a + t)[1..] == a[1..] + t && (a + s)[1..] == a[1..] + s;
      if PairAt(a + t, d).None? {
        CoversPair(a[1..], s, t, d);
      }
    }
  }

  lemma CoversBehind(a: string, s: string, t: string, d: Delim)
    requires Proper(d) && EndsLine(a) && Covers(s, t, d)
    ensures Covers(a + s, a + t, d)
  {
    if After(a + t, d.close).Some? {
      CoversClose(a, s, t, d);
    }
    if HasPair(a + t, d) {
      CoversPair(a, s, t, d);
    }
  }

  lemma {:induction false} CoversLonger(a: string, s: string, d: Delim)
    requires Proper(d)
    ensures Covers(a + s, a, d)
  {
    if After(a, d.close).Some? {
      AfterIn(a, s, d.close);
    }
    if HasPair(a, d) {
      if PairAt(a, d).Some? {
        AfterIn(a[|d.open|..], s, d.close);
        assert (a + s)[|d.open|..] == a[|d.open|..] + s && d.open <= a + s;
      } else {
        CoversLonger(a[1..], s, d);
        assert (a + s)[1..] == a[1..] + s;
      }
    }
  }

  lemma {:induction false} CoversTail(a: string, s: string, d: Delim)
    requires Proper(d) && (a == "" || EndsLine(a))
    ensures Covers(a + s, s, d)
  {
    if a == "" {
      assert a + s == s;
    } else {
      CoversTail(a[1..], s, d);
      assert (a + s)[1..] == a[1..] + s;
    }
  }

  /** Dropping lines brings no mark and no pair into a text. */
  lemma {:induction false} KeptCovered(f: LineFilter, lines: seq<string>, d: Delim)
    requires Proper(d)
    ensures Covers(Join(lines), Join(Keep(f, lines)), d)
  {
    if |lines| > 1 {
      var rest, kept := lines[1..], Keep(f, lines[1..]);
      var a := lines[0] + "\n";
      KeptCovered(f, rest, d);
      assert Join(lines) == a + Join(rest);
      CoversTail(a, Join(rest), d);
      if Keeps(f, lines[0]) {
        if kept == [] {
          CoversLonger(lines[0], "\n" + Join(rest), d);
          assert a + Join(rest) == lines[0] + ("\n" + Join(rest));
        } else {
          CoversBehind(a, Join(rest), Join(kept), d);
          assert Join([lines[0]] + kept) == a + Join(kept);
        }
      } else {
        assert Keep(f, lines) == [] + kept == kept;
      }
    } else if |lines| == 1 {
      assert Keep(f, lines[1..]) == [];
    }
  }

  lemma QuietResidue(lang: string, s: string)
    requires NoPairs(FamilyOf(lang), Uncommented(FamilyOf(lang), s))
    ensures NoPairs(FamilyOf(lang), Normalize(lang, s))
  {
    var fam := FamilyOf(lang);
    var residue := Uncommented(fam, s);
    JoinSplit(residue);
    forall d | d in [BLOCK, DOUBLE, SINGLE] ensures HasPair(Normalize(lang, s), d) ==> HasPair(residue, d) {
      KeptCovered(CodeFilter(fam), Split(residue), d);
    }
    assert [BLOCK, DOUBLE, SINGLE][0] == BLOCK && [BLOCK, DOUBLE, SINGLE][1] == DOUBLE && [BLOCK, DOUBLE, SINGLE][2] == SINGLE;
  }

  /** Normalising is idempotent whenever the delimiter stage left no complete pair. */
  lemma IdempotentIfQuiet(lang: string, s: string)
    requires NoPairs(FamilyOf(lang), Uncommented(FamilyOf(lang), s))
    ensures Normalize(lang, Normalize(lang, s)) == Normalize(lang, s)
  {
    QuietResidue(lang, s);
    IdempotentExact(lang, s);
  }
}
