/** What the normal form ignores: inserted blank and comment lines, wherever they
    land, inside comments and behind unclosed opening marks included. */
module NormalizerLaws {
  import opened Text
  import opened Normalizer

  /** No mark can lie across the seam of a and b: a newline or an end of text is there. */
  predicate Cut(a: string, b: string) {
    a == "" || b == "" || a[|a| - 1] == '\n' || b[0] == '\n'
  }

  predicate EndsLine(a: string) {
    a != "" && a[|a| - 1] == '\n'
  }

  // ---------- marks and seams ----------

  lemma NoSpan(a: string, x: string, m: string)
    requires Mark(m) && Cut(a, x) && a != ""
    ensures m <= a + x <==> m <= a
  {
    if |a| < |m| <= |a + x| {
      assert (a + x)[|a| - 1] == a[|a| - 1];
      assert (a + x)[|a|] == x[0];
    }
    if |m| <= |a| {
      assert (a + x)[..|m|] == a[..|m|];
    }
  }

  lemma {:induction false} AfterIn(a: string, x: string, m: string)
    requires m != "" && After(a, m).Some?
    ensures After(a + x, m) == Some(After(a, m).value + x)
  {
    if m <= a {
      assert (a + x)[|m|..] == a[|m|..] + x;
    } else {
      assert !(m <= a + x) by { AfterFits(a, m); }
      assert (a + x)[1..] == a[1..] + x;
      AfterIn(a[1..], x, m);
    }
  }

  lemma {:induction false} AfterFits(a: string, m: string)
    requires m != "" && After(a, m).Some?
    ensures |m| <= |a|
  {
    if !(m <= a) {
      AfterFits(a[1..], m);
    }
  }

  lemma {:induction false} AfterSkip(a: string, x: string, m: string)
    requires Mark(m) && After(a, m).None? && Cut(a, x)
    ensures After(a + x, m) == After(x, m)
  {
    if a == "" {
      assert a + x == x;
    } else {
      NoSpan(a, x, m);
      assert (a + x)[1..] == a[1..] + x;
      AfterSkip(a[1..], x, m);
    }
  }

  lemma {:induction false} MarkCharOccurs(s: string, m: string)
    requires m != "" && After(s, m).Some?
    ensures m[0] in s
  {
    if !(m <= s) {
      MarkCharOccurs(s[1..], m);
    }
  }

  lemma NoMarkInBreak(m: string)
    requires Mark(m)
    ensures After("\n", m).None?
  {
    if After("\n", m).Some? {
      MarkCharOccurs("\n", m);
    }
  }

  // ---------- the delimiter stage ----------

  lemma {:induction false} StripPlain(a: string, b: string, d: Delim)
    requires Proper(d) && After(a, d.open).None? && Cut(a, b)
    ensures Strip(a + b, d) == a + Strip(b, d)
  {
    if a == "" {
      assert a + b == b;
    } else {
      NoSpan(a, b, d.open);
      assert (a + b)[1..] == a[1..] + b;
      StripPlain(a[1..], b, d);
    }
  }

  /** The pair that starts in a: closed within a, by what follows, or not at all. */
  lemma PairAtSeam(a: string, x: string, d: Delim)
    requires Proper(d) && a != "" && Cut(a, x)
    ensures PairAt(a, d).Some? ==> PairAt(a + x, d) == Some(PairAt(a, d).value + x)
    ensures PairAt(a, d).None? ==> PairAt(a + x, d) == if d.open <= a then After(x, d.close) else None
  {
    NoSpan(a, x, d.open);
    if d.open <= a {
      var rest := a[|d.open|..];
      assert (a + x)[|d.open|..] == rest + x;
      if After(rest, d.close).Some? {
        AfterIn(rest, x, d.close);
      } else {
        AfterSkip(rest, x, d.close);
      }
    }
  }

  lemma PairEndsLine(a: string, d: Delim)
    requires Proper(d) && PairAt(a, d).Some?
    ensures var r := PairAt(a, d).value;
            (r != "" ==> r[|r| - 1] == a[|a| - 1]) && (EndsLine(a) ==> EndsLine(r))
  {
    AfterEndsLine(a[|d.open|..], d.close);
  }

  lemma {:induction false} AfterEndsLine(a: string, m: string)
    requires Mark(m) && After(a, m).Some?
    ensures a != ""
    ensures var r := After(a, m).value;
            (r != "" ==> r[|r| - 1] == a[|a| - 1]) && (EndsLine(a) ==> EndsLine(r))
  {
    if m <= a {
      assert a[|m| - 1] == m[|m| - 1];
    } else {
      AfterEndsLine(a[1..], m);
    }
  }

  lemma StripPair(s: string, d: Delim)
    requires Proper(d) && PairAt(s, d).Some?
    ensures Strip(s, d) == Strip(PairAt(s, d).value, d)
  {
  }

  lemma StripChar(a: string, x: string, d: Delim)
    requires Proper(d) && a != "" && PairAt(a + x, d).None?
    ensures Strip(a + x, d) == [a[0]] + Strip(a[1..] + x, d)
  {
    assert (a + x)[1..] == a[1..] + x;
  }

  /** The insertion does not change what happens to the first character of a. */
  lemma SameAtSeam(a: string, ins: string, b: string, d: Delim)
    requires Proper(d) && a != "" && After(ins, d.close).None?
    requires Cut(a, ins) && Cut(ins, b) && Cut(a, b) && Cut(a, ins + b)
    ensures PairAt(a, d).Some? ==>
              && Strip(a + b, d) == Strip(PairAt(a, d).value + b, d)
              && Strip(a + (ins + b), d) == Strip(PairAt(a, d).value + (ins + b), d)
    ensures PairAt(a, d).None? ==> PairAt(a + (ins + b), d) == PairAt(a + b, d)
    ensures PairAt(a, d).None? && PairAt(a + b, d).Some? ==> Strip(a + (ins + b), d) == Strip(a + b, d)
  {
    PairAtSeam(a, b, d);
    PairAtSeam(a, ins + b, d);
    AfterSkip(ins, b, d.close);
    if PairAt(a + b, d).Some? {
      StripPair(a + b, d);
      StripPair(a + (ins + b), d);
    }
  }

  /** What becomes of the place between a and b: it lies inside a comment that is removed,
      or between two pieces of the residue. */
  datatype Placement = Inside | Between(left: string, right: string)

  function Place(a: string, b: string, d: Delim): Placement
    requires Proper(d)
    decreases |a|
  {
    if a == "" then Between("", Strip(b, d))
    else
      match PairAt(a, d)
      case Some(r) => Place(r, b, d)
      case None =>
        if PairAt(a + b, d).Some? then Inside
        else
          match Place(a[1..], b, d)
          case Inside => Inside
          case Between(p, q) => Between([a[0]] + p, q)
  }

  /** The place is inside exactly if a leaves a comment open that is closed in b. */
  lemma {:induction false} InsideIff(a: string, b: string, d: Delim)
    requires Proper(d) && Cut(a, b)
    ensures Place(a, b, d).Inside? <==> !Closed(a, d) && After(b, d.close).Some?
    decreases |a|
  {
    if a != "" {
      PairAtSeam(a, b, d);
      if PairAt(a, d).Some? {
        PairEndsLine(a, d);
        InsideIff(PairAt(a, d).value, b, d);
      } else if PairAt(a + b, d).None? {
        InsideIff(a[1..], b, d);
      }
    }
  }

  /** The pieces of the residue keep the line breaks next to the place. */
  predicate KeepsEdges(a: string, b: string, pl: Placement) {
    pl.Between? ==>
      && (a == "" ==> pl.left == "") && (EndsLine(a) ==> EndsLine(pl.left))
      && (b == "" ==> pl.right == "") && (b != "" && b[0] == '\n' ==> pl.right != "" && pl.right[0] == '\n')
  }

  /** One more character in front of both. */
  lemma EdgesBehind(c: char, a: string, b: string, p: string, q: string)
    requires KeepsEdges(a, b, Between(p, q))
    ensures KeepsEdges([c] + a, b, Between([c] + p, q))
  {
  }

  lemma {:induction false} PlaceShape(a: string, b: string, d: Delim)
    requires Proper(d) && Cut(a, b)
    ensures KeepsEdges(a, b, Place(a, b, d))
    decreases |a|
  {
    if a == "" {
      if b != "" && b[0] == '\n' {
        NoMarkInBreak(d.open);
        StripPlain("\n", b[1..], d);
        assert b == "\n" + b[1..];
      }
    } else if PairAt(a, d).Some? {
      PairEndsLine(a, d);
      PlaceShape(PairAt(a, d).value, b, d);
    } else if PairAt(a + b, d).None? {
      PlaceShape(a[1..], b, d);
      assert a == [a[0]] + a[1..];
      match Place(a[1..], b, d)
      case Inside =>
      case Between(p, q) => EdgesBehind(a[0], a[1..], b, p, q);
    }
  }

  /** The place tells what becomes of a text put there. */
  predicate Placed(a: string, ins: string, b: string, d: Delim, pl: Placement)
    requires Proper(d)
  {
    match pl
    case Inside => Strip(a + (ins + b), d) == Strip(a + b, d)
    case Between(p, q) => Strip(a + b, d) == p + q && Strip(a + (ins + b), d) == p + (ins + q)
  }

  lemma PlacedChar(a: string, ins: string, b: string, d: Delim, pl: Placement)
    requires Proper(d) && a != "" && PairAt(a + b, d).None? && PairAt(a + (ins + b), d).None?
    requires Placed(a[1..], ins, b, d, pl)
    ensures Placed(a, ins, b, d, match pl case Inside => Inside case Between(p, q) => Between([a[0]] + p, q))
  {
    StripChar(a, b, d);
    StripChar(a, ins + b, d);
    if pl.Between? {
      InFront([a[0]], pl.left, pl.right);
      InFront([a[0]], pl.left, ins + pl.right);
    }
  }

  lemma InFront(c: string, p: string, rest: string)
    ensures c + (p + rest) == (c + p) + rest
  {
  }

  lemma PlacedPlain(ins: string, b: string, d: Delim)
    requires Proper(d) && After(ins, d.open).None? && Cut(ins, b)
    ensures Placed("", ins, b, d, Between("", Strip(b, d)))
  {
    assert "" + b == b && "" + (ins + b) == ins + b;
    StripPlain(ins, b, d);
  }

  /** An inserted text without marks either disappears with the comment it landed
      in, or reappears at one place of the residue; the residue around it is as before. */
  lemma {:induction false} InsertStage(a: string, ins: string, b: string, d: Delim)
    requires Proper(d) && After(ins, d.open).None? && After(ins, d.close).None?
    requires Cut(a, ins) && Cut(ins, b) && Cut(a, b)
    ensures Placed(a, ins, b, d, Place(a, b, d))
    decreases |a|
  {
    if a == "" {
      PlacedPlain(ins, b, d);
    } else {
      assert ins == "" ==> ins + b == b;
      SameAtSeam(a, ins, b, d);
      if PairAt(a, d).Some? {
        PairEndsLine(a, d);
        InsertStage(PairAt(a, d).value, ins, b, d);
      } else if PairAt(a + b, d).None? {
        InsertStage(a[1..], ins, b, d);
        PlacedChar(a, ins, b, d, Place(a[1..], b, d));
      }
    }
  }

  // ---------- inserting one line ----------

  function With(lines: seq<string>, k: nat, line: string): seq<string>
    requires k <= |lines|
  {
    lines[..k] + [line] + lines[k..]
  }

  /** The text before, of and behind an inserted line. */
  lemma Insertion(lines: seq<string>, k: nat, line: string) returns (a: string, ins: string, b: string)
    requires lines != [] && k <= |lines|
    ensures Join(lines) == a + b && Join(With(lines, k, line)) == a + (ins + b)
    ensures Cut(a, ins) && Cut(ins, b) && Cut(a, b)
    ensures if k < |lines| then ins == line + "\n" && (a == "" || EndsLine(a)) else ins == "\n" + line && b == ""
  {
    if k == |lines| {
      a, ins, b := Join(lines), "\n" + line, "";
      JoinConcat(lines, [line]);
      assert With(lines, k, line) == lines + [line];
    } else if k == 0 {
      a, ins, b := "", line + "\n", Join(lines);
      JoinConcat([line], lines);
      assert With(lines, k, line) == [line] + lines;
    } else {
      var p, q := lines[..k], lines[k..];
      a, ins, b := Join(p) + "\n", line + "\n", Join(q);
      JoinConcat(p, q);
      JoinConcat(p, [line] + q);
      JoinConcat([line], q);
      assert lines == p + q;
      assert With(lines, k, line) == p + ([line] + q);
    }
  }

  lemma KeepBehindLine(f: LineFilter, o: string, x: string)
    requires EndsLine(o)
    ensures Keep(f, Split(o + x)) == Keep(f, Split(o[..|o| - 1])) + Keep(f, Split(x))
  {
    var q := o[..|o| - 1];
    assert o == q + "\n";
    SplitAtNewline(q, x);
    KeepConcat(f, Split(q), Split(x));
  }

  lemma KeepWithout(f: LineFilter, line: string, x: string)
    requires '\n' !in line && !Keeps(f, line)
    ensures Keep(f, Split(line + "\n" + x)) == Keep(f, Split(x))
    ensures Keep(f, Split(x + "\n" + line)) == Keep(f, Split(x))
  {
    SplitLine(line);
    SplitAtNewline(line, x);
    SplitAtNewline(x, line);
    KeepConcat(f, [line], Split(x));
    KeepConcat(f, Split(x), [line]);
    assert Keep(f, [line]) == [];
  }

  /** A line that the filter drops may stand anywhere in the residue. */
  lemma FilterInsert(f: LineFilter, o1: string, ins: string, o2: string, line: string)
    requires '\n' !in line && !Keeps(f, line)
    requires if o2 == "" && ins == "\n" + line then true else ins == line + "\n" && (o1 == "" || EndsLine(o1))
    ensures Keep(f, Split(o1 + (ins + o2))) == Keep(f, Split(o1 + o2))
  {
    if o2 == "" && ins == "\n" + line {
      KeepWithout(f, line, o1);
      assert o1 + (ins + o2) == o1 + "\n" + line && o1 + o2 == o1;
    } else {
      KeepWithout(f, line, o2);
      SameBehind(f, o1, ins + o2, o2);
    }
  }

  lemma SameBehind(f: LineFilter, o: string, x: string, y: string)
    requires (o == "" || EndsLine(o)) && Keep(f, Split(x)) == Keep(f, Split(y))
    ensures Keep(f, Split(o + x)) == Keep(f, Split(o + y))
  {
    if o == "" {
      assert o + x == x && o + y == y;
    } else {
      KeepBehindLine(f, o, x);
      KeepBehindLine(f, o, y);
    }
  }

  function Marks(fam: Family): set<string> {
    match fam
    case CLike => {"/*", "*/"}
    case Python => {"\"\"\"", "'''"}
    case Other => {}
  }

  function CommentPrefix(fam: Family): Option<string> {
    match fam
    case CLike => Some("//")
    case Python => Some("#")
    case Other => None
  }

  /** A whitespace-only line, or a full-line comment without block or triple-quote marks. */
  predicate Insertable(fam: Family, line: string) {
    && '\n' !in line
    && (Blank(line) ||
        (CommentPrefix(fam).Some? && CommentPrefix(fam).value <= TrimSpace(line) &&
         forall m :: m in Marks(fam) ==> m != "" && After(line, m).None?))
  }

  lemma InsertableDropped(fam: Family, line: string)
    requires Insertable(fam, line)
    ensures !Keeps(CodeFilter(fam), line)
    ensures forall m :: m in Marks(fam) ==> m != "" && After(line, m).None?
  {
    if Blank(line) {
      BlankIsAllSpace(line);
      forall m | m in Marks(fam) ensures m != "" && After(line, m).None? {
        assert !IsSpace(m[0]);
        if After(line, m).Some? {
          MarkCharOccurs(line, m);
        }
      }
    }
  }

  lemma InsertedHasNoMark(line: string, m: string)
    requires Mark(m) && After(line, m).None?
    ensures After(line + "\n", m).None? && After("\n" + line, m).None?
  {
    NoMarkInBreak(m);
    AfterSkip(line, "\n", m);
    AfterSkip("\n", line, m);
  }

  /** The place between a and b in the residue of the whole delimiter pass. */
  function PlaceIn(fam: Family, a: string, b: string): Placement {
    match fam
    case Other => Between(a, b)
    case CLike => Place(a, b, BLOCK)
    case Python =>
      match Place(a, b, DOUBLE)
      case Inside => Inside
      case Between(p, q) => Place(p, q, SINGLE)
  }

  predicate PlacedIn(fam: Family, a: string, ins: string, b: string, pl: Placement) {
    match pl
    case Inside => Uncommented(fam, a + (ins + b)) == Uncommented(fam, a + b)
    case Between(p, q) => Uncommented(fam, a + b) == p + q && Uncommented(fam, a + (ins + b)) == p + (ins + q)
  }

  /** ins can stand between a and b without a mark running across its ends, in every stage. */
  predicate Fits(a: string, ins: string, b: string) {
    || (b == "" && ins != "" && ins[0] == '\n')
    || ((a == "" || EndsLine(a)) && EndsLine(ins))
    || ((a == "" || EndsLine(a)) && (b == "" || b[0] == '\n'))
  }

  predicate Markless(fam: Family, ins: string) {
    forall m :: m in Marks(fam) ==> m != "" && After(ins, m).None?
  }

  lemma PlaceInShape(fam: Family, a: string, b: string)
    requires Cut(a, b)
    ensures KeepsEdges(a, b, PlaceIn(fam, a, b))
  {
    match fam
    case Other =>
    case CLike => PlaceShape(a, b, BLOCK);
    case Python =>
      PlaceShape(a, b, DOUBLE);
      var pl := Place(a, b, DOUBLE);
      if pl.Between? {
        PlaceShape(pl.left, pl.right, SINGLE);
      }
  }

  /** Both stages of the delimiter pass see a markless text the same way. */
  lemma InsertUncommented(fam: Family, a: string, ins: string, b: string)
    requires Fits(a, ins, b) && Markless(fam, ins)
    ensures PlacedIn(fam, a, ins, b, PlaceIn(fam, a, b))
  {
    match fam
    case Other =>
    case CLike =>
      assert "/*" in Marks(fam) && "*/" in Marks(fam);
      InsertStage(a, ins, b, BLOCK);
    case Python =>
      assert "\"\"\"" in Marks(fam) && "'''" in Marks(fam);
      InsertStage(a, ins, b, DOUBLE);
      PlaceShape(a, b, DOUBLE);
      var pl := Place(a, b, DOUBLE);
      if pl.Between? {
        InsertStage(pl.left, ins, pl.right, SINGLE);
      }
  }

  lemma InsertText(fam: Family, a: string, ins: string, b: string, line: string)
    requires Insertable(fam, line) && Cut(a, b)
    requires if b == "" && ins == "\n" + line then true else ins == line + "\n" && (a == "" || EndsLine(a))
    ensures CodeLines(fam, a + (ins + b)) == CodeLines(fam, a + b)
  {
    InsertableDropped(fam, line);
    forall m | m in Marks(fam) ensures m != "" && After(ins, m).None? {
      InsertedHasNoMark(line, m);
    }
    InsertUncommented(fam, a, ins, b);
    PlaceInShape(fam, a, b);
    var pl := PlaceIn(fam, a, b);
    if pl.Between? {
      FilterInsert(CodeFilter(fam), pl.left, ins, pl.right, line);
    }
  }

  /** Inserting one such line, at any line boundary of any text, keeps the code lines. */
  lemma InsertLine(fam: Family, lines: seq<string>, k: nat, line: string)
    requires lines != [] && k <= |lines| && Insertable(fam, line)
    ensures CodeLines(fam, Join(With(lines, k, line))) == CodeLines(fam, Join(lines))
  {
    var a, ins, b := Insertion(lines, k, line);
    InsertText(fam, a, ins, b, line);
  }

  // ---------- any number of insertions ----------

  /** more is base with insertable lines added, anywhere and any number of them. */
  predicate Decorated(fam: Family, base: seq<string>, more: seq<string>) {
    if more == [] then base == []
    else
      || (base != [] && base[0] == more[0] && Decorated(fam, base[1..], more[1..]))
      || (Insertable(fam, more[0]) && Decorated(fam, base, more[1..]))
  }

  lemma {:induction false} DecoratedBehind(fam: Family, p: seq<string>, base: seq<string>, more: seq<string>)
    requires p + base != [] && Decorated(fam, base, more)
    ensures CodeLines(fam, Join(p + more)) == CodeLines(fam, Join(p + base))
    decreases |more|
  {
    if more != [] {
      assert more == [more[0]] + more[1..];
      if base != [] && base[0] == more[0] && Decorated(fam, base[1..], more[1..]) {
        DecoratedBehind(fam, p + [base[0]], base[1..], more[1..]);
        NextOver(p, base);
        NextOver(p, more);
      } else {
        DecoratedBehind(fam, p, base, more[1..]);
        DecoratedLonger(fam, base, more[1..]);
        InsertBehind(fam, p, more[0], more[1..]);
      }
    }
  }

  lemma NextOver(p: seq<string>, q: seq<string>)
    requires q != []
    ensures p + [q[0]] + q[1..] == p + q
  {
  }

  lemma InsertBehind(fam: Family, p: seq<string>, line: string, q: seq<string>)
    requires p + q != [] && Insertable(fam, line)
    ensures CodeLines(fam, Join(p + ([line] + q))) == CodeLines(fam, Join(p + q))
  {
    InsertLine(fam, p + q, |p|, line);
    assert (p + q)[..|p|] == p && (p + q)[|p|..] == q;
    assert With(p + q, |p|, line) == p + ([line] + q);
  }

  lemma {:induction false} DecoratedLonger(fam: Family, base: seq<string>, more: seq<string>)
    requires Decorated(fam, base, more)
    ensures |base| <= |more|
  {
    if more != [] {
      if base != [] && base[0] == more[0] && Decorated(fam, base[1..], more[1..]) {
        DecoratedLonger(fam, base[1..], more[1..]);
      } else {
        DecoratedLonger(fam, base, more[1..]);
      }
    }
  }

  /** The normal form does not see whitespace-only lines and full-line comments,
      wherever they are added: in code, inside a comment, behind an unclosed opening mark. */
  lemma InsertionsInvisible(lang: string, before: string, after: string)
    requires Decorated(FamilyOf(lang), Split(before), Split(after))
    ensures Normalize(lang, after) == Normalize(lang, before)
  {
    DecoratedBehind(FamilyOf(lang), [], Split(before), Split(after));
    assert [] + Split(before) == Split(before) && [] + Split(after) == Split(after);
    JoinSplit(before);
    JoinSplit(after);
  }
}
