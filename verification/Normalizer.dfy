/** The heuristic parser: delimiter stage (block comments, docstrings), then the
    line filters.  Its result, the normal form, is what gets hashed. */
module Normalizer {
  import opened Text

  // ---------- delimiter stage ----------

  /** An opening and a closing mark; the regular expressions remove the shortest
      text from an opening mark to the next closing mark behind it. */
  datatype Delim = Delim(open: string, close: string)

  const BLOCK: Delim := Delim("/*", "*/")
  const DOUBLE: Delim := Delim("\"\"\"", "\"\"\"")
  const SINGLE: Delim := Delim("'''", "'''")

  /** What the proofs use of a mark: it is not empty and stays on one line. */
  predicate Mark(m: string) {
    m != "" && '\n' !in m
  }

  predicate Proper(d: Delim) {
    Mark(d.open) && Mark(d.close)
  }

  /** The text behind the first occurrence of m in s. */
  function After(s: string, m: string): (r: Option<string>)
    requires m != ""
    ensures r.Some? ==> |r.value| < |s|
  {
    if m <= s then Some(s[|m|..])
    else if s == "" then None
    else After(s[1..], m)
  }

  /** s starts with an opening mark that is closed later: the text behind the pair. */
  function PairAt(s: string, d: Delim): (r: Option<string>)
    requires Proper(d)
    ensures r.Some? ==> |r.value| < |s|
  {
    if d.open <= s then After(s[|d.open|..], d.close) else None
  }

  /** ReplaceAllString(s, "") for open[\s\S]*?close: leftmost, shortest, repeated. */
  function Strip(s: string, d: Delim): string
    requires Proper(d)
    decreases |s|
  {
    if s == "" then ""
    else
      match PairAt(s, d)
      case Some(r) => Strip(r, d)
      case None => [s[0]] + Strip(s[1..], d)
  }

  /** The regular expression of d matches somewhere in s. */
  predicate HasPair(s: string, d: Delim)
    requires Proper(d)
  {
    s != "" && (PairAt(s, d).Some? || HasPair(s[1..], d))
  }

  /** Reading s from the left, every opening mark is closed before s ends. */
  predicate Closed(s: string, d: Delim)
    requires Proper(d)
    decreases |s|
  {
    if s == "" then true
    else if d.open <= s then PairAt(s, d).Some? && Closed(PairAt(s, d).value, d)
    else Closed(s[1..], d)
  }

  // ---------- line filters ----------

  datatype LineFilter = Comments(prefix: string) | Blanks | Both(prefix: string)

  predicate Keeps(f: LineFilter, line: string) {
    match f
    case Comments(p) => !(p <= TrimSpace(line))
    case Blanks => !Blank(line)
    case Both(p) => !(p <= TrimSpace(line)) && !Blank(line)
  }

  function Keep(f: LineFilter, lines: seq<string>): seq<string> {
    if lines == [] then []
    else (if Keeps(f, lines[0]) then [lines[0]] else []) + Keep(f, lines[1..])
  }

  function FilterLines(f: LineFilter, s: string): string {
    Join(Keep(f, Split(s)))
  }

  method StripLineComments(s: string, prefix: string) returns (r: string)
    ensures r == FilterLines(Comments(prefix), s)
  {
    var lines := Split(s);
    var out := [];
    for i := 0 to |lines|
      invariant out == Keep(Comments(prefix), lines[..i])
    {
      KeepNext(Comments(prefix), lines, i);
      var trimmed := TrimSpace(lines[i]);
      if prefix <= trimmed {
        continue;
      }
      out := out + [lines[i]];
    }
    assert lines[..|lines|] == lines;
    r := Join(out);
  }

  method StripBlankLines(s: string) returns (r: string)
    ensures r == FilterLines(Blanks, s)
  {
    var lines := Split(s);
    var out := [];
    for i := 0 to |lines|
      invariant out == Keep(Blanks, lines[..i])
    {
      KeepNext(Blanks, lines, i);
      if TrimSpace(lines[i]) != "" {
        out := out + [lines[i]];
      }
    }
    assert lines[..|lines|] == lines;
    r := Join(out);
  }

  // ---------- the whole parser ----------

  datatype Family = CLike | Python | Other

  function FamilyOf(lang: string): Family {
    var l := ToLower(lang);
    if l == "go" || l == "javascript" || l == "typescript" then CLike
    else if l == "python" then Python
    else Other
  }

  /** The delimiter stage of a language family. */
  function Uncommented(fam: Family, s: string): string {
    match fam
    case CLike => Strip(s, BLOCK)
    case Python => Strip(Strip(s, DOUBLE), SINGLE)
    case Other => s
  }

  /** Both line filters of a language family at once. */
  function CodeFilter(fam: Family): LineFilter {
    match fam
    case CLike => Both("//")
    case Python => Both("#")
    case Other => Blanks
  }

  /** The lines of the residue that survive: the meaning of the normal form. */
  function CodeLines(fam: Family, s: string): seq<string> {
    Keep(CodeFilter(fam), Split(Uncommented(fam, s)))
  }

  function Normalize(lang: string, s: string): string {
    Join(CodeLines(FamilyOf(lang), s))
  }

  method StripByLanguage(lang: string, content: string) returns (r: string)
    ensures r == Normalize(lang, content)
  {
    r := content;
    match FamilyOf(lang) {
      case CLike =>
        r := Strip(r, BLOCK);
        var residue := r;
        r := StripLineComments(r, "//");
        BlanksAfterComments(residue, "//");
      case Python =>
        r := Strip(r, DOUBLE);
        r := Strip(r, SINGLE);
        var residue := r;
        r := StripLineComments(r, "#");
        BlanksAfterComments(residue, "#");
      case Other =>
    }
    r := StripBlankLines(r);
  }

  // ---------- laws of the line filters ----------

  lemma KeepCons(f: LineFilter, x: string, rest: seq<string>)
    ensures Keep(f, [x] + rest) == Keep(f, [x]) + Keep(f, rest)
  {
    assert ([x] + rest)[1..] == rest && [x][1..] == [];
  }

  lemma {:induction false} KeepConcat(f: LineFilter, a: seq<string>, b: seq<string>)
    ensures Keep(f, a + b) == Keep(f, a) + Keep(f, b)
  {
    if a == [] {
      assert a + b == b;
    } else {
      var x, rest := a[0], a[1..];
      KeepConcat(f, rest, b);
      KeepCons(f, x, rest);
      KeepCons(f, x, rest + b);
      Uncons(a, b);
      Regroup(Keep(f, [x]), Keep(f, rest), Keep(f, b));
    }
  }

  lemma Uncons(a: seq<string>, b: seq<string>)
    requires a != []
    ensures a == [a[0]] + a[1..] && a + b == [a[0]] + (a[1..] + b)
  {
  }

  lemma Regroup(a: seq<string>, b: seq<string>, c: seq<string>)
    ensures a + (b + c) == (a + b) + c
  {
  }

  lemma KeepNext(f: LineFilter, lines: seq<string>, i: nat)
    requires i < |lines|
    ensures Keep(f, lines[..i + 1]) == Keep(f, lines[..i]) + if Keeps(f, lines[i]) then [lines[i]] else []
  {
    assert lines[..i + 1] == lines[..i] + [lines[i]];
    KeepConcat(f, lines[..i], [lines[i]]);
  }

  lemma {:induction false} KeepSound(f: LineFilter, lines: seq<string>)
    ensures |Keep(f, lines)| <= |lines|
    ensures forall l :: l in Keep(f, lines) ==> l in lines && Keeps(f, l)
  {
    if lines != [] {
      KeepSound(f, lines[1..]);
    }
  }

  lemma {:induction false} KeepAll(f: LineFilter, lines: seq<string>)
    requires forall l :: l in lines ==> Keeps(f, l)
    ensures Keep(f, lines) == lines
  {
    if lines != [] {
      assert lines[0] in lines;
      KeepAll(f, lines[1..]);
    }
  }

  /** One filter after another keeps what both keep. */
  lemma {:induction false} KeepTwice(f: LineFilter, g: LineFilter, h: LineFilter, lines: seq<string>)
    requires forall l :: Keeps(h, l) <==> Keeps(f, l) && Keeps(g, l)
    ensures Keep(g, Keep(f, lines)) == Keep(h, lines)
  {
    if lines != [] {
      KeepTwice(f, g, h, lines[1..]);
      var head := if Keeps(f, lines[0]) then [lines[0]] else [];
      KeepConcat(g, head, Keep(f, lines[1..]));
    }
  }

  /** Splitting the joined lines again gives them back; only the empty list turns into one blank line. */
  lemma SplitKept(f: LineFilter, lines: seq<string>)
    requires NewlineFree(lines)
    ensures var k := Keep(f, lines);
            Split(Join(k)) == if k == [] then [""] else k
  {
    KeepSound(f, lines);
    var k := Keep(f, lines);
    assert forall i :: 0 <= i < |k| ==> k[i] in lines;
    if k != [] {
      SplitJoin(k);
    }
  }

  lemma NoPrefixOfBlank(p: string)
    requires p != ""
    ensures !(p <= TrimSpace("")) && Blank("")
  {
  }

  /** The order of the two filters does not matter: either way the lines that are
      neither blank nor comments remain, joined; also when nothing remains. */
  lemma BlanksAfterComments(s: string, p: string)
    requires p != ""
    ensures FilterLines(Blanks, FilterLines(Comments(p), s)) == FilterLines(Both(p), s)
    ensures FilterLines(Comments(p), FilterLines(Blanks, s)) == FilterLines(Both(p), s)
  {
    var lines := Split(s);
    SplitKept(Comments(p), lines);
    KeepTwice(Comments(p), Blanks, Both(p), lines);
    SplitKept(Blanks, lines);
    KeepTwice(Blanks, Comments(p), Both(p), lines);
    NoPrefixOfBlank(p);
    assert Keep(Blanks, [""]) == [];
    assert Keep(Comments(p), [""]) == [""];
  }

  lemma FiltersIdempotent(f: LineFilter, s: string)
    requires f.Blanks? || f.prefix != ""
    ensures FilterLines(f, FilterLines(f, s)) == FilterLines(f, s)
  {
    var lines := Split(s);
    SplitKept(f, lines);
    KeepTwice(f, f, f, lines);
    NoPrefixOfBlank(if f.Blanks? then "x" else f.prefix);
    assert Join(Keep(f, [""])) == "";
  }

  // ---------- what the normal form means ----------

  /** Two lists of kept lines are told apart by their normal forms. */
  lemma JoinKeptInjective(f: LineFilter, a: seq<string>, b: seq<string>)
    requires NewlineFree(a) && NewlineFree(b)
    requires f.Blanks? || f.Both?
    ensures Join(Keep(f, a)) == Join(Keep(f, b)) <==> Keep(f, a) == Keep(f, b)
  {
    SplitKept(f, a);
    SplitKept(f, b);
    KeepSound(f, a);
    KeepSound(f, b);
    assert Blank("");
    assert !Keeps(f, "");
    assert "" in [""] && "" !in Keep(f, a) && "" !in Keep(f, b);
  }

  /** The bypass decides exactly on the surviving lines: normal forms agree if and
      only if the same code lines remain in the same order. */
  lemma NormalFormsAgree(lang: string, a: string, b: string)
    ensures Normalize(lang, a) == Normalize(lang, b)
       <==> CodeLines(FamilyOf(lang), a) == CodeLines(FamilyOf(lang), b)
  {
    var fam := FamilyOf(lang);
    JoinKeptInjective(CodeFilter(fam), Split(Uncommented(fam, a)), Split(Uncommented(fam, b)));
  }
}
