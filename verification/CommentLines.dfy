/** Comment and blank lines, character by character: which lines the normal form drops and which
    it keeps, for every indent, and by what a file's language is told. */
module CommentLines {
  import opened Text
  import opened Normalizer
  import opened NormalizerLaws
  import opened NormalizerLimits
  import opened Ingest

  /** All white space besides the newline. */
  const WHITE: string :=
    "\t\U{0B}\U{0C}\r \U{85}\U{A0}\U{1680}\U{2000}\U{2001}\U{2002}\U{2003}\U{2004}\U{2005}\U{2006}\U{2007}\U{2008}\U{2009}\U{200A}\U{2028}\U{2029}\U{202F}\U{205F}\U{3000}"

  predicate White(s: string) {
    forall c :: c in s ==> c in WHITE
  }

  /** The text does not start with white space. */
  predicate Flush(s: string) {
    s != "" ==> s[0] !in WHITE && s[0] != '\n'
  }

  /** The mark stands nowhere in the text. */
  predicate Without(s: string, m: string) {
    forall i :: 0 <= i <= |s| ==> !(m <= s[i..])
  }

  lemma SpaceIff(c: char)
    ensures IsSpace(c) <==> c == '\n' || c in WHITE
  {
  }

  lemma {:induction false} WithoutIs(s: string, m: string)
    requires m != "" && Without(s, m)
    ensures After(s, m).None?
  {
    assert s[0..] == s;
    if s != "" {
      forall i | 0 <= i <= |s[1..]| ensures !(m <= s[1..][i..]) {
        assert s[1..][i..] == s[i + 1..];
      }
      WithoutIs(s[1..], m);
    }
  }

  // ---------- trimming ----------

  lemma {:induction false} TrimIndent(indent: string, rest: string)
    requires White(indent) && Flush(rest)
    ensures TrimLeft(indent + rest) == rest
  {
    if indent == "" {
      assert indent + rest == rest;
      if rest != "" {
        SpaceIff(rest[0]);
      }
    } else {
      SpaceIff(indent[0]);
      assert (indent + rest)[1..] == indent[1..] + rest;
      TrimIndent(indent[1..], rest);
    }
  }

  lemma {:induction false} TrimRightPrefix(s: string)
    ensures TrimRight(s) <= s
  {
    if s != "" && IsSpace(s[|s| - 1]) {
      TrimRightPrefix(s[..|s| - 1]);
    }
  }

  lemma {:induction false} TrimRightKeeps(p: string, s: string)
    requires p != "" && !IsSpace(p[|p| - 1]) && p <= s
    ensures p <= TrimRight(s)
  {
    if IsSpace(s[|s| - 1]) {
      assert s[|p| - 1] == p[|p| - 1];
      assert p <= s[..|s| - 1];
      TrimRightKeeps(p, s[..|s| - 1]);
    }
  }

  lemma TrimmedStarts(prefix: string, indent: string, rest: string)
    requires White(indent) && Flush(rest) && prefix != "" && !IsSpace(prefix[|prefix| - 1])
    ensures prefix <= TrimSpace(indent + rest) <==> prefix <= rest
  {
    TrimIndent(indent, rest);
    TrimRightPrefix(rest);
    if prefix <= rest {
      TrimRightKeeps(prefix, rest);
    }
  }

  lemma TrimmedEmpty(indent: string, rest: string)
    requires White(indent) && Flush(rest)
    ensures TrimSpace(indent + rest) == "" <==> rest == ""
  {
    TrimIndent(indent, rest);
    if rest != "" {
      SpaceIff(rest[0]);
      TrimRightKeepsFirst(rest);
    }
  }

  /** A line is dropped exactly if behind its indent there is nothing, or the comment prefix. */
  lemma LineKept(prefix: string, indent: string, rest: string)
    requires prefix == "//" || prefix == "#"
    requires White(indent) && Flush(rest)
    ensures Keeps(Both(prefix), indent + rest) <==> rest != "" && !(prefix <= rest)
    ensures Keeps(Blanks, indent + rest) <==> rest != ""
  {
    TrimmedStarts(prefix, indent, rest);
    TrimmedEmpty(indent, rest);
  }

  // ---------- inserted lines ----------

  /** The line put at a line boundary of any text, with a line break behind it. */
  function Inserted(a: string, line: string, b: string): string {
    a + (line + "\n" + b)
  }

  lemma InsertedIgnored(fam: Family, a: string, line: string, b: string)
    requires Insertable(fam, line) && (a == "" || EndsLine(a))
    ensures CodeLines(fam, Inserted(a, line, b)) == CodeLines(fam, a + b)
  {
    InsertText(fam, a, line + "\n", b, line);
  }

  lemma AtTheEnd(a: string, line: string, none: string)
    requires none == ""
    ensures a + ("\n" + line + none) == a + "\n" + line && a + none == a
  {
  }

  lemma AppendedIgnored(fam: Family, a: string, line: string)
    requires Insertable(fam, line)
    ensures CodeLines(fam, a + "\n" + line) == CodeLines(fam, a)
  {
    var ins, none := "\n" + line, "";
    InsertText(fam, a, ins, none, line);
    AtTheEnd(a, line, none);
  }

  lemma Families()
    ensures FamilyOf("go") == FamilyOf("javascript") == FamilyOf("typescript") == CLike
    ensures FamilyOf("python") == Python && FamilyOf("") == Other
  {
    LowerAlready("go");
    LowerAlready("javascript");
    LowerAlready("typescript");
    LowerAlready("python");
    LowerAlready("");
  }

  lemma LowerAlready(s: string)
    requires forall c :: c in s ==> 'a' <= c <= 'z' || c == '.' || '0' <= c <= '9'
    ensures ToLower(s) == s
  {
    assert forall i :: 0 <= i < |s| ==> s[i] in s;
  }

  /** c lowers to the small letter k. */
  predicate LowersTo(c: char, k: char) {
    c == k || ('a' <= k <= 'z' && c == k - 'a' + 'A') || (k == 'i' && c == '\U{130}')
  }

  /** The language's name may be spelled in any mixture of cases. */
  lemma KnownLanguages(lang: string, l: string, s: string)
    requires l in {"go", "javascript", "typescript", "python"} && |lang| == |l|
    requires forall i :: 0 <= i < |l| ==> 'a' <= l[i] <= 'z' && LowersTo(lang[i], l[i])
    ensures Normalize(lang, s) == Normalize(l, s)
  {
    assert ToLower(lang) == l;
    LowerAlready(l);
  }

  lemma BlankInsertable(fam: Family, indent: string)
    requires White(indent)
    ensures Insertable(fam, indent)
  {
    WhiteOneLine(indent);
    TrimmedEmpty(indent, "");
    assert indent + "" == indent;
  }

  /** A line of white space may be added anywhere, in every language. */
  lemma BlankLineIgnored(lang: string, indent: string, a: string, b: string)
    requires lang in {"go", "javascript", "typescript", "python", ""}
    requires White(indent) && (a == "" || a[|a| - 1] == '\n')
    ensures Normalize(lang, Inserted(a, indent, b)) == Normalize(lang, a + b)
    ensures Normalize(lang, a + "\n" + indent) == Normalize(lang, a)
  {
    BlankInsertable(FamilyOf(lang), indent);
    InsertedIgnored(FamilyOf(lang), a, indent, b);
    AppendedIgnored(FamilyOf(lang), a, indent);
  }

  lemma PrefixBehindIndent(prefix: string, indent: string, text: string)
    requires (prefix == "//" || prefix == "#") && White(indent)
    ensures prefix <= TrimSpace(indent + prefix + text)
  {
    assert indent + prefix + text == indent + (prefix + text);
    TrimmedStarts(prefix, indent, prefix + text);
  }

  lemma SlashInsertable(indent: string, text: string)
    requires White(indent) && '\n' !in text && Without(indent + "//" + text, "/*") && Without(indent + "//" + text, "*/")
    ensures Insertable(CLike, indent + "//" + text)
  {
    var line := indent + "//" + text;
    WithoutIs(line, "/*");
    WithoutIs(line, "*/");
    WhiteOneLine(indent);
    PrefixBehindIndent("//", indent, text);
  }

  /** So may a line comment, however it is indented. */
  lemma SlashCommentIgnored(lang: string, indent: string, text: string, a: string, b: string)
    requires lang in {"go", "javascript", "typescript"}
    requires White(indent) && '\n' !in text && Without(indent + "//" + text, "/*") && Without(indent + "//" + text, "*/")
    requires a == "" || a[|a| - 1] == '\n'
    ensures Normalize(lang, Inserted(a, indent + "//" + text, b)) == Normalize(lang, a + b)
    ensures Normalize(lang, a + "\n" + (indent + "//" + text)) == Normalize(lang, a)
  {
    Families();
    SlashInsertable(indent, text);
    InsertedIgnored(CLike, a, indent + "//" + text, b);
    AppendedIgnored(CLike, a, indent + "//" + text);
  }

  lemma HashInsertable(indent: string, text: string)
    requires White(indent) && '\n' !in text && Without(indent + "#" + text, "\"\"\"") && Without(indent + "#" + text, "'''")
    ensures Insertable(Python, indent + "#" + text)
  {
    var line := indent + "#" + text;
    WithoutIs(line, "\"\"\"");
    WithoutIs(line, "'''");
    WhiteOneLine(indent);
    PrefixBehindIndent("#", indent, text);
  }

  lemma HashCommentIgnored(indent: string, text: string, a: string, b: string)
    requires White(indent) && '\n' !in text && Without(indent + "#" + text, "\"\"\"") && Without(indent + "#" + text, "'''")
    requires a == "" || a[|a| - 1] == '\n'
    ensures Normalize("python", Inserted(a, indent + "#" + text, b)) == Normalize("python", a + b)
    ensures Normalize("python", a + "\n" + (indent + "#" + text)) == Normalize("python", a)
  {
    Families();
    HashInsertable(indent, text);
    InsertedIgnored(Python, a, indent + "#" + text, b);
    AppendedIgnored(Python, a, indent + "#" + text);
  }

  // ---------- single lines ----------

  lemma OneLine(fam: Family, line: string)
    requires '\n' !in line && Openless(fam, line)
    ensures CodeLines(fam, line) == if Keeps(CodeFilter(fam), line) then [line] else []
  {
    OpenlessShut(fam, line);
    KeepLine(CodeFilter(fam), line);
  }

  /** What is left of a line without block comments: nothing if it is blank or a line comment
      behind its indent, and otherwise the whole line as it is. */
  lemma SlashLine(lang: string, indent: string, rest: string)
    requires lang in {"go", "javascript", "typescript"}
    requires White(indent) && Flush(rest) && '\n' !in rest && Without(indent + rest, "/*")
    ensures Normalize(lang, indent + rest) == if "//" <= rest then "" else if rest == "" then "" else indent + rest
  {
    Families();
    WithoutIs(indent + rest, "/*");
    WhiteOneLine(indent);
    OneLine(CLike, indent + rest);
    LineKept("//", indent, rest);
  }

  lemma HashLine(indent: string, rest: string)
    requires White(indent) && Flush(rest) && '\n' !in rest && Without(indent + rest, "\"\"\"") && Without(indent + rest, "'''")
    ensures Normalize("python", indent + rest) == if "#" <= rest then "" else if rest == "" then "" else indent + rest
  {
    Families();
    WithoutIs(indent + rest, "\"\"\"");
    WithoutIs(indent + rest, "'''");
    WhiteOneLine(indent);
    OneLine(Python, indent + rest);
    LineKept("#", indent, rest);
  }

  /** In a file of no known language comments are kept like everything else that is not blank. */
  lemma PlainLine(indent: string, rest: string)
    requires White(indent) && Flush(rest) && '\n' !in rest
    ensures Normalize("", indent + rest) == if rest == "" then "" else indent + rest
  {
    Families();
    WhiteOneLine(indent);
    OneLine(Other, indent + rest);
    LineKept("#", indent, rest);
  }

  lemma WhiteOneLine(indent: string)
    requires White(indent)
    ensures '\n' !in indent
  {
    assert '\n' !in WHITE;
  }

  // ---------- docstrings ----------

  lemma QuotedGone(q: string, body: string, t: string, d: Delim)
    requires d == Delim(q, q) && Proper(d) && (q == "\"\"\"" || q == "'''") && q[0] !in body
    ensures Strip(q + (body + (q + t)), d) == Strip(t, d)
  {
    var s := q + (body + (q + t));
    assert s[|q|..] == body + (q + t);
    AfterBody(q, body, t);
    assert PairAt(s, d) == Some(t);
  }

  lemma {:induction false} AfterBody(q: string, body: string, t: string)
    requires q != "" && q[0] !in body
    ensures After(body + (q + t), q) == Some(t)
  {
    var s := body + (q + t);
    if body == "" {
      assert s == q + t && s[|q|..] == t;
    } else {
      assert s[0] == body[0] && s[1..] == body[1..] + (q + t);
      AfterBody(q, body[1..], t);
    }
  }

  lemma {:induction false} NoCharNoMark(s: string, m: string)
    requires m != "" && m[0] !in s
    ensures After(s, m).None?
  {
    if s != "" {
      NoCharNoMark(s[1..], m);
    }
  }

  /** The text a, then a docstring in quotes q on lines of its own, then b. */
  function WithDocstring(a: string, q: string, body: string, b: string): string {
    a + (q + (body + (q + ("\n" + b))))
  }

  lemma PlainFront(a: string, t: string, d: Delim)
    requires Proper(d) && d.open[0] !in a && (a == "" || EndsLine(a))
    ensures Strip(a + t, d) == a + Strip(t, d)
  {
    NoCharNoMark(a, d.open);
    StripPlain(a, t, d);
  }

  lemma DoubleDocstring(a: string, body: string, b: string)
    requires '"' !in a && '\'' !in a && '"' !in body && (a == "" || EndsLine(a))
    ensures Uncommented(Python, WithDocstring(a, "\"\"\"", body, b)) == a + ("\n" + Strip(Strip(b, DOUBLE), SINGLE))
    ensures Uncommented(Python, a + b) == a + Strip(Strip(b, DOUBLE), SINGLE)
  {
    var q := "\"\"\"";
    PlainFront(a, q + (body + (q + ("\n" + b))), DOUBLE);
    QuotedGone(q, body, "\n" + b, DOUBLE);
    BreakStays(b, DOUBLE);
    PlainFront(a, b, DOUBLE);
    PlainFront(a, "\n" + Strip(b, DOUBLE), SINGLE);
    PlainFront(a, Strip(b, DOUBLE), SINGLE);
    BreakStays(Strip(b, DOUBLE), SINGLE);
  }

  lemma BreakStays(b: string, d: Delim)
    requires Proper(d)
    ensures Strip("\n" + b, d) == "\n" + Strip(b, d)
  {
    NoMarkInBreak(d.open);
    StripPlain("\n", b, d);
  }

  lemma SingleQuotesStay(q: string, body: string, b: string)
    requires '"' !in q && '"' !in body
    ensures Strip(q + (body + (q + ("\n" + b))), DOUBLE) == q + (body + (q + ("\n" + Strip(b, DOUBLE))))
  {
    var p := q + (body + (q + "\n"));
    PlainFront(p, b, DOUBLE);
    Refront(q, body, b);
    Refront(q, body, Strip(b, DOUBLE));
  }

  lemma Refront(q: string, body: string, b: string)
    ensures q + (body + (q + "\n")) + b == q + (body + (q + ("\n" + b)))
  {
  }

  lemma SingleDocstring(a: string, body: string, b: string)
    requires '"' !in a && '\'' !in a && '"' !in body && '\'' !in body && (a == "" || EndsLine(a))
    ensures Uncommented(Python, WithDocstring(a, "'''", body, b)) == a + ("\n" + Strip(Strip(b, DOUBLE), SINGLE))
    ensures Uncommented(Python, a + b) == a + Strip(Strip(b, DOUBLE), SINGLE)
  {
    var q := "'''";
    PlainFront(a, q + (body + (q + ("\n" + b))), DOUBLE);
    SingleQuotesStay(q, body, b);
    var c := Strip(b, DOUBLE);
    PlainFront(a, b, DOUBLE);
    PlainFront(a, q + (body + (q + ("\n" + c))), SINGLE);
    QuotedGone(q, body, "\n" + c, SINGLE);
    BreakStays(c, SINGLE);
    PlainFront(a, c, SINGLE);
  }

  /** A docstring on lines of its own may be added behind text without quotes, whatever follows. */
  lemma DocstringIgnored(a: string, q: string, body: string, b: string)
    requires q == "\"\"\"" || q == "'''"
    requires '"' !in a && '\'' !in a && '"' !in body && '\'' !in body && (a == "" || a[|a| - 1] == '\n')
    ensures Normalize("python", WithDocstring(a, q, body, b)) == Normalize("python", a + b)
  {
    Families();
    if q == "'''" {
      SingleDocstring(a, body, b);
    } else {
      DoubleDocstring(a, body, b);
    }
    TrimmedEmpty("", "");
    FilterInsert(CodeFilter(Python), a, "\n", Strip(Strip(b, DOUBLE), SINGLE), "");
  }

  // ---------- the language of a file ----------

  lemma {:induction false} ExtIs(stem: string, e: string)
    requires '.' !in e && '/' !in e
    ensures Ext(stem + "." + e) == "." + e
  {
    var path := stem + "." + e;
    if e != "" {
      var k := |e| - 1;
      assert path[..|path| - 1] == stem + "." + e[..k] && path[|path| - 1] == e[k];
      ExtIs(stem, e[..k]);
      assert "." + e == "." + e[..k] + [e[k]];
    } else {
      assert path == stem + ".";
    }
  }

  /** The known extensions, in any mixture of lower and upper case. */
  lemma KnownFiles(stem: string, ext: string, e: string)
    requires e in {"go", "py", "js", "ts"} && |ext| == 3 && ext[0] == '.'
    requires forall i :: 0 <= i < |e| ==> ext[i + 1] == e[i] || ext[i + 1] == e[i] - 'a' + 'A'
    ensures LanguageFromPath(stem + ext)
         == if e == "go" then "go" else if e == "py" then "python" else if e == "js" then "javascript" else "typescript"
  {
    TwoLetterExt(e);
    var u := ext[1..];
    assert ext[1] == ext[0 + 1] == u[0] && ext[2] == ext[1 + 1] == u[1];
    LetterOnly(u[0], e[0]);
    LetterOnly(u[1], e[1]);
    assert u == [u[0], u[1]];
    assert ext == "." + u && stem + ext == stem + "." + u;
    ExtIs(stem, u);
    LowerExt(ext, e);
  }

  lemma LetterOnly(c: char, k: char)
    requires 'a' <= k <= 'z' && (c == k || c == k - 'a' + 'A')
    ensures c != '.' && c != '/'
  {
  }

  lemma TwoLetterExt(e: string)
    requires e in {"go", "py", "js", "ts"}
    ensures |e| == 2 && forall i :: 0 <= i < 2 ==> 'a' <= e[i] <= 'z'
    ensures e == "go" ==> "." + e == ".go"
    ensures e == "py" ==> "." + e == ".py"
    ensures e == "js" ==> "." + e == ".js"
    ensures e == "ts" ==> "." + e == ".ts"
  {
  }

  lemma LowerExt(ext: string, e: string)
    requires |e| == 2 && |ext| == 3 && ext[0] == '.'
    requires forall i :: 0 <= i < 2 ==> 'a' <= e[i] <= 'z' && (ext[i + 1] == e[i] || ext[i + 1] == e[i] - 'a' + 'A')
    ensures ToLower(ext) == "." + e
  {
    assert ext[1] == ext[0 + 1] && ext[2] == ext[1 + 1];
  }

  /** Every other extension in lower case letters and digits is of no known language. */
  lemma OtherFiles(stem: string, e: string)
    requires e !in {"go", "py", "js", "ts"} && forall c :: c in e ==> 'a' <= c <= 'z' || '0' <= c <= '9'
    ensures LanguageFromPath(stem + "." + e) == ""
  {
    ExtIs(stem, e);
    LowerAlready("." + e);
    assert forall x: string :: "." + e == "." + x ==> ("." + e)[1..] == ("." + x)[1..];
    assert ("." + e)[1..] == e;
    assert ".go"[1..] == "go" && ".py"[1..] == "py" && ".js"[1..] == "js" && ".ts"[1..] == "ts";
  }
}
