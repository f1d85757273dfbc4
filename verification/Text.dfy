/** Strings as the repository's Go code sees them: Unicode white space, trimming,
    lower-casing, and the line view given by splitting and joining on '\n'. */
module Text {

  datatype Option<+T> = None | Some(value: T)

  /** unicode.IsSpace: the Latin-1 spaces and every other rune with the White_Space property. */
  predicate IsSpace(c: char) {
    || '\t' <= c <= '\r'
    || c == ' ' || c == '\U{85}' || c == '\U{A0}' || c == '\U{1680}'
    || '\U{2000}' <= c <= '\U{200A}'
    || c == '\U{2028}' || c == '\U{2029}' || c == '\U{202F}' || c == '\U{205F}' || c == '\U{3000}'
  }

  function TrimLeft(s: string): string {
    if s != "" && IsSpace(s[0]) then TrimLeft(s[1..]) else s
  }

  function TrimRight(s: string): string {
    if s != "" && IsSpace(s[|s| - 1]) then TrimRight(s[..|s| - 1]) else s
  }

  function TrimSpace(s: string): string {
    TrimRight(TrimLeft(s))
  }

  predicate Blank(s: string) {
    TrimSpace(s) == ""
  }

  lemma {:induction false} TrimLeftKeepsLast(s: string)
    ensures TrimLeft(s) == "" || (s != "" && !IsSpace(TrimLeft(s)[0]))
    ensures TrimLeft(s) == "" ==> forall c :: c in s ==> IsSpace(c)
  {
    if s != "" && IsSpace(s[0]) {
      TrimLeftKeepsLast(s[1..]);
      assert s == [s[0]] + s[1..];
    }
  }

  lemma {:induction false} TrimRightKeepsFirst(s: string)
    requires s != "" && !IsSpace(s[0])
    ensures TrimRight(s) != ""
  {
    if IsSpace(s[|s| - 1]) {
      TrimRightKeepsFirst(s[..|s| - 1]);
    }
  }

  /** A line is blank only if all its characters are white space. */
  lemma BlankIsAllSpace(s: string)
    requires Blank(s)
    ensures forall c :: c in s ==> IsSpace(c)
  {
    TrimLeftKeepsLast(s);
    if TrimLeft(s) != "" {
      TrimRightKeepsFirst(TrimLeft(s));
    }
  }

  /** unicode.ToLower, as far as its result is an ASCII character: besides the
      Latin capitals, U+0130 and U+212A are the only runes that lower to one. */
  function ToLowerChar(c: char): char {
    if 'A' <= c <= 'Z' then c - 'A' + 'a'
    else if c == '\U{130}' then 'i'
    else if c == '\U{212A}' then 'k'
    else c
  }

  function ToLower(s: string): (r: string)
    ensures |r| == |s|
  {
    seq(|s|, i requires 0 <= i < |s| => ToLowerChar(s[i]))
  }

  /** Put a character in front of a text given as its list of lines. */
  function Cons(c: char, lines: seq<string>): seq<string>
    requires |lines| >= 1
  {
    if c == '\n' then [""] + lines else [[c] + lines[0]] + lines[1..]
  }

  /** strings.Split(s, "\n"). */
  function Split(s: string): (lines: seq<string>)
    ensures |lines| >= 1
    ensures forall k :: 0 <= k < |lines| ==> '\n' !in lines[k]
  {
    if s == "" then [""] else Cons(s[0], Split(s[1..]))
  }

  /** strings.Join(lines, "\n"). */
  function Join(lines: seq<string>): string {
    if |lines| == 0 then ""
    else if |lines| == 1 then lines[0]
    else lines[0] + "\n" + Join(lines[1..])
  }

  predicate NewlineFree(lines: seq<string>) {
    forall k :: 0 <= k < |lines| ==> '\n' !in lines[k]
  }

  /** Splitting and joining on the newline is the identity on strings. */
  lemma {:induction false} JoinSplit(s: string)
    ensures Join(Split(s)) == s
  {
    if s != "" {
      JoinSplit(s[1..]);
      var rest := Split(s[1..]);
      if s[0] == '\n' {
        assert ([""] + rest)[1..] == rest;
      } else if |rest| > 1 {
        assert Split(s)[1..] == rest[1..];
      }
    }
  }

  lemma SplitCons(c: char, s: string)
    ensures Split([c] + s) == Cons(c, Split(s))
  {
    assert ([c] + s)[1..] == s;
  }

  lemma ConsConcat(c: char, x: seq<string>, y: seq<string>)
    requires |x| >= 1
    ensures Cons(c, x + y) == Cons(c, x) + y
  {
    assert (x + y)[1..] == x[1..] + y;
  }

  /** A newline cuts the line list in two. */
  lemma {:induction false} SplitAtNewline(a: string, b: string)
    ensures Split(a + "\n" + b) == Split(a) + Split(b)
  {
    if a == "" {
      assert a + "\n" + b == ['\n'] + b;
      SplitCons('\n', b);
    } else {
      var t := a[1..] + "\n" + b;
      assert a + "\n" + b == [a[0]] + t;
      assert a == [a[0]] + a[1..];
      calc {
        Split(a + "\n" + b);
        Split([a[0]] + t);
        { SplitCons(a[0], t); }
        Cons(a[0], Split(t));
        { SplitAtNewline(a[1..], b); }
        Cons(a[0], Split(a[1..]) + Split(b));
        { ConsConcat(a[0], Split(a[1..]), Split(b)); }
        Cons(a[0], Split(a[1..])) + Split(b);
        { SplitCons(a[0], a[1..]); }
        Split(a) + Split(b);
      }
    }
  }

  lemma {:induction false} SplitLine(line: string)
    requires '\n' !in line
    ensures Split(line) == [line]
  {
    if line != "" {
      SplitLine(line[1..]);
      assert line == [line[0]] + line[1..];
    }
  }

  /** Joining and splitting is the identity on every non-empty list of lines. */
  lemma {:induction false} SplitJoin(lines: seq<string>)
    requires |lines| >= 1 && NewlineFree(lines)
    ensures Split(Join(lines)) == lines
  {
    SplitLine(lines[0]);
    if |lines| > 1 {
      SplitJoin(lines[1..]);
      SplitAtNewline(lines[0], Join(lines[1..]));
      assert lines == [lines[0]] + lines[1..];
    }
  }

  lemma {:induction false} JoinConcat(a: seq<string>, b: seq<string>)
    requires |a| >= 1 && |b| >= 1
    ensures Join(a + b) == Join(a) + "\n" + Join(b)
  {
    if |a| == 1 {
      assert (a + b)[1..] == b;
    } else {
      JoinConcat(a[1..], b);
      assert (a + b)[1..] == a[1..] + b;
      assert Join(a) == a[0] + "\n" + Join(a[1..]);
    }
  }
}
