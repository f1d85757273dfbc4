/** What a stage of the scrubber keeps and hides, and why no secret can appear in a text
    that a stage has rewritten: not across a marker, not inside one, not out of what was kept. */
module ScrubLaws {
  import opened Scrub
  import opened ScrubMatch

  /** A rewritten text remembers what stood behind each marker. */
  datatype Piece = Keep(c: char) | Hide(x: string)

  function Before(p: Piece): string {
    match p case Keep(c) => [c] case Hide(x) => x
  }

  function After(p: Piece): string {
    match p case Keep(c) => [c] case Hide(_) => MARKER
  }

  /** The text before the rewriting. */
  function Source(ps: seq<Piece>): string {
    if ps == [] then "" else Before(ps[0]) + Source(ps[1..])
  }

  /** The text after the rewriting. */
  function Render(ps: seq<Piece>): string {
    if ps == [] then "" else After(ps[0]) + Render(ps[1..])
  }

  /** The kept text up to the first marker. */
  function Plain(ps: seq<Piece>): string {
    if ps == [] || ps[0].Hide? then "" else [ps[0].c] + Plain(ps[1..])
  }

  /** No match of the rule starts anywhere in the text. */
  predicate Clean(rule: Rule, s: string) {
    s != "" ==> Match(rule, s) == 0 && Clean(rule, s[1..])
  }

  lemma {:induction false} CleanTail(rule: Rule, a: string, t: string)
    requires Clean(rule, a + t)
    ensures Clean(rule, t)
  {
    if a == "" {
      assert a + t == t;
    } else {
      assert (a + t)[1..] == a[1..] + t;
      CleanTail(rule, a[1..], t);
    }
  }

  lemma {:induction false} CleanAt(rule: Rule, s: string, i: nat)
    requires Clean(rule, s) && i <= |s|
    ensures Match(rule, s[i..]) == 0
  {
    CleanTail(rule, s[..i], s[i..]) by { assert s == s[..i] + s[i..]; }
  }

  lemma {:induction false} NotCleanHasMatch(rule: Rule, s: string) returns (i: nat)
    requires !Clean(rule, s)
    ensures i < |s| && Match(rule, s[i..]) > 0
  {
    if Match(rule, s) > 0 {
      i := 0;
    } else {
      i := NotCleanHasMatch(rule, s[1..]);
      assert s[1..][i..] == s[i + 1..];
      i := i + 1;
    }
  }

  // ---------- matches as prefixes ----------

  lemma SecretAt(rule: Rule, s: string) returns (u: string)
    requires Match(rule, s) > 0
    ensures u <= s && InLang(rule, u)
  {
    MatchSound(rule, s);
    u := s[..Match(rule, s)];
  }

  lemma MatchPrefix(rule: Rule, u: string, s: string)
    requires InLang(rule, u) && u <= s
    ensures Match(rule, s) > 0
  {
    assert s == u + s[|u|..];
    MatchComplete(rule, u, s[|u|..]);
  }

  lemma PrefixOfPrefix(u: string, p: string, s: string)
    requires u <= p && p <= s
    ensures u <= s
  {
  }

  /** A longer text is matched if a shorter one is. */
  lemma MatchMono(rule: Rule, p: string, s: string)
    requires p <= s && Match(rule, p) > 0
    ensures Match(rule, s) > 0
  {
    var u := SecretAt(rule, p);
    PrefixOfPrefix(u, p, s);
    MatchPrefix(rule, u, s);
  }

  lemma SubstringAt(s: string, i: nat, u: string)
    requires i <= |s| && u <= s[i..]
    ensures i + |u| <= |s| && s[i..i + |u|] == u
  {
  }

  lemma SecretMatches(rule: Rule, s: string, i: nat, j: nat)
    requires i <= j <= |s| && InLang(rule, s[i..j])
    ensures Match(rule, s[i..]) > 0
  {
    assert s[i..j] <= s[i..];
    MatchPrefix(rule, s[i..j], s[i..]);
  }

  lemma MatchContains(rule: Rule, s: string, i: nat)
    requires i <= |s| && Match(rule, s[i..]) > 0
    ensures Contains(rule, s)
  {
    var u := SecretAt(rule, s[i..]);
    SubstringAt(s, i, u);
  }

  /** A text is clean exactly if it contains no secret. */
  lemma CleanIffNoSecret(rule: Rule, s: string)
    ensures Clean(rule, s) <==> !Contains(rule, s)
  {
    if Contains(rule, s) {
      var i, j :| 0 <= i <= j <= |s| && InLang(rule, s[i..j]);
      SecretMatches(rule, s, i, j);
      if Clean(rule, s) {
        CleanAt(rule, s, i);
      }
    }
    if !Clean(rule, s) {
      var i := NotCleanHasMatch(rule, s);
      MatchContains(rule, s, i);
    }
  }

  // ---------- secrets and brackets ----------

  predicate BracketFree(s: string) { '[' !in s }

  ghost predicate NoBrackets(ps: seq<Part>) {
    forall p :: p in ps ==> !In(p.cls, '[')
  }

  lemma {:induction false} SpelledBracketFree(ps: seq<Part>, u: string)
    requires NoBrackets(ps) && Spelled(ps, u)
    ensures BracketFree(u)
  {
    if ps != [] {
      var a, rest := SpelledStep(ps[0], ps[1..], u) by { assert ps == [ps[0]] + ps[1..]; }
      SpelledBracketFree(ps[1..], rest);
      assert BracketFree(a) by { assert !In(ps[0].cls, '['); }
    }
  }

  lemma PartsNoBrackets(rule: Rule)
    requires rule !in {Password, Pem}
    ensures NoBrackets(Parts(rule))
  {
  }

  lemma WordBracketFree(rule: Rule, w: string)
    requires w in Words(rule)
    ensures BracketFree(w)
  {
    match rule
    case Aws =>
    case Bearer =>
    case Password =>
    case Jwt =>
    case Pem => PemWordBracketFree(w);
    case Pat =>
    case HexKv =>
  }

  lemma PemWordBracketFree(w: string)
    requires w in Words(Pem)
    ensures BracketFree(w)
  {
  }

  lemma {:induction false} FoldBracket(k: string, w: string)
    requires |w| == |k| && Spells(k, w) && BracketFree(w)
    ensures BracketFree(k)
  {
    if w != "" {
      FoldBracket(k[1..], w[1..]);
      assert k == [k[0]] + k[1..] && FoldsTo(k[0], w[0]) && w[0] != '[';
    }
  }

  /** No head has a bracket; case folding makes none either. */
  lemma HeadBracketFree(rule: Rule, k: string)
    requires IsHead(rule, k)
    ensures BracketFree(k)
  {
    if AnyCase(rule) {
      var w :| w in Words(rule) && |w| == |k| && Spells(k, w);
      WordBracketFree(rule, w);
      FoldBracket(k, w);
    } else {
      WordBracketFree(rule, k);
    }
  }

  lemma LangBracketFree(rule: Rule, u: string)
    requires rule !in {Password, Pem} && InLang(rule, u)
    ensures BracketFree(u)
  {
    var k, v :| Joined(rule, u, k, v);
    HeadBracketFree(rule, k);
    PartsNoBrackets(rule);
    SpelledBracketFree(Parts(rule), v);
  }

  // ---------- what is kept is where it was ----------

  lemma FirstKept(p: string, ps: seq<Piece>)
    requires p != "" && BracketFree(p) && p <= Render(ps)
    ensures ps != [] && ps[0] == Keep(p[0]) && p[1..] <= Render(ps[1..])
  {
    assert p[0] == Render(ps)[0];
    assert ps[0].Keep? ==> Render(ps)[1..] == Render(ps[1..]);
  }

  lemma ConsSplit(c: char, p: string, t: string, s: string)
    requires t == p + s
    ensures [c] + t == ([c] + p) + s
  {
  }

  /** A bracket-free start of the rewritten text is a start of the original one. */
  lemma {:induction false} KeptSplit(p: string, ps: seq<Piece>)
    requires BracketFree(p) && p <= Render(ps)
    ensures |p| <= |ps| && Render(ps) == p + Render(ps[|p|..]) && Source(ps) == p + Source(ps[|p|..])
    ensures p <= Plain(ps)
  {
    if p == "" {
      assert ps[0..] == ps;
    } else {
      FirstKept(p, ps);
      var q := p[1..];
      KeptSplit(q, ps[1..]);
      var rest := ps[|p|..];
      assert ps[1..][|q|..] == rest && p == [p[0]] + q;
      ConsSplit(p[0], q, Render(ps[1..]), Render(rest));
      ConsSplit(p[0], q, Source(ps[1..]), Source(rest));
    }
  }

  lemma {:induction false} PlainIsPrefix(ps: seq<Piece>)
    ensures Plain(ps) <= Source(ps)
  {
    if ps != [] && ps[0].Keep? {
      PlainIsPrefix(ps[1..]);
    }
  }

  // ---------- what may be hidden ----------

  /** A hidden text that cannot have separated the parts of a secret the marker joins. */
  predicate HideOk(rule: Rule, x: string) {
    && (rule == Password ==> x != "" && In(Value, x[0]))
    && (rule == Pem ==> '\n' !in x || FooterEnd(x) >= 0)
  }

  predicate HidesOk(rule: Rule, ps: seq<Piece>) {
    ps != [] ==> (ps[0].Hide? ==> HideOk(rule, ps[0].x)) && HidesOk(rule, ps[1..])
  }

  // ---------- footers survive backwards ----------

  lemma FooterExtend(x: string, t: string)
    requires FooterEnd(x) >= 0
    ensures FooterEnd(x + t) >= 0
  {
    var n := FooterEnd(x);
    FooterShape(x);
    FooterComplete(x[..n], x[n..] + t);
    Flat3(x[..n], x[n..], t);
    assert x == x[..n] + x[n..];
  }

  lemma {:induction false} FooterSkips(a: string, t: string)
    requires '-' !in a && FooterEnd(a + t) >= 0
    ensures FooterEnd(t) >= 0
  {
    if a == "" {
      assert a + t == t;
    } else {
      NoFooterAt(a + t, a[0]);
      assert (a + t)[1..] == a[1..] + t;
      FooterSkips(a[1..], t);
    }
  }

  lemma NoFooterAt(s: string, c: char)
    requires s != "" && s[0] == c != '-'
    ensures FooterHere(s) == 0
  {
    assert END_MARK[0] == '-';
  }

  lemma {:induction false} KeySkips(a: string, t: string)
    requires 'P' !in a && KeyEnd(a + t) >= 0
    ensures KeyEnd(t) >= 0
  {
    if a == "" {
      assert a + t == t;
    } else {
      NoKeyAt(a + t, a[0]);
      assert (a + t)[1..] == a[1..] + t;
      KeySkips(a[1..], t);
    }
  }

  lemma NoKeyAt(s: string, c: char)
    requires s != "" && s[0] == c != 'P'
    ensures !Leads(KEY_MARK, s)
  {
    assert KEY_MARK[0] == 'P';
  }

  lemma {:induction false} KeyPrepend(a: string, t: string)
    requires '\n' !in a && KeyEnd(t) >= 0
    ensures KeyEnd(a + t) >= 0
  {
    if a == "" {
      assert a + t == t;
    } else {
      KeyPrepend(a[1..], t);
      KeyEndCons(a[0], a[1..] + t);
      assert a + t == [a[0]] + (a[1..] + t);
    }
  }

  lemma KeyMarkKept(ps: seq<Piece>)
    requires Leads(KEY_MARK, Render(ps))
    ensures KeyEnd(Source(ps)) >= 0
  {
    LeadsIff(KEY_MARK, Render(ps));
    KeptSplit(KEY_MARK, ps);
    KeyEndExists("", Source(ps[|KEY_MARK|..]));
    assert Source(ps) == "" + Source(ps);
  }

  /** A key mark on the rewritten line was on the original one, unless a hidden text brings a
      footer of its own. */
  lemma {:induction false} KeyKept(ps: seq<Piece>)
    requires HidesOk(Pem, ps) && KeyEnd(Render(ps)) >= 0
    ensures KeyEnd(Source(ps)) >= 0 || FooterEnd(Source(ps)) >= 0
  {
    if Leads(KEY_MARK, Render(ps)) {
      KeyMarkKept(ps);
    } else {
      var rest := ps[1..];
      match ps[0]
      case Hide(x) =>
        KeySkips(MARKER, Render(rest));
        KeyKept(rest);
        KeyBehind(x, Source(rest));
      case Keep(c) =>
        assert Render(ps)[0] == c && Render(ps)[1..] == Render(rest);
        KeyKept(rest);
        KeyBehind([c], Source(rest));
    }
  }

  lemma KeyBehind(x: string, t: string)
    requires HideOk(Pem, x) && (KeyEnd(t) >= 0 || FooterEnd(t) >= 0)
    ensures KeyEnd(x + t) >= 0 || FooterEnd(x + t) >= 0
  {
    if FooterEnd(t) >= 0 {
      FooterPrepend(x, t);
    } else if '\n' !in x {
      KeyPrepend(x, t);
    } else {
      FooterExtend(x, t);
    }
  }

  /** A footer of the rewritten text was one of the original text. */
  lemma {:induction false} FooterKept(ps: seq<Piece>)
    requires HidesOk(Pem, ps) && FooterEnd(Render(ps)) >= 0
    ensures FooterEnd(Source(ps)) >= 0
  {
    var rest := ps[1..];
    match ps[0]
    case Hide(x) =>
      FooterSkips(MARKER, Render(rest));
      FooterKept(rest);
      FooterPrepend(x, Source(rest));
    case Keep(c) =>
      assert Render(ps)[1..] == Render(rest);
      if FooterHere(Render(ps)) == 0 {
        FooterKept(rest);
        FooterPrepend([c], Source(rest));
      } else {
        FooterKeptHere(ps);
      }
  }

  lemma FooterKeptHere(ps: seq<Piece>)
    requires HidesOk(Pem, ps) && FooterHere(Render(ps)) > 0
    ensures FooterEnd(Source(ps)) >= 0
  {
    LeadsIff(END_MARK, Render(ps));
    KeptSplit(END_MARK, ps);
    var tail := ps[|END_MARK|..];
    assert Render(ps)[|END_MARK|..] == Render(tail);
    HidesOkTail(ps, |END_MARK|);
    KeyKept(tail);
    if FooterEnd(Source(tail)) >= 0 {
      FooterPrepend(END_MARK, Source(tail));
    } else {
      FooterAtOnce(Source(tail));
    }
  }

  lemma {:induction false} HidesOkTail(ps: seq<Piece>, n: nat)
    requires HidesOk(Pem, ps) && n <= |ps|
    ensures HidesOk(Pem, ps[n..])
  {
    if n > 0 {
      assert ps[1..][n - 1..] == ps[n..];
      HidesOkTail(ps[1..], n - 1);
    }
  }

  // ---------- heads ----------

  /** No secret starts at the first kept character of the pieces. */
  predicate QuietHead(rule: Rule, ps: seq<Piece>) {
    if rule in {Password, Pem} then Match(rule, Source(ps)) == 0 else Match(rule, Plain(ps)) == 0
  }

  lemma PlainHead(rule: Rule, ps: seq<Piece>)
    requires rule !in {Password, Pem} && Match(rule, Plain(ps)) == 0
    ensures Match(rule, Render(ps)) == 0
  {
    if Match(rule, Render(ps)) > 0 {
      var u := SecretAt(rule, Render(ps));
      LangBracketFree(rule, u);
      KeptSplit(u, ps);
      MatchPrefix(rule, u, Plain(ps));
    }
  }

  lemma PemHead(ps: seq<Piece>)
    requires HidesOk(Pem, ps) && Match(Pem, Source(ps)) == 0
    ensures Match(Pem, Render(ps)) == 0
  {
    var n := HeadLen(Pem, Render(ps));
    if n > 0 && FooterEnd(Render(ps)[n..]) >= 0 {
      var h := Render(ps)[..n];
      HeadSound(Pem, Render(ps));
      HeadBracketFree(Pem, h);
      KeptSplit(h, ps);
      var tail := ps[n..];
      assert Render(ps)[n..] == Render(tail) && Source(ps)[n..] == Source(tail);
      HidesOkTail(ps, n);
      FooterKept(tail);
      HeadComplete(Pem, h, Source(tail));
    }
  }

  /** Behind what is kept comes a kept character or the start of a hidden text. */
  lemma {:induction false} NextKept(p: string, c: char, ps: seq<Piece>) returns (d: char)
    requires HidesOk(Password, ps) && BracketFree(p) && In(Value, c) && p + [c] <= Render(ps)
    ensures In(Value, d) && p + [d] <= Source(ps)
  {
    if p == "" {
      assert Render(ps)[0] == c;
      d := if ps[0].Keep? then c else ps[0].x[0];
      assert Source(ps)[0] == d;
    } else {
      FirstOfRender(p, c, ps);
      d := NextKept(p[1..], c, ps[1..]);
      assert p + [d] == [p[0]] + (p[1..] + [d]);
    }
  }

  lemma FirstOfRender(p: string, c: char, ps: seq<Piece>)
    requires p != "" && BracketFree(p) && p + [c] <= Render(ps)
    ensures ps != [] && ps[0] == Keep(p[0]) && p[1..] + [c] <= Render(ps[1..])
  {
    assert p <= p + [c];
    PrefixOfPrefix(p, p + [c], Render(ps));
    FirstKept(p, ps);
    assert Render(ps) == [p[0]] + Render(ps[1..]);
    assert (p + [c])[1..] == p[1..] + [c];
  }

  /** A keyword and its separators, and any value character behind them, are a secret. */
  lemma ShortPassword(k: string, a: string, d: char)
    requires IsHead(Password, k) && a != "" && All(Sep, a) && In(Value, d)
    ensures InLang(Password, k + a + [d])
  {
    ValueSpelledOut(a, [d]);
    Flat3(k, a, [d]);
    assert Joined(Password, k + a + [d], k, a + [d]);
  }

  /** The keyword, the separators and the first value character of a password secret. */
  lemma PasswordStart(u: string) returns (k: string, a: string, c: char)
    requires InLang(Password, u)
    ensures k + a + [c] <= u && IsHead(Password, k) && a != "" && All(Sep, a) && In(Value, c)
  {
    var v;
    k, v :| Joined(Password, u, k, v);
    a, c := ValueStart(v);
    assert k + (a + [c]) <= u;
    Flat3(k, a, [c]);
  }

  lemma ValueStart(v: string) returns (a: string, c: char)
    requires Spelled(Parts(Password), v)
    ensures a + [c] <= v && a != "" && All(Sep, a) && In(Value, c)
  {
    var n := ValueParts(v);
    a, c := v[..n], v[n];
    assert v[..n + 1] == a + [c];
  }

  lemma PasswordHead(ps: seq<Piece>)
    requires HidesOk(Password, ps) && Match(Password, Source(ps)) == 0
    ensures Match(Password, Render(ps)) == 0
  {
    if Match(Password, Render(ps)) > 0 {
      var u := SecretAt(Password, Render(ps));
      var k, a, c := PasswordStart(u);
      HeadBracketFree(Password, k);
      PrefixOfPrefix(k + a + [c], u, Render(ps));
      SepBracketFree(a);
      var d := NextKept(k + a, c, ps);
      ShortPassword(k, a, d);
      MatchPrefix(Password, k + a + [d], Source(ps));
    }
  }

  lemma SepBracketFree(a: string)
    requires All(Sep, a)
    ensures BracketFree(a)
  {
    assert '[' in a ==> In(Sep, '[');
  }

  /** Every kept head is quiet and every hidden text harmless. */
  predicate Quiet(rule: Rule, ps: seq<Piece>) {
    ps != [] ==>
      && (if ps[0].Keep? then QuietHead(rule, ps) else HideOk(rule, ps[0].x))
      && Quiet(rule, ps[1..])
  }

  lemma {:induction false} QuietHidesOk(rule: Rule, ps: seq<Piece>)
    requires Quiet(rule, ps)
    ensures HidesOk(rule, ps)
  {
    if ps != [] {
      QuietHidesOk(rule, ps[1..]);
    }
  }

  lemma HeadClean(rule: Rule, ps: seq<Piece>)
    requires Quiet(rule, ps) && ps != [] && ps[0].Keep?
    ensures Match(rule, Render(ps)) == 0
  {
    QuietHidesOk(rule, ps);
    if rule == Password {
      PasswordHead(ps);
    } else if rule == Pem {
      PemHead(ps);
    } else {
      PlainHead(rule, ps);
    }
  }

  // ---------- the marker ----------

  /** How a secret starts: a head, and for the keywords a separator behind it. */
  predicate Starts(rule: Rule, k: string, c: char) {
    IsHead(rule, k) && (AnyCase(rule) ==> In(Sep, c))
  }

  lemma JoinStart(k: string, v: string)
    requires v != ""
    ensures k + [v[0]] <= k + v
  {
  }

  lemma LangStart(rule: Rule, u: string) returns (k: string, c: char)
    requires InLang(rule, u)
    ensures Starts(rule, k, c) && k + [c] <= u
  {
    var v;
    k, v :| Joined(rule, u, k, v);
    TailStart(rule, v);
    c := v[0];
    JoinStart(k, v);
  }

  lemma TailStart(rule: Rule, v: string)
    requires IsTail(rule, v)
    ensures v != "" && (AnyCase(rule) ==> In(Sep, v[0]))
  {
    if rule == Pem {
      var body, mid :| FooterParts(v, body, mid);
    } else {
      SpelledFirst(Parts(rule), v);
    }
  }

  /** No secret starts inside a marker. */
  lemma MarkerQuiet(rule: Rule, j: nat, t: string)
    requires j < |MARKER|
    ensures Match(rule, MARKER[j..] + t) == 0
  {
    var s := MARKER[j..] + t;
    if Match(rule, s) > 0 {
      var u := SecretAt(rule, s);
      var k, c := LangStart(rule, u);
      PrefixOfPrefix(k + [c], u, s);
      NoStartInMarker(rule, k, c, j, t);
    }
  }

  lemma NoStartInMarker(rule: Rule, k: string, c: char, j: nat, t: string)
    requires j < |MARKER| && Starts(rule, k, c)
    ensures !(k + [c] <= MARKER[j..] + t)
  {
    var u := k + [c];
    if u <= MARKER[j..] + t {
      assert forall i :: 0 <= i < |u| && j + i < |MARKER| ==> u[i] == MARKER[j + i];
      if AnyCase(rule) {
        var w :| w in Words(rule) && |w| == |k| && Spells(k, w);
        WordLetters(rule, w);
        SpellsPrefix(k, [c], w);
        assert j == 10 && |u| == 7 ==> u[6] == MARKER[16];
        NoWordInMarker(rule, w, u, j);
      } else {
        NoLiteralInMarker(rule, k, u, j);
      }
    }
  }

  lemma TwoLetters(u: string, w: string)
    requires |w| >= 2 && |u| >= 2 && Spells(u, w)
    ensures FoldsTo(u[0], w[0]) && FoldsTo(u[1], w[1])
  {
    assert w[1..][0] == w[1] && u[1..][0] == u[1];
  }

  /** Where in the marker a keyword's first letter can stand. */
  lemma FirstLetterInMarker(k: char, c: char, j: nat)
    requires k in "pskta" && j < |MARKER| && c == MARKER[j] && FoldsTo(c, k)
    ensures (k == 's' && j == 10) || (k == 't' && (j == 6 || j == 15)) || (k == 'a' && j == 4)
  {
  }

  lemma WordLetters(rule: Rule, w: string)
    requires AnyCase(rule) && w in Words(rule)
    ensures |w| >= 3 && w[0] in "pskta" && (w[0] == 's' ==> |w| == 6) && (w[0] == 't' ==> w[1] == 'o') && (w[0] == 'a' ==> w[1] == 'p')
  {
  }

  /** Among the keywords only "secret" has the first two letters of some place in the marker. */
  lemma OnlySecret(rule: Rule, w: string, c: char, d: char, j: nat)
    requires AnyCase(rule) && w in Words(rule) && j < |MARKER| && c == MARKER[j] && (j < 16 ==> d == MARKER[j + 1])
    requires |w| >= 2 && FoldsTo(c, w[0]) && FoldsTo(d, w[1])
    ensures j == 10 && |w| == 6
  {
    WordLetters(rule, w);
    FirstLetterInMarker(w[0], c, j);
  }

  /** A text that runs along the marker from offset j starts with no keyword and a separator. */
  lemma NoWordInMarker(rule: Rule, w: string, u: string, j: nat)
    requires AnyCase(rule) && w in Words(rule) && |w| + 1 == |u| && j < |MARKER|
    requires u[0] == MARKER[j] && (j < 16 ==> u[1] == MARKER[j + 1]) && (j == 10 && |u| == 7 ==> u[6] == ']')
    ensures !(Spells(u, w) && In(Sep, u[|w|]))
  {
    if Spells(u, w) {
      WordLetters(rule, w);
      TwoLetters(u, w);
      OnlySecret(rule, w, u[0], u[1], j);
    }
  }

  lemma NoLiteralInMarker(rule: Rule, k: string, u: string, j: nat)
    requires !AnyCase(rule) && k in Words(rule) && k <= u && j < |MARKER|
    ensures exists i :: 0 <= i < |u| && j + i < |MARKER| && u[i] != MARKER[j + i]
  {
    assert |k| >= 2 && k[0] == u[0] && k[1] == u[1];
    if u[0] == MARKER[j] {
      assert j == 4 && u[1] == 'K';
      assert u[1] != MARKER[j + 1];
    }
  }

  lemma CleanCons(rule: Rule, c: char, t: string)
    requires Match(rule, [c] + t) == 0 && Clean(rule, t)
    ensures Clean(rule, [c] + t)
  {
    assert ([c] + t)[1..] == t;
  }

  lemma MarkerCons(j: nat, t: string)
    requires j < |MARKER|
    ensures MARKER[j..] + t == [MARKER[j]] + (MARKER[j + 1..] + t)
  {
  }

  lemma {:induction false} MarkerClean(rule: Rule, j: nat, t: string)
    requires j <= |MARKER| && Clean(rule, t)
    ensures Clean(rule, MARKER[j..] + t)
    decreases |MARKER| - j
  {
    if j == |MARKER| {
      assert MARKER[j..] + t == t;
    } else {
      MarkerQuiet(rule, j, t);
      MarkerClean(rule, j + 1, t);
      MarkerCons(j, t);
      CleanCons(rule, MARKER[j], MARKER[j + 1..] + t);
    }
  }

  /** The rewritten text holds no secret if its kept heads are quiet. */
  lemma {:induction false} RenderClean(rule: Rule, ps: seq<Piece>)
    requires Quiet(rule, ps)
    ensures Clean(rule, Render(ps))
  {
    if ps != [] {
      RenderClean(rule, ps[1..]);
      if ps[0].Keep? {
        HeadClean(rule, ps);
        assert Render(ps)[1..] == Render(ps[1..]);
      } else {
        MarkerClean(rule, 0, Render(ps[1..]));
        assert MARKER[0..] == MARKER;
      }
    }
  }
}
