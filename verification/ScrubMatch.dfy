/** The engine's matches are exactly the rules' languages: a match is a secret, and a text
    that starts with a secret is matched. */
module ScrubMatch {
  import opened Scrub

  // ---------- runs ----------

  lemma {:induction false} RunIs(cls: Class, a: string, rest: string)
    requires All(cls, a) && (rest == "" || !In(cls, rest[0]))
    ensures Run(cls, a + rest) == |a|
  {
    if a == "" {
      assert a + rest == rest;
    } else {
      assert In(cls, a[0]) && (a + rest)[0] == a[0] && (a + rest)[1..] == a[1..] + rest;
      RunIs(cls, a[1..], rest);
    }
  }

  lemma {:induction false} RunAtLeast(cls: Class, a: string, rest: string)
    requires All(cls, a)
    ensures Run(cls, a + rest) >= |a|
  {
    if a != "" {
      assert In(cls, a[0]) && (a + rest)[0] == a[0] && (a + rest)[1..] == a[1..] + rest;
      RunAtLeast(cls, a[1..], rest);
    }
  }

  lemma {:induction false} RunSound(cls: Class, s: string)
    ensures All(cls, s[..Run(cls, s)])
  {
    if Run(cls, s) > 0 {
      RunSound(cls, s[1..]);
      assert s[..Run(cls, s)] == [s[0]] + s[1..][..Run(cls, s) - 1];
    }
  }

  // ---------- heads ----------

  lemma {:induction false} SpellsPrefix(k: string, rest: string, w: string)
    requires Spells(k, w)
    ensures Spells(k + rest, w)
  {
    if w != "" {
      SpellsPrefix(k[1..], rest, w[1..]);
      assert (k + rest)[0] == k[0] && (k + rest)[1..] == k[1..] + rest;
    }
  }

  /** Words that cannot be confused: they start with different letters. */
  predicate Distinct(words: seq<string>) {
    && (forall w :: w in words ==> w != "" && Lower(w[0]))
    && (forall w, v :: w in words && v in words && w[0] == v[0] ==> w == v)
  }

  lemma {:induction false} KeywordIs(words: seq<string>, s: string, w: string)
    requires Distinct(words) && w in words && Spells(s, w)
    ensures KeywordLen(words, s) == |w| > 0
  {
    assert forall v :: v in words[1..] ==> v in words;
    assert FoldsTo(s[0], w[0]);
    if words[0] != w {
      assert w in words[1..];
      OtherLetter(s[0], w[0], words[0][0]);
      KeywordIs(words[1..], s, w);
    }
  }

  lemma OtherLetter(c: char, k: char, l: char)
    requires Lower(k) && Lower(l) && k != l && FoldsTo(c, k)
    ensures !FoldsTo(c, l)
  {
  }

  /** No literal is a prefix of another. */
  predicate PrefixFree(literals: seq<string>) {
    && (forall h :: h in literals ==> h != "")
    && (forall g, h :: g in literals && h in literals && g <= h ==> g == h)
  }

  lemma PrefixesCompare(a: string, b: string, s: string)
    requires a <= s && b <= s
    ensures a <= b || b <= a
  {
    if |a| <= |b| {
      assert a == s[..|a|] == b[..|a|];
    } else {
      assert b == s[..|b|] == a[..|b|];
    }
  }

  lemma {:induction false} LiteralIs(literals: seq<string>, s: string, h: string)
    requires PrefixFree(literals) && h in literals && h <= s
    ensures LiteralLen(literals, s) == |h| > 0
  {
    assert forall g :: g in literals[1..] ==> g in literals;
    if literals[0] != h {
      assert h in literals[1..] && literals[0] in literals;
      LeadsIff(literals[0], s);
      if literals[0] <= s {
        PrefixesCompare(literals[0], h, s);
      }
      LiteralIs(literals[1..], s, h);
    } else {
      LeadsIff(h, s);
    }
  }

  lemma {:induction false} KeywordSound(words: seq<string>, s: string) returns (w: string)
    requires KeywordLen(words, s) > 0
    ensures w in words && |w| == KeywordLen(words, s) && Spells(s[..|w|], w)
  {
    if Spells(s, words[0]) && words[0] != "" {
      w := words[0];
      SpellsCut(s, w);
    } else {
      w := KeywordSound(words[1..], s);
    }
  }

  lemma {:induction false} SpellsCut(s: string, w: string)
    requires Spells(s, w)
    ensures |w| <= |s| && Spells(s[..|w|], w)
  {
    if w != "" {
      SpellsCut(s[1..], w[1..]);
      assert s[..|w|][1..] == s[1..][..|w| - 1];
    }
  }

  lemma {:induction false} LiteralSound(literals: seq<string>, s: string)
    requires LiteralLen(literals, s) > 0
    ensures s[..LiteralLen(literals, s)] in literals
  {
    LeadsIff(literals[0], s);
    if literals[0] <= s {
      assert s[..|literals[0]|] == literals[0];
    } else {
      LiteralSound(literals[1..], s);
    }
  }

  lemma WordsDistinct(rule: Rule)
    requires AnyCase(rule)
    ensures Distinct(Words(rule))
  {
  }

  lemma WordsPrefixFree(rule: Rule)
    ensures !AnyCase(rule) ==> PrefixFree(Words(rule))
  {
    if rule == Pem {
      var ws := Words(Pem);
      assert ws[0][11] == 'R' && ws[1][11] == 'E' && ws[2][11] == 'O' && ws[3][11] == 'P';
    }
  }

  lemma HeadSound(rule: Rule, s: string)
    requires HeadLen(rule, s) > 0
    ensures IsHead(rule, s[..HeadLen(rule, s)])
  {
    if AnyCase(rule) {
      var w := KeywordSound(Words(rule), s);
    } else {
      LiteralSound(Words(rule), s);
    }
  }

  lemma HeadComplete(rule: Rule, k: string, t: string)
    requires IsHead(rule, k)
    ensures HeadLen(rule, k + t) == |k| > 0
  {
    if AnyCase(rule) {
      var w :| w in Words(rule) && |w| == |k| && Spells(k, w);
      WordsDistinct(rule);
      SpellsPrefix(k, t, w);
      KeywordIs(Words(rule), k + t, w);
    } else {
      WordsPrefixFree(rule);
      LiteralIs(Words(rule), k + t, k);
    }
  }

  // ---------- footers ----------

  lemma LeadsJoin(word: string, t: string)
    ensures Leads(word, word + t)
  {
    LeadsIff(word, word + t);
  }

  lemma {:induction false} KeyEndExists(mid: string, t: string)
    requires '\n' !in mid
    ensures KeyEnd(mid + (KEY_MARK + t)) >= 0
  {
    var s := mid + (KEY_MARK + t);
    if mid != "" {
      KeyEndExists(mid[1..], t);
      assert s[1..] == mid[1..] + (KEY_MARK + t);
      assert s[0] == mid[0];
    } else {
      LeadsJoin(KEY_MARK, t);
      assert s == KEY_MARK + t;
    }
  }

  lemma FooterAtOnce(after: string)
    requires KeyEnd(after) >= 0
    ensures FooterHere(END_MARK + after) == |END_MARK| + KeyEnd(after) + |KEY_MARK|
  {
    LeadsJoin(END_MARK, after);
    assert (END_MARK + after)[|END_MARK|..] == after;
  }

  lemma FooterCons(c: char, t: string)
    requires FooterEnd(t) >= 0
    ensures FooterEnd([c] + t) >= 0
  {
    assert ([c] + t)[1..] == t;
  }

  lemma {:induction false} FooterPrepend(a: string, t: string)
    requires FooterEnd(t) >= 0
    ensures FooterEnd(a + t) >= 0
  {
    if a == "" {
      assert a + t == t;
    } else {
      FooterPrepend(a[1..], t);
      FooterCons(a[0], a[1..] + t);
      assert a + t == [a[0]] + (a[1..] + t);
    }
  }

  lemma FooterExists(body: string, mid: string, t: string)
    requires '\n' !in mid
    ensures FooterEnd(body + (END_MARK + (mid + (KEY_MARK + t)))) >= 0
  {
    KeyEndExists(mid, t);
    FooterAtOnce(mid + (KEY_MARK + t));
    FooterPrepend(body, END_MARK + (mid + (KEY_MARK + t)));
  }

  lemma KeyEndCons(c: char, t: string)
    requires c != '\n' && KeyEnd(t) >= 0
    ensures KeyEnd([c] + t) == KeyEnd(t) + 1
  {
    assert ([c] + t)[1..] == t;
  }

  /** The last key mark of a line, with no line break before it. */
  lemma {:induction false} KeyEndSound(s: string) returns (mid: string, rest: string)
    requires KeyEnd(s) >= 0
    ensures '\n' !in mid && |mid| == KeyEnd(s) && s == mid + (KEY_MARK + rest)
  {
    if s[0] != '\n' && KeyEnd(s[1..]) >= 0 {
      var m;
      m, rest := KeyEndSound(s[1..]);
      mid := [s[0]] + m;
      Flat3([s[0]], m, KEY_MARK + rest);
      assert s == [s[0]] + s[1..];
    } else {
      LeadsIff(KEY_MARK, s);
      mid, rest := "", s[|KEY_MARK|..];
      assert s == KEY_MARK + rest;
    }
  }

  lemma FooterFirst(s: string)
    requires FooterHere(s) > 0
    ensures IsTail(Pem, s[..FooterHere(s)])
  {
    LeadsIff(END_MARK, s);
    var after := s[|END_MARK|..];
    var mid, rest := KeyEndSound(after);
    FooterIs(s, mid, rest);
  }

  lemma FooterIs(s: string, mid: string, rest: string)
    requires '\n' !in mid && s == END_MARK + (mid + (KEY_MARK + rest))
    ensures IsTail(Pem, s[..|END_MARK| + |mid| + |KEY_MARK|])
  {
    var u := "" + END_MARK + mid + KEY_MARK;
    assert s == u + rest;
    assert s[..|u|] == u;
    assert FooterParts(u, "", mid);
  }

  lemma FooterLater(c: char, t: string, n: nat, body: string, mid: string)
    requires n <= |t| && FooterParts(t[..n], body, mid)
    ensures FooterParts(([c] + t)[..n + 1], [c] + body, mid)
  {
    assert ([c] + t)[..n + 1] == [c] + t[..n];
  }

  /** What a footer consists of. */
  lemma {:induction false} FooterShape(s: string)
    requires FooterEnd(s) >= 0
    ensures IsTail(Pem, s[..FooterEnd(s)])
  {
    if FooterHere(s) > 0 {
      FooterFirst(s);
    } else {
      FooterShape(s[1..]);
      var n := FooterEnd(s[1..]);
      var body, mid :| FooterParts(s[1..][..n], body, mid);
      FooterLater(s[0], s[1..], n, body, mid);
      assert s == [s[0]] + s[1..];
    }
  }

  // ---------- greedy matching of parts ----------

  /** The greedy match spells the parts. */
  lemma {:induction false} GreedySound(ps: seq<Part>, s: string)
    requires Greedy(ps, s) >= 0
    ensures Spelled(ps, s[..Greedy(ps, s)])
  {
    if ps != [] {
      var n := Fit(ps[0], s);
      var m := Greedy(ps[1..], s[n..]);
      GreedySound(ps[1..], s[n..]);
      FitAllowed(ps[0], s);
      SpelledCons(ps[0], ps[1..], s[..n], s[n..][..m]);
      Behind(s, n, m);
      assert ps == [ps[0]] + ps[1..];
    }
  }

  lemma FitAllowed(p: Part, s: string)
    requires Fit(p, s) >= p.min
    ensures p.Allows(Fit(p, s)) && All(p.cls, s[..Fit(p, s)])
  {
    RunSound(p.cls, s);
    assert s[..Fit(p, s)] == s[..Run(p.cls, s)][..Fit(p, s)];
  }

  predicate Exact(p: Part) { !p.open && p.more == 0 }

  ghost predicate Disjoint(a: Class, b: Class) {
    forall c :: In(a, c) ==> !In(b, c)
  }

  predicate Optional(ps: seq<Part>) {
    forall p :: p in ps ==> p.min == 0
  }

  /** A part that cannot take what the parts behind it need. */
  ghost predicate Yields(p: Part, rest: seq<Part>) {
    || Exact(p) || rest == []
    || (Disjoint(p.cls, rest[0].cls) && (rest[0].min > 0 || |rest| == 1))
  }

  /** Greedy matching needs no backtracking. */
  ghost predicate Certain(ps: seq<Part>) {
    ps != [] ==> Yields(ps[0], ps[1..]) && Certain(ps[1..])
  }

  lemma {:induction false} OptionalFits(ps: seq<Part>, s: string)
    requires Optional(ps)
    ensures Greedy(ps, s) >= 0
  {
    if ps != [] {
      OptionalFits(ps[1..], s[Fit(ps[0], s)..]);
    }
  }

  /** A text that starts with what the parts spell is matched, to at least that length. */
  lemma {:induction false} GreedyComplete(ps: seq<Part>, u: string, t: string)
    requires Certain(ps) && Spelled(ps, u)
    ensures Greedy(ps, u + t) >= |u|
  {
    if ps != [] {
      var p, rest := ps[0], ps[1..];
      var n: nat :| Taken(ps, u, n);
      var a, v := u[..n], u[n..];
      assert Spelled(rest, v);
      assert u + t == a + (v + t);
      RunAtLeast(p.cls, a, v + t);
      if v == "" && Optional(rest) {
        OptionalFits(rest, (u + t)[Fit(p, u + t)..]);
      } else {
        if !Exact(p) {
          SpelledFirst(rest, v);
          RunIs(p.cls, a, v + t);
        }
        assert (u + t)[n..] == v + t;
        GreedyComplete(rest, v, t);
      }
    }
  }

  lemma SpelledFirst(ps: seq<Part>, v: string)
    requires ps != [] && Spelled(ps, v) && (ps[0].min > 0 || (|ps| == 1 && v != ""))
    ensures v != "" && In(ps[0].cls, v[0])
  {
    var n: nat :| Taken(ps, v, n);
    assert Spelled(ps[1..], v[n..]);
    assert v[0..] == v;
    assert n > 0 ==> v[..n][0] == v[0];
  }

  // ---------- the rules' parts ----------

  lemma CertainCons(p: Part, ps: seq<Part>)
    requires Certain(ps) && Yields(p, ps)
    ensures Certain([p] + ps)
  {
    assert ([p] + ps)[1..] == ps;
  }

  lemma BearerCertain()
    ensures Certain(Parts(Bearer))
  {
    var a, b, c := AtLeast(Space, 1), AtLeast(TokenChar, 1), AtLeast(Equals, 0);
    CertainCons(c, []);
    CertainCons(b, [c]);
    assert [b] + [c] == [b, c] && [a] + [b, c] == [a, b, c];
    CertainCons(a, [b, c]);
  }

  lemma JwtCertain()
    ensures Certain(Parts(Jwt))
  {
    var dot, b, c := Times(Only('.'), 1), AtLeast(Base64, 1), AtLeast(Base64, 0);
    CertainCons(c, []);
    CertainCons(dot, [c]);
    assert [dot] + [c] == [dot, c] && [b] + [dot, c] == [b, dot, c] && [dot] + [b, dot, c] == [dot, b, dot, c];
    CertainCons(b, [dot, c]);
    CertainCons(dot, [b, dot, c]);
    assert [b] + [dot, b, dot, c] == [b, dot, b, dot, c];
    CertainCons(b, [dot, b, dot, c]);
  }

  lemma PatCertain()
    ensures Certain(Parts(Pat))
  {
    var a, b, c := Times(PatKind, 1), Times(Only('_'), 1), Times(Alnum, 36);
    CertainCons(c, []);
    CertainCons(b, [c]);
    assert [b] + [c] == [b, c] && [a] + [b, c] == [a, b, c];
    CertainCons(a, [b, c]);
  }

  lemma PartsCertain(rule: Rule)
    requires rule in {Aws, Bearer, Jwt, Pat}
    ensures Certain(Parts(rule))
  {
    match rule
    case Aws => CertainCons(Times(UpperDigit, 16), []);
    case Bearer => BearerCertain();
    case Jwt => JwtCertain();
    case Pat => PatCertain();
  }

  // ---------- a match is a secret ----------

  lemma SpelledCons(p: Part, ps: seq<Part>, a: string, rest: string)
    requires p.Allows(|a|) && All(p.cls, a) && Spelled(ps, rest)
    ensures Spelled([p] + ps, a + rest)
  {
    assert (a + rest)[..|a|] == a && (a + rest)[|a|..] == rest && ([p] + ps)[1..] == ps;
    assert Taken([p] + ps, a + rest, |a|);
  }

  lemma SpelledStep(p: Part, ps: seq<Part>, v: string) returns (a: string, rest: string)
    requires Spelled([p] + ps, v)
    ensures v == a + rest && p.Allows(|a|) && All(p.cls, a) && Spelled(ps, rest)
  {
    var qs := [p] + ps;
    assert qs[1..] == ps;
    var n: nat :| Taken(qs, v, n);
    a, rest := v[..n], v[n..];
  }

  lemma ValueSpelledOut(a: string, b: string)
    requires a != "" && All(Sep, a) && b != "" && All(Value, b)
    ensures Spelled(Parts(Password), a + b)
  {
    var q := AtLeast(Value, 1);
    SpelledCons(q, [], b, "");
    assert [q] + [] == [q] && b + "" == b;
    SpelledCons(AtLeast(Sep, 1), [q], a, b);
    assert [AtLeast(Sep, 1)] + [q] == Parts(Password);
  }

  /** Separators and a value behind them, whichever of the separators the value takes over. */
  lemma ValueSpelled(rest: string, m: nat)
    requires 0 < m <= Run(Sep, rest) && Run(Value, rest[m..]) > 0
    ensures Spelled(Parts(Password), rest[..m + Run(Value, rest[m..])])
  {
    var v := Run(Value, rest[m..]);
    RunSound(Sep, rest);
    RunSound(Value, rest[m..]);
    assert rest[..m] == rest[..Run(Sep, rest)][..m];
    ValueSpelledOut(rest[..m], rest[m..][..v]);
    Behind(rest, m, v);
  }

  lemma Behind(s: string, k: nat, n: nat)
    requires k + n <= |s|
    ensures s[..k + n] == s[..k] + s[k..][..n]
  {
  }

  /** The separator found can serve as a value, and none behind it can. */
  lemma {:induction false} LastAssignSound(s: string, n: nat)
    requires n <= |s|
    ensures LastAssign(s, n) > 0 ==> In(Value, s[LastAssign(s, n)])
    ensures forall i :: LastAssign(s, n) < i < n ==> !(In(Sep, s[i]) && In(Value, s[i]))
  {
    if n > 1 && s[n - 1] != ':' && s[n - 1] != '=' {
      LastAssignSound(s, n - 1);
    }
  }

  lemma ValueSound(rest: string)
    requires ValueEnd(rest) > 0
    ensures Spelled(Parts(Password), rest[..ValueEnd(rest)])
  {
    var n := Run(Sep, rest);
    if Run(Value, rest[n..]) > 0 {
      ValueSpelled(rest, n);
    } else {
      LastAssignSound(rest, n);
      ValueSpelled(rest, LastAssign(rest, n));
    }
  }

  lemma TailSound(rule: Rule, rest: string)
    requires TailLen(rule, rest) > 0
    ensures IsTail(rule, rest[..TailLen(rule, rest)])
  {
    if rule == Pem {
      FooterShape(rest);
    } else if rule == Password {
      ValueSound(rest);
    } else {
      GreedySound(Parts(rule), rest);
    }
  }

  lemma JoinedIs(rule: Rule, s: string, k: nat, n: nat, m: nat)
    requires k + n == m <= |s| && IsHead(rule, s[..k]) && IsTail(rule, s[k..][..n])
    ensures InLang(rule, s[..m])
  {
    Behind(s, k, n);
    assert Joined(rule, s[..k + n], s[..k], s[k..][..n]);
  }

  lemma MatchParts(rule: Rule, s: string) returns (k: nat, n: nat)
    requires Match(rule, s) > 0
    ensures 0 < k == HeadLen(rule, s) && n == TailLen(rule, s[k..]) > 0 && Match(rule, s) == k + n
  {
    k := HeadLen(rule, s);
    n := TailLen(rule, s[k..]);
  }

  lemma HeadAndTailSound(rule: Rule, s: string, k: nat, rest: string, n: nat)
    requires 0 < k == HeadLen(rule, s) && n == TailLen(rule, rest) > 0
    ensures IsHead(rule, s[..k]) && IsTail(rule, rest[..n])
  {
    HeadSound(rule, s);
    TailSound(rule, rest);
  }

  /** A match is a secret of the rule. */
  lemma MatchSound(rule: Rule, s: string)
    requires Match(rule, s) > 0
    ensures InLang(rule, s[..Match(rule, s)])
  {
    var k, n := MatchParts(rule, s);
    HeadAndTailSound(rule, s, k, s[k..], n);
    JoinedIs(rule, s, k, n, Match(rule, s));
  }

  // ---------- a secret is matched ----------

  /** The separators and the first character of the value. */
  lemma ValueParts(v: string) returns (n: nat)
    requires Spelled(Parts(Password), v)
    ensures 0 < n < |v| && All(Sep, v[..n]) && forall i :: n <= i < |v| ==> In(Value, v[i])
  {
    var p, q := AtLeast(Sep, 1), AtLeast(Value, 1);
    assert Parts(Password) == [p] + ([q] + []);
    var a, w := SpelledStep(p, [q] + [], v);
    var b, e := SpelledStep(q, [], w);
    n := |a|;
    forall i | n <= i < |v| ensures In(Value, v[i]) {
      assert v[i] == b[i - n];
    }
  }

  lemma ValueComplete(v: string, t: string)
    requires Spelled(Parts(Password), v)
    ensures ValueEnd(v + t) >= |v|
  {
    var rest := v + t;
    var m := ValueParts(v);
    assert rest == v[..m] + (v[m..] + t);
    RunAtLeast(Sep, v[..m], v[m..] + t);
    var n := Run(Sep, rest);
    ValueReaches(v, t, m, n);
  }

  lemma ValueReaches(v: string, t: string, m: nat, n: nat)
    requires 0 < m <= n <= |v + t| && m < |v| && n == Run(Sep, v + t)
    requires forall i :: m <= i < |v| ==> In(Value, v[i])
    ensures ValueEnd(v + t) >= |v|
  {
    var rest := v + t;
    if n < |v| {
      var a := v[n..];
      assert rest[n..] == a + t;
      assert All(Value, a);
      RunAtLeast(Value, a, t);
    } else {
      var last := |v| - 1;
      assert rest[last] == v[last];
      RunAt(Sep, rest, last);
      LastAssignSound(rest, n);
      var k := LastAssign(rest, n);
      assert k >= last;
      assert rest[k..][0] == rest[k];
    }
  }

  lemma RunAt(cls: Class, s: string, i: nat)
    requires i < Run(cls, s)
    ensures In(cls, s[i])
  {
    RunSound(cls, s);
    assert s[..Run(cls, s)][i] == s[i];
  }

  lemma FooterFlat(body: string, mid: string, t: string)
    ensures body + END_MARK + mid + KEY_MARK + t == body + (END_MARK + (mid + (KEY_MARK + t)))
  {
    Flat3(body + END_MARK + mid, KEY_MARK, t);
    Flat3(body + END_MARK, mid, KEY_MARK + t);
    Flat3(body, END_MARK, mid + (KEY_MARK + t));
  }

  lemma FooterComplete(v: string, t: string)
    requires IsTail(Pem, v)
    ensures FooterEnd(v + t) > 0
  {
    var body, mid :| FooterParts(v, body, mid);
    FooterExists(body, mid, t);
    FooterFlat(body, mid, t);
  }

  lemma GreedyStep(p: Part, ps: seq<Part>, a: string, t: string)
    requires Fit(p, a + t) == |a| && p.min <= |a| && Greedy(ps, t) >= 0
    ensures Greedy([p] + ps, a + t) == |a| + Greedy(ps, t)
  {
    assert ([p] + ps)[1..] == ps && (a + t)[|a|..] == t;
  }

  /** The digits and the quote behind them. */
  const HEX_TAIL: seq<Part> := [AtLeast(Hex, 32)] + [Maybe(QuoteMark)]

  lemma HexPartsAre()
    ensures Parts(HexKv) == [AtLeast(Sep, 1)] + ([Maybe(QuoteMark)] + HEX_TAIL)
  {
  }

  lemma HexTail(w: string, t: string)
    requires Spelled(HEX_TAIL, w)
    ensures Greedy(HEX_TAIL, w + t) >= |w|
  {
    CertainCons(Maybe(QuoteMark), []);
    CertainCons(AtLeast(Hex, 32), [Maybe(QuoteMark)]);
    GreedyComplete(HEX_TAIL, w, t);
  }

  lemma QuoteFits(q: string, w: string, t: string)
    requires q == "" || q == "'"
    requires Spelled(HEX_TAIL, w)
    ensures Fit(Maybe(QuoteMark), q + (w + t)) == |q|
    ensures q + (w + t) != "" && !In(Sep, (q + (w + t))[0])
  {
    SpelledFirst(HEX_TAIL, w);
    assert (w + t)[0] == w[0] && In(Hex, w[0]);
    RunIs(QuoteMark, q, w + t);
    assert q == "" ==> q + (w + t) == w + t;
  }

  /** Separators, at most one apostrophe, and a long run of hex digits. */
  lemma HexRuns(a: string, q: string, w: string, t: string)
    requires a != "" && All(Sep, a) && (q == "" || q == "'") && Spelled(HEX_TAIL, w)
    ensures Greedy(Parts(HexKv), a + (q + (w + t))) >= |a| + |q| + |w|
  {
    HexPartsAre();
    HexTail(w, t);
    QuoteFits(q, w, t);
    GreedyStep(Maybe(QuoteMark), HEX_TAIL, q, w + t);
    RunIs(Sep, a, q + (w + t));
    GreedyStep(AtLeast(Sep, 1), [Maybe(QuoteMark)] + HEX_TAIL, a, q + (w + t));
  }

  /** A double quote before the digits counts as a separator. */
  lemma HexParts(v: string) returns (a: string, q: string, w: string)
    requires Spelled(Parts(HexKv), v)
    ensures v == a + (q + w) && Spelled(HEX_TAIL, w)
    ensures a != "" && All(Sep, a) && (q == "" || q == "'")
  {
    HexPartsAre();
    var w0, q0;
    a, w0 := SpelledStep(AtLeast(Sep, 1), [Maybe(QuoteMark)] + HEX_TAIL, v);
    q0, w := SpelledStep(Maybe(QuoteMark), HEX_TAIL, w0);
    a, q := QuoteAsSep(a, q0, w);
  }

  lemma QuoteAsSep(a0: string, q0: string, t: string) returns (a: string, q: string)
    requires a0 != "" && All(Sep, a0) && |q0| <= 1 && All(QuoteMark, q0)
    ensures a != "" && All(Sep, a) && (q == "" || q == "'") && a + (q + t) == a0 + (q0 + t)
  {
    a, q := a0, q0;
    if q0 == "\"" {
      Flat3(a0, q0, t);
      a, q := a0 + q0, "";
    } else if q0 != "" {
      assert In(QuoteMark, q0[0]);
    }
  }

  lemma HexComplete(v: string, t: string)
    requires Spelled(Parts(HexKv), v)
    ensures Greedy(Parts(HexKv), v + t) >= |v| > 0
  {
    var a, q, w := HexParts(v);
    HexRuns(a, q, w, t);
    Flat3(a, q, w);
    Flat4(a, q, w, t);
  }

  lemma TailComplete(rule: Rule, v: string, t: string)
    requires IsTail(rule, v)
    ensures TailLen(rule, v + t) > 0
    ensures rule != Pem ==> TailLen(rule, v + t) >= |v|
  {
    match rule
    case Pem => FooterComplete(v, t);
    case Password =>
      ValueComplete(v, t);
      var n := ValueParts(v);
    case HexKv => HexComplete(v, t);
    case _ =>
      PartsCertain(rule);
      GreedyComplete(Parts(rule), v, t);
      SpelledFirst(Parts(rule), v);
  }

  lemma Flat3(a: string, b: string, c: string)
    ensures a + (b + c) == a + b + c
  {
  }

  lemma Flat4(a: string, b: string, c: string, t: string)
    ensures a + (b + (c + t)) == a + (b + c) + t
  {
    Flat3(b, c, t);
    Flat3(a, b + c, t);
  }

  lemma JoinedComplete(rule: Rule, k: string, v: string, t: string)
    requires IsHead(rule, k) && IsTail(rule, v)
    ensures Match(rule, k + (v + t)) > 0
    ensures rule != Pem ==> Match(rule, k + (v + t)) >= |k| + |v|
  {
    HeadComplete(rule, k, v + t);
    assert (k + (v + t))[|k|..] == v + t;
    TailComplete(rule, v, t);
  }

  /** A text that starts with a secret of the rule is matched, and except for PEM blocks,
      whose body is lazy, the match is at least as long as the secret. */
  lemma MatchComplete(rule: Rule, u: string, t: string)
    requires InLang(rule, u)
    ensures Match(rule, u + t) > 0
    ensures rule != Pem ==> Match(rule, u + t) >= |u|
  {
    var k, v :| Joined(rule, u, k, v);
    JoinedComplete(rule, k, v, t);
    Flat3(k, v, t);
  }
}
