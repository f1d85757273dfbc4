/** Which markers the scrubber has put in: every stage is followed with a flag per character, so
    that a marker of the input is never taken for a redaction. */
module ScrubSites {
  import opened Scrub
  import opened ScrubMatch
  import opened ScrubLaws
  import opened ScrubStages
  import opened ScrubTheorems
  import opened ScrubCounts

  /** A text, and where in it a marker starts that a stage has put in. */
  datatype Traced = Traced(text: string, put: seq<bool>)

  /** No flags on n characters. */
  function Unset(n: nat): (r: seq<bool>)
    ensures |r| == n && true !in r
  {
    if n == 0 then [] else [false] + Unset(n - 1)
  }

  /** The flags of a marker just put in. */
  const NEW: seq<bool> := [true] + Unset(|MARKER| - 1)

  /** The flags of the rewritten text. */
  function Flags(ps: seq<Piece>, put: seq<bool>): (r: seq<bool>)
    requires |put| == |Source(ps)|
    ensures |r| == |Render(ps)|
  {
    if ps == [] then []
    else
      match ps[0]
      case Keep(_) => [put[0]] + Flags(ps[1..], put[1..])
      case Hide(x) => NEW + Flags(ps[1..], put[|x|..])
  }

  function StageTrace(rule: Rule, t: Traced): (r: Traced)
    requires |t.put| == |t.text|
    ensures |r.put| == |r.text|
  {
    StageShape(rule, t.text);
    Traced(ReplaceAll(rule, t.text), Flags(Pieces(rule, Chop(rule, t.text)), t.put))
  }

  /** The first n stages; nothing in the input was put in by the scrubber. */
  function Trace(n: nat, s: string): (r: Traced)
    requires n <= |STAGES|
    ensures |r.put| == |r.text|
  {
    if n == 0 then Traced(s, Unset(|s|)) else StageTrace(STAGES[n - 1], Trace(n - 1, s))
  }

  lemma {:induction false} TraceText(n: nat, s: string)
    requires n <= |STAGES|
    ensures Trace(n, s).text == UpTo(n, s).text
  {
    if n > 0 {
      TraceText(n - 1, s);
      StageStep(STAGES, n, s);
    } else {
      assert STAGES[..0] == [];
    }
  }

  // ---------- counting flags ----------

  function Count(put: seq<bool>): nat {
    if put == [] then 0 else (if put[0] then 1 else 0) + Count(put[1..])
  }

  lemma {:induction false} CountConcat(a: seq<bool>, b: seq<bool>)
    ensures Count(a + b) == Count(a) + Count(b)
  {
    if a == [] {
      assert a + b == b;
    } else {
      assert (a + b)[1..] == a[1..] + b;
      CountConcat(a[1..], b);
    }
  }

  lemma {:induction false} CountIff(put: seq<bool>)
    ensures Count(put) > 0 <==> true in put
  {
    if put != [] {
      CountIff(put[1..]);
      assert put == [put[0]] + put[1..];
    }
  }

  lemma CountNew(rest: seq<bool>)
    ensures Count(NEW + rest) == 1 + Count(rest)
  {
    var n := Unset(|MARKER| - 1);
    CountIff(n);
    CountConcat(n, rest);
    assert (NEW + rest)[1..] == n + rest;
  }

  lemma CountCut(put: seq<bool>, n: nat)
    requires n <= |put|
    ensures Count(put) == Count(put[..n]) + Count(put[n..])
  {
    var a, b := put[..n], put[n..];
    assert put == a + b;
    CountConcat(a, b);
  }

  /** The markers put in earlier that the hidden texts take away again. */
  function Lost(ps: seq<Piece>, put: seq<bool>): nat
    requires |put| == |Source(ps)|
  {
    if ps == [] then 0
    else
      match ps[0]
      case Keep(_) => Lost(ps[1..], put[1..])
      case Hide(x) => Count(put[..|x|]) + Lost(ps[1..], put[|x|..])
  }

  lemma {:induction false} FlagsBalance(ps: seq<Piece>, put: seq<bool>)
    requires |put| == |Source(ps)|
    ensures Count(Flags(ps, put)) + Lost(ps, put) == Count(put) + |Hidden(ps)|
  {
    if ps != [] {
      match ps[0]
      case Keep(c) =>
        FlagsBalance(ps[1..], put[1..]);
        assert Flags(ps, put)[1..] == Flags(ps[1..], put[1..]);
        assert Hidden(ps) == Hidden(ps[1..]);
      case Hide(x) =>
        FlagsBalance(ps[1..], put[|x|..]);
        CountNew(Flags(ps[1..], put[|x|..]));
        CountCut(put, |x|);
    }
  }

  // ---------- a flag stands for a marker ----------

  /** Every flag is at the start of a marker. */
  predicate Sound(s: string, put: seq<bool>)
    requires |put| == |s|
  {
    s != "" ==> (put[0] ==> Leads(MARKER, s)) && Sound(s[1..], put[1..])
  }

  /** Every marker has a flag. */
  predicate Full(s: string, put: seq<bool>)
    requires |put| == |s|
  {
    s != "" ==> (Leads(MARKER, s) ==> put[0]) && Full(s[1..], put[1..])
  }

  lemma {:induction false} SoundAt(s: string, put: seq<bool>, i: nat)
    requires i < |put| == |s| && Sound(s, put) && put[i]
    ensures MARKER <= s[i..]
  {
    if i == 0 {
      LeadsIff(MARKER, s);
      assert s[0..] == s;
    } else {
      SoundAt(s[1..], put[1..], i - 1);
      assert s[1..][i - 1..] == s[i..];
    }
  }

  lemma {:induction false} SoundRest(x: string, t: string, put: seq<bool>)
    requires |put| == |x + t|
    ensures Sound(x + t, put) ==> Sound(t, put[|x|..])
    ensures Full(x + t, put) ==> Full(t, put[|x|..])
  {
    if x == "" {
      assert x + t == t && put[0..] == put;
    } else {
      assert (x + t)[1..] == x[1..] + t && put[1..][|x| - 1..] == put[|x|..];
      SoundRest(x[1..], t, put[1..]);
    }
  }

  lemma {:induction false} CountFull(s: string, put: seq<bool>)
    requires |put| == |s| && Sound(s, put)
    ensures Count(put) <= Marks(s)
    ensures Full(s, put) ==> Count(put) == Marks(s)
  {
    if s != "" {
      CountFull(s[1..], put[1..]);
    }
  }

  /** Text without a bracket in front of a flagged one. */
  lemma {:induction false} FreeInFront(a: string, t: string, zeros: seq<bool>, put: seq<bool>)
    requires |zeros| == |a| && |put| == |t| && BracketFree(a) && true !in zeros
    ensures Sound(t, put) ==> Sound(a + t, zeros + put)
    ensures Full(t, put) ==> Full(a + t, zeros + put)
  {
    if a == "" {
      assert a + t == t && zeros + put == put;
    } else {
      FreeInFront(a[1..], t, zeros[1..], put);
      assert (a + t)[0] == a[0] && (a + t)[1..] == a[1..] + t && (zeros + put)[1..] == zeros[1..] + put;
      NotAMarker(a + t);
      assert !(zeros + put)[0];
    }
  }

  lemma NewInFront(t: string, put: seq<bool>)
    requires |put| == |t|
    ensures Sound(t, put) ==> Sound(MARKER + t, NEW + put)
    ensures Full(t, put) ==> Full(MARKER + t, NEW + put)
  {
    FreeInFront(MARKER[1..], t, Unset(|MARKER| - 1), put);
    LeadsJoin(MARKER, t);
    NewShape(t, put);
    FlagStep(MARKER + t, NEW + put);
  }

  lemma NewShape(t: string, put: seq<bool>)
    ensures (MARKER + t)[1..] == MARKER[1..] + t
    ensures (NEW + put)[0] && (NEW + put)[1..] == Unset(|MARKER| - 1) + put
  {
  }

  lemma KeptFlag(ps: seq<Piece>)
    requires ps != [] && ps[0].Keep? && Undivided(ps)
    ensures Leads(MARKER, Source(ps)) <==> Leads(MARKER, Render(ps))
  {
    SourceMarker(ps);
    KeptMarker(ps);
  }

  /** A rewriting that cuts no marker keeps both. */
  lemma {:induction false} FlagsStay(ps: seq<Piece>, put: seq<bool>)
    requires |put| == |Source(ps)| && Undivided(ps)
    ensures Sound(Source(ps), put) ==> Sound(Render(ps), Flags(ps, put))
    ensures Full(Source(ps), put) ==> Full(Render(ps), Flags(ps, put))
  {
    if ps != [] {
      var before := Before(ps[0]);
      SoundRest(before, Source(ps[1..]), put);
      match ps[0]
      case Keep(c) =>
        FlagsStay(ps[1..], put[1..]);
        KeptFlag(ps);
        FlagStep(Source(ps), put);
        FlagStep(Render(ps), Flags(ps, put));
        assert Render(ps)[1..] == Render(ps[1..]) && Flags(ps, put)[1..] == Flags(ps[1..], put[1..]);
      case Hide(x) =>
        FlagsStay(ps[1..], put[|x|..]);
        NewInFront(Render(ps[1..]), Flags(ps[1..], put[|x|..]));
    }
  }

  lemma FlagStep(s: string, put: seq<bool>)
    requires |put| == |s| && s != ""
    ensures Sound(s, put) <==> (put[0] ==> Leads(MARKER, s)) && Sound(s[1..], put[1..])
    ensures Full(s, put) <==> (Leads(MARKER, s) ==> put[0]) && Full(s[1..], put[1..])
  {
  }

  // ---------- which stages take markers away ----------

  /** The text x holds a marker that was put in. */
  predicate Holds(x: string, put: seq<bool>)
    requires |x| <= |put|
  {
    exists i :: 0 <= i < |x| && put[i] && MARKER <= x[i..]
  }

  /** Some match holds a marker that an earlier stage has put in. */
  predicate TakesIn(bits: seq<Bit>, put: seq<bool>)
    requires |put| == |TextOf(bits)|
  {
    bits != [] &&
    match bits[0]
    case Other(_) => TakesIn(bits[1..], put[1..])
    case Hit(x) => Holds(x, put) || TakesIn(bits[1..], put[|x|..])
  }

  lemma {:induction false} MarksAtLeast(x: string, t: string)
    ensures Marks(x + t) >= Marks(x) + Marks(t)
  {
    if x == "" {
      assert x + t == t;
    } else {
      MarksAtLeast(x[1..], t);
      LeadsLonger(x, t);
      assert (x + t)[1..] == x[1..] + t;
    }
  }

  lemma LeadsLonger(x: string, t: string)
    ensures Leads(MARKER, x) ==> Leads(MARKER, x + t)
  {
    LeadsIff(MARKER, x);
    LeadsIff(MARKER, x + t);
    assert x <= x + t;
    if MARKER <= x {
      PrefixOfPrefix(MARKER, x, x + t);
    }
  }

  /** If no marker lies across the seam, one that starts in x ends in x. */
  lemma {:induction false} EndsInside(x: string, t: string, i: nat)
    requires Unsplit(x, t) && i < |x| && MARKER <= (x + t)[i..]
    ensures MARKER <= x[i..]
  {
    assert (x + t)[1..] == x[1..] + t;
    MarksAtLeast(x[1..], t);
    LeadsLonger(x, t);
    if i == 0 {
      assert (x + t)[0..] == x + t && x[0..] == x;
      LeadsIff(MARKER, x + t);
      LeadsIff(MARKER, x);
    } else {
      assert (x + t)[1..][i - 1..] == (x + t)[i..] && x[1..][i - 1..] == x[i..];
      EndsInside(x[1..], t, i - 1);
    }
  }

  lemma HoldsIff(x: string, t: string, put: seq<bool>)
    requires |put| == |x + t| && Sound(x + t, put) && Unsplit(x, t)
    ensures Count(put[..|x|]) > 0 <==> Holds(x, put)
  {
    CountIff(put[..|x|]);
    if true in put[..|x|] {
      var i :| 0 <= i < |x| && put[..|x|][i];
      SoundAt(x + t, put, i);
      EndsInside(x, t, i);
    }
    if Holds(x, put) {
      var i :| 0 <= i < |x| && put[i] && MARKER <= x[i..];
      assert put[..|x|][i];
    }
  }

  lemma {:induction false} LostIff(rule: Rule, bits: seq<Bit>, put: seq<bool>)
    requires rule != HexKv && Chopped(rule, bits) && |put| == |TextOf(bits)| && Sound(TextOf(bits), put)
    ensures Source(Pieces(rule, bits)) == TextOf(bits)
    ensures Lost(Pieces(rule, bits), put) > 0 <==> TakesIn(bits, put)
  {
    PiecesShape(rule, bits);
    if bits != [] {
      var t, rest := TextOf(bits[1..]), Pieces(rule, bits[1..]);
      match bits[0]
      case Hit(x) =>
        SoundRest(x, t, put);
        LostIff(rule, bits[1..], put[|x|..]);
        HitSeam(rule, x, t);
        HoldsIff(x, t, put);
        assert ([Hide(x)] + rest)[1..] == rest;
      case Other(c) =>
        SoundRest([c], t, put);
        LostIff(rule, bits[1..], put[1..]);
        assert ([Keep(c)] + rest)[1..] == rest;
    }
  }

  lemma {:induction false} LostNothing(ps: seq<Piece>, put: seq<bool>)
    requires |put| == |Source(ps)| && Sound(Source(ps), put)
    requires forall x :: x in Hidden(ps) ==> BracketFree(x)
    ensures Lost(ps, put) == 0
  {
    if ps != [] {
      SoundRest(Before(ps[0]), Source(ps[1..]), put);
      match ps[0]
      case Keep(c) =>
        assert Hidden(ps) == Hidden(ps[1..]);
        LostNothing(ps[1..], put[1..]);
      case Hide(x) =>
        assert Hidden(ps) == [x] + Hidden(ps[1..]);
        LostNothing(ps[1..], put[|x|..]);
        FreeHoldsNothing(x, Source(ps[1..]), put);
    }
  }

  lemma FreeHoldsNothing(x: string, t: string, put: seq<bool>)
    requires |put| == |x + t| && Sound(x + t, put) && BracketFree(x)
    ensures Count(put[..|x|]) == 0
  {
    CountIff(put[..|x|]);
    if true in put[..|x|] {
      var i :| 0 <= i < |x| && put[..|x|][i];
      SoundAt(x + t, put, i);
      BracketAt(x + t, i);
    }
  }

  lemma BracketAt(s: string, i: nat)
    requires i <= |s| && MARKER <= s[i..]
    ensures i < |s| && s[i] == '['
  {
    assert s[i..][0] == MARKER[0];
  }

  lemma HiddenFree(rule: Rule, s: string)
    requires rule !in {Password, Pem}
    ensures forall x :: x in Hidden(Pieces(rule, Chop(rule, s))) ==> BracketFree(x)
  {
    StageHides(rule, s);
    var hs := Hidden(Pieces(rule, Chop(rule, s)));
    forall x | x in hs ensures BracketFree(x) {
      var i :| 0 <= i < |hs| && hs[i] == x;
      assert Secret(rule, hs[i]);
      if rule == HexKv {
        DigitsBracketFree(x);
      } else {
        LangBracketFree(rule, x);
      }
    }
  }

  /** The markers put in earlier that a stage takes away. */
  function Taken(rule: Rule, t: Traced): nat
    requires |t.put| == |t.text|
  {
    StageShape(rule, t.text);
    Lost(Pieces(rule, Chop(rule, t.text)), t.put)
  }

  predicate StageTakesIn(rule: Rule, t: Traced)
    requires |t.put| == |t.text|
  {
    ChopText(rule, t.text);
    TakesIn(Chop(rule, t.text), t.put)
  }

  /** Followed through a stage: the balance, and that flags stay what they are. */
  lemma StageSites(rule: Rule, t: Traced)
    requires |t.put| == |t.text| && Sound(t.text, t.put)
    ensures var r := StageTrace(rule, t);
            && Count(r.put) + Taken(rule, t) == Count(t.put) + |FindAll(rule, t.text)|
            && Sound(r.text, r.put) && (Full(t.text, t.put) ==> Full(r.text, r.put))
  {
    var ps := Pieces(rule, Chop(rule, t.text));
    ChopSound(rule, t.text);
    StageShape(rule, t.text);
    PiecesSeams(rule, Chop(rule, t.text));
    WholeMarkers(ps);
    FlagsBalance(ps, t.put);
    FlagsStay(ps, t.put);
    StageHides(rule, t.text);
  }

  lemma TakenIff(rule: Rule, t: Traced)
    requires |t.put| == |t.text| && Sound(t.text, t.put)
    ensures rule in {Password, Pem} ==> (Taken(rule, t) > 0 <==> StageTakesIn(rule, t))
    ensures rule !in {Password, Pem} ==> Taken(rule, t) == 0
  {
    ChopSound(rule, t.text);
    StageShape(rule, t.text);
    if rule in {Password, Pem} {
      LostIff(rule, Chop(rule, t.text), t.put);
    } else {
      HiddenFree(rule, t.text);
      LostNothing(Pieces(rule, Chop(rule, t.text)), t.put);
    }
  }

  // ---------- the pipeline ----------

  /** The redactions that can be seen in the output: markers there that some stage has put in. */
  function Sites(s: string): nat {
    Count(Trace(|STAGES|, s).put)
  }

  function TakenUpTo(n: nat, s: string): nat
    requires n <= |STAGES|
  {
    if n == 0 then 0 else TakenUpTo(n - 1, s) + Taken(STAGES[n - 1], Trace(n - 1, s))
  }

  lemma {:induction false} NoFlags(s: string)
    ensures var put := Unset(|s|);
            Count(put) == 0 && Sound(s, put) && (Marks(s) == 0 ==> Full(s, put))
  {
    if s != "" {
      NoFlags(s[1..]);
      assert Unset(|s|)[1..] == Unset(|s[1..]|);
    }
  }

  lemma {:induction false} SitesUpTo(n: nat, s: string)
    requires n <= |STAGES|
    ensures var t := Trace(n, s);
            && Sound(t.text, t.put) && (Marks(s) == 0 ==> Full(t.text, t.put))
            && Count(t.put) + TakenUpTo(n, s) == UpTo(n, s).hits
  {
    if n == 0 {
      NoFlags(s);
      assert STAGES[..0] == [];
    } else {
      SitesUpTo(n - 1, s);
      TraceText(n - 1, s);
      StageSites(STAGES[n - 1], Trace(n - 1, s));
      StageStep(STAGES, n, s);
    }
  }

  lemma TakenIs(s: string)
    ensures TakenUpTo(|STAGES|, s) == Taken(Password, Trace(2, s)) + Taken(Pem, Trace(4, s))
  {
    forall n: nat | 0 < n <= |STAGES| ensures TakenUpTo(n, s) == TakenUpTo(n - 1, s) + Taken(STAGES[n - 1], Trace(n - 1, s)) {
    }
    forall n: nat | n < |STAGES| && n != 2 && n != 4 ensures Taken(STAGES[n], Trace(n, s)) == 0 {
      SitesUpTo(n, s);
      TakenIff(STAGES[n], Trace(n, s));
    }
  }

  /** Every site is a marker of the output, and if the input has none all its markers are sites. */
  lemma SitesAreMarkers(s: string)
    ensures var t := Trace(|STAGES|, s);
            && t.text == Scrubbed(STAGES, s).text
            && (forall i :: 0 <= i < |t.put| && t.put[i] ==> MARKER <= t.text[i..])
            && Sites(s) <= Marks(t.text)
    ensures !HasMarker(s) ==> Sites(s) == Marks(Scrubbed(STAGES, s).text)
  {
    var t := Trace(|STAGES|, s);
    AllStages(s);
    TraceText(|STAGES|, s);
    SitesUpTo(|STAGES|, s);
    CountFull(t.text, t.put);
    MarksIff(s);
    forall i | 0 <= i < |t.put| && t.put[i] ensures MARKER <= t.text[i..] {
      SoundAt(t.text, t.put, i);
    }
  }

  /** Every hit is a site of the output or was taken away by a later password or PEM match. */
  lemma SitesConserved(s: string)
    ensures Sites(s) + Taken(Password, Trace(2, s)) + Taken(Pem, Trace(4, s)) == Scrubbed(STAGES, s).hits
  {
    AllStages(s);
    SitesUpTo(|STAGES|, s);
    TakenIs(s);
  }

  /** The hit count is the number of replaced sites exactly if no password or PEM match takes in
      a marker that an earlier stage has put in. */
  lemma HitsAreSitesIff(s: string)
    ensures Scrubbed(STAGES, s).hits == Sites(s)
            <==> !StageTakesIn(Password, Trace(2, s)) && !StageTakesIn(Pem, Trace(4, s))
  {
    SitesConserved(s);
    SitesUpTo(2, s);
    SitesUpTo(4, s);
    TakenIff(Password, Trace(2, s));
    TakenIff(Pem, Trace(4, s));
  }

  // ---------- when nothing is taken away ----------

  lemma {:induction false} NoHitsTakeNothing(bits: seq<Bit>, put: seq<bool>)
    requires |put| == |TextOf(bits)| && Hits(bits) == []
    ensures !TakesIn(bits, put)
  {
    if bits != [] {
      NoHitsTakeNothing(bits[1..], put[1..]);
    }
  }

  lemma IdleTakesNothing(rule: Rule, t: Traced)
    requires |t.put| == |t.text| && FindAll(rule, t.text) == []
    ensures !StageTakesIn(rule, t)
  {
    ChopText(rule, t.text);
    NoHitsTakeNothing(Chop(rule, t.text), t.put);
  }

  /** Without a password secret and without a PEM header in the input every hit is a site. */
  lemma HitsAreSitesIfPlain(s: string)
    requires !Contains(Password, s) && Headless(s)
    ensures Scrubbed(STAGES, s).hits == Sites(s)
  {
    PlainFindsNothing(s);
    TraceText(2, s);
    TraceText(4, s);
    IdleTakesNothing(Password, Trace(2, s));
    IdleTakesNothing(Pem, Trace(4, s));
    HitsAreSitesIff(s);
  }

  lemma {:induction false} HoldsNoFlag(bits: seq<Bit>, put: seq<bool>)
    requires |put| == |TextOf(bits)| && true !in put
    ensures !TakesIn(bits, put)
  {
    if bits != [] {
      match bits[0]
      case Other(_) => HoldsNoFlag(bits[1..], put[1..]);
      case Hit(x) => HoldsNoFlag(bits[1..], put[|x|..]);
    }
  }

  lemma FreshTakesNothing(rule: Rule, t: Traced)
    requires |t.put| == |t.text| && Count(t.put) == 0
    ensures !StageTakesIn(rule, t)
  {
    ChopText(rule, t.text);
    CountIff(t.put);
    HoldsNoFlag(Chop(rule, t.text), t.put);
  }

  // ---------- two texts with a marker at the end ----------

  lemma {:induction false} NoKeyBeforeMarker(rule: Rule, a: string)
    requires rule == Aws && 'A' !in a
    ensures Clean(rule, a + MARKER)
  {
    if a == "" {
      MarkerClean(rule, 0, "");
      assert a + MARKER == MARKER == MARKER[0..] + "";
    } else {
      var c, b := a[0], a[1..];
      assert a == [c] + b;
      NoKeyBeforeMarker(rule, b);
      NoKeyAtLetter(rule, c, b + MARKER);
      Flat3([c], b, MARKER);
    }
  }

  lemma NoKeyAtLetter(rule: Rule, c: char, t: string)
    requires rule == Aws && c != 'A' && Clean(rule, t)
    ensures Clean(rule, [c] + t)
  {
    OtherFirst(rule, "AKIA", [c] + t);
    CleanCons(rule, c, t);
  }

  lemma OneHitOnly(s: string, aws: Rule, bearer: Rule, password: Rule)
    requires STAGES[..3] == [aws, bearer, password] && Clean(aws, s) && Clean(bearer, s)
    requires ReplaceAll(password, s) == MARKER && |FindAll(password, s)| == 1
    ensures UpTo(2, s) == Redaction(s, 0) && UpTo(3, s) == Redaction(MARKER, 1)
  {
    var stages := [aws, bearer, password];
    assert STAGES[..3] == stages[..3] && STAGES[..2] == stages[..2] && stages[..0] == [];
    StageStep(stages, 1, s);
    CleanUnchanged(aws, s);
    StageStep(stages, 2, s);
    CleanUnchanged(bearer, s);
    StageStep(stages, 3, s);
  }

  /** If the scrubber ends with a marker alone, found by the third stage in a text left alone so far, the hit is a site. */
  lemma LoneMarker(s: string)
    requires UpTo(2, s).hits == 0 && UpTo(3, s) == Redaction(MARKER, 1)
    ensures Scrubbed(STAGES, s) == Redaction(MARKER, 1) && Sites(s) == 1
  {
    MarkerFrom(STAGES, 3, s);
    MarkerStep(STAGES, 3, s);
    AllStages(s);
    SitesUpTo(2, s);
    FreshTakesNothing(Password, Trace(2, s));
    TraceText(4, s);
    MarkerUntouched(Pem);
    IdleTakesNothing(Pem, Trace(4, s));
    HitsAreSitesIff(s);
  }

  lemma MarkerAssigned(k: string, a: string, aws: Rule, bearer: Rule, password: Rule)
    requires STAGES[..3] == [aws, bearer, password] && aws == Aws && bearer == Bearer && password == Password
    requires IsHead(password, k) && a != "" && All(Sep, a) && 'A' !in k + a
    requires 'B' !in k + a + MARKER && All(Value, MARKER)
    ensures Scrubbed(STAGES, k + a + MARKER) == Redaction(MARKER, 1) && Sites(k + a + MARKER) == 1
  {
    var s := k + a + MARKER;
    NoKeyBeforeMarker(aws, k + a);
    NoBearer(bearer, s);
    ValueIsSecret(password, k, a, MARKER);
    WholeStage(password, s);
    OneHitOnly(s, aws, bearer, password);
    LoneMarker(s);
  }

  lemma MarkerLetters(k: string, a: string)
    requires All(Sep, a) && 'A' !in k && 'B' !in k && BracketFree(k)
    ensures 'A' !in k + a && 'B' !in k + a + MARKER && All(Value, MARKER) && BracketFree(k + a)
  {
    forall c | c in a ensures c !in "AB[" {
      assert In(Sep, c);
    }
  }

  /** A marker of the input that is taken in does not spoil the count: one match, one marker put
      in for it, one hit, although the text holds as many markers as before. */
  lemma InputMarkerTaken(k: string, a: string)
    requires IsHead(Password, k) && a != "" && All(Sep, a) && 'A' !in k && 'B' !in k
    ensures var s := k + a + MARKER;
            && Scrubbed(STAGES, s) == Redaction(MARKER, 1) && Sites(s) == 1
            && Marks(s) == 1 && Marks(MARKER) == 1
  {
    HeadBracketFree(Password, k);
    MarkerLetters(k, a);
    MarkerAssigned(k, a, Aws, Bearer, Password);
    MarksBehind(k + a, MARKER);
    OneMark();
  }

  lemma OneMark()
    ensures Marks(MARKER) == 1
  {
    MarksOfMarker("");
    assert MARKER + "" == MARKER;
  }

  /** An AWS key assigned to a token: two hits, but at most one site. */
  lemma TwoHitsOneSite(key: string)
    requires InLang(Aws, key)
    ensures Sites("token=" + key) < Scrubbed(STAGES, "token=" + key).hits
  {
    CountedTwice(key);
    SitesAreMarkers("token=" + key);
    OneMark();
  }
}
