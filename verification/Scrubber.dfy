/** The scrubber with its list of rules and the stage for hex values. */
module Scrubber {
  import opened Scrub
  import opened ScrubTheorems
  import opened SecretForms

  /** The full-match rules in the order they are applied. */
  const RULES: seq<Rule> := [Aws, Bearer, Password, Jwt, Pem, Pat]

  class RegexScrubber {
    var rules: seq<Rule>
    var kvRule: Rule

    predicate Shipped()
      reads this
    {
      rules + [kvRule] == [Aws, Bearer, Password, Jwt, Pem, Pat, HexKv]
    }

    constructor ()
      ensures Shipped()
    {
      rules, kvRule := RULES, HexKv;
    }

    method Scrub(content: string) returns (redacted: string, hits: nat)
      ensures Redaction(redacted, hits) == Scrubbed(rules + [kvRule], content)
      ensures Shipped() ==> forall rule: Rule :: !Holds(rule, redacted)
      ensures Shipped() ==> (hits == 0 <==> forall rule: Rule :: !Holds(rule, content))
      ensures Shipped() ==> (redacted == content <==> hits == 0)
    {
      redacted, hits := content, 0;
      for i := 0 to |rules|
        invariant Redaction(redacted, hits) == Scrubbed(rules[..i], content)
      {
        assert rules[..i + 1][..i] == rules[..i];
        var matches := FindAll(rules[i], redacted);
        hits := hits + |matches|;
        redacted := ReplaceAll(rules[i], redacted);
      }
      assert (rules + [kvRule])[..|rules|] == rules[..|rules|];
      var kvMatches := FindAll(kvRule, redacted);
      if |kvMatches| > 0 {
        hits := hits + |kvMatches|;
        redacted := ReplaceAll(kvRule, redacted);
      } else {
        NothingToReplace(kvRule, redacted);
      }
      if Shipped() {
        forall rule: Rule ensures !Holds(rule, redacted) {
          NoFormSurvives(rule, content);
        }
        UntouchedIff(content);
        HitsExact(content);
      }
    }
  }
}
