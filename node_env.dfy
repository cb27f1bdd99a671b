/**
 * The deployment environment read from `NODE_ENV`: the value is lower-cased
 * and searched, case-insensitively, for "dev", "test", "stag" and "prod" in
 * that order; the first that occurs decides, and anything else (an unset
 * variable included) selects the defaults.
 */
module NodeEnv {
  import opened Wrappers
  import opened Text

  const Development: string := "development"
  const Testing: string := "testing"
  const Staging: string := "staging"
  const Production: string := "production"
  const Defaults: string := "defaults"

  /** The names `GetNodeEnv` can return. */
  predicate IsEnvironmentName(s: string) {
    s == Development || s == Testing || s == Staging || s == Production || s == Defaults
  }

  /** `getNodeEnv`, with `process.env.NODE_ENV` passed in; `None` is an unset variable. */
  function GetNodeEnv(env: Option<string>): (r: string)
    ensures IsEnvironmentName(r)
    ensures env.None? ==> r == Defaults
    ensures env.Some? ==>
              var v := Lower(env.value);
              && (r == Development <==> Contains(v, "dev"))
              && (r == Testing <==> !Contains(v, "dev") && Contains(v, "test"))
              && (r == Staging <==> !Contains(v, "dev") && !Contains(v, "test") && Contains(v, "stag"))
              && (r == Production <==>
                    !Contains(v, "dev") && !Contains(v, "test") && !Contains(v, "stag") && Contains(v, "prod"))
              && (r == Defaults <==>
                    !Contains(v, "dev") && !Contains(v, "test") && !Contains(v, "stag") && !Contains(v, "prod"))
  {
    match env
    case None => Defaults
    case Some(value) =>
      var v := Lower(value);
      if Contains(v, "dev") then Development
      else if Contains(v, "test") then Testing
      else if Contains(v, "stag") then Staging
      else if Contains(v, "prod") then Production
      else Defaults
  }

  /** Upper or lower case makes no difference. */
  lemma CaseInsensitive(s: string)
    ensures GetNodeEnv(Some(s)) == GetNodeEnv(Some(Lower(s)))
  {
    assert Lower(Lower(s)) == Lower(s);
  }

  /** Any value containing "dev" selects development, whatever else it contains. */
  lemma DevWins(s: string, i: int)
    requires OccursAt(Lower(s), "dev", i)
    ensures GetNodeEnv(Some(s)) == Development
  {
  }

  /** "test" is checked before "prod": "prod-test" selects testing. */
  lemma TestBeforeProd()
    ensures GetNodeEnv(Some("prod-test")) == Testing
  {
    LowerIdentity("prod-test");
    assert OccursAt("prod-test", "test", 5);
    NotContainsChar("prod-test", "dev", 'v');
  }

  /** The empty value selects the defaults. */
  lemma EmptySelectsDefaults()
    ensures GetNodeEnv(Some("")) == Defaults
  {
    assert Lower("") == "";
  }

  /** None of the five names has an upper-case letter. */
  lemma NamesAreLower()
    ensures Lower(Development) == Development && Lower(Testing) == Testing && Lower(Staging) == Staging
    ensures Lower(Production) == Production && Lower(Defaults) == Defaults
  {
    LowerIdentity(Development);
    LowerIdentity(Testing);
    LowerIdentity(Staging);
    LowerIdentity(Production);
    LowerIdentity(Defaults);
  }

  /** Which of the four patterns each name contains. */
  lemma DevelopmentPatterns()
    ensures Contains(Development, "dev")
  {
    assert OccursAt(Development, "dev", 0);
  }

  lemma TestingPatterns()
    ensures !Contains(Testing, "dev") && Contains(Testing, "test")
  {
    assert OccursAt(Testing, "test", 0);
    NotContainsChar(Testing, "dev", 'v');
  }

  lemma StagingPatterns()
    ensures !Contains(Staging, "dev") && !Contains(Staging, "test") && Contains(Staging, "stag")
  {
    assert OccursAt(Staging, "stag", 0);
    NotContainsChar(Staging, "dev", 'v');
    NotContainsChar(Staging, "test", 'e');
  }

  lemma ProductionLacksDevTest()
    ensures !Contains(Production, "dev") && !Contains(Production, "test")
  {
    NotContainsChar(Production, "dev", 'v');
    NotContainsChar(Production, "test", 'e');
  }

  lemma ProductionPatterns()
    ensures !Contains(Production, "dev") && !Contains(Production, "test")
    ensures !Contains(Production, "stag") && Contains(Production, "prod")
  {
    ProductionLacksDevTest();
    assert OccursAt(Production, "prod", 0);
    NotContainsChar(Production, "stag", 's');
  }

  lemma DefaultsLacksDevTest()
    ensures !Contains(Defaults, "dev") && !Contains(Defaults, "test")
  {
    NotContainsChar(Defaults, "dev", 'v');
    NotContains(Defaults, "test", 0);
  }

  lemma DefaultsPatterns()
    ensures !Contains(Defaults, "dev") && !Contains(Defaults, "test")
    ensures !Contains(Defaults, "stag") && !Contains(Defaults, "prod")
  {
    DefaultsLacksDevTest();
    NotContainsChar(Defaults, "stag", 'g');
    NotContainsChar(Defaults, "prod", 'p');
  }

  /** Each returned name classifies as itself. */
  lemma ClassificationIdempotent(env: Option<string>)
    ensures GetNodeEnv(Some(GetNodeEnv(env))) == GetNodeEnv(env)
  {
    NamesAreLower();
    DevelopmentPatterns();
    TestingPatterns();
    StagingPatterns();
    ProductionPatterns();
    DefaultsPatterns();
  }
}
