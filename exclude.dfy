/** The `exclude` option as the plugins extend it: the user's rules, and at
    the end the test each plugin appends, which rejects every name in that
    plugin's registry of generated assets. */
module Exclude {
  /** An entry of the `exclude` option: one the user gave, known by its
      position, or the test the plugin appends, which rejects every
      registered asset name. */
  datatype ExcludeRule = UserRule(id: nat) | GeneratedAsset

  /** Whether `rule` excludes the asset `name`; `userMatches` says what the
      user's rules match and `registered` is the registry when the test runs. */
  predicate RuleExcludes(rule: ExcludeRule, userMatches: (nat, string) -> bool, registered: set<string>,
                         name: string)
  {
    match rule
    case UserRule(id) => userMatches(id, name)
    case GeneratedAsset => name in registered
  }

  /** Whether some rule of the list excludes `name`. */
  predicate Excluded(rules: seq<ExcludeRule>, userMatches: (nat, string) -> bool, registered: set<string>,
                     name: string)
  {
    exists k :: 0 <= k < |rules| && RuleExcludes(rules[k], userMatches, registered, name)
  }

  /** The appended rule excludes exactly the registered names, on top of what
      the user's rules exclude. */
  lemma GeneratedRuleExcludesRegistered(rules: seq<ExcludeRule>, userMatches: (nat, string) -> bool,
                                        registered: set<string>, name: string)
    ensures Excluded(rules + [GeneratedAsset], userMatches, registered, name) <==>
      Excluded(rules, userMatches, registered, name) || name in registered
  {
    var r := rules + [GeneratedAsset];
    assert RuleExcludes(r[|rules|], userMatches, registered, name) <==> name in registered;
    if Excluded(rules, userMatches, registered, name) {
      var k :| 0 <= k < |rules| && RuleExcludes(rules[k], userMatches, registered, name);
      assert r[k] == rules[k];
    }
  }

  /** Each call appends the rule again, which changes nothing that is excluded. */
  lemma RepeatedRuleHarmless(rules: seq<ExcludeRule>, userMatches: (nat, string) -> bool,
                             registered: set<string>, name: string)
    ensures Excluded(rules + [GeneratedAsset] + [GeneratedAsset], userMatches, registered, name) <==>
      Excluded(rules + [GeneratedAsset], userMatches, registered, name)
  {
    GeneratedRuleExcludesRegistered(rules + [GeneratedAsset], userMatches, registered, name);
    GeneratedRuleExcludesRegistered(rules, userMatches, registered, name);
  }

  /** A registry that has grown excludes at least what it excluded before. */
  lemma ExclusionGrowsWithRegistry(rules: seq<ExcludeRule>, userMatches: (nat, string) -> bool,
                                   registered: set<string>, later: set<string>, name: string)
    requires registered <= later && Excluded(rules, userMatches, registered, name)
    ensures Excluded(rules, userMatches, later, name)
  {
    var k :| 0 <= k < |rules| && RuleExcludes(rules[k], userMatches, registered, name);
    assert RuleExcludes(rules[k], userMatches, later, name);
  }
}
