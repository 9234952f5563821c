/** `CatalogValidator.validate`: the errors it collects, and what a catalog without errors is. */
module CatalogValidation {
  import opened CatalogModels
  import opened TextMatch

  datatype CatalogError =
    | DuplicateRole(slug: string)
    | DuplicateRule(id: string)
    | InvalidWeight(id: string)
    | UnknownRecommendation(id: string)
    | ExclusionConflict(id: string)
    | NoWeightedRequirements(slug: string)

  ghost predicate KnownRecommendations(rule: Requirement, known: set<string>) {
    forall i | 0 <= i < |rule.recommendationIds| :: rule.recommendationIds[i] in known
  }

  /** No exclusion is, ignoring case, the term or an alias of its own rule. */
  ghost predicate NoExclusionConflict(rule: Requirement) {
    && (forall i | 0 <= i < |rule.exclusions| :: Lower(rule.exclusions[i]) != Lower(rule.term))
    && forall i, j | 0 <= i < |rule.exclusions| && 0 <= j < |rule.aliases| ::
         Lower(rule.exclusions[i]) != Lower(rule.aliases[j])
  }

  ghost predicate ValidRule(rule: Requirement, known: set<string>) {
    rule.weight > 0.0 && KnownRecommendations(rule, known) && NoExclusionConflict(rule)
  }

  ghost predicate ValidRules(rules: seq<Requirement>, known: set<string>) {
    forall i | 0 <= i < |rules| :: ValidRule(rules[i], known)
  }

  lemma ValidSnoc(rules: seq<Requirement>, r: Requirement, known: set<string>)
    ensures ValidRules(rules + [r], known) <==> ValidRules(rules, known) && ValidRule(r, known)
  {
    if ValidRules(rules + [r], known) {
      assert (rules + [r])[|rules|] == r;
      forall i | 0 <= i < |rules|
        ensures ValidRule(rules[i], known)
      {
        assert (rules + [r])[i] == rules[i];
      }
    }
  }

  ghost predicate ValidRole(role: JobRole, known: set<string>) {
    && DistinctIds(role.requirements)
    && ValidRules(role.requirements, known)
    && (role.active ==> role.requirements != [])
  }

  /** What the validator accepts, said without its loops. */
  ghost predicate Accepted(catalog: Catalog) {
    var known := KnownIds(catalog);
    && DistinctSlugs(catalog.roles)
    && forall i | 0 <= i < |catalog.roles| :: ValidRole(catalog.roles[i], known)
  }

  method CheckRule(rule: Requirement, known: set<string>) returns (errors: seq<CatalogError>)
    ensures errors == [] <==> ValidRule(rule, known)
  {
    errors := [];
    if rule.weight <= 0.0 {
      errors := errors + [InvalidWeight(rule.id)];
    }
    for i := 0 to |rule.recommendationIds|
      invariant errors == [] <==> rule.weight > 0.0 && forall j | 0 <= j < i :: rule.recommendationIds[j] in known
    {
      if rule.recommendationIds[i] !in known {
        errors := errors + [UnknownRecommendation(rule.recommendationIds[i])];
      }
    }
    var terms := {Lower(rule.term)} + set i | 0 <= i < |rule.aliases| :: Lower(rule.aliases[i]);
    for i := 0 to |rule.exclusions|
      invariant errors == [] <==> rule.weight > 0.0 && KnownRecommendations(rule, known)
                                  && forall j | 0 <= j < i :: Lower(rule.exclusions[j]) !in terms
    {
      if Lower(rule.exclusions[i]) in terms {
        errors := errors + [ExclusionConflict(rule.id)];
      }
    }
  }

  lemma DistinctSnoc(rules: seq<Requirement>, r: Requirement)
    ensures DistinctIds(rules + [r]) <==> DistinctIds(rules) && forall j | 0 <= j < |rules| :: rules[j].id != r.id
  {
    if DistinctIds(rules + [r]) {
      forall i, j | 0 <= i < j < |rules|
        ensures rules[i].id != rules[j].id
      {
        assert (rules + [r])[i] == rules[i] && (rules + [r])[j] == rules[j];
      }
      forall j | 0 <= j < |rules|
        ensures rules[j].id != r.id
      {
        assert (rules + [r])[j] == rules[j] && (rules + [r])[|rules|] == r;
      }
    }
  }

  ghost function IdsBefore(rules: seq<Requirement>, i: nat): set<string>
    requires i <= |rules|
  {
    set j | 0 <= j < i :: rules[j].id
  }

  lemma OneMoreRule(rules: seq<Requirement>, i: nat, known: set<string>)
    requires i < |rules|
    ensures DistinctIds(rules[..i + 1]) <==>
      DistinctIds(rules[..i]) && rules[i].id !in IdsBefore(rules, i)
    ensures ValidRules(rules[..i + 1], known) <==> ValidRules(rules[..i], known) && ValidRule(rules[i], known)
    ensures TotalWeight(rules[..i + 1]) == TotalWeight(rules[..i]) + rules[i].weight
    ensures IdsBefore(rules, i + 1) == IdsBefore(rules, i) + {rules[i].id}
  {
    assert rules[..i + 1] == rules[..i] + [rules[i]];
    DistinctSnoc(rules[..i], rules[i]);
    ValidSnoc(rules[..i], rules[i], known);
    TotalWeightSnoc(rules[..i], rules[i]);
  }

  method CheckRole(role: JobRole, known: set<string>) returns (errors: seq<CatalogError>)
    ensures errors == [] <==> ValidRole(role, known)
  {
    errors := [];
    var ruleIds: set<string> := {};
    var totalWeight := 0.0;
    var rules := role.requirements;
    for i := 0 to |rules|
      invariant ruleIds == IdsBefore(rules, i)
      invariant totalWeight == TotalWeight(rules[..i])
      invariant errors == [] <==> DistinctIds(rules[..i]) && ValidRules(rules[..i], known)
    {
      OneMoreRule(rules, i, known);
      if rules[i].id in ruleIds {
        errors := errors + [DuplicateRule(rules[i].id)];
      }
      ruleIds := ruleIds + {rules[i].id};
      totalWeight := totalWeight + rules[i].weight;
      var more := CheckRule(rules[i], known);
      errors := errors + more;
    }
    assert rules[..|rules|] == rules;
    if errors == [] {
      TotalWeightPositive(rules);
    }
    if totalWeight <= 0.0 && role.active {
      errors := errors + [NoWeightedRequirements(role.slug)];
    }
  }

  /** The validator reports no error exactly for an accepted catalog. */
  method Validate(catalog: Catalog) returns (errors: seq<CatalogError>)
    ensures errors == [] <==> Accepted(catalog)
  {
    errors := [];
    var roleSlugs: set<string> := {};
    var known := set i | 0 <= i < |catalog.recommendationIds| :: catalog.recommendationIds[i];
    var roles := catalog.roles;
    for i := 0 to |roles|
      invariant roleSlugs == set j | 0 <= j < i :: roles[j].slug
      invariant errors == [] <==> DistinctSlugs(roles[..i]) && forall j | 0 <= j < i :: ValidRole(roles[j], known)
    {
      assert roles[..i + 1] == roles[..i] + [roles[i]];
      if roles[i].slug in roleSlugs {
        errors := errors + [DuplicateRole(roles[i].slug)];
      }
      roleSlugs := roleSlugs + {roles[i].slug};
      var more := CheckRole(roles[i], known);
      errors := errors + more;
    }
    assert roles[..|roles|] == roles;
  }
}
