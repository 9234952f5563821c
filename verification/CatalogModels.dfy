/** The published catalog as the engine reads it. */
module CatalogModels {
  import opened Wrappers

  datatype Requirement = Requirement(
    id: string,
    term: string,
    aliases: seq<string>,
    exclusions: seq<string>,
    weight: real,
    recommendationIds: seq<string>)

  datatype JobRole = JobRole(
    slug: string,
    title: string,
    active: bool,
    seniorities: seq<Option<string>>,
    requirements: seq<Requirement>)

  datatype Catalog = Catalog(
    version: string,
    engineVersion: string,
    roles: seq<JobRole>,
    recommendationIds: seq<string>)

  function KnownIds(catalog: Catalog): set<string> {
    set i | 0 <= i < |catalog.recommendationIds| :: catalog.recommendationIds[i]
  }

  ghost predicate DistinctIds(rules: seq<Requirement>) {
    forall i, j | 0 <= i < j < |rules| :: rules[i].id != rules[j].id
  }

  ghost predicate PositiveWeights(rules: seq<Requirement>) {
    forall i | 0 <= i < |rules| :: rules[i].weight > 0.0
  }

  ghost predicate DistinctSlugs(roles: seq<JobRole>) {
    forall i, j | 0 <= i < j < |roles| :: roles[i].slug != roles[j].slug
  }

  /** The seniority levels of the engine's enumeration. */
  const Levels: set<string> := {"junior", "mid", "senior", "lead"}

  predicate DecodableRole(role: JobRole) {
    forall k | 0 <= k < |role.seniorities| :: role.seniorities[k].Some? && role.seniorities[k].value in Levels
  }

  /** `fromJson` throws on a seniority outside the enumeration, null included, in any role. */
  predicate Decodable(catalog: Catalog) {
    forall i | 0 <= i < |catalog.roles| :: DecodableRole(catalog.roles[i])
  }

  function TotalWeight(rules: seq<Requirement>): real {
    if rules == [] then 0.0 else rules[0].weight + TotalWeight(rules[1..])
  }

  lemma {:induction false} TotalWeightPositive(rules: seq<Requirement>)
    requires PositiveWeights(rules)
    ensures TotalWeight(rules) >= 0.0
    ensures rules != [] ==> TotalWeight(rules) > 0.0
  {
    if rules != [] {
      TotalWeightPositive(rules[1..]);
    }
  }

  lemma {:induction false} TotalWeightSnoc(rules: seq<Requirement>, r: Requirement)
    ensures TotalWeight(rules + [r]) == TotalWeight(rules) + r.weight
  {
    if rules != [] {
      TotalWeightSnoc(rules[1..], r);
      assert (rules + [r])[1..] == rules[1..] + [r];
    }
  }
}
