/**
  The deterministic scoring engine, over exact reals. The text enters through the four
  signals the score reads from it; the theorems hold for every combination of them.
*/
module Scoring {
  import opened Wrappers
  import opened Sets
  import opened CatalogModels
  import opened Signals

  datatype Classification = Strong | Weak | MentionOnly | Missing | Contradictory

  datatype Evidence = Evidence(
    requirementId: string,
    canonicalTerm: string,
    matchedTerm: Option<string>,
    classification: Classification,
    section: Option<string>,
    page: Option<nat>,
    start: Option<nat>,
    end: Option<nat>)

  function Multiplier(c: Classification): real {
    match c
    case Strong => 1.0
    case Weak => 0.5
    case MentionOnly => 0.2
    case _ => 0.0
  }

  function Clamp(x: real, lo: real, hi: real): real {
    if x < lo then lo else if x > hi then hi else x
  }

  /** `round()`: to the nearest integer, halves away from zero. */
  function RoundHalfAway(x: real): int {
    if x >= 0.0 then (x + 0.5).Floor else -((-x + 0.5).Floor)
  }

  datatype ScoreBreakdown = ScoreBreakdown(
    roleSkills: real, experience: real, ats: real, completeness: real, impact: real)
  {
    function Sum(): real {
      roleSkills + experience + ats + completeness + impact
    }

    function Total(): int {
      RoundHalfAway(Clamp(Sum(), 0.0, 100.0))
    }
  }

  datatype Band = NeedsWork | Developing | Good | VeryStrong

  function BandOf(total: int): Band {
    if total < 50 then NeedsWork else if total < 70 then Developing else if total < 85 then Good else VeryStrong
  }

  datatype Policy = Policy(roleSkills: real, experience: real, ats: real, completeness: real, impact: real)

  const DefaultPolicy: Policy := Policy(35.0, 25.0, 20.0, 10.0, 10.0)

  ghost predicate Sensible(p: Policy) {
    0.0 <= p.roleSkills && 0.0 <= p.experience && 0.0 <= p.ats && 0.0 <= p.completeness && 0.0 <= p.impact
  }

  const ScoredSections: set<string> := {"skills", "experience", "projects", "education"}

  datatype ScoreError = UnknownRequirement | DuplicateCredit

  // ----- the score -----

  function WeightOf(rules: seq<Requirement>, id: string): real {
    if rules == [] then 0.0 else if rules[0].id == id then rules[0].weight else WeightOf(rules[1..], id)
  }

  predicate Known(rules: seq<Requirement>, id: string) {
    exists i | 0 <= i < |rules| :: rules[i].id == id
  }

  function Sum(f: Evidence -> real, s: seq<Evidence>): real {
    if s == [] then 0.0 else f(s[0]) + Sum(f, s[1..])
  }

  function CreditOf(rules: seq<Requirement>): Evidence -> real {
    (e: Evidence) => WeightOf(rules, e.requirementId) * Multiplier(e.classification)
  }

  /** Marks the strong items, so that their number is a sum too. */
  function StrongMark(): Evidence -> real {
    (e: Evidence) => if e.classification == Strong then 1.0 else 0.0
  }

  function AtsPoints(signals: TextSignals): real {
    10.0 + (if signals.long then 4.0 else 0.0) + (if signals.privateUse then 0.0 else 3.0)
    + (if signals.email then 3.0 else 0.0)
  }

  function Ratio(maximum: real, part: real, whole: real): real {
    if whole == 0.0 then 0.0 else maximum * part / whole
  }

  function StrongCount(s: seq<Evidence>): nat {
    if s == [] then 0 else (if s[0].classification == Strong then 1 else 0) + StrongCount(s[1..])
  }

  function RawRoleSkills(p: Policy, rules: seq<Requirement>, evidence: seq<Evidence>): real {
    Ratio(p.roleSkills, Sum(CreditOf(rules), evidence), TotalWeight(rules))
  }

  function RawExperience(p: Policy, evidence: seq<Evidence>): real {
    Ratio(p.experience, StrongCount(evidence) as real, |evidence| as real)
  }

  function RawCompleteness(p: Policy, sections: set<string>): real {
    p.completeness * (|ScoredSections * sections| as real) / 4.0
  }

  function RawImpact(p: Policy, signals: TextSignals): real {
    if signals.impact then p.impact else p.impact / 2.0
  }

  function Breakdown(p: Policy, rules: seq<Requirement>, evidence: seq<Evidence>, signals: TextSignals,
                     sections: set<string>): ScoreBreakdown
  {
    ScoreBreakdown(
      Clamp(RawRoleSkills(p, rules, evidence), 0.0, p.roleSkills),
      Clamp(RawExperience(p, evidence), 0.0, p.experience),
      Clamp(AtsPoints(signals), 0.0, p.ats),
      Clamp(RawCompleteness(p, sections), 0.0, p.completeness),
      Clamp(RawImpact(p, signals), 0.0, p.impact))
  }

  /** Each item refers to a known requirement, and no requirement is credited twice. */
  ghost predicate Creditable(rules: seq<Requirement>, evidence: seq<Evidence>) {
    && (forall i | 0 <= i < |evidence| :: Known(rules, evidence[i].requirementId))
    && NothingTwice(evidence)
  }

  ghost predicate NothingTwice(evidence: seq<Evidence>) {
    forall i, j | 0 <= i < j < |evidence| :: evidence[i].requirementId != evidence[j].requirementId
  }

  /**
    `score`: the loop fills the map of credited requirements and throws on an unknown or
    repeated one; the folds run over the map's values, which come in insertion order.
  */
  method Score(p: Policy, rules: seq<Requirement>, evidence: seq<Evidence>, text: string, sections: set<string>)
      returns (result: Result<ScoreBreakdown, ScoreError>)
    ensures result.Ok? <==> Creditable(rules, evidence)
    ensures result.Ok? ==> result.value == Breakdown(p, rules, evidence, SignalsOf(text), sections)
  {
    var credited: map<string, Evidence> := map[];
    var values: seq<Evidence> := [];
    for i := 0 to |evidence|
      invariant Creditable(rules, evidence[..i])
      invariant values == evidence[..i]
      invariant credited.Keys == set j | 0 <= j < i :: evidence[j].requirementId
    {
      var item := evidence[i];
      assert evidence[..i + 1] == evidence[..i] + [item];
      if !Known(rules, item.requirementId) {
        return Err(UnknownRequirement);
      }
      if item.requirementId in credited {
        return Err(DuplicateCredit);
      }
      credited := credited[item.requirementId := item];
      values := values + [item];
    }
    assert evidence[..|evidence|] == evidence;
    result := Ok(Breakdown(p, rules, values, SignalsOf(text), sections));
  }

  // ----- sums -----

  lemma {:induction false} SumConcat(f: Evidence -> real, a: seq<Evidence>, b: seq<Evidence>)
    ensures Sum(f, a + b) == Sum(f, a) + Sum(f, b)
  {
    if a == [] {
      assert a + b == b;
    } else {
      assert (a + b)[1..] == a[1..] + b;
      SumConcat(f, a[1..], b);
    }
  }

  lemma SumRemove(f: Evidence -> real, s: seq<Evidence>, k: nat)
    requires k < |s|
    ensures Sum(f, s) == f(s[k]) + Sum(f, s[..k] + s[k + 1..])
  {
    assert s == s[..k] + ([s[k]] + s[k + 1..]);
    SumConcat(f, s[..k], [s[k]] + s[k + 1..]);
    SumConcat(f, s[..k], s[k + 1..]);
  }

  lemma {:induction false} SumPermuted(f: Evidence -> real, a: seq<Evidence>, b: seq<Evidence>)
    requires multiset(a) == multiset(b)
    ensures Sum(f, a) == Sum(f, b)
  {
    if a == [] {
      assert |multiset(b)| == |multiset(a)| == 0;
    } else {
      assert a[0] in multiset(b);
      var k :| 0 <= k < |b| && b[k] == a[0];
      RestPermuted(a, b, k);
      SumPermuted(f, a[1..], b[..k] + b[k + 1..]);
      SumRemove(f, b, k);
    }
  }

  lemma RestPermuted(a: seq<Evidence>, b: seq<Evidence>, k: nat)
    requires a != [] && k < |b| && b[k] == a[0] && multiset(a) == multiset(b)
    ensures multiset(a[1..]) == multiset(b[..k] + b[k + 1..])
  {
    var rest := b[..k] + b[k + 1..];
    assert a == [a[0]] + a[1..];
    assert b == b[..k] + ([b[k]] + b[k + 1..]);
    assert multiset(a) == multiset(a[1..]) + multiset{a[0]};
    assert multiset(b) == multiset(rest) + multiset{a[0]};
    Cancel(multiset(a[1..]), multiset(rest), a[0]);
  }

  lemma Cancel<T>(x: multiset<T>, y: multiset<T>, e: T)
    requires x + multiset{e} == y + multiset{e}
    ensures x == y
  {
    forall t
      ensures x[t] == y[t]
    {
      assert (x + multiset{e})[t] == (y + multiset{e})[t];
    }
  }

  lemma SumUpdate(f: Evidence -> real, s: seq<Evidence>, k: nat, e: Evidence)
    requires k < |s|
    ensures Sum(f, s[k := e]) == Sum(f, s) - f(s[k]) + f(e)
  {
    SumRemove(f, s, k);
    SumRemove(f, s[k := e], k);
    assert s[k := e][..k] == s[..k] && s[k := e][k + 1..] == s[k + 1..];
  }

  lemma {:induction false} StrongSum(s: seq<Evidence>)
    ensures Sum(StrongMark(), s) == StrongCount(s) as real
    ensures StrongCount(s) <= |s|
    ensures (forall i | 0 <= i < |s| :: s[i].classification != Strong) ==> StrongCount(s) == 0
  {
    if s != [] {
      StrongSum(s[1..]);
    }
  }

  // ----- credit never exceeds the weight -----

  function SumCaps(cap: Requirement -> real, rules: seq<Requirement>): real {
    if rules == [] then 0.0 else cap(rules[0]) + SumCaps(cap, rules[1..])
  }

  ghost predicate Caps(cost: Evidence -> real, cap: Requirement -> real, r: Requirement, e: Evidence) {
    e.requirementId == r.id && 0.0 <= cost(e) <= cap(r)
  }

  ghost predicate CoveredItem(cost: Evidence -> real, cap: Requirement -> real, rules: seq<Requirement>, e: Evidence) {
    exists j :: 0 <= j < |rules| && Caps(cost, cap, rules[j], e)
  }

  /** Some rule of its own id caps the cost of every item. */
  ghost predicate Covered(cost: Evidence -> real, cap: Requirement -> real, rules: seq<Requirement>,
                          evidence: seq<Evidence>)
  {
    forall i | 0 <= i < |evidence| :: CoveredItem(cost, cap, rules, evidence[i])
  }

  lemma CoveredTail(cost: Evidence -> real, cap: Requirement -> real, rules: seq<Requirement>, evidence: seq<Evidence>)
    requires rules != [] && Covered(cost, cap, rules, evidence)
    requires forall i | 0 <= i < |evidence| :: !Caps(cost, cap, rules[0], evidence[i])
    ensures Covered(cost, cap, rules[1..], evidence)
  {
    forall i | 0 <= i < |evidence|
      ensures CoveredItem(cost, cap, rules[1..], evidence[i])
    {
      assert CoveredItem(cost, cap, rules, evidence[i]);
      var k :| 0 <= k < |rules| && Caps(cost, cap, rules[k], evidence[i]);
      assert k != 0;
      assert Caps(cost, cap, rules[1..][k - 1], evidence[i]);
    }
  }

  lemma NoRulesNoCover(cost: Evidence -> real, cap: Requirement -> real, evidence: seq<Evidence>)
    ensures evidence != [] ==> !Covered(cost, cap, [], evidence)
  {
    if evidence != [] {
      assert !CoveredItem(cost, cap, [], evidence[0]);
    }
  }

  /** The items other than item `k`. */
  function Without(evidence: seq<Evidence>, k: nat): seq<Evidence>
    requires k < |evidence|
  {
    evidence[..k] + evidence[k + 1..]
  }

  lemma WithoutItem(cost: Evidence -> real, cap: Requirement -> real, rules: seq<Requirement>,
                    evidence: seq<Evidence>, k: nat)
    requires rules != [] && k < |evidence| && NothingTwice(evidence)
    requires Covered(cost, cap, rules, evidence) && Caps(cost, cap, rules[0], evidence[k])
    ensures NothingTwice(Without(evidence, k)) && Covered(cost, cap, rules[1..], Without(evidence, k))
  {
    var rest := Without(evidence, k);
    forall i | 0 <= i < |rest|
      ensures rest[i] == evidence[if i < k then i else i + 1] && rest[i].requirementId != rules[0].id
    {
    }
    assert Covered(cost, cap, rules, rest);
    CoveredTail(cost, cap, rules, rest);
  }

  /** Items for different requirements, each within the cap of its rule, stay within all the caps together. */
  lemma {:induction false} SumCapped(cost: Evidence -> real, cap: Requirement -> real, rules: seq<Requirement>,
                                     evidence: seq<Evidence>)
    requires Covered(cost, cap, rules, evidence) && NothingTwice(evidence)
    requires forall j | 0 <= j < |rules| :: 0.0 <= cap(rules[j])
    ensures 0.0 <= Sum(cost, evidence) <= SumCaps(cap, rules)
    decreases |rules|
  {
    if rules == [] {
      NoRulesNoCover(cost, cap, evidence);
    } else if k :| 0 <= k < |evidence| && Caps(cost, cap, rules[0], evidence[k]) {
      WithoutItem(cost, cap, rules, evidence, k);
      SumRemove(cost, evidence, k);
      SumCapped(cost, cap, rules[1..], Without(evidence, k));
    } else {
      CoveredTail(cost, cap, rules, evidence);
      SumCapped(cost, cap, rules[1..], evidence);
    }
  }

  function ShareOf(m: real): Requirement -> real {
    (r: Requirement) => r.weight * m
  }

  lemma {:induction false} SharesOfWeight(m: real, rules: seq<Requirement>)
    ensures SumCaps(ShareOf(m), rules) == m * TotalWeight(rules)
  {
    if rules != [] {
      SharesOfWeight(m, rules[1..]);
      Distributes(m, rules[0].weight, TotalWeight(rules[1..]));
    }
  }

  lemma Distributes(m: real, x: real, y: real)
    ensures m * (x + y) == x * m + m * y
  {
  }

  lemma {:induction false} WeightIsARules(rules: seq<Requirement>, id: string) returns (j: nat)
    requires Known(rules, id)
    ensures j < |rules| && rules[j].id == id && WeightOf(rules, id) == rules[j].weight
  {
    if rules[0].id == id {
      j := 0;
    } else {
      var k :| 0 <= k < |rules| && rules[k].id == id;
      assert rules[1..][k - 1].id == id;
      j := WeightIsARules(rules[1..], id);
      j := j + 1;
    }
  }

  ghost predicate WorthAtMost(evidence: seq<Evidence>, m: real) {
    forall i | 0 <= i < |evidence| :: Multiplier(evidence[i].classification) <= m
  }

  lemma ItemCapped(rules: seq<Requirement>, e: Evidence, m: real) returns (j: nat)
    requires PositiveWeights(rules) && Known(rules, e.requirementId) && Multiplier(e.classification) <= m
    ensures j < |rules| && Caps(CreditOf(rules), ShareOf(m), rules[j], e)
  {
    j := WeightIsARules(rules, e.requirementId);
    ShareAtMost(rules[j].weight, Multiplier(e.classification), m);
  }

  /** If no item is worth more than `m`, the credit is at most that share of the total weight. */
  lemma CreditBounded(rules: seq<Requirement>, evidence: seq<Evidence>, m: real)
    requires PositiveWeights(rules) && Creditable(rules, evidence) && 0.0 <= m && WorthAtMost(evidence, m)
    ensures 0.0 <= Sum(CreditOf(rules), evidence) <= m * TotalWeight(rules)
  {
    forall i | 0 <= i < |evidence|
      ensures CoveredItem(CreditOf(rules), ShareOf(m), rules, evidence[i])
    {
      var j := ItemCapped(rules, evidence[i], m);
    }
    forall j | 0 <= j < |rules|
      ensures 0.0 <= ShareOf(m)(rules[j])
    {
      ShareAtMost(rules[j].weight, 0.0, m);
    }
    SumCapped(CreditOf(rules), ShareOf(m), rules, evidence);
    SharesOfWeight(m, rules);
  }

  lemma {:induction false} KnownWeight(rules: seq<Requirement>, id: string)
    requires PositiveWeights(rules)
    ensures WeightOf(rules, id) >= 0.0
  {
    if rules != [] {
      KnownWeight(rules[1..], id);
    }
  }

  lemma ShareAtMost(w: real, a: real, b: real)
    requires 0.0 <= w && 0.0 <= a <= b
    ensures 0.0 <= w * a <= w * b
  {
  }

  lemma QuotientAtMost(x: real, whole: real, bound: real)
    requires 0.0 <= x <= bound * whole && 0.0 < whole
    ensures 0.0 <= x / whole <= bound
  {
    var q := x / whole;
    assert q * whole == x;
    if q < 0.0 {
      ProductPositive(-q, whole);
    } else if bound < q {
      ProductPositive(q - bound, whole);
    }
  }

  lemma ProductPositive(a: real, b: real)
    requires 0.0 < a && 0.0 < b
    ensures 0.0 < a * b
  {
  }

  lemma RatioBounds(maximum: real, part: real, whole: real, m: real)
    requires 0.0 <= maximum && 0.0 <= part <= m * whole && 0.0 <= whole && 0.0 <= m
    ensures 0.0 <= Ratio(maximum, part, whole) <= maximum * m
  {
    if whole != 0.0 {
      ShareAtMost(maximum, part, m * whole);
      assert maximum * (m * whole) == (maximum * m) * whole;
      QuotientAtMost(maximum * part, whole, maximum * m);
    }
  }

  lemma RatioMonotone(maximum: real, a: real, b: real, whole: real)
    requires 0.0 <= maximum && a <= b && 0.0 <= whole
    ensures Ratio(maximum, a, whole) <= Ratio(maximum, b, whole)
  {
    if whole != 0.0 {
      assert maximum * a <= maximum * b;
    }
  }

  // ----- the theorems -----

  lemma CreditWithinWeight(rules: seq<Requirement>, evidence: seq<Evidence>)
    requires PositiveWeights(rules) && Creditable(rules, evidence)
    ensures 0.0 <= Sum(CreditOf(rules), evidence) <= TotalWeight(rules)
  {
    CreditBounded(rules, evidence, 1.0);
  }

  lemma RoleSkillsShare(p: Policy, rules: seq<Requirement>, evidence: seq<Evidence>, m: real)
    requires Sensible(p) && PositiveWeights(rules) && Creditable(rules, evidence)
    requires 0.0 <= m && WorthAtMost(evidence, m)
    ensures 0.0 <= RawRoleSkills(p, rules, evidence) <= p.roleSkills * m
  {
    CreditBounded(rules, evidence, m);
    TotalWeightPositive(rules);
    RatioBounds(p.roleSkills, Sum(CreditOf(rules), evidence), TotalWeight(rules), m);
  }

  lemma ExperienceShare(p: Policy, evidence: seq<Evidence>)
    requires Sensible(p)
    ensures 0.0 <= RawExperience(p, evidence) <= p.experience
  {
    StrongSum(evidence);
    RatioBounds(p.experience, StrongCount(evidence) as real, |evidence| as real, 1.0);
  }

  /**
    For creditable evidence on positive weights the credit never exceeds the weight, and
    under the default policy no clamp changes anything.
  */
  lemma ClampsAreNoOps(p: Policy, rules: seq<Requirement>, evidence: seq<Evidence>, signals: TextSignals,
                       sections: set<string>)
    requires Sensible(p) && PositiveWeights(rules) && Creditable(rules, evidence)
    ensures Sum(CreditOf(rules), evidence) <= TotalWeight(rules)
    ensures var b := Breakdown(p, rules, evidence, signals, sections);
      && b.roleSkills == RawRoleSkills(p, rules, evidence)
      && b.experience == RawExperience(p, evidence)
      && b.completeness == RawCompleteness(p, sections)
      && b.impact == RawImpact(p, signals)
      && (p == DefaultPolicy ==> b.ats == AtsPoints(signals))
  {
    CreditBounded(rules, evidence, 1.0);
    RoleSkillsShare(p, rules, evidence, 1.0);
    ExperienceShare(p, evidence);
    SectionShare(p, sections);
  }

  lemma SectionsAtMostFour(sections: set<string>)
    ensures |ScoredSections * sections| <= 4
  {
    assert ScoredSections == {"skills"} + {"experience"} + {"projects"} + {"education"};
    SubsetAtMost(ScoredSections * sections, ScoredSections);
  }

  lemma SectionShare(p: Policy, sections: set<string>)
    requires Sensible(p)
    ensures 0.0 <= RawCompleteness(p, sections) <= p.completeness
  {
    SectionsAtMostFour(sections);
    var n := |ScoredSections * sections| as real;
    ShareAtMost(p.completeness, n, 4.0);
    assert RawCompleteness(p, sections) == p.completeness * n / 4.0;
  }

  /** Marks the items for one requirement, so that their number is a sum. */
  function IdMark(id: string): Evidence -> real {
    (e: Evidence) => if e.requirementId == id then 1.0 else 0.0
  }

  lemma {:induction false} MarksNotNegative(id: string, s: seq<Evidence>)
    ensures Sum(IdMark(id), s) >= 0.0
    ensures (forall i | 0 <= i < |s| :: s[i].requirementId != id) ==> Sum(IdMark(id), s) == 0.0
  {
    if s != [] {
      MarksNotNegative(id, s[1..]);
    }
  }

  lemma {:induction false} OnceMarked(id: string, s: seq<Evidence>)
    requires NothingTwice(s)
    ensures Sum(IdMark(id), s) <= 1.0
  {
    if s != [] {
      if s[0].requirementId == id {
        MarksNotNegative(id, s[1..]);
      } else {
        OnceMarked(id, s[1..]);
      }
    }
  }

  lemma TwiceMarked(s: seq<Evidence>, i: nat, j: nat)
    requires i < j < |s| && s[i].requirementId == s[j].requirementId
    ensures Sum(IdMark(s[i].requirementId), s) >= 2.0
  {
    var f, rest := IdMark(s[i].requirementId), s[..j] + s[j + 1..];
    SumRemove(f, s, j);
    assert rest[i] == s[i];
    SumRemove(f, rest, i);
    MarksNotNegative(s[i].requirementId, rest[..i] + rest[i + 1..]);
  }

  /** Evidence that is accepted in one order is accepted in every order. */
  lemma CreditableInAnyOrder(rules: seq<Requirement>, a: seq<Evidence>, b: seq<Evidence>)
    requires multiset(a) == multiset(b) && Creditable(rules, a)
    ensures Creditable(rules, b)
  {
    forall i | 0 <= i < |b|
      ensures Known(rules, b[i].requirementId)
    {
      assert b[i] in multiset(b);
      assert b[i] in a;
    }
    forall i, j | 0 <= i < j < |b|
      ensures b[i].requirementId != b[j].requirementId
    {
      if b[i].requirementId == b[j].requirementId {
        TwiceMarked(b, i, j);
        OnceMarked(b[i].requirementId, a);
        SumPermuted(IdMark(b[i].requirementId), a, b);
      }
    }
  }

  lemma StrongPermuted(a: seq<Evidence>, b: seq<Evidence>)
    requires multiset(a) == multiset(b)
    ensures StrongCount(a) == StrongCount(b) && |a| == |b|
  {
    assert |multiset(a)| == |a| && |multiset(b)| == |b|;
    SumPermuted(StrongMark(), a, b);
    StrongSum(a);
    StrongSum(b);
  }

  /** The score does not depend on the order of the evidence, and neither does its acceptance. */
  lemma OrderIrrelevant(p: Policy, rules: seq<Requirement>, a: seq<Evidence>, b: seq<Evidence>, signals: TextSignals,
                        sections: set<string>)
    requires multiset(a) == multiset(b)
    ensures Breakdown(p, rules, a, signals, sections) == Breakdown(p, rules, b, signals, sections)
    ensures Creditable(rules, a) <==> Creditable(rules, b)
  {
    if Creditable(rules, a) {
      CreditableInAnyOrder(rules, a, b);
    } else if Creditable(rules, b) {
      CreditableInAnyOrder(rules, b, a);
    }
    SumPermuted(CreditOf(rules), a, b);
    StrongPermuted(a, b);
    assert RawRoleSkills(p, rules, a) == RawRoleSkills(p, rules, b);
    assert RawExperience(p, a) == RawExperience(p, b);
  }

  lemma TotalMonotone(a: ScoreBreakdown, b: ScoreBreakdown)
    requires a.Sum() <= b.Sum()
    ensures a.Total() <= b.Total()
  {
    assert (Clamp(a.Sum(), 0.0, 100.0) + 0.5).Floor <= (Clamp(b.Sum(), 0.0, 100.0) + 0.5).Floor;
  }

  lemma ClampMonotone(x: real, y: real, hi: real)
    requires x <= y && 0.0 <= hi
    ensures Clamp(x, 0.0, hi) <= Clamp(y, 0.0, hi)
  {
  }

  lemma RaisedCredit(rules: seq<Requirement>, evidence: seq<Evidence>, k: nat, e: Evidence)
    requires PositiveWeights(rules) && k < |evidence| && e.requirementId == evidence[k].requirementId
    requires Multiplier(evidence[k].classification) <= Multiplier(e.classification)
    ensures Sum(CreditOf(rules), evidence) <= Sum(CreditOf(rules), evidence[k := e])
  {
    var f := CreditOf(rules);
    SumUpdate(f, evidence, k, e);
    KnownWeight(rules, e.requirementId);
    ShareAtMost(WeightOf(rules, e.requirementId), Multiplier(evidence[k].classification), Multiplier(e.classification));
    assert f(evidence[k]) <= f(e);
  }

  lemma RaisedStrong(evidence: seq<Evidence>, k: nat, e: Evidence)
    requires k < |evidence| && Multiplier(evidence[k].classification) <= Multiplier(e.classification)
    ensures StrongCount(evidence) <= StrongCount(evidence[k := e])
  {
    SumUpdate(StrongMark(), evidence, k, e);
    StrongSum(evidence);
    StrongSum(evidence[k := e]);
    assert StrongMark()(evidence[k]) <= StrongMark()(e);
  }

  /** Raising one item's classification lowers no component and not the rounded total. */
  lemma RaisingNeverLowers(p: Policy, rules: seq<Requirement>, evidence: seq<Evidence>, k: nat, raised: Classification,
                           signals: TextSignals, sections: set<string>)
    requires Sensible(p) && PositiveWeights(rules) && k < |evidence|
    requires Multiplier(evidence[k].classification) <= Multiplier(raised)
    ensures var a := Breakdown(p, rules, evidence, signals, sections);
      var b := Breakdown(p, rules, evidence[k := evidence[k].(classification := raised)], signals, sections);
      && a.roleSkills <= b.roleSkills && a.experience <= b.experience && a.ats == b.ats
      && a.completeness == b.completeness && a.impact == b.impact
      && a.Total() <= b.Total()
  {
    var e := evidence[k].(classification := raised);
    var after := evidence[k := e];
    RaisedCredit(rules, evidence, k, e);
    RaisedStrong(evidence, k, e);
    TotalWeightPositive(rules);
    RatioMonotone(p.roleSkills, Sum(CreditOf(rules), evidence), Sum(CreditOf(rules), after), TotalWeight(rules));
    RatioMonotone(p.experience, StrongCount(evidence) as real, StrongCount(after) as real, |evidence| as real);
    ClampMonotone(RawRoleSkills(p, rules, evidence), RawRoleSkills(p, rules, after), p.roleSkills);
    ClampMonotone(RawExperience(p, evidence), RawExperience(p, after), p.experience);
    var a, b := Breakdown(p, rules, evidence, signals, sections), Breakdown(p, rules, after, signals, sections);
    assert a.roleSkills <= b.roleSkills && a.experience <= b.experience;
    TotalMonotone(a, b);
  }

  ghost predicate NoneAbove(evidence: seq<Evidence>, c: Classification) {
    WorthAtMost(evidence, Multiplier(c))
  }

  /** Under the default policy, the sum of the components when no item is worth more than `c`. */
  lemma DefaultSum(rules: seq<Requirement>, evidence: seq<Evidence>, c: Classification, signals: TextSignals,
                   sections: set<string>)
    requires PositiveWeights(rules) && Creditable(rules, evidence) && NoneAbove(evidence, c)
    ensures var b := Breakdown(DefaultPolicy, rules, evidence, signals, sections);
      0.0 <= b.Sum() <= 35.0 * Multiplier(c) + RawExperience(DefaultPolicy, evidence) + 40.0
    ensures RawExperience(DefaultPolicy, evidence) <= 25.0
  {
    RoleSkillsShare(DefaultPolicy, rules, evidence, Multiplier(c));
    ExperienceShare(DefaultPolicy, evidence);
    SectionShare(DefaultPolicy, sections);
  }

  lemma NoStrongNoExperience(evidence: seq<Evidence>, c: Classification)
    requires NoneAbove(evidence, c) && c != Strong
    ensures RawExperience(DefaultPolicy, evidence) == 0.0
  {
    StrongSum(evidence);
  }

  /** Keyword stuffing: mentions alone, however many, stay in the lowest band. */
  lemma MentionsAloneNeedWork(rules: seq<Requirement>, evidence: seq<Evidence>, signals: TextSignals,
                              sections: set<string>)
    requires PositiveWeights(rules) && Creditable(rules, evidence) && NoneAbove(evidence, MentionOnly)
    ensures var total := Breakdown(DefaultPolicy, rules, evidence, signals, sections).Total();
      total <= 47 && BandOf(total) == NeedsWork
  {
    DefaultSum(rules, evidence, MentionOnly, signals, sections);
    NoStrongNoExperience(evidence, MentionOnly);
  }

  /** Without a strong item the total stays below the third band. */
  lemma NoStrongItemStaysBelowGood(rules: seq<Requirement>, evidence: seq<Evidence>, signals: TextSignals,
                                   sections: set<string>)
    requires PositiveWeights(rules) && Creditable(rules, evidence) && NoneAbove(evidence, Weak)
    ensures var total := Breakdown(DefaultPolicy, rules, evidence, signals, sections).Total();
      total <= 58 && BandOf(total) in {NeedsWork, Developing}
  {
    DefaultSum(rules, evidence, Weak, signals, sections);
    NoStrongNoExperience(evidence, Weak);
  }

  /** The top band needs at least 38 percent strong items. */
  lemma TopBandNeedsStrongItems(rules: seq<Requirement>, evidence: seq<Evidence>, signals: TextSignals,
                                sections: set<string>)
    requires PositiveWeights(rules) && Creditable(rules, evidence)
    requires BandOf(Breakdown(DefaultPolicy, rules, evidence, signals, sections).Total()) == VeryStrong
    ensures evidence != []
    ensures 100 * StrongCount(evidence) >= 38 * |evidence|
  {
    TopBandSum(Breakdown(DefaultPolicy, rules, evidence, signals, sections));
    HighSumNeedsExperience(rules, evidence, signals, sections);
    ShareAtLeast(StrongCount(evidence), |evidence|);
  }

  lemma HighSumNeedsExperience(rules: seq<Requirement>, evidence: seq<Evidence>, signals: TextSignals,
                               sections: set<string>)
    requires PositiveWeights(rules) && Creditable(rules, evidence)
    requires Breakdown(DefaultPolicy, rules, evidence, signals, sections).Sum() >= 84.5
    ensures RawExperience(DefaultPolicy, evidence) >= 9.5
  {
    DefaultSum(rules, evidence, Strong, signals, sections);
  }

  lemma ShareAtLeast(count: nat, n: nat)
    requires Ratio(25.0, count as real, n as real) >= 9.5
    ensures 0 < n && 100 * count >= 38 * n
  {
    RatioAtLeast(25.0, count as real, n as real, 9.5);
  }

  lemma TopBandSum(b: ScoreBreakdown)
    requires BandOf(b.Total()) == VeryStrong
    ensures b.Sum() >= 84.5
  {
  }

  lemma RatioAtLeast(maximum: real, part: real, whole: real, low: real)
    requires 0.0 <= whole && 0.0 < low <= Ratio(maximum, part, whole)
    ensures 0.0 < whole && maximum * part >= low * whole
  {
    assert maximum * part == (maximum * part / whole) * whole;
  }

  /** A total in range for every accepted input. */
  lemma TotalInRange(b: ScoreBreakdown)
    ensures 0 <= b.Total() <= 100
  {
  }
}
