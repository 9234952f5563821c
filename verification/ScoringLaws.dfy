/**
  What the five components are worth under the default policy, as values and differences of
  the breakdown a score has: the points of each text signal and each section, the share one
  item adds, and the scores of evidence that is all of one class.
*/
module ScoringLaws {
  import opened CatalogModels
  import opened Signals
  import opened Scoring

  // ----- text and sections -----

  /** Four points for length, three for an address, three for having no private-use character: 20 in all. */
  lemma TextPoints(rules: seq<Requirement>, evidence: seq<Evidence>, signals: TextSignals, sections: set<string>)
    ensures var ats := (s: TextSignals) => Breakdown(DefaultPolicy, rules, evidence, s, sections).ats;
      && ats(signals.(long := true)) == ats(signals.(long := false)) + 4.0
      && ats(signals.(email := true)) == ats(signals.(email := false)) + 3.0
      && ats(signals.(privateUse := false)) == ats(signals.(privateUse := true)) + 3.0
      && ats(signals.(impact := true)) == ats(signals.(impact := false))
      && (signals.long && signals.email && !signals.privateUse ==> ats(signals) == 20.0)
  {
  }

  /** Each of the four scored sections adds two and a half points, any other section nothing. */
  lemma SectionPoints(rules: seq<Requirement>, evidence: seq<Evidence>, signals: TextSignals, sections: set<string>,
                      name: string)
    requires name !in sections
    ensures var completeness := (s: set<string>) => Breakdown(DefaultPolicy, rules, evidence, signals, s).completeness;
      && completeness({}) == 0.0
      && completeness(sections + {name})
         == completeness(sections) + if name in {"skills", "experience", "projects", "education"} then 2.5 else 0.0
  {
    OneMoreSection(sections, name);
    assert ScoredSections * {} == {};
    SectionShare(DefaultPolicy, sections);
    SectionShare(DefaultPolicy, sections + {name});
  }

  lemma OneMoreSection(sections: set<string>, name: string)
    requires name !in sections
    ensures |ScoredSections * (sections + {name})|
            == |ScoredSections * sections|
               + if name in {"skills", "experience", "projects", "education"} then 1 else 0
  {
    assert ScoredSections * (sections + {name})
      == ScoredSections * sections + if name in ScoredSections then {name} else {};
  }

  /** A measured result is worth ten points, and its absence still five. */
  lemma ImpactPoints(rules: seq<Requirement>, evidence: seq<Evidence>, signals: TextSignals, sections: set<string>)
    ensures Breakdown(DefaultPolicy, rules, evidence, signals, sections).impact == if signals.impact then 10.0 else 5.0
  {
  }

  // ----- evidence -----

  ghost function StrongItems(evidence: seq<Evidence>): set<int> {
    set i | 0 <= i < |evidence| && evidence[i].classification == Strong
  }

  lemma StrongSnoc(s: seq<Evidence>, e: Evidence)
    ensures StrongCount(s + [e]) == StrongCount(s) + if e.classification == Strong then 1 else 0
  {
    SumConcat(StrongMark(), s, [e]);
    StrongSum(s);
    StrongSum([e]);
    StrongSum(s + [e]);
  }

  lemma StrongItemsSnoc(s: seq<Evidence>, e: Evidence)
    ensures |StrongItems(s + [e])| == |StrongItems(s)| + if e.classification == Strong then 1 else 0
  {
    assert StrongItems(s + [e]) == StrongItems(s) + if e.classification == Strong then {|s|} else {};
  }

  lemma {:induction false} StrongItemsCounted(evidence: seq<Evidence>)
    ensures StrongCount(evidence) == |StrongItems(evidence)|
    decreases |evidence|
  {
    if evidence != [] {
      var rest, last := evidence[..|evidence| - 1], evidence[|evidence| - 1];
      StrongItemsCounted(rest);
      StrongSnoc(rest, last);
      StrongItemsSnoc(rest, last);
      assert evidence == rest + [last];
    }
  }

  lemma {:induction false} AllOrNoneStrong(evidence: seq<Evidence>, c: Classification)
    requires forall i | 0 <= i < |evidence| :: evidence[i].classification == c
    ensures StrongCount(evidence) == if c == Strong then |evidence| else 0
  {
    if evidence != [] {
      AllOrNoneStrong(evidence[1..], c);
    }
  }

  /** Twenty-five points times the share of the items that are strong. */
  lemma ExperiencePoints(rules: seq<Requirement>, evidence: seq<Evidence>, signals: TextSignals, sections: set<string>)
    ensures var experience := Breakdown(DefaultPolicy, rules, evidence, signals, sections).experience;
      experience * (|evidence| as real) == 25.0 * (|StrongItems(evidence)| as real)
    ensures evidence == [] ==> Breakdown(DefaultPolicy, rules, evidence, signals, sections).experience == 0.0
  {
    StrongItemsCounted(evidence);
    ExperienceShare(DefaultPolicy, evidence);
    if evidence != [] {
      RatioTimes(25.0, StrongCount(evidence) as real, |evidence| as real);
    }
  }

  lemma QuotientTimes(part: real, whole: real)
    requires whole != 0.0
    ensures part / whole * whole == part
  {
  }

  lemma {:induction false} OwnWeight(rules: seq<Requirement>, j: nat)
    requires DistinctIds(rules) && j < |rules|
    ensures WeightOf(rules, rules[j].id) == rules[j].weight
  {
    if j > 0 {
      assert rules[1..][j - 1] == rules[j];
      OwnWeight(rules[1..], j - 1);
    }
  }

  /** The evidence with item `k` of class `c`. */
  function Reclassified(evidence: seq<Evidence>, k: nat, c: Classification): seq<Evidence>
    requires k < |evidence|
  {
    evidence[k := evidence[k].(classification := c)]
  }

  lemma RaisedCreditable(rules: seq<Requirement>, evidence: seq<Evidence>, k: nat, c: Classification)
    requires k < |evidence| && Creditable(rules, evidence)
    ensures Creditable(rules, Reclassified(evidence, k, c))
  {
    var after := Reclassified(evidence, k, c);
    assert forall i | 0 <= i < |after| :: after[i].requirementId == evidence[i].requirementId;
  }

  lemma SkillsOf(rules: seq<Requirement>, evidence: seq<Evidence>, signals: TextSignals, sections: set<string>)
    requires PositiveWeights(rules) && Creditable(rules, evidence)
    ensures Breakdown(DefaultPolicy, rules, evidence, signals, sections).roleSkills
            == Ratio(35.0, Sum(CreditOf(rules), evidence), TotalWeight(rules))
  {
    ClampsAreNoOps(DefaultPolicy, rules, evidence, signals, sections);
  }

  lemma RatioTimes(maximum: real, part: real, whole: real)
    requires whole != 0.0
    ensures Ratio(maximum, part, whole) * whole == maximum * part
  {
    QuotientTimes(maximum * part, whole);
  }

  /** The requirement points when item `k` is of class `c`. */
  function SkillsWith(rules: seq<Requirement>, evidence: seq<Evidence>, k: nat, c: Classification,
                      signals: TextSignals, sections: set<string>): real
    requires k < |evidence|
  {
    Breakdown(DefaultPolicy, rules, Reclassified(evidence, k, c), signals, sections).roleSkills
  }

  /**
    An item that changes from missing to strong adds its share of the 35 points, weight over
    total weight; a weak item half of that, a mention a fifth, a contradictory item nothing.
  */
  lemma {:induction false} ItemPoints(rules: seq<Requirement>, evidence: seq<Evidence>, signals: TextSignals,
                                      sections: set<string>, j: nat, k: nat, c: Classification)
    requires PositiveWeights(rules) && DistinctIds(rules) && Creditable(rules, evidence)
    requires j < |rules| && k < |evidence| && evidence[k].requirementId == rules[j].id
    ensures TotalWeight(rules) > 0.0
    ensures SkillsWith(rules, evidence, k, c, signals, sections)
            == SkillsWith(rules, evidence, k, Missing, signals, sections)
               + (if c == Strong then 35.0 * rules[j].weight / TotalWeight(rules)
                  else if c == Weak then 17.5 * rules[j].weight / TotalWeight(rules)
                  else if c == MentionOnly then 7.0 * rules[j].weight / TotalWeight(rules)
                  else 0.0)
  {
    TotalWeightPositive(rules);
    SkillsAre(rules, evidence, signals, sections, k, Missing);
    SkillsAre(rules, evidence, signals, sections, k, c);
    CreditGap(rules, evidence, j, k, c);
    var credit := Sum(CreditOf(rules), Reclassified(evidence, k, Missing));
    RatioGap(credit, rules[j].weight, TotalWeight(rules));
  }

  lemma {:induction false} SkillsAre(rules: seq<Requirement>, evidence: seq<Evidence>, signals: TextSignals,
                                     sections: set<string>, k: nat, c: Classification)
    requires PositiveWeights(rules) && Creditable(rules, evidence) && k < |evidence|
    ensures SkillsWith(rules, evidence, k, c, signals, sections)
            == Ratio(35.0, Sum(CreditOf(rules), Reclassified(evidence, k, c)), TotalWeight(rules))
  {
    RaisedCreditable(rules, evidence, k, c);
    SkillsOf(rules, Reclassified(evidence, k, c), signals, sections);
  }

  lemma {:induction false} CreditGap(rules: seq<Requirement>, evidence: seq<Evidence>, j: nat, k: nat,
                                     c: Classification)
    requires DistinctIds(rules) && j < |rules| && k < |evidence| && evidence[k].requirementId == rules[j].id
    ensures Sum(CreditOf(rules), Reclassified(evidence, k, c))
            == Sum(CreditOf(rules), Reclassified(evidence, k, Missing))
               + (if c == Strong then rules[j].weight else if c == Weak then 0.5 * rules[j].weight
                  else if c == MentionOnly then 0.2 * rules[j].weight else 0.0)
  {
    SumUpdate(CreditOf(rules), evidence, k, evidence[k].(classification := Missing));
    SumUpdate(CreditOf(rules), evidence, k, evidence[k].(classification := c));
    ItemCredit(rules, j, evidence[k], Missing);
    ItemCredit(rules, j, evidence[k], c);
  }

  lemma {:induction false} ItemCredit(rules: seq<Requirement>, j: nat, e: Evidence, c: Classification)
    requires DistinctIds(rules) && j < |rules| && e.requirementId == rules[j].id
    ensures CreditOf(rules)(e.(classification := c))
            == if c == Strong then rules[j].weight else if c == Weak then 0.5 * rules[j].weight
               else if c == MentionOnly then 0.2 * rules[j].weight else 0.0
  {
    OwnWeight(rules, j);
  }

  lemma RatioGap(credit: real, w: real, whole: real)
    requires whole > 0.0
    ensures Ratio(35.0, credit + w, whole) == Ratio(35.0, credit, whole) + 35.0 * w / whole
    ensures Ratio(35.0, credit + 0.5 * w, whole) == Ratio(35.0, credit, whole) + 17.5 * w / whole
    ensures Ratio(35.0, credit + 0.2 * w, whole) == Ratio(35.0, credit, whole) + 7.0 * w / whole
  {
    QuotientOfSum(35.0 * credit, 35.0 * w, whole);
    QuotientOfSum(35.0 * credit, 17.5 * w, whole);
    QuotientOfSum(35.0 * credit, 7.0 * w, whole);
  }

  lemma QuotientOfSum(a: real, b: real, whole: real)
    requires whole > 0.0
    ensures (a + b) / whole == a / whole + b / whole
  {
  }

  lemma WorthOfWeight(c: Classification, w: real)
    ensures w * Multiplier(c) == Worth(c) * w
  {
  }

  // ----- evidence that is all of one class -----

  /** One item per rule, in some order, all of the class. */
  ghost predicate AllOf(rules: seq<Requirement>, evidence: seq<Evidence>, c: Classification) {
    exists listed :: multiset(listed) == multiset(evidence) && Listed(rules, listed, c)
  }

  ghost predicate Listed(rules: seq<Requirement>, evidence: seq<Evidence>, c: Classification) {
    && |evidence| == |rules|
    && forall i | 0 <= i < |rules| :: evidence[i].requirementId == rules[i].id && evidence[i].classification == c
  }

  /** The part of its weight an item of the class is worth. */
  function Worth(c: Classification): real {
    if c == Strong then 1.0 else if c == Weak then 0.5 else if c == MentionOnly then 0.2 else 0.0
  }

  lemma {:induction false} ListedCredit(rules: seq<Requirement>, from: nat, evidence: seq<Evidence>, c: Classification)
    requires DistinctIds(rules) && from <= |rules| && Listed(rules[from..], evidence, c)
    ensures Sum(CreditOf(rules), evidence) == Worth(c) * TotalWeight(rules[from..])
    decreases |evidence|
  {
    if evidence != [] {
      assert rules[from..][1..] == rules[from + 1..];
      ListedCredit(rules, from + 1, evidence[1..], c);
      OwnWeight(rules, from);
      WorthOfWeight(c, rules[from].weight);
      ShareOfSum(Worth(c), rules[from].weight, TotalWeight(rules[from + 1..]));
    }
  }

  lemma ShareOfSum(m: real, a: real, b: real)
    ensures m * (a + b) == m * a + m * b
  {
  }

  lemma ListedCreditable(rules: seq<Requirement>, evidence: seq<Evidence>, c: Classification)
    requires DistinctIds(rules) && Listed(rules, evidence, c)
    ensures Creditable(rules, evidence)
  {
    assert forall i | 0 <= i < |evidence| :: evidence[i].requirementId == rules[i].id;
  }

  lemma ListedScore(rules: seq<Requirement>, evidence: seq<Evidence>, c: Classification, signals: TextSignals,
                    sections: set<string>)
    requires rules != [] && PositiveWeights(rules) && DistinctIds(rules) && Listed(rules, evidence, c)
    ensures Creditable(rules, evidence)
    ensures Breakdown(DefaultPolicy, rules, evidence, signals, sections).roleSkills == 35.0 * Worth(c)
    ensures Breakdown(DefaultPolicy, rules, evidence, signals, sections).experience == if c == Strong then 25.0 else 0.0
  {
    ListedCreditable(rules, evidence, c);
    assert rules[0..] == rules;
    ListedCredit(rules, 0, evidence, c);
    TotalWeightPositive(rules);
    ClampsAreNoOps(DefaultPolicy, rules, evidence, signals, sections);
    ShareCancels(35.0, Worth(c), TotalWeight(rules));
    AllOrNoneStrong(evidence, c);
    ShareCancels(25.0, if c == Strong then 1.0 else 0.0, |evidence| as real);
  }

  lemma ShareCancels(maximum: real, m: real, whole: real)
    requires whole > 0.0
    ensures Ratio(maximum, m * whole, whole) == maximum * m
  {
    assert maximum * (m * whole) == (maximum * m) * whole;
    SameFactor(Ratio(maximum, m * whole, whole), maximum * m, whole);
  }

  lemma SameFactor(a: real, b: real, w: real)
    requires a * w == b * w && w != 0.0
    ensures a == b
  {
    assert (a - b) * w == 0.0;
  }

  /**
    One item per requirement, in any order: all strong is worth 35 and 25 points, all weak
    17.5 and none, all mentions 7 and none, and all missing or contradictory nothing.
  */
  lemma UniformPoints(rules: seq<Requirement>, evidence: seq<Evidence>, c: Classification, signals: TextSignals,
                      sections: set<string>)
    requires rules != [] && PositiveWeights(rules) && DistinctIds(rules) && AllOf(rules, evidence, c)
    ensures Creditable(rules, evidence)
    ensures var b := Breakdown(DefaultPolicy, rules, evidence, signals, sections);
      && (c == Strong ==> b.roleSkills == 35.0 && b.experience == 25.0)
      && (c == Weak ==> b.roleSkills == 17.5 && b.experience == 0.0)
      && (c == MentionOnly ==> b.roleSkills == 7.0 && b.experience == 0.0)
      && (c == Missing || c == Contradictory ==> b.roleSkills == 0.0 && b.experience == 0.0)
  {
    var listed :| multiset(listed) == multiset(evidence) && Listed(rules, listed, c);
    ListedScore(rules, listed, c, signals, sections);
    OrderIrrelevant(DefaultPolicy, rules, listed, evidence, signals, sections);
  }

  // ----- the total -----

  /**
    For creditable evidence the total is the sum of the five components, none left out,
    rounded to the nearest integer with halves up, and its band is the one of its range.
  */
  lemma TotalRounds(rules: seq<Requirement>, evidence: seq<Evidence>, signals: TextSignals, sections: set<string>)
    requires PositiveWeights(rules) && Creditable(rules, evidence)
    ensures var b := Breakdown(DefaultPolicy, rules, evidence, signals, sections);
      var t := b.Total();
      && (t as real) - 0.5 <= b.roleSkills + b.experience + b.ats + b.completeness + b.impact < (t as real) + 0.5
      && (BandOf(t) == NeedsWork <==> t <= 49) && (BandOf(t) == Developing <==> 50 <= t <= 69)
      && (BandOf(t) == Good <==> 70 <= t <= 84) && (BandOf(t) == VeryStrong <==> 85 <= t)
  {
    ComponentsInRange(rules, evidence, signals, sections);
    TotalNearest(Breakdown(DefaultPolicy, rules, evidence, signals, sections));
  }

  lemma TotalNearest(b: ScoreBreakdown)
    requires 0.0 <= b.roleSkills + b.experience + b.ats + b.completeness + b.impact <= 100.0
    ensures (b.Total() as real) - 0.5 <= b.roleSkills + b.experience + b.ats + b.completeness + b.impact
            < (b.Total() as real) + 0.5
  {
  }

  lemma ComponentsInRange(rules: seq<Requirement>, evidence: seq<Evidence>, signals: TextSignals,
                          sections: set<string>)
    ensures var b := Breakdown(DefaultPolicy, rules, evidence, signals, sections);
      && 0.0 <= b.roleSkills <= 35.0 && 0.0 <= b.experience <= 25.0 && 0.0 <= b.ats <= 20.0
      && 0.0 <= b.completeness <= 10.0 && 0.0 <= b.impact <= 10.0
  {
  }

  /** A perfect candidate: everything strong, all four sections, every signal good. */
  lemma PerfectScore(rules: seq<Requirement>, evidence: seq<Evidence>, signals: TextSignals, sections: set<string>)
    requires rules != [] && PositiveWeights(rules) && DistinctIds(rules) && AllOf(rules, evidence, Strong)
    requires signals.long && signals.email && signals.impact && !signals.privateUse
    requires {"skills", "experience", "projects", "education"} <= sections
    ensures Breakdown(DefaultPolicy, rules, evidence, signals, sections)
            == ScoreBreakdown(35.0, 25.0, 20.0, 10.0, 10.0)
    ensures Breakdown(DefaultPolicy, rules, evidence, signals, sections).Total() == 100
  {
    UniformPoints(rules, evidence, Strong, signals, sections);
    assert ScoredSections * sections == {"skills"} + {"experience"} + {"projects"} + {"education"};
  }
}
