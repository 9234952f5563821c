/**
  The seven-agent workflow over a parsed document: normalization, evidence, scoring,
  recommendations and verification, with the trajectory they record.
*/
module Engine {
  import opened Wrappers
  import opened TextMatch
  import opened Documents
  import opened Assembly
  import opened CatalogModels
  import opened Scoring

  // ----- normalization -----

  datatype Term = Term(
    requirementId: string, canonicalTerm: string, matchedTerm: string, aliasUsed: bool,
    start: nat, end: nat, page: nat)

  function Candidates(rule: Requirement): seq<string> {
    [rule.term] + rule.aliases
  }

  /** The first candidate, from number `c` on, that matches. */
  function MatchFrom(text: string, candidates: seq<string>, c: nat): Option<(nat, Span)>
    requires c <= |candidates|
    decreases |candidates| - c
  {
    if c == |candidates| then None
    else
      var m := FirstMatch(Lower(text), Lower(candidates[c]));
      if m.Some? then Some((c, m.value)) else MatchFrom(text, candidates, c + 1)
  }

  function TermOf(d: Document, rule: Requirement, c: nat, span: Span): Term
    requires c < |Candidates(rule)|
  {
    var candidate := Candidates(rule)[c];
    Term(rule.id, rule.term, candidate, candidate != rule.term, span.start, span.end, EnginePage(d.pages, span.start))
  }

  lemma {:induction false} MatchFromBounds(text: string, candidates: seq<string>, c: nat)
    requires c <= |candidates|
    ensures var m := MatchFrom(text, candidates, c);
      m.Some? ==> c <= m.value.0 < |candidates| && m.value.1.start <= m.value.1.end <= |text|
    decreases |candidates| - c
  {
    if c < |candidates| {
      FirstMatchInside(Lower(text), Lower(candidates[c]));
      MatchFromBounds(text, candidates, c + 1);
    }
  }

  /** The approved term a rule is resolved to. */
  function TermFor(d: Document, rule: Requirement): (t: Option<Term>)
    ensures t.Some? ==> t.value.start <= t.value.end <= |d.normalizedText|
  {
    MatchFromBounds(d.normalizedText, Candidates(rule), 0);
    var m := MatchFrom(d.normalizedText, Candidates(rule), 0);
    if m.Some? then Some(TermOf(d, rule, m.value.0, m.value.1)) else None
  }

  function TermsFor(d: Document, rules: seq<Requirement>): seq<Term> {
    if rules == [] then []
    else
      var last := |rules| - 1;
      TermsFor(d, rules[..last]) + (var t := TermFor(d, rules[last]); if t.Some? then [t.value] else [])
  }

  method Normalize(d: Document, rules: seq<Requirement>) returns (terms: seq<Term>)
    ensures terms == TermsFor(d, rules)
  {
    terms := [];
    for i := 0 to |rules|
      invariant terms == TermsFor(d, rules[..i])
    {
      assert rules[..i + 1][..i] == rules[..i];
      var candidates := [rules[i].term] + rules[i].aliases;
      ghost var before := terms;
      var c := 0;
      while c < |candidates|
        invariant 0 <= c <= |candidates| && terms == before
        invariant MatchFrom(d.normalizedText, candidates, 0) == MatchFrom(d.normalizedText, candidates, c)
      {
        var m := FirstMatch(Lower(d.normalizedText), Lower(candidates[c]));
        if m.Some? {
          terms := terms + [Term(rules[i].id, rules[i].term, candidates[c], candidates[c] != rules[i].term,
                                 m.value.start, m.value.end, EnginePage(d.pages, m.value.start))];
          break;
        }
        c := c + 1;
      }
    }
    assert rules[..|rules|] == rules;
  }

  // ----- evidence -----

  const ActionWords: set<string> := {
    "built", "developed", "designed", "implemented", "led", "delivered", "tested", "managed", "improved",
    "created", "used"}

  function Surrounding(text: string, start: nat, end: nat): string
    requires start <= end <= |text|
  {
    text[if start < 120 then 0 else start - 120..if end + 120 < |text| then end + 120 else |text|]
  }

  function Classify(section: Option<string>, hasAction: bool): Classification {
    var inExperience := section in {Some("experience"), Some("projects")};
    if inExperience && hasAction then Strong
    else if inExperience then Weak
    else if section == Some("skills") then MentionOnly
    else Weak
  }

  function EvidenceOf(d: Document, rule: Requirement, t: Option<Term>): Evidence
    requires t.Some? ==> t.value.start <= t.value.end <= |d.normalizedText|
  {
    if t.None? then Evidence(rule.id, rule.term, None, Missing, None, None, None, None)
    else
      var term := t.value;
      var section := SectionFor(d.sections, term.start);
      var hasAction := HasWord(Lower(Surrounding(d.normalizedText, term.start, term.end)), ActionWords);
      Evidence(rule.id, rule.term, Some(term.matchedTerm), Classify(section, hasAction), section,
               Some(term.page), Some(term.start), Some(term.end))
  }

  /** The evidence for a rule that is resolved on its own. */
  function EvidenceFor(d: Document, rule: Requirement): Evidence {
    EvidenceOf(d, rule, TermFor(d, rule))
  }

  function FindTerm(terms: seq<Term>, id: string): Option<Term> {
    if terms == [] then None
    else if terms[0].requirementId == id then Some(terms[0])
    else FindTerm(terms[1..], id)
  }

  predicate TermsInside(d: Document, terms: seq<Term>) {
    forall i | 0 <= i < |terms| :: terms[i].start <= terms[i].end <= |d.normalizedText|
  }

  lemma {:induction false} FindTermIn(terms: seq<Term>, id: string)
    ensures FindTerm(terms, id).Some? ==>
      FindTerm(terms, id).value in terms && FindTerm(terms, id).value.requirementId == id
    ensures FindTerm(terms, id).None? ==> forall i | 0 <= i < |terms| :: terms[i].requirementId != id
  {
    if terms != [] {
      FindTermIn(terms[1..], id);
    }
  }

  /** What the evidence agent reports: each rule with the first term recorded under its id. */
  function Investigated(d: Document, rules: seq<Requirement>, terms: seq<Term>): (evidence: seq<Evidence>)
    requires TermsInside(d, terms)
    ensures |evidence| == |rules|
    ensures forall i | 0 <= i < |rules| :: evidence[i].requirementId == rules[i].id
  {
    seq(|rules|, i requires 0 <= i < |rules| =>
      FindTermIn(terms, rules[i].id);
      EvidenceOf(d, rules[i], FindTerm(terms, rules[i].id)))
  }

  method Investigate(d: Document, rules: seq<Requirement>, terms: seq<Term>) returns (evidence: seq<Evidence>)
    requires TermsInside(d, terms)
    ensures evidence == Investigated(d, rules, terms)
  {
    evidence := [];
    for i := 0 to |rules|
      invariant evidence == Investigated(d, rules, terms)[..i]
    {
      FindTermIn(terms, rules[i].id);
      var term := FindTerm(terms, rules[i].id);
      evidence := evidence + [EvidenceOf(d, rules[i], term)];
    }
  }

  lemma {:induction false} TermsAreInside(d: Document, rules: seq<Requirement>)
    ensures TermsInside(d, TermsFor(d, rules))
  {
    if rules != [] {
      TermsAreInside(d, rules[..|rules| - 1]);
    }
  }

  // ----- with distinct rule ids every rule finds its own term -----

  lemma {:induction false} FindTermConcat(a: seq<Term>, b: seq<Term>, id: string)
    ensures FindTerm(a + b, id) == if FindTerm(a, id).Some? then FindTerm(a, id) else FindTerm(b, id)
  {
    if a == [] {
      assert a + b == b;
    } else {
      assert (a + b)[1..] == a[1..] + b;
      FindTermConcat(a[1..], b, id);
    }
  }

  lemma TermsForSnoc(d: Document, rules: seq<Requirement>, id: string)
    requires rules != []
    ensures var last := rules[|rules| - 1]; var before := FindTerm(TermsFor(d, rules[..|rules| - 1]), id);
      FindTerm(TermsFor(d, rules), id)
      == if before.Some? then before else if last.id == id then TermFor(d, last) else None
  {
    var last := |rules| - 1;
    var t := TermFor(d, rules[last]);
    var mine := if t.Some? then [t.value] else [];
    FindTermConcat(TermsFor(d, rules[..last]), mine, id);
    assert TermsFor(d, rules) == TermsFor(d, rules[..last]) + mine;
  }

  lemma {:induction false} NoTermOfOthers(d: Document, rules: seq<Requirement>, id: string)
    requires forall i | 0 <= i < |rules| :: rules[i].id != id
    ensures FindTerm(TermsFor(d, rules), id) == None
  {
    if rules != [] {
      TermsForSnoc(d, rules, id);
      NoTermOfOthers(d, rules[..|rules| - 1], id);
    }
  }

  lemma {:induction false} OwnTerm(d: Document, rules: seq<Requirement>, k: nat)
    requires DistinctIds(rules) && k < |rules|
    ensures FindTerm(TermsFor(d, rules), rules[k].id) == TermFor(d, rules[k])
  {
    TermsForSnoc(d, rules, rules[k].id);
    if k == |rules| - 1 {
      NoTermOfOthers(d, rules[..|rules| - 1], rules[k].id);
    } else {
      OwnTerm(d, rules[..|rules| - 1], k);
    }
  }

  /** With distinct rule ids the agent's evidence is each rule resolved on its own. */
  lemma EvidenceOneToOne(d: Document, rules: seq<Requirement>)
    requires DistinctIds(rules)
    ensures TermsInside(d, TermsFor(d, rules))
    ensures Investigated(d, rules, TermsFor(d, rules)) == EvidenceList(d, rules)
  {
    TermsAreInside(d, rules);
    forall i | 0 <= i < |rules|
      ensures Investigated(d, rules, TermsFor(d, rules))[i] == EvidenceFor(d, rules[i])
    {
      OwnTerm(d, rules, i);
    }
  }

  /** The evidence of a plan: one item per rule, in order. */
  function EvidenceList(d: Document, rules: seq<Requirement>): (evidence: seq<Evidence>)
    ensures |evidence| == |rules|
    ensures forall i | 0 <= i < |rules| :: evidence[i] == EvidenceFor(d, rules[i])
  {
    seq(|rules|, i requires 0 <= i < |rules| => EvidenceFor(d, rules[i]))
  }

  lemma EvidenceCreditable(d: Document, rules: seq<Requirement>)
    requires DistinctIds(rules)
    ensures Creditable(rules, EvidenceList(d, rules))
  {
    var evidence := EvidenceList(d, rules);
    forall i | 0 <= i < |rules|
      ensures evidence[i].requirementId == rules[i].id && Known(rules, evidence[i].requirementId)
    {
    }
  }

  // ----- what the evidence says about the text -----

  /** The spelling stands in the text, ignoring case. */
  ghost predicate Stands(text: string, spelling: string) {
    exists i: nat :: StandsAt(Lower(text), Lower(spelling), i)
  }

  /** The term of the rule or one of its aliases stands in the text. */
  ghost predicate Mentioned(text: string, rule: Requirement) {
    Stands(text, rule.term) || exists k :: 0 <= k < |rule.aliases| && Stands(text, rule.aliases[k])
  }

  /** The term does not stand in the text; alias `k` does, and none before it. */
  ghost predicate FirstAlias(text: string, rule: Requirement, k: int) {
    && !Stands(text, rule.term) && 0 <= k < |rule.aliases| && Stands(text, rule.aliases[k])
    && forall j | 0 <= j < k :: !Stands(text, rule.aliases[j])
  }

  /** `start` and `end` are the leftmost place of the spelling, with the boundary characters it has. */
  ghost predicate SpanIs(text: string, spelling: string, start: nat, end: nat) {
    exists i: nat ::
      && StandsAt(Lower(text), Lower(spelling), i)
      && (forall j | 0 <= j < i :: !StandsAt(Lower(text), Lower(spelling), j))
      && start == (if i == 0 then 0 else i - 1)
      && end == (if i + |spelling| == |text| then |text| else i + |spelling| + 1)
  }

  lemma MatchStands(text: string, spelling: string)
    ensures FirstMatch(Lower(text), Lower(spelling)).Some? <==> Stands(text, spelling)
    ensures FirstMatch(Lower(text), Lower(spelling)).Some? ==>
      var span := FirstMatch(Lower(text), Lower(spelling)).value; SpanIs(text, spelling, span.start, span.end)
  {
    FirstMatchIsLeftmost(Lower(text), Lower(spelling));
    if i: nat :| FirstStandsAt(Lower(text), Lower(spelling), i) {
      assert StandsAt(Lower(text), Lower(spelling), i);
    }
  }

  /** The match is that of candidate `k`, and no candidate between `c` and `k` has one. */
  lemma {:induction false} MatchFromFirst(text: string, candidates: seq<string>, c: nat)
    requires c <= |candidates|
    ensures MatchFrom(text, candidates, c).Some? ==>
      var (k, span) := MatchFrom(text, candidates, c).value;
      && c <= k < |candidates| && FirstMatch(Lower(text), Lower(candidates[k])) == Some(span)
      && forall j | c <= j < k :: FirstMatch(Lower(text), Lower(candidates[j])).None?
    ensures MatchFrom(text, candidates, c).None? ==>
      forall j | c <= j < |candidates| :: FirstMatch(Lower(text), Lower(candidates[j])).None?
    decreases |candidates| - c
  {
    if c < |candidates| {
      MatchFromFirst(text, candidates, c + 1);
    }
  }

  lemma NoMatchBefore(text: string, rule: Requirement, m: nat)
    requires m <= |rule.aliases| + 1
    requires forall j | 0 <= j < m :: FirstMatch(Lower(text), Lower(([rule.term] + rule.aliases)[j])).None?
    ensures m > 0 ==> !Stands(text, rule.term)
    ensures forall j | 0 <= j < m - 1 :: !Stands(text, rule.aliases[j])
  {
    var candidates := [rule.term] + rule.aliases;
    if m > 0 {
      assert candidates[0] == rule.term;
      MatchStands(text, rule.term);
    }
    forall j | 0 <= j < m - 1
      ensures !Stands(text, rule.aliases[j])
    {
      assert candidates[j + 1] == rule.aliases[j];
      MatchStands(text, rule.aliases[j]);
    }
  }

  /**
    The spelling a rule is resolved to, over its term and aliases: the term if it stands,
    else the first alias that stands, at the leftmost place; none exactly when none stands.
  */
  lemma TermLaw(d: Document, rule: Requirement)
    ensures TermFor(d, rule).None? <==> !Mentioned(d.normalizedText, rule)
    ensures TermFor(d, rule).Some? ==>
      var text, t := d.normalizedText, TermFor(d, rule).value;
      && t.requirementId == rule.id && t.canonicalTerm == rule.term && t.page == EnginePage(d.pages, t.start)
      && (t.aliasUsed <==> t.matchedTerm != rule.term)
      && SpanIs(text, t.matchedTerm, t.start, t.end)
      && (Stands(text, rule.term) ==> t.matchedTerm == rule.term)
      && (!Stands(text, rule.term) ==> exists k :: FirstAlias(text, rule, k) && t.matchedTerm == rule.aliases[k])
  {
    var text, candidates := d.normalizedText, [rule.term] + rule.aliases;
    MatchFromFirst(text, candidates, 0);
    var m := MatchFrom(text, candidates, 0);
    NoMatchBefore(text, rule, if m.Some? then m.value.0 else |candidates|);
    if m.Some? {
      var spelling := candidates[m.value.0];
      MatchStands(text, spelling);
      if m.value.0 == 0 {
        assert spelling == rule.term;
      } else {
        assert spelling == rule.aliases[m.value.0 - 1];
        assert FirstAlias(text, rule, m.value.0 - 1);
      }
    }
  }

  /**
    What an item reports, over the term and the aliases of its rule: it is missing exactly
    when none of them stands in the text, and then reports no place; otherwise it reports
    the term if that stands, else the first alias that stands, and the leftmost place.
  */
  lemma ItemLaw(d: Document, rule: Requirement)
    ensures EvidenceFor(d, rule).requirementId == rule.id && EvidenceFor(d, rule).canonicalTerm == rule.term
    ensures EvidenceFor(d, rule).classification == Missing <==>
      && !Stands(d.normalizedText, rule.term)
      && forall k | 0 <= k < |rule.aliases| :: !Stands(d.normalizedText, rule.aliases[k])
    ensures EvidenceFor(d, rule).classification == Missing ==>
      EvidenceFor(d, rule) == Evidence(rule.id, rule.term, None, Missing, None, None, None, None)
    ensures EvidenceFor(d, rule).classification != Missing ==>
      var text, e := d.normalizedText, EvidenceFor(d, rule);
      && e.matchedTerm.Some? && e.start.Some? && e.end.Some?
      && SpanIs(text, e.matchedTerm.value, e.start.value, e.end.value)
      && e.page == Some(EnginePage(d.pages, e.start.value)) && e.section == SectionFor(d.sections, e.start.value)
      && (Stands(text, rule.term) ==> e.matchedTerm.value == rule.term)
      && (!Stands(text, rule.term) ==>
        exists k :: FirstAlias(text, rule, k) && e.matchedTerm.value == rule.aliases[k])
  {
    TermLaw(d, rule);
  }

  // ----- what decides the class of an item -----

  /** An action word stands within 120 characters of the match, cut off or bounded on both sides. */
  ghost predicate ActionNear(text: string, start: nat, end: nat)
    requires start <= end <= |text|
  {
    var lo, hi := if start <= 120 then 0 else start - 120, if |text| <= end + 120 then |text| else end + 120;
    exists w, i ::
      && w in {"built", "developed", "designed", "implemented", "led", "delivered", "tested", "managed", "improved",
               "created", "used"}
      && WordIn(text, lo, hi, w, i)
  }

  ghost predicate WordIn(text: string, lo: int, hi: int, w: string, i: int)
    requires 0 <= lo <= hi <= |text|
  {
    && lo <= i && i + |w| <= hi && Lower(text)[i..i + |w|] == w
    && (i == lo || !WordChar(Lower(text)[i - 1])) && (i + |w| == hi || !WordChar(Lower(text)[i + |w|]))
  }

  lemma ActionLaw(text: string, start: nat, end: nat)
    requires start <= end <= |text|
    ensures HasWord(Lower(Surrounding(text, start, end)), ActionWords) <==> ActionNear(text, start, end)
  {
    var lo, hi := if start <= 120 then 0 else start - 120, if |text| <= end + 120 then |text| else end + 120;
    assert Lower(Surrounding(text, start, end)) == Lower(text)[lo..hi];
    WindowWords(text, lo, hi);
    if w, i :| w in ActionWords && WordIn(text, lo, hi, w, i) {
      assert ActionNear(text, start, end);
    }
  }

  lemma WindowWords(text: string, lo: int, hi: int)
    requires 0 <= lo <= hi <= |text|
    ensures HasWord(Lower(text)[lo..hi], ActionWords) <==>
      exists w, i :: w in ActionWords && WordIn(text, lo, hi, w, i)
  {
    var window := Lower(text)[lo..hi];
    if HasWord(window, ActionWords) {
      var w, i :| w in ActionWords && 0 <= i < |window| && WordAt(window, w, i);
      WordInWindow(text, lo, hi, w, i);
    }
    if w, i :| w in ActionWords && WordIn(text, lo, hi, w, i) {
      WordInWindow(text, lo, hi, w, i - lo);
      assert |w| > 0;
    }
  }

  lemma WordInWindow(text: string, lo: int, hi: int, w: string, i: int)
    requires 0 <= lo <= hi <= |text|
    ensures 0 <= i ==> (WordAt(Lower(text)[lo..hi], w, i) <==> WordIn(text, lo, hi, w, lo + i))
  {
    var window := Lower(text)[lo..hi];
    if 0 <= i && i + |w| <= |window| {
      assert window[i..i + |w|] == Lower(text)[lo + i..lo + i + |w|];
    }
  }

  /**
    An item is missing exactly when no approved spelling stands in the text, and strong
    exactly when one does, its section is experience or projects, and an action word
    stands within 120 characters of the match.
  */
  lemma EvidenceMeansText(d: Document, rule: Requirement)
    ensures TermFor(d, rule).Some? <==> Mentioned(d.normalizedText, rule)
    ensures EvidenceFor(d, rule).classification == Missing <==> !Mentioned(d.normalizedText, rule)
    ensures EvidenceFor(d, rule).classification == Strong <==>
      && Mentioned(d.normalizedText, rule)
      && SectionFor(d.sections, TermFor(d, rule).value.start) in {Some("experience"), Some("projects")}
      && ActionNear(d.normalizedText, TermFor(d, rule).value.start, TermFor(d, rule).value.end)
  {
    TermLaw(d, rule);
    if TermFor(d, rule).Some? {
      ActionLaw(d.normalizedText, TermFor(d, rule).value.start, TermFor(d, rule).value.end);
    }
  }

  /** Appending text that opens with neither letter nor digit never makes a matched requirement missing. */
  lemma AppendingKeepsMentions(text: string, suffix: string, rule: Requirement)
    requires suffix != [] && !Alnum(LowerChar(suffix[0]))
    requires Mentioned(text, rule)
    ensures Mentioned(text + suffix, rule)
  {
    if Stands(text, rule.term) {
      AppendingKeepsSpelling(text, suffix, rule.term);
    } else {
      var k :| 0 <= k < |rule.aliases| && Stands(text, rule.aliases[k]);
      AppendingKeepsSpelling(text, suffix, rule.aliases[k]);
    }
  }

  lemma AppendingKeepsSpelling(text: string, suffix: string, spelling: string)
    requires suffix != [] && !Alnum(LowerChar(suffix[0])) && Stands(text, spelling)
    ensures Stands(text + suffix, spelling)
  {
    LowerConcat(text, suffix);
    FirstMatchIsLeftmost(Lower(text), Lower(spelling));
    var i: nat :| StandsAt(Lower(text), Lower(spelling), i);
    var first: nat :| FirstStandsAt(Lower(text), Lower(spelling), first);
    AppendKeepsFirst(Lower(text), Lower(suffix), Lower(spelling), first);
    assert StandsAt(Lower(text + suffix), Lower(spelling), first);
  }

  // ----- in a parsed document the headings decide -----

  /** The heading occurs in the text at or before the offset, ignoring case. */
  ghost predicate Above(text: string, heading: string, offset: nat) {
    exists i: nat :: i <= offset && OccursAt(Lower(text), heading, i)
  }

  /** Which section an offset is in: the first of the six headings, in this order, that occurs above. */
  lemma SectionLaw(d: Document, offset: nat)
    requires d.sections == Sections(d.pages, d.normalizedText) && offset <= |d.normalizedText|
    ensures var text := d.normalizedText;
      SectionFor(d.sections, offset)
      == if Above(text, "summary", offset) then Some("summary")
         else if Above(text, "skills", offset) then Some("skills")
         else if Above(text, "experience", offset) then Some("experience")
         else if Above(text, "projects", offset) then Some("projects")
         else if Above(text, "education", offset) then Some("education")
         else if Above(text, "certifications", offset) then Some("certifications")
         else None
  {
    var text := d.normalizedText;
    SectionForHeadings(d.pages, text, 0, offset);
    var g := FirstHeading(text, 0, offset);
    HeadingsAbove(text, offset);
    assert g < 6 ==> HeadingBefore(text, g, offset);
    assert forall e | 0 <= e < g :: !HeadingBefore(text, e, offset);
  }

  lemma HeadingsAbove(text: string, offset: nat)
    ensures |Headings| == 6
    ensures Headings[0] == "summary" && (HeadingBefore(text, 0, offset) <==> Above(text, "summary", offset))
    ensures Headings[1] == "skills" && (HeadingBefore(text, 1, offset) <==> Above(text, "skills", offset))
    ensures Headings[2] == "experience" && (HeadingBefore(text, 2, offset) <==> Above(text, "experience", offset))
    ensures Headings[3] == "projects" && (HeadingBefore(text, 3, offset) <==> Above(text, "projects", offset))
    ensures Headings[4] == "education" && (HeadingBefore(text, 4, offset) <==> Above(text, "education", offset))
    ensures Headings[5] == "certifications"
      && (HeadingBefore(text, 5, offset) <==> Above(text, "certifications", offset))
  {
  }

  /**
    In a parsed document, for an item whose term is in the text: it is a mention only
    exactly when "skills" and not "summary" occurs above the match; strong exactly when
    neither does, "experience" or "projects" does, and an action word is near; weak
    otherwise; and it is never contradictory.
  */
  lemma ClassLaw(d: Document, rule: Requirement)
    requires d.sections == Sections(d.pages, d.normalizedText) && Mentioned(d.normalizedText, rule)
    ensures TermFor(d, rule).Some?
    ensures var text, t := d.normalizedText, TermFor(d, rule).value;
      var headed := !Above(text, "summary", t.start) && Above(text, "skills", t.start);
      var experienced := && !Above(text, "summary", t.start) && !Above(text, "skills", t.start)
                         && (Above(text, "experience", t.start) || Above(text, "projects", t.start));
      EvidenceFor(d, rule).classification
      == if headed then MentionOnly else if experienced && ActionNear(text, t.start, t.end) then Strong else Weak
  {
    ItemClass(d, rule);
    SectionLaw(d, TermFor(d, rule).value.start);
  }

  lemma ItemClass(d: Document, rule: Requirement)
    requires Mentioned(d.normalizedText, rule)
    ensures TermFor(d, rule).Some?
    ensures var t := TermFor(d, rule).value;
      EvidenceFor(d, rule).classification
      == Classify(SectionFor(d.sections, t.start), ActionNear(d.normalizedText, t.start, t.end))
  {
    TermLaw(d, rule);
    var t := TermFor(d, rule).value;
    ActionLaw(d.normalizedText, t.start, t.end);
  }

  // ----- verification -----

  datatype Failure =
    | DuplicateRuleCredit(id: string) | PageOutside | PageInvalid | SpanOutside | ScoreOutOfBounds
    | TrajectoryIncomplete

  ghost predicate ItemSound(d: Document, e: Evidence) {
    && (e.page.Some? ==> 1 <= e.page.value <= |d.pages|)
    && (e.start.Some? && e.end.Some? ==> e.start.value <= e.end.value <= |d.normalizedText|)
  }

  ghost predicate DistinctRequirements(evidence: seq<Evidence>) {
    forall i, j | 0 <= i < j < |evidence| :: evidence[i].requirementId != evidence[j].requirementId
  }

  /** What the verifier accepts. */
  ghost predicate Verified(d: Document, evidence: seq<Evidence>, score: ScoreBreakdown, recorded: nat) {
    && DistinctRequirements(evidence)
    && (forall i | 0 <= i < |evidence| :: ItemSound(d, evidence[i]))
    && 0 <= score.Total() <= 100
    && 6 <= recorded
  }

  method Verify(d: Document, evidence: seq<Evidence>, score: ScoreBreakdown, recorded: nat)
      returns (failures: seq<Failure>)
    ensures failures == [] <==> Verified(d, evidence, score, recorded)
  {
    failures := [];
    var ids: set<string> := {};
    for i := 0 to |evidence|
      invariant ids == set j | 0 <= j < i :: evidence[j].requirementId
      invariant failures == [] <==> DistinctRequirements(evidence[..i]) && forall j | 0 <= j < i ::
        ItemSound(d, evidence[j])
    {
      var item := evidence[i];
      assert evidence[..i + 1] == evidence[..i] + [item];
      if item.requirementId in ids {
        failures := failures + [DuplicateRuleCredit(item.requirementId)];
      }
      ids := ids + {item.requirementId};
      if item.page.Some? && item.page.value > |d.pages| {
        failures := failures + [PageOutside];
      }
      if item.page.Some? && item.page.value < 1 {
        failures := failures + [PageInvalid];
      }
      if item.start.Some? && item.end.Some?
        && (item.end.value < item.start.value || item.end.value > |d.normalizedText|) {
        failures := failures + [SpanOutside];
      }
    }
    assert evidence[..|evidence|] == evidence;
    if score.Total() < 0 || score.Total() > 100 {
      failures := failures + [ScoreOutOfBounds];
    }
    if recorded < 6 {
      failures := failures + [TrajectoryIncomplete];
    }
  }
}
