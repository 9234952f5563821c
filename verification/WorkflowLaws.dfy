/**
  What the report of a completed run says, in terms of the document and the role alone: its
  fields, its items, its advice, the section points of its score; and what a cancellation
  can change.
*/
module WorkflowLaws {
  import opened Wrappers
  import opened TextMatch
  import opened Documents
  import opened Assembly
  import opened CatalogModels
  import opened Scoring
  import opened Engine
  import opened Workflow

  /** Every heading the document lists was found in its text. */
  ghost predicate Parsed(d: Document) {
    d.sections == Sections(d.pages, d.normalizedText)
  }

  // ----- advice -----

  /** The item for the rule is strong and in the experience section, told from the text and its headings. */
  ghost predicate ShownAtWork(d: Document, rule: Requirement) {
    && Mentioned(d.normalizedText, rule)
    && var e := EvidenceFor(d, rule);
      && e.start.Some? && e.end.Some? && e.start.value <= e.end.value <= |d.normalizedText|
      && !Above(d.normalizedText, "summary", e.start.value) && !Above(d.normalizedText, "skills", e.start.value)
      && Above(d.normalizedText, "experience", e.start.value)
      && ActionNear(d.normalizedText, e.start.value, e.end.value)
  }

  lemma ShownAtWorkIff(d: Document, rule: Requirement)
    requires Parsed(d)
    ensures EvidenceFor(d, rule).section == Some("experience") && EvidenceFor(d, rule).classification == Strong
            <==> ShownAtWork(d, rule)
  {
    EvidenceMeansText(d, rule);
    if Mentioned(d.normalizedText, rule) {
      SectionLaw(d, TermFor(d, rule).value.start);
    }
  }

  /**
    A completed run advises to add evidence exactly when some requirement is mentioned
    nowhere, and to add impact exactly when none is shown at work; in that order, and
    nothing else.
  */
  lemma AdviceLaw(request: Request)
    requires request.role in request.catalog.roles && OutcomeOf(request).Completed? && Parsed(request.document)
    ensures var advice := OutcomeOf(request).result.advice;
      var d, rules := request.document, request.role.requirements;
      && (AddEvidence in advice <==> exists i :: 0 <= i < |rules| && !Mentioned(d.normalizedText, rules[i]))
      && (AddImpact in advice <==> forall i | 0 <= i < |rules| :: !ShownAtWork(d, rules[i]))
      && advice in {[], [AddEvidence], [AddImpact], [AddEvidence, AddImpact]}
  {
    CompletedMeans(request);
    AcceptedRole(request.catalog, request.role);
    var d, rules := request.document, request.role.requirements;
    var evidence := EvidenceReported(d, rules);
    EvidenceOneToOne(d, rules);
    ListMeansText(d, rules);
    assert |evidence| == |rules|;
    forall i | 0 <= i < |rules|
      ensures evidence[i].classification == Missing <==> !Mentioned(d.normalizedText, rules[i])
      ensures evidence[i].section == Some("experience") && evidence[i].classification == Strong
              <==> ShownAtWork(d, rules[i])
    {
      ShownAtWorkIff(d, rules[i]);
    }
    AdviceOfItems(evidence);
  }

  lemma AdviceOfItems(evidence: seq<Evidence>)
    ensures var advice := Recommend(evidence);
      && (AddEvidence in advice <==> exists i :: 0 <= i < |evidence| && evidence[i].classification == Missing)
      && (AddImpact in advice <==> forall i | 0 <= i < |evidence| ::
            !(evidence[i].section == Some("experience") && evidence[i].classification == Strong))
      && advice in {[], [AddEvidence], [AddImpact], [AddEvidence, AddImpact]}
  {
    var lacking := exists e | e in evidence :: e.classification == Missing;
    var shown := exists e | e in evidence :: e.section == Some("experience") && e.classification == Strong;
    assert Recommend(evidence)
      == if lacking && shown then [AddEvidence] else if lacking then [AddEvidence, AddImpact]
         else if shown then [] else [AddImpact];
    assert forall i | 0 <= i < |evidence| :: evidence[i] in evidence;
  }

  // ----- the report -----

  /**
    The report names the role, the seniority, the catalog and the engine it was asked for,
    shows the seven agents in order, and every item names its requirement, says missing
    exactly when no spelling of it stands in the text, and otherwise the spelling and place.
  */
  lemma ReportLaw(request: Request)
    requires request.role in request.catalog.roles && OutcomeOf(request).Completed?
    ensures var result := OutcomeOf(request).result;
      var rules := request.role.requirements;
      && result.roleSlug == request.role.slug && result.roleTitle == request.role.title
      && result.seniority == request.seniority && result.catalogVersion == request.catalog.version
      && result.engineVersion == request.engineVersion && SevenSteps(result.trajectory)
      && |result.evidence| == |rules|
      && forall i | 0 <= i < |rules| ::
           && result.evidence[i].requirementId == rules[i].id && result.evidence[i].canonicalTerm == rules[i].term
           && ReportsMatch(request.document, rules[i], result.evidence[i])
  {
    CompletedMeans(request);
    FullTrajectorySteps();
    AcceptedRole(request.catalog, request.role);
    var d, rules := request.document, request.role.requirements;
    EvidenceOneToOne(d, rules);
    forall i | 0 <= i < |rules|
      ensures ReportsMatch(d, rules[i], EvidenceFor(d, rules[i]))
      ensures EvidenceFor(d, rules[i]).requirementId == rules[i].id
      ensures EvidenceFor(d, rules[i]).canonicalTerm == rules[i].term
    {
      ItemLaw(d, rules[i]);
    }
  }

  /** Missing, with no spelling of the rule in the text; or the first spelling that stands, and its leftmost place. */
  ghost predicate ReportsMatch(d: Document, rule: Requirement, e: Evidence) {
    var text := d.normalizedText;
    if e.classification == Missing then
      && !Stands(text, rule.term) && (forall k | 0 <= k < |rule.aliases| :: !Stands(text, rule.aliases[k]))
      && e.matchedTerm.None? && e.start.None? && e.end.None? && e.page.None? && e.section.None?
    else
      && e.matchedTerm.Some? && e.start.Some? && e.end.Some?
      && e.page == Some(EnginePage(d.pages, e.start.value)) && e.section == SectionFor(d.sections, e.start.value)
      && SpanIs(text, e.matchedTerm.value, e.start.value, e.end.value)
      && ((e.matchedTerm.value == rule.term && Stands(text, rule.term))
          || exists k :: FirstAlias(text, rule, k) && e.matchedTerm.value == rule.aliases[k])
  }

  // ----- the section points -----

  ghost predicate Occurs(text: string, heading: string) {
    exists i: nat :: OccursAt(Lower(text), heading, i)
  }

  lemma {:induction false} FirstPlace(text: string, heading: string, i: nat)
    requires OccursAt(Lower(text), heading, i)
    ensures exists j: nat :: FirstAt(Lower(text), heading, j)
  {
    if j :| 0 <= j < i && OccursAt(Lower(text), heading, j) {
      FirstPlace(text, heading, j);
    } else {
      assert FirstAt(Lower(text), heading, i);
    }
  }

  lemma NamedIff(d: Document, name: string)
    requires Parsed(d)
    ensures name in SectionNames(d) <==>
      name in {"summary", "skills", "experience", "projects", "education", "certifications"}
      && Occurs(d.normalizedText, name)
  {
    var text := d.normalizedText;
    if name in SectionNames(d) {
      var i :| 0 <= i < |d.sections| && d.sections[i].name == name;
      SectionsExact(d.pages, text, d.sections[i]);
    }
    if name in {"summary", "skills", "experience", "projects", "education", "certifications"} && Occurs(text, name) {
      var i: nat :| OccursAt(Lower(text), name, i);
      FirstPlace(text, name, i);
      var start: nat :| FirstAt(Lower(text), name, start);
      SectionsExact(d.pages, text, Section(name, PageOf(d.pages, start), start, |text|));
    }
  }

  /** The section points of a completed run: two and a half for each of the four headings that occurs in the text. */
  lemma SectionPointsLaw(request: Request)
    requires OutcomeOf(request).Completed? && Parsed(request.document)
    ensures var text := request.document.normalizedText;
      OutcomeOf(request).result.score.completeness
      == (if Occurs(text, "skills") then 2.5 else 0.0) + (if Occurs(text, "experience") then 2.5 else 0.0)
         + (if Occurs(text, "projects") then 2.5 else 0.0) + (if Occurs(text, "education") then 2.5 else 0.0)
  {
    CompletedMeans(request);
    var names := SectionNames(request.document);
    NamedIff(request.document, "skills");
    NamedIff(request.document, "experience");
    NamedIff(request.document, "projects");
    NamedIff(request.document, "education");
    FourNames(names);
    SectionShare(DefaultPolicy, names);
  }

  lemma FourNames(names: set<string>)
    ensures RawCompleteness(DefaultPolicy, names)
            == (if "skills" in names then 2.5 else 0.0) + (if "experience" in names then 2.5 else 0.0)
               + (if "projects" in names then 2.5 else 0.0) + (if "education" in names then 2.5 else 0.0)
  {
    var two := {"skills"} + {"experience"};
    OneMoreName(names, {}, "skills");
    OneMoreName(names, {"skills"}, "experience");
    OneMoreName(names, two, "projects");
    OneMoreName(names, two + {"projects"}, "education");
    assert {} + {"skills"} == {"skills"};
    assert ScoredSections == two + {"projects"} + {"education"};
  }

  lemma OneMoreName(names: set<string>, counted: set<string>, name: string)
    requires name !in counted
    ensures |(counted + {name}) * names| == |counted * names| + if name in names then 1 else 0
  {
    assert (counted + {name}) * names == counted * names + if name in names then {name} else {};
  }

  // ----- cancellation -----

  /**
    A cancellation never changes what a run reports: the run is cancelled, or it ends as it
    would have without. From one of the first two checks on it always cancels; a run that
    completes passed seven checks, and from the ninth on there is nothing left to cancel.
  */
  lemma CancellationLaw(request: Request, from: nat)
    ensures var cancelled := OutcomeOf(request.(cancelledFrom := Some(from)));
      var undisturbed := OutcomeOf(request.(cancelledFrom := None));
      && undisturbed != Cancelled
      && (cancelled == Cancelled || cancelled == undisturbed)
      && (from <= 1 ==> cancelled == Cancelled)
      && (cancelled.Completed? <==> undisturbed.Completed? && 7 <= from)
      && (8 <= from ==> cancelled == undisturbed)
  {
  }
}
