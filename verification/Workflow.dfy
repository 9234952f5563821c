/**
  The orchestrator: the agents in order, the trajectory, cancellation, and the one bounded
  retry of the verification.
*/
module Workflow {
  import opened Wrappers
  import TextMatch
  import opened Documents
  import opened CatalogModels
  import opened CatalogValidation
  import opened Scoring
  import opened Signals
  import opened Engine

  datatype Entry = Entry(agent: string, step: nat, tool: string, decision: string, nextAgent: Option<string>,
                         retry: bool)

  datatype Advice = AddEvidence | AddImpact

  datatype AnalysisResult = AnalysisResult(
    roleSlug: string,
    roleTitle: string,
    seniority: Option<string>,
    catalogVersion: string,
    engineVersion: string,
    evidence: seq<Evidence>,
    score: ScoreBreakdown,
    advice: seq<Advice>,
    trajectory: seq<Entry>)

  datatype Outcome =
    | Completed(result: AnalysisResult)
    | Cancelled
    | CatalogRejected
    | EvidenceRejected
    | Unverified

  datatype Request = Request(
    document: Document,
    catalog: Catalog,
    role: JobRole,
    seniority: Option<string>,
    engineVersion: string,
    cancelledFrom: Option<nat>)

  /** The cancellation token as an agent finds it: cancelled from the given check on, if at all. */
  predicate Stops(request: Request, check: nat) {
    request.cancelledFrom.Some? && request.cancelledFrom.value <= check
  }

  function Recommend(evidence: seq<Evidence>): seq<Advice> {
    (if exists e | e in evidence :: e.classification == Missing then [AddEvidence] else [])
    + (if exists e | e in evidence :: e.section == Some("experience") && e.classification == Strong then []
       else [AddImpact])
  }

  function SectionNames(d: Document): set<string> {
    set i | 0 <= i < |d.sections| :: d.sections[i].name
  }

  const AgentNames: seq<string> := [
    "CvParserAgent", "RequirementAnalysisAgent", "SkillNormalizationAgent", "EvidenceInvestigationAgent",
    "ScoringAgent", "RecommendationAgent", "VerificationAgent"]

  /** What the seven agents record when every one of them succeeds. */
  const FullTrajectory: seq<Entry> := [
    Entry("CvParserAgent", 0, "localPdfJsParser", "parsed", Some("RequirementAnalysisAgent"), false),
    Entry("RequirementAnalysisAgent", 1, "publishedCatalog", "planned", Some("SkillNormalizationAgent"), false),
    Entry("SkillNormalizationAgent", 2, "boundaryMatcher", "normalized", Some("EvidenceInvestigationAgent"), false),
    Entry("EvidenceInvestigationAgent", 3, "sectionAwareMatcher", "classified", Some("ScoringAgent"), false),
    Entry("ScoringAgent", 4, "scoringPolicy", "scored", Some("RecommendationAgent"), false),
    Entry("RecommendationAgent", 5, "recommendationCatalog", "recommended", Some("VerificationAgent"), false),
    Entry("VerificationAgent", 6, "verificationPolicy", "verified", None, false)]

  class WorkflowContext {
    var trajectory: seq<Entry>
    var step: nat

    ghost predicate Valid()
      reads this
    {
      step == |trajectory| && forall i | 0 <= i < |trajectory| :: trajectory[i].step == i
    }

    constructor ()
      ensures Valid() && trajectory == []
    {
      trajectory := [];
      step := 0;
    }

    method Record(agent: string, tool: string, decision: string, nextAgent: Option<string>, retry: bool)
      requires Valid()
      modifies this
      ensures Valid()
      ensures trajectory == old(trajectory) + [Entry(agent, |old(trajectory)|, tool, decision, nextAgent, retry)]
    {
      trajectory := trajectory + [Entry(agent, step, tool, decision, nextAgent, retry)];
      step := step + 1;
    }
  }

  // ----- the outcome of a run -----

  ghost function EvidenceReported(d: Document, rules: seq<Requirement>): seq<Evidence> {
    TermsAreInside(d, rules);
    Investigated(d, rules, TermsFor(d, rules))
  }

  ghost function ScoreReported(d: Document, rules: seq<Requirement>): ScoreBreakdown {
    Breakdown(DefaultPolicy, rules, EvidenceReported(d, rules), SignalsOf(d.normalizedText), SectionNames(d))
  }

  /** The outcome of a request. */
  ghost function OutcomeOf(request: Request): Outcome {
    var d, rules := request.document, request.role.requirements;
    if Stops(request, 1) then Cancelled
    else if !Accepted(request.catalog) then CatalogRejected
    else if Stops(request, 4) then Cancelled
    else if !Creditable(rules, EvidenceReported(d, rules)) then EvidenceRejected
    else FinishOf(request, EvidenceReported(d, rules), ScoreReported(d, rules))
  }

  /** The result of a completed run names the role and the catalog it was asked for. */
  function ResultOf(request: Request, evidence: seq<Evidence>, score: ScoreBreakdown, advice: seq<Advice>,
                    trajectory: seq<Entry>): AnalysisResult
  {
    AnalysisResult(request.role.slug, request.role.title, request.seniority, request.catalog.version,
                   request.engineVersion, evidence, score, advice, trajectory)
  }

  /** The outcome once the evidence is scored. */
  ghost function FinishOf(request: Request, evidence: seq<Evidence>, score: ScoreBreakdown): Outcome {
    if Stops(request, 6) then Cancelled
    else if Verified(request.document, evidence, score, 6) then
      Completed(ResultOf(request, evidence, score, Recommend(evidence), FullTrajectory))
    else if Stops(request, 7) then Cancelled
    else Unverified
  }

  /** Seven entries, one per agent in order, numbered from 0, none of them a retry. */
  ghost predicate SevenSteps(trajectory: seq<Entry>) {
    && |trajectory| == 7
    && (forall i | 0 <= i < 7 ::
          trajectory[i].step == i && trajectory[i].agent == AgentNames[i] && !trajectory[i].retry)
    && (forall i | 0 <= i < 6 :: trajectory[i].nextAgent == Some(trajectory[i + 1].agent))
  }

  lemma FullTrajectorySteps()
    ensures SevenSteps(FullTrajectory)
  {
  }

  function Verdict(failures: seq<Failure>): string {
    if failures == [] then "verified" else "failed"
  }

  /** The verification stage, repeated once when it fails; no verdict when the run is cancelled before the retry. */
  method VerifyAndRetry(request: Request, context: WorkflowContext, evidence: seq<Evidence>, score: ScoreBreakdown)
      returns (verdict: Option<bool>)
    requires context.Valid() && |context.trajectory| == 6
    modifies context
    ensures context.Valid()
    ensures verdict == if Verified(request.document, evidence, score, 6) then Some(true)
                       else if Stops(request, 7) then None else Some(false)
    ensures verdict == Some(true) ==> context.trajectory == old(context.trajectory) + [FullTrajectory[6]]
  {
    var failures := Verify(request.document, evidence, score, |context.trajectory|);
    context.Record("VerificationAgent", "verificationPolicy", Verdict(failures), None, false);
    if failures != [] {
      context.Record("WorkflowOrchestrator", "boundedRetry", "retry", None, true);
      if Stops(request, 7) {
        return None;
      }
      failures := Verify(request.document, evidence, score, |context.trajectory|);
      context.Record("VerificationAgent", "verificationPolicy", Verdict(failures), None, false);
    }
    verdict := Some(failures == []);
  }

  method FinishRun(request: Request, context: WorkflowContext, evidence: seq<Evidence>, score: ScoreBreakdown)
      returns (outcome: Outcome)
    requires context.Valid() && context.trajectory == FullTrajectory[..5]
    modifies context
    ensures outcome == FinishOf(request, evidence, score)
    ensures outcome.Completed? ==>
      Verified(request.document, evidence, score, 6) && SevenSteps(outcome.result.trajectory)
  {
    if Stops(request, 5) {
      return Cancelled;
    }
    var advice := [];
    if exists e | e in evidence :: e.classification == Missing {
      advice := advice + [AddEvidence];
    }
    if !exists e | e in evidence :: e.section == Some("experience") && e.classification == Strong {
      advice := advice + [AddImpact];
    }
    assert advice == Recommend(evidence);
    context.Record("RecommendationAgent", "recommendationCatalog", "recommended", Some("VerificationAgent"), false);
    if Stops(request, 6) {
      return Cancelled;
    }
    var verdict := VerifyAndRetry(request, context, evidence, score);
    if verdict.None? {
      return Cancelled;
    }
    if !verdict.value {
      return Unverified;
    }
    assert FullTrajectory == FullTrajectory[..5] + [FullTrajectory[5]] + [FullTrajectory[6]];
    FullTrajectorySteps();
    outcome := Completed(ResultOf(request, evidence, score, advice, context.trajectory));
  }

  /** The agents up to the evidence; no evidence when the run is cancelled on the way. */
  method Gather(request: Request, context: WorkflowContext) returns (evidence: Option<seq<Evidence>>)
    requires context.Valid() && context.trajectory == FullTrajectory[..2]
    modifies context
    ensures context.Valid()
    ensures evidence == if Stops(request, 3) then None
                        else Some(EvidenceReported(request.document, request.role.requirements))
    ensures evidence.Some? ==> context.trajectory == FullTrajectory[..4]
  {
    if Stops(request, 2) {
      return None;
    }
    var terms := Normalize(request.document, request.role.requirements);
    TermsAreInside(request.document, request.role.requirements);
    context.Record("SkillNormalizationAgent", "boundaryMatcher", "normalized", Some("EvidenceInvestigationAgent"),
                   false);
    if Stops(request, 3) {
      return None;
    }
    var found := Investigate(request.document, request.role.requirements, terms);
    context.Record("EvidenceInvestigationAgent", "sectionAwareMatcher", "classified", Some("ScoringAgent"), false);
    evidence := Some(found);
  }

  /** The parser and the requirement agent; an outcome when the run ends with one of them. */
  method Begin(request: Request, context: WorkflowContext) returns (ended: Option<Outcome>)
    requires context.Valid() && context.trajectory == []
    modifies context
    ensures context.Valid()
    ensures ended == if Stops(request, 1) then Some(Cancelled)
                     else if !Accepted(request.catalog) then Some(CatalogRejected) else None
    ensures ended.None? ==> context.trajectory == FullTrajectory[..2]
  {
    if Stops(request, 0) {
      return Some(Cancelled);
    }
    context.Record("CvParserAgent", "localPdfJsParser", "parsed", Some("RequirementAnalysisAgent"), false);
    if Stops(request, 1) {
      return Some(Cancelled);
    }
    var errors := Validate(request.catalog);
    if errors != [] {
      return Some(CatalogRejected);
    }
    context.Record("RequirementAnalysisAgent", "publishedCatalog", "planned", Some("SkillNormalizationAgent"), false);
    ended := None;
  }

  /** The scoring agent; no score for evidence that the score refuses. */
  method ScoreRun(request: Request, context: WorkflowContext, evidence: seq<Evidence>)
      returns (scored: Option<ScoreBreakdown>)
    requires context.Valid() && context.trajectory == FullTrajectory[..4]
    modifies context
    ensures context.Valid()
    ensures scored.Some? <==> Creditable(request.role.requirements, evidence)
    ensures scored.Some? ==>
      && context.trajectory == FullTrajectory[..5]
      && scored.value == Breakdown(DefaultPolicy, request.role.requirements, evidence,
                                   SignalsOf(request.document.normalizedText), SectionNames(request.document))
  {
    var d := request.document;
    var result := Score(DefaultPolicy, request.role.requirements, evidence, d.normalizedText, SectionNames(d));
    if result.Err? {
      return None;
    }
    context.Record("ScoringAgent", "scoringPolicy", "scored", Some("RecommendationAgent"), false);
    scored := Some(result.value);
  }

  /**
    `run`. A completed run passed the first verification, with six entries recorded, and
    has no trace of a retry: the retry looks at the same values and never rescues a run.
  */
  method Run(request: Request) returns (outcome: Outcome)
    ensures outcome == OutcomeOf(request)
    ensures outcome.Completed? ==>
      && Verified(request.document, outcome.result.evidence, outcome.result.score, 6)
      && SevenSteps(outcome.result.trajectory)
  {
    var context := new WorkflowContext();
    var ended := Begin(request, context);
    if ended.Some? {
      return ended.value;
    }
    var evidence := Gather(request, context);
    if evidence.None? || Stops(request, 4) {
      return Cancelled;
    }
    var scored := ScoreRun(request, context, evidence.value);
    if scored.None? {
      return EvidenceRejected;
    }
    outcome := FinishRun(request, context, evidence.value, scored.value);
  }

  // ----- the theorems -----

  lemma ItemSoundIff(d: Document, rule: Requirement)
    requires Numbered(d.pages)
    ensures ItemSound(d, EvidenceFor(d, rule)) <==> d.pages != [] || !Mentioned(d.normalizedText, rule)
  {
    EvidenceMeansText(d, rule);
    if TermFor(d, rule).Some? {
      PageInRange(d.pages, 0, TermFor(d, rule).value.start, 0);
    }
  }

  lemma ItemsSoundIff(d: Document, rules: seq<Requirement>)
    requires Numbered(d.pages)
    ensures (forall i | 0 <= i < |rules| :: ItemSound(d, EvidenceList(d, rules)[i]))
            <==> d.pages != [] || forall i | 0 <= i < |rules| :: !Mentioned(d.normalizedText, rules[i])
  {
    forall i | 0 <= i < |rules|
      ensures ItemSound(d, EvidenceList(d, rules)[i]) <==> d.pages != [] || !Mentioned(d.normalizedText, rules[i])
    {
      ItemSoundIff(d, rules[i]);
    }
  }

  /** Verification succeeds for a document with pages, and without pages only if nothing is mentioned. */
  lemma VerificationSucceeds(d: Document, rules: seq<Requirement>)
    requires DistinctIds(rules) && Numbered(d.pages)
    ensures Creditable(rules, EvidenceReported(d, rules))
    ensures Verified(d, EvidenceReported(d, rules), ScoreReported(d, rules), 6)
            <==> d.pages != [] || forall i | 0 <= i < |rules| :: !Mentioned(d.normalizedText, rules[i])
  {
    EvidenceOneToOne(d, rules);
    EvidenceCreditable(d, rules);
    TotalInRange(ScoreReported(d, rules));
    ItemsSoundIff(d, rules);
  }

  /**
    End to end: for a document whose pages are numbered 1 to n and a role of an accepted
    catalog, an uncancelled run completes exactly when n is positive or nothing is
    mentioned; otherwise it ends unverified. It is never rejected for its evidence.
  */
  lemma RunsComplete(request: Request)
    requires Accepted(request.catalog) && request.role in request.catalog.roles
    requires Numbered(request.document.pages) && request.cancelledFrom.None?
    ensures OutcomeOf(request).Completed? || OutcomeOf(request).Unverified?
    ensures OutcomeOf(request).Completed?
            <==> request.document.pages != []
                 || forall i | 0 <= i < |request.role.requirements| ::
                      !Mentioned(request.document.normalizedText, request.role.requirements[i])
  {
    AcceptedRole(request.catalog, request.role);
    VerificationSucceeds(request.document, request.role.requirements);
  }

  lemma CompletedMeans(request: Request)
    requires OutcomeOf(request).Completed?
    ensures Accepted(request.catalog)
    ensures var d, rules := request.document, request.role.requirements;
      OutcomeOf(request)
      == Completed(ResultOf(request, EvidenceReported(d, rules), ScoreReported(d, rules),
                            Recommend(EvidenceReported(d, rules)), FullTrajectory))
  {
  }

  /** A completed run has one item per requirement, in order, and its recomputable score. */
  lemma CompletedRunsAreOneToOne(request: Request)
    requires request.role in request.catalog.roles && OutcomeOf(request).Completed?
    ensures var result := OutcomeOf(request).result;
      var d, rules := request.document, request.role.requirements;
      && |result.evidence| == |rules|
      && (forall i | 0 <= i < |rules| ::
            && result.evidence[i] == EvidenceFor(d, rules[i])
            && (result.evidence[i].classification == Missing <==> !Mentioned(d.normalizedText, rules[i])))
      && result.score == Breakdown(DefaultPolicy, rules, result.evidence, SignalsOf(d.normalizedText), SectionNames(d))
      && Sum(CreditOf(rules), result.evidence) <= TotalWeight(rules)
      && result.roleSlug == request.role.slug && result.catalogVersion == request.catalog.version
  {
    CompletedMeans(request);
    AcceptedRole(request.catalog, request.role);
    ReportedOneToOne(request.document, request.role.requirements);
  }

  lemma ReportedOneToOne(d: Document, rules: seq<Requirement>)
    requires DistinctIds(rules) && PositiveWeights(rules)
    ensures |EvidenceReported(d, rules)| == |rules|
    ensures forall i | 0 <= i < |rules| ::
      && EvidenceReported(d, rules)[i] == EvidenceFor(d, rules[i])
      && (EvidenceReported(d, rules)[i].classification == Missing <==> !Mentioned(d.normalizedText, rules[i]))
    ensures Sum(CreditOf(rules), EvidenceReported(d, rules)) <= TotalWeight(rules)
  {
    EvidenceOneToOne(d, rules);
    ListMeansText(d, rules);
    ReportedCredit(d, rules);
  }

  lemma ReportedCredit(d: Document, rules: seq<Requirement>)
    requires DistinctIds(rules) && PositiveWeights(rules)
    ensures Sum(CreditOf(rules), EvidenceReported(d, rules)) <= TotalWeight(rules)
  {
    EvidenceOneToOne(d, rules);
    EvidenceCreditable(d, rules);
    CreditWithinWeight(rules, EvidenceList(d, rules));
  }

  lemma AcceptedRole(catalog: Catalog, role: JobRole)
    requires Accepted(catalog) && role in catalog.roles
    ensures DistinctIds(role.requirements) && PositiveWeights(role.requirements)
  {
    var r :| 0 <= r < |catalog.roles| && catalog.roles[r] == role;
  }

  lemma ListMeansText(d: Document, rules: seq<Requirement>)
    ensures forall i | 0 <= i < |rules| ::
      EvidenceList(d, rules)[i].classification == Missing <==> !Mentioned(d.normalizedText, rules[i])
  {
    forall i | 0 <= i < |rules|
      ensures EvidenceList(d, rules)[i].classification == Missing <==> !Mentioned(d.normalizedText, rules[i])
    {
      EvidenceMeansText(d, rules[i]);
    }
  }

  /** Appending text that opens with neither letter nor digit keeps every matched requirement matched. */
  lemma AppendingLosesNoEvidence(d: Document, suffix: string, rules: seq<Requirement>, i: nat)
    requires suffix != [] && !TextMatch.Alnum(TextMatch.LowerChar(suffix[0])) && i < |rules| && DistinctIds(rules)
    requires EvidenceReported(d, rules)[i].classification != Missing
    ensures EvidenceReported(d.(normalizedText := d.normalizedText + suffix), rules)[i].classification != Missing
  {
    var longer := d.(normalizedText := d.normalizedText + suffix);
    EvidenceOneToOne(d, rules);
    EvidenceOneToOne(longer, rules);
    EvidenceMeansText(d, rules[i]);
    EvidenceMeansText(longer, rules[i]);
    AppendingKeepsMentions(d.normalizedText, suffix, rules[i]);
  }
}
