/**
  The queue, the catalog and the engine together: what a job was admitted with is what it
  is analysed with, and exactly when the analysis succeeds.
*/
module EndToEnd {
  import opened Wrappers
  import Rows = JobRows
  import JobProtocol
  import JobMoves
  import JobInvariants
  import JobSteps
  import JobTheorems
  import opened JobAdmissions
  import opened JobAnalysis
  import History = CatalogHistory
  import Authoring = CatalogTheorems
  import opened CatalogUse
  import opened CatalogModels
  import Documents
  import Engine
  import opened Workflow
  import opened WorkflowLaws

  lemma {:induction false} IdentityKeptFrom(cfg: Rows.Config, s: JobProtocol.System, more: seq<JobProtocol.Step>,
                                            id: Rows.JobId)
    requires cfg.Valid() && JobInvariants.Inv(cfg, s) && id in s.db.rows
    ensures var s' := JobProtocol.Exec(cfg, s, more);
      id in s'.ids && (id in s'.db.rows ==> JobMoves.KeepsIdentity(s.db.rows[id], s'.db.rows[id]))
    decreases |more|
  {
    if more != [] {
      var rest, step := more[..|more| - 1], more[|more| - 1];
      var before := JobProtocol.Exec(cfg, s, rest);
      IdentityKeptFrom(cfg, s, rest, id);
      JobSteps.ExecInv(cfg, s, rest);
      JobTheorems.StepRowStep(cfg, before, step, id);
      JobTheorems.TokensGrow(cfg, before, step);
    }
  }

  /** For as long as a job lives, its role, seniority, catalog version and expiry stay what they were at admission. */
  lemma JobKeepsItsIdentity(cfg: Rows.Config, steps: seq<JobProtocol.Step>, more: seq<JobProtocol.Step>, id: Rows.JobId)
    requires cfg.Valid() && id in JobProtocol.Exec(cfg, JobProtocol.Start, steps).db.rows
    ensures var s := JobProtocol.Exec(cfg, JobProtocol.Start, steps);
      var s' := JobProtocol.Exec(cfg, JobProtocol.Start, steps + more);
      id in s'.db.rows ==> JobMoves.KeepsIdentity(s.db.rows[id], s'.db.rows[id])
  {
    JobSteps.RunInv(cfg, steps);
    JobProtocol.ExecConcat(cfg, JobProtocol.Start, steps, more);
    IdentityKeptFrom(cfg, JobProtocol.Exec(cfg, JobProtocol.Start, steps), more, id);
  }

  /** The claim is held in the run, for a job admitted after the catalog commands under snapshot row `v`. */
  ghost predicate HeldClaim(cfg: Rows.Config, steps: seq<JobProtocol.Step>, t: Rows.Token,
                            commands: seq<History.Command>, v: string)
  {
    var s := JobProtocol.Exec(cfg, JobProtocol.Start, steps);
    var db := History.History(History.Empty, commands);
    && t in s.claims && s.claims[t].row.id in Admissions(cfg, steps)
    && Authoring.SafeHistory(commands) && Authoring.Latest(db, v)
    && AdmittedUnder(db, v, Admissions(cfg, steps)[s.claims[t].row.id])
  }

  /**
    Over every run of the queue and every catalog history: what the worker loads for a
    claim it holds, after any later commands, is the catalog and the role of the job's
    admission. They carry the version and the slug of the claimed row, so the identity
    check on the engine's result cannot fail.
  */
  lemma IdentityCheckPasses(cfg: Rows.Config, steps: seq<JobProtocol.Step>, t: Rows.Token,
                            commands: seq<History.Command>, later: seq<History.Command>, v: string)
    requires cfg.Valid() && HeldClaim(cfg, steps, t, commands, v)
    ensures var row := JobProtocol.Exec(cfg, JobProtocol.Start, steps).claims[t].row;
      var db := History.History(History.Empty, commands);
      var admitted := Authoring.Admit(db, v, row.roleSlug, row.seniority);
      && admitted.Some?
      && Authoring.Load(History.History(db, later), row.catalogVersion, row.roleSlug)
         == Some((db.snapshots[v].snapshot, admitted.value.role))
      && db.snapshots[v].snapshot.version == row.catalogVersion
      && admitted.value.role.slug == row.roleSlug && admitted.value.role in db.snapshots[v].snapshot.roles
  {
    var row := JobProtocol.Exec(cfg, JobProtocol.Start, steps).claims[t].row;
    AdmissionsKept(cfg, steps);
    Authoring.AdmittedJobFindsItsRole(commands, later, v, row.roleSlug, row.seniority);
    var db := History.History(History.Empty, commands);
    Authoring.FindActiveIsListed(db.snapshots[v].snapshot.roles, row.roleSlug);
  }

  ghost predicate NothingMentioned(d: Documents.Document, rules: seq<Requirement>) {
    forall i | 0 <= i < |rules| :: !Engine.Mentioned(d.normalizedText, rules[i])
  }

  /** Whether the engine answers for a role of a catalog that names the job. */
  lemma EngineAnswersIff(row: Rows.Row, d: Documents.Document, catalog: Catalog, role: JobRole)
    requires role in catalog.roles && role.slug == row.roleSlug && catalog.version == row.catalogVersion
    requires Documents.Numbered(d.pages)
    ensures EngineAnswerOf(row, d, catalog, role).Ok? <==>
      && Usable(catalog)
      && (d.pages != [] || NothingMentioned(d, role.requirements))
  {
    var request := RequestFor(row, d, catalog, role);
    if Usable(catalog) {
      RunsComplete(request);
    }
    if OutcomeOf(request).Completed? {
      CompletedMeans(request);
    }
  }

  /**
    From upload to report: a worker that holds a claim answers with a result exactly when
    the catalog of the admission is usable and the document has a page, or mentions
    nothing. Nothing that happened to the queue or to the catalog since then matters, and
    the result names the job's role and catalog and has one item per requirement.
  */
  lemma HeldClaimAnsweredIff(cfg: Rows.Config, steps: seq<JobProtocol.Step>, t: Rows.Token,
                             commands: seq<History.Command>, later: seq<History.Command>, v: string,
                             d: Documents.Document)
    requires cfg.Valid() && HeldClaim(cfg, steps, t, commands, v) && Documents.Numbered(d.pages)
    ensures var row := JobProtocol.Exec(cfg, JobProtocol.Start, steps).claims[t].row;
      var db := History.History(History.Empty, commands);
      var catalog, admitted := db.snapshots[v].snapshot, Authoring.Admit(db, v, row.roleSlug, row.seniority);
      var answer := AnalysisOf(History.History(db, later), row, Ok(d));
      && admitted.Some?
      && var rules := admitted.value.role.requirements;
      && (answer.Ok? <==>
            Usable(catalog) && (d.pages != [] || NothingMentioned(d, rules)))
      && (answer.Ok? ==>
            && answer.value.roleSlug == row.roleSlug && answer.value.catalogVersion == row.catalogVersion
            && |answer.value.evidence| == |rules|)
  {
    var row := JobProtocol.Exec(cfg, JobProtocol.Start, steps).claims[t].row;
    var db := History.History(History.Empty, commands);
    IdentityCheckPasses(cfg, steps, t, commands, later, v);
    var catalog, role := db.snapshots[v].snapshot, Authoring.Admit(db, v, row.roleSlug, row.seniority).value.role;
    EngineAnswersIff(row, d, catalog, role);
    if OutcomeOf(RequestFor(row, d, catalog, role)).Completed? {
      CompletedRunsAreOneToOne(RequestFor(row, d, catalog, role));
    }
  }

  /**
    What that result says: the title and the engine version of the admitted catalog, the
    seniority of the upload, and for every requirement, in order, whether a spelling of it
    stands in the document, which one, and where.
  */
  lemma HeldClaimReport(cfg: Rows.Config, steps: seq<JobProtocol.Step>, t: Rows.Token, commands: seq<History.Command>,
                        later: seq<History.Command>, v: string, d: Documents.Document)
    requires cfg.Valid() && HeldClaim(cfg, steps, t, commands, v) && Documents.Numbered(d.pages)
    requires var row := JobProtocol.Exec(cfg, JobProtocol.Start, steps).claims[t].row;
      AnalysisOf(History.History(History.History(History.Empty, commands), later), row, Ok(d)).Ok?
    ensures var row := JobProtocol.Exec(cfg, JobProtocol.Start, steps).claims[t].row;
      var db := History.History(History.Empty, commands);
      var answer := AnalysisOf(History.History(db, later), row, Ok(d)).value;
      var admitted := Authoring.Admit(db, v, row.roleSlug, row.seniority);
      && admitted.Some?
      && answer.roleTitle == admitted.value.role.title
      && answer.engineVersion == db.snapshots[v].snapshot.engineVersion
      && answer.seniority == Admissions(cfg, steps)[row.id].seniority
      && var rules := admitted.value.role.requirements;
        && |answer.evidence| == |rules|
        && forall i | 0 <= i < |rules| ::
             answer.evidence[i].requirementId == rules[i].id && ReportsMatch(d, rules[i], answer.evidence[i])
  {
    var row := JobProtocol.Exec(cfg, JobProtocol.Start, steps).claims[t].row;
    var db := History.History(History.Empty, commands);
    IdentityCheckPasses(cfg, steps, t, commands, later, v);
    AdmissionsKept(cfg, steps);
    var catalog, role := db.snapshots[v].snapshot, Authoring.Admit(db, v, row.roleSlug, row.seniority).value.role;
    ReportLaw(RequestFor(row, d, catalog, role));
  }

  /**
    Under a catalog built by a publication the engine answers, for any of its roles and any
    document with a page, exactly when every unarchived role is published, for a level the
    engine knows, with usable rules.
  */
  lemma BuiltCatalogAnswersIff(db: History.Db, name: string, snapshot: Catalog, row: Rows.Row, d: Documents.Document,
                               role: JobRole)
    requires History.AuthoringInv(db) && History.BuiltFrom(db, name, snapshot)
    requires role in snapshot.roles && role.slug == row.roleSlug && row.catalogVersion == name
    requires Documents.Numbered(d.pages) && d.pages != []
    ensures EngineAnswerOf(row, d, snapshot, role).Ok? <==>
      forall r | r in db.roles && !db.roles[r].archived :: DecodablePublication(db, r) && AcceptableRole(db, r)
  {
    EngineAnswersIff(row, d, snapshot, role);
    BuiltAcceptedIff(db, name, snapshot);
    BuiltDecodableIff(db, name, snapshot);
  }

  /** No run completes under the snapshot that publishing a rule-less draft of an active role stores. */
  lemma RulelessDraftStopsEveryRun(db: History.Db, target: History.VersionId, name: string, snapshot: Catalog, now: int,
                                   request: Request)
    requires History.AuthoringInv(db) && name !in db.snapshots
    requires target in db.versions && db.versions[target].status == History.Draft && db.versions[target].rules == []
    requires db.versions[target].seniority != ""
    requires db.roles[db.versions[target].role].active
    requires History.BuiltFrom(db.(versions := History.AfterPublish(db.versions, target)), name, snapshot)
    requires request.catalog == snapshot
    ensures OutcomeOf(request) in {Cancelled, CatalogRejected}
  {
    PublishingRulelessDraftIsRejected(db, target, name, snapshot, now);
  }
}
