/**
  From an upload to an answer: what the upload route records, and what the worker makes of
  a claimed row, the parsed document and the catalog tables of its own time.
*/
module JobAnalysis {
  import opened Wrappers
  import Rows = JobRows
  import JobProtocol
  import JobStore
  import JobLaws
  import JobWorker
  import opened CatalogModels
  import opened CatalogHistory
  import opened CatalogTheorems
  import CatalogStore
  import opened Documents
  import opened Workflow

  datatype UploadOutcome = RoleRefused | QueueFull | InsertFailed | Accepted(upload: Rows.Upload)

  /**
    The upload route from the catalog lookup to the insert, with the clocks its queries
    read: what it inserts is the PDF, slug and seniority it was given and the version of a
    newest snapshot that admits them.
  */
  method HandleUpload(catalogs: CatalogStore.Store, jobs: JobStore.Store, id: Rows.JobId, handle: Rows.Handle,
                      pdf: Rows.Payload, slug: string, seniority: Option<string>, now: Rows.Time, appNow: Rows.Time)
      returns (outcome: UploadOutcome)
    requires jobs.Valid()
    modifies jobs
    ensures jobs.Valid()
    ensures !outcome.Accepted? ==> jobs.State() == old(jobs.State())
    ensures outcome == RoleRefused ==> catalogs.snapshots == map[] || exists v ::
      Latest(catalogs.State(), v) && Admit(catalogs.State(), v, slug, seniority).None?
    ensures outcome == QueueFull ==> jobs.cfg.maxActive <= |Rows.ActiveIds(jobs.rows, now)|
    ensures outcome.Accepted? ==>
      && |old(Rows.ActiveIds(jobs.rows, now))| < jobs.cfg.maxActive
      && (exists v :: Latest(catalogs.State(), v) && AdmittedUnder(catalogs.State(), v, outcome.upload))
      && outcome.upload.pdf == pdf && outcome.upload.roleSlug == slug && outcome.upload.seniority == seniority
      && id in jobs.rows && jobs.rows - {id} == old(jobs.rows) - {id}
      && jobs.rows[id].pdf == Some(pdf) && jobs.rows[id].roleSlug == slug && jobs.rows[id].seniority == seniority
      && jobs.rows[id].catalogVersion == outcome.upload.catalogVersion
      && jobs.rows[id].handle == handle && jobs.rows[id].status == Rows.Queued
      && jobs.rows[id].expiresAt == appNow + jobs.cfg.ttl
  {
    var admitted := catalogs.AdmitUpload(slug, seniority);
    if admitted.None? {
      return RoleRefused;
    }
    ghost var db := catalogs.State();
    ghost var v :| Latest(db, v) && admitted == Admit(db, v, slug, seniority);
    var free := jobs.AdmitsAnother(now);
    if !free {
      return QueueFull;
    }
    var upload := Rows.Upload(pdf, slug, seniority, admitted.value.catalogVersion);
    JobLaws.InsertLaw(jobs.cfg, jobs.State(), id, handle, upload, now, appNow);
    assert AdmittedUnder(db, v, upload);
    var inserted := jobs.InsertJob(id, handle, upload, now, appNow);
    assert catalogs.State() == db;
    outcome := if inserted then Accepted(upload) else InsertFailed;
  }

  /** The upload names a role and a seniority that snapshot row `v` admits, and the version inside that snapshot. */
  ghost predicate AdmittedUnder(db: Db, v: string, upload: Rows.Upload) {
    && v in db.snapshots
    && var admitted := Admit(db, v, upload.roleSlug, upload.seniority);
      admitted.Some? && upload.catalogVersion == admitted.value.catalogVersion
  }

  function RequestFor(row: Rows.Row, d: Document, catalog: Catalog, role: JobRole): Request {
    Request(d, catalog, role, row.seniority, catalog.engineVersion, None)
  }

  /** An error the worker does not name: it is retried. */
  const Unnamed: string := ""

  /** The engine run and the identity check: the engine decodes, runs, and has to name the job's role and catalog. */
  ghost function EngineAnswerOf(row: Rows.Row, d: Document, catalog: Catalog, role: JobRole)
      : Result<AnalysisResult, string>
  {
    if !Decodable(catalog) then Err(Unnamed)
    else
      match OutcomeOf(RequestFor(row, d, catalog, role))
      case Completed(result) =>
        if result.roleSlug == row.roleSlug && result.catalogVersion == row.catalogVersion
        then Ok(result)
        else Err(Unnamed)
      case _ => Err(Unnamed)
  }

  /** The answer of `processPdf` before it is written, or the code of the error it throws. */
  ghost function AnalysisOf(db: Db, row: Rows.Row, parsed: Result<Document, string>): Result<AnalysisResult, string> {
    if parsed.Err? then Err(parsed.error)
    else
      var loaded := Load(db, row.catalogVersion, row.roleSlug);
      if loaded.None? then Err("CATALOG_UNAVAILABLE")
      else EngineAnswerOf(row, parsed.value, loaded.value.0, loaded.value.1)
  }

  method Analyse(catalogs: CatalogStore.Store, row: Rows.Row, parsed: Result<Document, string>)
      returns (answer: Result<AnalysisResult, string>)
    ensures answer == AnalysisOf(catalogs.State(), row, parsed)
  {
    if parsed.Err? {
      return Err(parsed.error);
    }
    var loaded := catalogs.LoadCatalog(row.catalogVersion, row.roleSlug);
    if loaded.None? {
      return Err("CATALOG_UNAVAILABLE");
    }
    var (catalog, role) := loaded.value;
    if !Decodable(catalog) {
      return Err(Unnamed);
    }
    var outcome := Run(RequestFor(row, parsed.value, catalog, role));
    if !outcome.Completed? {
      return Err(Unnamed);
    }
    if outcome.result.roleSlug != row.roleSlug || outcome.result.catalogVersion != row.catalogVersion {
      return Err(Unnamed);
    }
    answer := Ok(outcome.result);
  }

  /** How a document and a result are written to the row. */
  datatype Encoding = Encoding(document: Document -> Rows.Payload, report: AnalysisResult -> Rows.Payload)

  function ToEngineAnswer(encoding: Encoding, parsed: Result<Document, string>,
                          answer: Result<AnalysisResult, string>): JobWorker.EngineAnswer
  {
    if parsed.Ok? && answer.Ok? then JobWorker.Report(encoding.document(parsed.value), encoding.report(answer.value))
    else JobWorker.PdfError(if answer.Err? then answer.error else Unnamed)
  }

  /** `processPdf` from the claimed row to the transaction that finishes or fails the job. */
  method ProcessClaim(worker: JobWorker.AnalysisWorker, catalogs: CatalogStore.Store, row: Rows.Row, token: Rows.Token,
                      now: Rows.Time, parsed: Result<Document, string>, encoding: Encoding)
    requires worker.store.Valid()
    modifies worker.store
    ensures worker.store.Valid()
    ensures var c := JobProtocol.Held(row, JobProtocol.Working);
      var answer := old(AnalysisOf(catalogs.State(), row, parsed));
      worker.store.State() == Rows.Touch(worker.store.cfg, old(worker.store.State()), row.id,
        JobProtocol.CallOf(worker.store.cfg, c, token,
          if row.pdf.None? then JobProtocol.Fail(now, "PAYLOAD_MISSING")
          else if answer.Ok?
          then JobProtocol.Finish(now, encoding.document(parsed.value), encoding.report(answer.value))
          else JobProtocol.Fail(now, answer.error)))
    ensures JobWorker.PdfSettled(worker.store.cfg, old(worker.store.State()), row, token, now,
                                 ToEngineAnswer(encoding, parsed, old(AnalysisOf(catalogs.State(), row, parsed))),
                                 worker.store.State())
  {
    var answer := Analyse(catalogs, row, parsed);
    var written := JobWorker.PdfError(Unnamed);
    if answer.Err? {
      written := JobWorker.PdfError(answer.error);
    } else if parsed.Ok? {
      written := JobWorker.Report(encoding.document(parsed.value), encoding.report(answer.value));
    }
    worker.ProcessPdf(row, token, now, written);
  }

  /**
    Which failures are final: those of reading the PDF that carry one of seven codes. A
    missing catalog or role, a catalog the engine cannot decode or rejects, and a run that
    does not complete are tried again, for as long as the row has attempts left.
  */
  lemma FailureIsFinal(cfg: Rows.Config, before: Rows.Db, row: Rows.Row, token: Rows.Token, now: Rows.Time,
                       catalogs: Db, parsed: Result<Document, string>, encoding: Encoding, after: Rows.Db)
    requires JobLaws.Owned(before.rows, row.id, token, Rows.Processing) && row.pdf.Some?
    requires AnalysisOf(catalogs, row, parsed).Err? && row.attempts < cfg.maxProcessing
    requires JobWorker.PdfSettled(cfg, before, row, token, now,
                                  ToEngineAnswer(encoding, parsed, AnalysisOf(catalogs, row, parsed)), after)
    ensures if parsed.Err? && parsed.error in {"MALFORMED_PDF", "PROTECTED_PDF", "TOO_MANY_PAGES", "NO_READABLE_TEXT",
                                               "PDF_TEXT_TOO_LARGE", "PDF_PAGE_TOO_LARGE", "OCR_UNAVAILABLE"}
            then row.id !in after.rows && after.events == before.events + multiset{Rows.AnalysisFailed}
            else row.id in after.rows && after.rows[row.id].status == Rows.Queued
                 && after.rows[row.id].lease.None? && after.events == before.events
  {
  }
}
