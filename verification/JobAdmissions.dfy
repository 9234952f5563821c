/**
  What a job was admitted with, read off the run, and that every row and every held claim
  of the job still carries it.
*/
module JobAdmissions {
  import opened JobRows
  import opened JobProtocol
  import opened JobInvariants
  import opened JobSteps
  import opened JobTheorems

  /** The step inserts its job. */
  ghost predicate Inserts(cfg: Config, s: System, step: Step) {
    && step.InsertJob? && Enabled(s, step)
    && Insertable(s.db, NewRow(cfg, step.id, step.handle, step.input, step.now, step.appNow))
  }

  /** The upload each job of the run was inserted with. */
  ghost function Admissions(cfg: Config, steps: seq<Step>): map<JobId, Upload> {
    if steps == [] then map[]
    else
      var rest, step := steps[..|steps| - 1], steps[|steps| - 1];
      AdmittedBy(cfg, Exec(cfg, Start, rest), step, Admissions(cfg, rest))
  }

  ghost function AdmittedBy(cfg: Config, s: System, step: Step, admitted: map<JobId, Upload>): map<JobId, Upload> {
    if Inserts(cfg, s, step) then admitted[step.id := step.input] else admitted
  }

  predicate FromUpload(r: Row, u: Upload) {
    r.roleSlug == u.roleSlug && r.seniority == u.seniority && r.catalogVersion == u.catalogVersion
  }

  ghost predicate RowsAdmitted(rows: map<JobId, Row>, admitted: map<JobId, Upload>) {
    forall id | id in rows :: id in admitted && FromUpload(rows[id], admitted[id])
  }

  ghost predicate ClaimsAdmitted(claims: map<Token, Held>, admitted: map<JobId, Upload>) {
    forall t | t in claims :: claims[t].row.id in admitted && FromUpload(claims[t].row, admitted[claims[t].row.id])
  }

  /** A claim after a step was held before it, or holds a row of the table. */
  lemma ClaimedRows(cfg: Config, s: System, step: Step, t: Token)
    requires t in Next(cfg, s, step).claims
    ensures var s' := Next(cfg, s, step); var row := s'.claims[t].row;
      || (t in s.claims && row == s.claims[t].row)
      || (step.ClaimNext? && step.id in s'.db.rows && row == s'.db.rows[step.id])
  {
  }

  /** Only an insertion brings a row of a new job. */
  lemma NewRowsInserted(cfg: Config, s: System, step: Step, id: JobId)
    requires cfg.Valid() && Inv(cfg, s) && id in Next(cfg, s, step).db.rows && id !in s.db.rows
    ensures id !in s.ids && Inserts(cfg, s, step) && step.id == id
    ensures FromUpload(Next(cfg, s, step).db.rows[id], step.input)
  {
    StepRowStep(cfg, s, step, id);
    StepInv(cfg, s, step);
    IdsFromInsert(cfg, s, step);
  }

  lemma IdsFromInsert(cfg: Config, s: System, step: Step)
    ensures Next(cfg, s, step).ids == if Inserts(cfg, s, step) then s.ids + {step.id} else s.ids
    ensures Inserts(cfg, s, step) ==> step.id in Next(cfg, s, step).db.rows
                                      && FromUpload(Next(cfg, s, step).db.rows[step.id], step.input)
  {
  }

  lemma StepRowsAdmitted(cfg: Config, s: System, step: Step, admitted: map<JobId, Upload>)
    requires cfg.Valid() && Inv(cfg, s) && RowsAdmitted(s.db.rows, admitted)
    ensures RowsAdmitted(Next(cfg, s, step).db.rows, AdmittedBy(cfg, s, step, admitted))
  {
    var rows', admitted' := Next(cfg, s, step).db.rows, AdmittedBy(cfg, s, step, admitted);
    forall id | id in rows'
      ensures id in admitted' && FromUpload(rows'[id], admitted'[id])
    {
      RowAdmitted(cfg, s, step, admitted, id);
    }
  }

  lemma RowAdmitted(cfg: Config, s: System, step: Step, admitted: map<JobId, Upload>, id: JobId)
    requires cfg.Valid() && Inv(cfg, s) && RowsAdmitted(s.db.rows, admitted) && id in Next(cfg, s, step).db.rows
    ensures var admitted' := AdmittedBy(cfg, s, step, admitted);
      id in admitted' && FromUpload(Next(cfg, s, step).db.rows[id], admitted'[id])
  {
    if id in s.db.rows {
      OldRowAdmitted(cfg, s, step, admitted, id);
    } else {
      NewRowsInserted(cfg, s, step, id);
    }
  }

  lemma OldRowAdmitted(cfg: Config, s: System, step: Step, admitted: map<JobId, Upload>, id: JobId)
    requires cfg.Valid() && Inv(cfg, s) && id in s.db.rows && id in Next(cfg, s, step).db.rows
    requires id in admitted && FromUpload(s.db.rows[id], admitted[id])
    ensures var admitted' := AdmittedBy(cfg, s, step, admitted);
      id in admitted' && FromUpload(Next(cfg, s, step).db.rows[id], admitted'[id])
  {
    OldRowKept(cfg, s, step, id);
  }

  /** A step neither changes what an old row was admitted with nor inserts its job again. */
  lemma OldRowKept(cfg: Config, s: System, step: Step, id: JobId)
    requires cfg.Valid() && Inv(cfg, s) && id in s.db.rows && id in Next(cfg, s, step).db.rows
    ensures Inserts(cfg, s, step) ==> step.id != id
    ensures var r, r' := s.db.rows[id], Next(cfg, s, step).db.rows[id];
      r'.roleSlug == r.roleSlug && r'.seniority == r.seniority && r'.catalogVersion == r.catalogVersion
  {
    assert id in s.ids;
    StepRowStep(cfg, s, step, id);
  }

  /** A job with a held claim is an old one, so no insertion changes its upload. */
  lemma StepClaimsAdmitted(cfg: Config, s: System, step: Step, admitted: map<JobId, Upload>)
    requires HeldInv(cfg, s.claims, s.tokens, s.ids) && ClaimsAdmitted(s.claims, admitted)
    requires RowsInv(cfg, Next(cfg, s, step).db.rows, Next(cfg, s, step).ids)
    requires RowsAdmitted(Next(cfg, s, step).db.rows, AdmittedBy(cfg, s, step, admitted))
    ensures ClaimsAdmitted(Next(cfg, s, step).claims, AdmittedBy(cfg, s, step, admitted))
  {
    forall t | t in Next(cfg, s, step).claims
      ensures var row := Next(cfg, s, step).claims[t].row; var admitted' := AdmittedBy(cfg, s, step, admitted);
        row.id in admitted' && FromUpload(row, admitted'[row.id])
    {
      ClaimedRows(cfg, s, step, t);
    }
  }

  /**
    In every reachable state each row and each held claim has the role slug, seniority and
    catalog version its job was inserted with, however long ago the claim was made.
  */
  lemma {:induction false} AdmissionsKept(cfg: Config, steps: seq<Step>)
    requires cfg.Valid()
    ensures RowsAdmitted(Exec(cfg, Start, steps).db.rows, Admissions(cfg, steps))
    ensures ClaimsAdmitted(Exec(cfg, Start, steps).claims, Admissions(cfg, steps))
    decreases |steps|
  {
    if steps != [] {
      var rest, step := steps[..|steps| - 1], steps[|steps| - 1];
      var s, admitted := Exec(cfg, Start, rest), Admissions(cfg, rest);
      AdmissionsKept(cfg, rest);
      RunInv(cfg, rest);
      StepInv(cfg, s, step);
      StepRowsAdmitted(cfg, s, step, admitted);
      StepClaimsAdmitted(cfg, s, step, admitted);
    }
  }
}
