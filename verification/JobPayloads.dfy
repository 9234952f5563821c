/**
  Where the payloads of a job come from, over every run: the PDF from its upload, the
  document and the report from the `finishProcessing` call that completed it, the address
  from its `attachEmail` request. So what is handed out or mailed is the job's own report.
*/
module JobPayloads {
  import opened Wrappers
  import opened JobRows
  import opened JobLaws
  import opened JobProtocol
  import opened JobInvariants
  import opened JobSteps
  import opened JobAdmissions

  datatype Output = Output(document: Payload, report: Payload)

  /** The step completes job `id`: its worker still owns the unexpired processing row. */
  ghost predicate Completes(s: System, step: Step, id: JobId) {
    && step.Work? && step.act.Finish? && step.token in s.claims && s.claims[step.token].row.id == id
    && s.claims[step.token].row.status == Processing
    && Owned(s.db.rows, id, step.token, Processing) && step.act.now < s.db.rows[id].expiresAt
  }

  /** The step attaches an address to job `id`: its report is waiting and it is unexpired. */
  ghost predicate Attaches(s: System, step: Step, id: JobId) {
    && step.Request? && step.call.AttachEmail? && ByHandle(s.db.rows, step.handle) == Some(id)
    && s.db.rows[id].status == AwaitingEmail && step.call.now < s.db.rows[id].expiresAt
  }

  /** The outputs of the jobs a run completed. */
  ghost function Outputs(cfg: Config, steps: seq<Step>): map<JobId, Output> {
    if steps == [] then map[]
    else
      var rest, step := steps[..|steps| - 1], steps[|steps| - 1];
      OutputsAfter(Exec(cfg, Start, rest), step, Outputs(cfg, rest))
  }

  ghost function OutputsAfter(s: System, step: Step, outputs: map<JobId, Output>): map<JobId, Output> {
    if step.Work? && step.token in s.claims && Completes(s, step, s.claims[step.token].row.id)
    then outputs[s.claims[step.token].row.id := Output(step.act.document, step.act.report)]
    else outputs
  }

  /** The addresses a run attached. */
  ghost function Addresses(cfg: Config, steps: seq<Step>): map<JobId, Payload> {
    if steps == [] then map[]
    else
      var rest, step := steps[..|steps| - 1], steps[|steps| - 1];
      AddressesAfter(Exec(cfg, Start, rest), step, Addresses(cfg, rest))
  }

  ghost function AddressesAfter(s: System, step: Step, addresses: map<JobId, Payload>): map<JobId, Payload> {
    if step.Request? && ByHandle(s.db.rows, step.handle).Some?
      && Attaches(s, step, ByHandle(s.db.rows, step.handle).value)
    then addresses[ByHandle(s.db.rows, step.handle).value := step.call.email]
    else addresses
  }

  /** The payloads of the row are those recorded for its job. */
  predicate OwnPayloads(r: Row, uploads: map<JobId, Upload>, outputs: map<JobId, Output>, addresses: map<JobId,
                        Payload>) {
    && (r.pdf.Some? ==> r.id in uploads && r.pdf == Some(uploads[r.id].pdf))
    && (r.document.Some? ==> r.id in outputs && r.document == Some(outputs[r.id].document))
    && (r.report.Some? ==> r.id in outputs && r.report == Some(outputs[r.id].report))
    && (r.email.Some? ==> r.id in addresses && r.email == Some(addresses[r.id]))
  }

  // ----- what a step does to the payloads of a row -----

  /** The payloads stay, or the PDF goes, or they change by a completion or an attachment of this step. */
  ghost predicate PayloadStep(s: System, step: Step, id: JobId, r: Row, r': Row) {
    && (r'.pdf == r.pdf || r'.pdf.None?)
    && (if Completes(s, step, id)
        then r'.document == Some(step.act.document) && r'.report == Some(step.act.report)
        else r'.document == r.document && r'.report == r.report)
    && (if Attaches(s, step, id) then r'.email == Some(step.call.email) else r'.email == r.email)
  }

  /** A request keeps the payloads of its row, but for an address it attaches. */
  lemma CallPayloads(cfg: Config, db: Db, id: JobId, call: Call)
    requires id in db.rows && Shaped(db.rows[id])
    requires call.StatusPoll? || call.TakeFast? || call.AttachEmail? || call.Cancel?
    requires id in Touch(cfg, db, id, call).rows
    ensures var r, r' := db.rows[id], Touch(cfg, db, id, call).rows[id];
      if call.AttachEmail? && r.status == AwaitingEmail && call.now < r.expiresAt
      then r'.email == Some(call.email) && SamePayloads(r.(email := r'.email), r')
      else SamePayloads(r, r')
  {
    match call
    case StatusPoll(now) => StatusPollLaw(cfg, db, id, now);
    case TakeFast => TakeFastLaw(cfg, db, id);
    case AttachEmail(email, now) => AttachEmailLaw(cfg, db, id, email, now);
    case Cancel => CancelLaw(cfg, db, id);
  }

  lemma RequestTouches(cfg: Config, s: System, handle: Handle, call: Call, id: JobId)
    requires id in s.db.rows && id in Requested(cfg, s, handle, call).db.rows
    ensures Requested(cfg, s, handle, call).db.rows[id]
            == if ByHandle(s.db.rows, handle) == Some(id) then Touch(cfg, s.db, id, call).rows[id] else s.db.rows[id]
    ensures ByHandle(s.db.rows, handle) == Some(id) ==> id in Touch(cfg, s.db, id, call).rows
  {
  }

  lemma RequestPayloads(cfg: Config, s: System, step: Step, id: JobId)
    requires Enabled(s, step) && step.Request? && id in s.db.rows && Shaped(s.db.rows[id])
    requires id in Fire(cfg, s, step).db.rows
    ensures PayloadStep(s, step, id, s.db.rows[id], Fire(cfg, s, step).db.rows[id])
  {
    RequestTouches(cfg, s, step.handle, step.call, id);
    if ByHandle(s.db.rows, step.handle) == Some(id) {
      CallPayloads(cfg, s.db, id, step.call);
    }
  }

  lemma ClaimPayloads(cfg: Config, s: System, step: Step, id: JobId)
    requires Enabled(s, step) && step.ClaimNext? && id in s.db.rows && id in Fire(cfg, s, step).db.rows
    ensures PayloadStep(s, step, id, s.db.rows[id], Fire(cfg, s, step).db.rows[id])
  {
    ClaimLaw(cfg, s.db, step.id, step.token, step.now);
  }

  lemma FinishPayloads(cfg: Config, s: System, step: Step, id: JobId)
    requires Enabled(s, step) && step.Work? && step.act.Finish? && id in s.db.rows && id in Fire(cfg, s, step).db.rows
    ensures PayloadStep(s, step, id, s.db.rows[id], Fire(cfg, s, step).db.rows[id])
  {
    var target := s.claims[step.token].row.id;
    FinishLaw(cfg, s.db, target, step.token, step.act.now, step.act.document, step.act.report);
    if target != id && Next(cfg, s, step).db.rows - {target} == s.db.rows - {target} {
      OtherRow(s.db.rows, Next(cfg, s, step).db.rows, target, id);
    }
  }

  /** The other acts keep the payloads of every row they leave. */
  lemma WorkPayloads(cfg: Config, s: System, step: Step, id: JobId)
    requires Enabled(s, step) && step.Work? && !step.act.Finish? && id in s.db.rows && id in Fire(cfg, s, step).db.rows
    ensures PayloadStep(s, step, id, s.db.rows[id], Fire(cfg, s, step).db.rows[id])
  {
    if !step.act.Send? {
      ActKeepsPayloads(cfg, s.db, s.claims[step.token], step.token, step.act, id);
    }
  }

  lemma ActKeepsPayloads(cfg: Config, db: Db, c: Held, token: Token, act: Act, id: JobId)
    requires !act.Send? && !act.Finish? && id in db.rows
    ensures var rows := Touch(cfg, db, c.row.id, CallOf(cfg, c, token, act)).rows;
      id in rows ==> SamePayloads(db.rows[id], rows[id])
  {
    var rows := Touch(cfg, db, c.row.id, CallOf(cfg, c, token, act)).rows;
    match act
    case Beat(now) => HeartbeatLaw(cfg, db, c.row.id, token, now);
    case Fail(now, code) =>
      FailProcessingLaw(cfg, db, c.row.id, token, now, if PermanentPdfError(code) then cfg.maxProcessing
                        else c.row.attempts);
    case ReportSent => FinishEmailLaw(cfg, db, c.row.id, token);
    case ReportFailed(now) =>
      FailEmailLaw(cfg, db, c.row.id, token, now, c.row.emailAttempts, c.phase == Sent(Retryable));
    if id != c.row.id && rows - {c.row.id} == db.rows - {c.row.id} {
      OtherRow(db.rows, rows, c.row.id, id);
    }
  }

  lemma CleanupPayloads(cfg: Config, s: System, step: Step, id: JobId)
    requires Enabled(s, step) && step.Cleanup? && id in s.db.rows && id in Fire(cfg, s, step).db.rows
    ensures PayloadStep(s, step, id, s.db.rows[id], Fire(cfg, s, step).db.rows[id])
  {
    CleanupLaw(cfg, s.db, step.now, id);
  }

  lemma StepPayloads(cfg: Config, s: System, step: Step, id: JobId)
    requires Inv(cfg, s) && id in s.db.rows && id in Next(cfg, s, step).db.rows
    ensures PayloadStep(s, step, id, s.db.rows[id], Next(cfg, s, step).db.rows[id])
  {
    if Enabled(s, step) {
      if step.Request? {
        assert RowOk(cfg, s.db.rows[id]);
        RequestPayloads(cfg, s, step, id);
      } else if step.ClaimNext? {
        ClaimPayloads(cfg, s, step, id);
      } else if step.Work? && step.act.Finish? {
        FinishPayloads(cfg, s, step, id);
      } else if step.Work? {
        WorkPayloads(cfg, s, step, id);
      } else if step.Cleanup? {
        CleanupPayloads(cfg, s, step, id);
      } else {
        QuietRows(cfg, s, step, id);
      }
    }
  }

  lemma QuietRows(cfg: Config, s: System, step: Step, id: JobId)
    requires Enabled(s, step) && !step.Request? && !step.ClaimNext? && !step.Work? && !step.Cleanup?
    requires id in s.db.rows && (forall i | i in s.db.rows :: i in s.ids)
    ensures id in Next(cfg, s, step).db.rows && Next(cfg, s, step).db.rows[id] == s.db.rows[id]
  {
  }

  // ----- over every run -----

  ghost predicate RowsOwn(rows: map<JobId, Row>, uploads: map<JobId, Upload>, outputs: map<JobId, Output>,
                          addresses: map<JobId, Payload>)
  {
    forall id | id in rows :: OwnPayloads(rows[id], uploads, outputs, addresses)
  }

  /** A claim has its job's payloads, and while the row is there they are still the row's. */
  ghost predicate ClaimsOwn(rows: map<JobId, Row>, claims: map<Token, Held>, uploads: map<JobId, Upload>,
                            outputs: map<JobId, Output>, addresses: map<JobId, Payload>)
  {
    forall t | t in claims ::
      && OwnPayloads(claims[t].row, uploads, outputs, addresses)
      && (claims[t].row.id in rows ==>
            && (claims[t].row.report.Some? ==> rows[claims[t].row.id].report.Some?)
            && (claims[t].row.email.Some? ==> rows[claims[t].row.id].email.Some?))
  }

  ghost predicate PayloadInv(s: System, uploads: map<JobId, Upload>, outputs: map<JobId, Output>,
                             addresses: map<JobId, Payload>)
  {
    RowsOwn(s.db.rows, uploads, outputs, addresses) && ClaimsOwn(s.db.rows, s.claims, uploads, outputs, addresses)
  }

  /** A completion finds a row without a report, an attachment one without an address. */
  lemma FirstTime(cfg: Config, s: System, step: Step, id: JobId)
    requires Inv(cfg, s)
    ensures Completes(s, step, id) ==> id in s.db.rows && s.db.rows[id].report.None? && s.db.rows[id].document.None?
    ensures Attaches(s, step, id) ==> id in s.db.rows && s.db.rows[id].email.None?
    ensures Inserts(cfg, s, step) && step.id == id ==> id !in s.ids && id !in s.db.rows
  {
    if Completes(s, step, id) || Attaches(s, step, id) {
      assert RowOk(cfg, s.db.rows[id]);
    }
  }

  lemma RowOwn(cfg: Config, s: System, step: Step, uploads: map<JobId, Upload>, outputs: map<JobId, Output>,
               addresses: map<JobId, Payload>, id: JobId)
    requires cfg.Valid() && Inv(cfg, s) && id in Next(cfg, s, step).db.rows
    requires RowsOwn(s.db.rows, uploads, outputs, addresses)
    ensures OwnPayloads(Next(cfg, s, step).db.rows[id], AdmittedBy(cfg, s, step, uploads),
                        OutputsAfter(s, step, outputs),
                        AddressesAfter(s, step, addresses))
  {
    if id in s.db.rows {
      OldRowOwn(cfg, s, step, uploads, outputs, addresses, id);
    } else {
      NewRowsInserted(cfg, s, step, id);
      NewRowPayloads(cfg, s, step);
    }
  }

  lemma OldRowOwn(cfg: Config, s: System, step: Step, uploads: map<JobId, Upload>, outputs: map<JobId, Output>,
                  addresses: map<JobId, Payload>, id: JobId)
    requires cfg.Valid() && Inv(cfg, s) && id in s.db.rows && id in Next(cfg, s, step).db.rows
    requires OwnPayloads(s.db.rows[id], uploads, outputs, addresses)
    ensures OwnPayloads(Next(cfg, s, step).db.rows[id], AdmittedBy(cfg, s, step, uploads),
                        OutputsAfter(s, step, outputs),
                        AddressesAfter(s, step, addresses))
  {
    var r, r' := s.db.rows[id], Next(cfg, s, step).db.rows[id];
    StepPayloads(cfg, s, step, id);
    StepInv(cfg, s, step);
    assert r.id == id && r'.id == id;
    FirstTime(cfg, s, step, id);
    OtherJob(cfg, s, step, uploads, outputs, addresses, id);
  }

  /** A job the step does not complete, attach to or insert keeps what is recorded for it. */
  lemma OtherJob(cfg: Config, s: System, step: Step, uploads: map<JobId, Upload>, outputs: map<JobId, Output>,
                 addresses: map<JobId, Payload>, id: JobId)
    ensures var outputs' := OutputsAfter(s, step, outputs);
      if Completes(s, step, id) then id in outputs' && outputs'[id] == Output(step.act.document, step.act.report)
      else (id in outputs' <==> id in outputs) && (id in outputs ==> outputs'[id] == outputs[id])
    ensures var addresses' := AddressesAfter(s, step, addresses);
      if Attaches(s, step, id) then id in addresses' && addresses'[id] == step.call.email
      else (id in addresses' <==> id in addresses) && (id in addresses ==> addresses'[id] == addresses[id])
    ensures var uploads' := AdmittedBy(cfg, s, step, uploads);
      if Inserts(cfg, s, step) && step.id == id then id in uploads' && uploads'[id] == step.input
      else (id in uploads' <==> id in uploads) && (id in uploads ==> uploads'[id] == uploads[id])
  {
  }

  lemma NewRowPayloads(cfg: Config, s: System, step: Step)
    requires Inserts(cfg, s, step)
    ensures step.id in Next(cfg, s, step).db.rows
    ensures var r := Next(cfg, s, step).db.rows[step.id];
      r.id == step.id && r.pdf == Some(step.input.pdf) && r.document.None? && r.report.None? && r.email.None?
  {
    InsertLaw(cfg, s.db, step.id, step.handle, step.input, step.now, step.appNow);
  }

  lemma ClaimOwn(cfg: Config, s: System, step: Step, uploads: map<JobId, Upload>, outputs: map<JobId, Output>,
                 addresses: map<JobId, Payload>, t: Token)
    requires cfg.Valid() && Inv(cfg, s) && PayloadInv(s, uploads, outputs, addresses) && t in s.claims
    ensures OwnPayloads(s.claims[t].row, AdmittedBy(cfg, s, step, uploads), OutputsAfter(s, step, outputs),
                        AddressesAfter(s, step, addresses))
    ensures var rows', c := Next(cfg, s, step).db.rows, s.claims[t].row;
      c.id in rows' ==>
        (c.report.Some? ==> rows'[c.id].report.Some?) && (c.email.Some? ==> rows'[c.id].email.Some?)
  {
    var c := s.claims[t].row;
    FirstTime(cfg, s, step, c.id);
    OtherJob(cfg, s, step, uploads, outputs, addresses, c.id);
    if c.id in Next(cfg, s, step).db.rows {
      if c.id in s.db.rows {
        StepPayloads(cfg, s, step, c.id);
      } else {
        NewRowsInserted(cfg, s, step, c.id);
      }
    }
  }

  lemma StepPayloadInv(cfg: Config, s: System, step: Step, uploads: map<JobId, Upload>, outputs: map<JobId, Output>,
                       addresses: map<JobId, Payload>)
    requires cfg.Valid() && Inv(cfg, s) && PayloadInv(s, uploads, outputs, addresses)
    ensures PayloadInv(Next(cfg, s, step), AdmittedBy(cfg, s, step, uploads), OutputsAfter(s, step, outputs),
                       AddressesAfter(s, step, addresses))
  {
    var s' := Next(cfg, s, step);
    forall id | id in s'.db.rows
      ensures OwnPayloads(s'.db.rows[id], AdmittedBy(cfg, s, step, uploads), OutputsAfter(s, step, outputs),
                          AddressesAfter(s, step, addresses))
    {
      RowOwn(cfg, s, step, uploads, outputs, addresses, id);
    }
    StepInv(cfg, s, step);
    forall t | t in s.claims {
      ClaimOwn(cfg, s, step, uploads, outputs, addresses, t);
    }
    forall t | t in s'.claims {
      ClaimedRows(cfg, s, step, t);
    }
  }

  /**
    In every reachable state: the PDF of a row or of a held claim is that of its job's
    upload, its document and report are those of the call that completed the job, and its
    address is the one a request attached.
  */
  lemma {:induction false} PayloadsAreTheirOwn(cfg: Config, steps: seq<Step>)
    requires cfg.Valid()
    ensures var s := Exec(cfg, Start, steps);
      var uploads, outputs, addresses := Admissions(cfg, steps), Outputs(cfg, steps), Addresses(cfg, steps);
      && (forall id | id in s.db.rows :: OwnPayloads(s.db.rows[id], uploads, outputs, addresses))
      && (forall t | t in s.claims :: OwnPayloads(s.claims[t].row, uploads, outputs, addresses))
      && PayloadInv(s, uploads, outputs, addresses)
    decreases |steps|
  {
    if steps != [] {
      var rest, step := steps[..|steps| - 1], steps[|steps| - 1];
      PayloadsAreTheirOwn(cfg, rest);
      RunInv(cfg, rest);
      StepPayloadInv(cfg, Exec(cfg, Start, rest), step, Admissions(cfg, rest), Outputs(cfg, rest),
                     Addresses(cfg, rest));
    }
  }
}
