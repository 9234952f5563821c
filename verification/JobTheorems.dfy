/**
  What the job queue guarantees over every run: fencing of stale workers, a bound on the
  changes a job undergoes, conservation of the event counts, payloads present when they
  are needed, and at most one hand-off of each report.
*/
module JobTheorems {
  import opened Wrappers
  import opened Sets
  import opened JobRows
  import opened JobCleanup
  import opened JobProtocol
  import opened JobMoves
  import opened JobInvariants
  import opened JobSteps

  // ----- what a step does to each row -----

  function Bound(cfg: Config): nat {
    2 * cfg.maxProcessing + 2 * cfg.maxEmail + 1
  }

  /** A row keeps its lease, or gives it up, or gets a token nobody held before. */
  ghost predicate RowStep(cfg: Config, s: System, rows': map<JobId, Row>, id: JobId) {
    id in rows' ==>
      var r' := rows'[id];
      if id in s.db.rows then
        var r := s.db.rows[id];
        || Extends(r, r')
        || (&& KeepsIdentity(r, r')
            && Measure(cfg, r') < Measure(cfg, r)
            && r.emailAttempts <= r'.emailAttempts
            && (r'.lease.None? || r'.lease.value !in s.tokens))
      else
        id !in s.ids && r'.lease.None? && Measure(cfg, r') <= Bound(cfg)
  }

  lemma MoveRowStep(cfg: Config, s: System, id: JobId, e: Effect, other: JobId)
    requires id in s.db.rows && Move(cfg, s.db.rows[id], e)
    requires NoNewLease(s.db.rows[id], e) || (e.row.lease.Some? && e.row.lease.value !in s.tokens)
    ensures RowStep(cfg, s, Apply(s.db, id, e).rows, other)
  {
  }

  lemma RequestRowStep(cfg: Config, s: System, handle: Handle, call: Call, other: JobId)
    requires cfg.Valid() && Inv(cfg, s) && Enabled(s, Request(handle, call))
    ensures RowStep(cfg, s, Requested(cfg, s, handle, call).db.rows, other)
  {
    var found := ByHandle(s.db.rows, handle);
    if found.Some? {
      var e := RequestEffect(cfg, s, found.value, call);
      MoveRowStep(cfg, s, found.value, e, other);
    }
  }

  lemma RequestEffect(cfg: Config, s: System, id: JobId, call: Call) returns (e: Effect)
    requires cfg.Valid() && id in s.db.rows && RowOk(cfg, s.db.rows[id])
    requires call.StatusPoll? || call.TakeFast? || call.AttachEmail? || call.Cancel?
    ensures Touch(cfg, s.db, id, call) == Apply(s.db, id, e)
    ensures Move(cfg, s.db.rows[id], e) && NoNewLease(s.db.rows[id], e)
  {
    e := EffectOf(cfg, call, s.db.rows[id]);
    RequestMoves(cfg, call, s.claims, s.db.rows[id]);
  }

  /** A claim is a move, or nothing, that writes the fresh token if it writes one. */
  lemma ClaimEffect(cfg: Config, s: System, id: JobId, token: Token, now: Time) returns (e: Effect)
    requires cfg.Valid() && id in s.db.rows && RowOk(cfg, s.db.rows[id])
    ensures Touch(cfg, s.db, id, Claim(token, now)) == Apply(s.db, id, e)
    ensures Move(cfg, s.db.rows[id], e) && (e.Keep? || (e.Put? && e.row.lease == Some(token)))
  {
    e := EffectOf(cfg, Claim(token, now), s.db.rows[id]);
    if Claimable(s.db.rows[id], now) {
      ClaimMoves(cfg, s.db.rows[id], token, now);
    }
  }

  lemma ClaimRowStep(cfg: Config, s: System, id: JobId, token: Token, now: Time, other: JobId)
    requires cfg.Valid() && Inv(cfg, s) && id in s.db.rows && token !in s.tokens
    ensures RowStep(cfg, s, Touch(cfg, s.db, id, Claim(token, now)).rows, other)
  {
    var e := ClaimEffect(cfg, s, id, token, now);
    MoveRowStep(cfg, s, id, e, other);
  }

  lemma WorkRowStep(cfg: Config, s: System, token: Token, act: Act, other: JobId)
    requires cfg.Valid() && Inv(cfg, s) && Enabled(s, Work(token, act))
    ensures RowStep(cfg, s, Worked(cfg, s, token, act).db.rows, other)
  {
    if !act.Send? && s.claims[token].row.id in s.db.rows {
      var e := ActEffect(cfg, s, token, act);
      MoveRowStep(cfg, s, s.claims[token].row.id, e, other);
    }
  }

  lemma CleanupRowStep(cfg: Config, s: System, now: Time, other: JobId)
    requires cfg.Valid() && (other in s.db.rows ==> RowOk(cfg, s.db.rows[other]))
    ensures RowStep(cfg, s, RecoverAll(cfg, s.db, now).rows, other)
  {
    var rows' := RecoveredRows(cfg, s.db.rows, s.db.rows.Keys, now);
    assert RecoverAll(cfg, s.db, now).rows == rows';
    if other in rows' {
      assert rows'[other] == RequeuedRow(cfg, s.db.rows[other], now);
      RecoveredRowMoves(cfg, s.db.rows[other], now);
    }
  }

  lemma RecoveredRowMoves(cfg: Config, r: Row, now: Time)
    requires cfg.Valid() && RowOk(cfg, r) && ClassOf(cfg, r, now) in {Requeue, Untouched}
    ensures var r' := RequeuedRow(cfg, r, now);
      || Extends(r, r')
      || (KeepsIdentity(r, r') && Measure(cfg, r') < Measure(cfg, r) && r'.emailAttempts == r.emailAttempts
          && r'.lease.None?)
  {
    RowClassified(cfg, r, now);
  }

  lemma InsertRowStep(cfg: Config, s: System, step: Step, other: JobId)
    requires cfg.Valid() && Inv(cfg, s) && Enabled(s, step) && step.InsertJob?
    ensures RowStep(cfg, s, Fire(cfg, s, step).db.rows, other)
  {
    var r := NewRow(cfg, step.id, step.handle, step.input, step.now, step.appNow);
    assert Fire(cfg, s, step).db.rows in {s.db.rows, s.db.rows[r.id := r]};
  }

  lemma FireRowStep(cfg: Config, s: System, step: Step, other: JobId)
    requires cfg.Valid() && Inv(cfg, s) && Enabled(s, step)
    ensures RowStep(cfg, s, Fire(cfg, s, step).db.rows, other)
  {
    match step
    case Request(handle, call) => RequestRowStep(cfg, s, handle, call, other);
    case ClaimNext(id, token, now, _) => ClaimRowStep(cfg, s, id, token, now, other);
    case Work(token, act) => WorkRowStep(cfg, s, token, act, other);
    case Cleanup(now) => CleanupRowStep(cfg, s, now, other);
    case InsertJob(_, _, _, _, _) => InsertRowStep(cfg, s, step, other);
    case _ => assert Fire(cfg, s, step).db == s.db;
  }

  lemma StepRowStep(cfg: Config, s: System, step: Step, other: JobId)
    requires cfg.Valid() && Inv(cfg, s)
    ensures RowStep(cfg, s, Next(cfg, s, step).db.rows, other)
  {
    if Enabled(s, step) {
      FireRowStep(cfg, s, step, other);
    }
  }

  // ----- fencing -----

  /** A row carries a token exactly while it is leased, and no two rows or claims share one. */
  lemma LeaseMatchesStatus(cfg: Config, steps: seq<Step>)
    requires cfg.Valid()
    ensures var s := Exec(cfg, Start, steps);
      && (forall id | id in s.db.rows ::
            s.db.rows[id].lease.Some? <==> s.db.rows[id].status in {Processing, EmailSending})
      && (forall id, t, u | id in s.db.rows && t in s.claims && u in s.claims
            && s.db.rows[id].lease == Some(t) && s.db.rows[id].lease == Some(u) :: t == u)
      && (forall i, j, t | i in s.db.rows && j in s.db.rows
            && s.db.rows[i].lease == Some(t) && s.db.rows[j].lease == Some(t) :: i == j)
      && (forall id, t | id in s.db.rows && t in s.claims && s.db.rows[id].lease == Some(t) ::
            && s.db.rows[id].attempts == s.claims[t].row.attempts
            && s.db.rows[id].emailAttempts == s.claims[t].row.emailAttempts)
  {
    RunInv(cfg, steps);
  }

  /** The claim's row is gone, or has been recovered, finished or claimed by somebody else. */
  ghost predicate Superseded(s: System, token: Token) {
    forall id | id in s.db.rows :: s.db.rows[id].lease != Some(token)
  }

  /** No act of a superseded worker changes a row or an event count. */
  lemma SupersededHasNoEffect(cfg: Config, steps: seq<Step>, token: Token, act: Act)
    requires cfg.Valid() && Superseded(Exec(cfg, Start, steps), token)
    ensures Exec(cfg, Start, steps + [Work(token, act)]).db == Exec(cfg, Start, steps).db
  {
    var s := Exec(cfg, Start, steps);
    assert (steps + [Work(token, act)])[..|steps|] == steps;
    if Enabled(s, Work(token, act)) && !act.Send? && s.claims[token].row.id in s.db.rows {
      FencedCall(cfg, CallOf(cfg, s.claims[token], token, act), token, s.db.rows[s.claims[token].row.id]);
    }
  }

  lemma TokensGrow(cfg: Config, s: System, step: Step)
    ensures s.tokens <= Next(cfg, s, step).tokens
    ensures s.ids <= Next(cfg, s, step).ids
  {
  }

  lemma {:induction false} SupersededFrom(cfg: Config, s: System, more: seq<Step>, token: Token)
    requires cfg.Valid() && Inv(cfg, s) && token in s.tokens && Superseded(s, token)
    ensures var s' := Exec(cfg, s, more);
      Inv(cfg, s') && token in s'.tokens && Superseded(s', token)
  {
    if more != [] {
      var before, step := Exec(cfg, s, more[..|more| - 1]), more[|more| - 1];
      SupersededFrom(cfg, s, more[..|more| - 1], token);
      StepInv(cfg, before, step);
      TokensGrow(cfg, before, step);
      forall id | id in Next(cfg, before, step).db.rows
        ensures Next(cfg, before, step).db.rows[id].lease != Some(token)
      {
        StepRowStep(cfg, before, step, id);
      }
    }
  }

  /** A worker that has lost its lease never gets it back, whatever happens later. */
  lemma SupersededForever(cfg: Config, steps: seq<Step>, more: seq<Step>, token: Token)
    requires cfg.Valid() && token in Exec(cfg, Start, steps).claims && Superseded(Exec(cfg, Start, steps), token)
    ensures Superseded(Exec(cfg, Start, steps + more), token)
  {
    RunInv(cfg, steps);
    ExecConcat(cfg, Start, steps, more);
    SupersededFrom(cfg, Exec(cfg, Start, steps), more, token);
  }

  // ----- a bound on the changes of a job -----

  /** The row is there before the step and is deleted or changed by more than a heartbeat. */
  ghost predicate Changes(rows: map<JobId, Row>, rows': map<JobId, Row>, id: JobId) {
    id in rows && (id !in rows' || !Extends(rows[id], rows'[id]))
  }

  ghost function ChangeCount(cfg: Config, s: System, steps: seq<Step>, id: JobId): nat {
    if steps == [] then 0
    else
      var before := Exec(cfg, s, steps[..|steps| - 1]);
      ChangeCount(cfg, s, steps[..|steps| - 1], id)
      + if Changes(before.db.rows, Next(cfg, before, steps[|steps| - 1]).db.rows, id) then 1 else 0
  }

  /** The changes a job still has before it: all of them before it is created, none once it is gone. */
  ghost function Budget(cfg: Config, s: System, id: JobId): int {
    if id in s.db.rows then Measure(cfg, s.db.rows[id])
    else if id in s.ids then 0
    else Bound(cfg)
  }

  lemma StepSpendsBudget(cfg: Config, s: System, step: Step, id: JobId)
    requires cfg.Valid() && Inv(cfg, s)
    ensures var s' := Next(cfg, s, step);
      Budget(cfg, s', id) + (if Changes(s.db.rows, s'.db.rows, id) then 1 else 0) <= Budget(cfg, s, id)
  {
    StepRowStep(cfg, s, step, id);
    TokensGrow(cfg, s, step);
    if id in s.db.rows {
      MeasureRange(cfg, s.db.rows[id]);
    }
  }

  lemma {:induction false} ChangesSpendBudget(cfg: Config, s: System, steps: seq<Step>, id: JobId)
    requires cfg.Valid() && Inv(cfg, s)
    ensures ChangeCount(cfg, s, steps, id) + Budget(cfg, Exec(cfg, s, steps), id) <= Budget(cfg, s, id)
  {
    if steps != [] {
      ChangesSpendBudget(cfg, s, steps[..|steps| - 1], id);
      ExecInv(cfg, s, steps[..|steps| - 1]);
      StepSpendsBudget(cfg, Exec(cfg, s, steps[..|steps| - 1]), steps[|steps| - 1], id);
    }
  }

  /** In any run a job undergoes at most 2P + 2E + 1 changes, its deletion included. */
  lemma ChangesBounded(cfg: Config, steps: seq<Step>, id: JobId)
    requires cfg.Valid()
    ensures ChangeCount(cfg, Start, steps, id) <= 2 * cfg.maxProcessing + 2 * cfg.maxEmail + 1
    ensures var s := Exec(cfg, Start, steps);
      id in s.db.rows ==> ChangeCount(cfg, Start, steps, id) < 2 * cfg.maxProcessing + 2 * cfg.maxEmail + 1
  {
    RunInv(cfg, []);
    ChangesSpendBudget(cfg, Start, steps, id);
    RunInv(cfg, steps);
    var s := Exec(cfg, Start, steps);
    if id in s.db.rows {
      MeasureRange(cfg, s.db.rows[id]);
    }
  }

  // ----- conservation and payloads -----

  /** Started jobs are live or have left with exactly one event; reports cannot outnumber completions. */
  lemma EventsConserved(cfg: Config, steps: seq<Step>)
    requires cfg.Valid()
    ensures var db := Exec(cfg, Start, steps).db;
      && db.events[AnalysisStarted] == |db.rows| + db.events[AnalysisFastCompleted] + db.events[AnalysisCancelled]
           + db.events[AnalysisFailed] + db.events[AnalysisExpired] + db.events[EmailSent] + db.events[EmailFailed]
      && db.events[AnalysisFastCompleted] + db.events[EmailSent] + db.events[EmailFailed]
         <= db.events[AnalysisCompleted]
      && db.events[AnalysisCompleted] <= db.events[AnalysisStarted]
  {
    RunInv(cfg, steps);
    var rows := Exec(cfg, Start, steps).db.rows;
    SubsetAtMost(ReportedIds(rows), rows.Keys);
    assert |rows.Keys| == |rows|;
  }

  /** At every transaction boundary a row has exactly the payloads of its status, and so does a held claim. */
  lemma PayloadsPresent(cfg: Config, steps: seq<Step>)
    requires cfg.Valid()
    ensures var s := Exec(cfg, Start, steps);
      && (forall id | id in s.db.rows :: var r := s.db.rows[id];
            && SqlChecks(r)
            && r.status !in {Completed, Failed, Expired, Cancelled}
            && (r.pdf.Some? <==> r.status in {Queued, Processing})
            && (r.report.Some? <==> r.status in {AwaitingEmail, EmailPending, EmailSending})
            && (r.email.Some? <==> r.status in {EmailPending, EmailSending}))
      && (forall t | t in s.claims :: var r := s.claims[t].row;
            && (r.status == Processing ==> r.pdf.Some?)
            && (r.status == EmailSending ==> r.email.Some? && r.report.Some?)
            && r.status in {Processing, EmailSending})
      && (forall id | id in s.db.rows && s.db.rows[id].status == Queued :: s.db.rows[id].attempts < cfg.maxProcessing)
      && (forall id | id in s.db.rows && s.db.rows[id].status == EmailPending ::
          s.db.rows[id].emailAttempts < cfg.maxEmail)
  {
    RunInv(cfg, steps);
    var s := Exec(cfg, Start, steps);
    forall id | id in s.db.rows
      ensures SqlChecks(s.db.rows[id])
    {
    }
  }

  // ----- at most one hand-off -----

  /**
    Whatever the interleaving, nothing about a job follows the hand-off of its report in
    the log: no second hand-off, and no further attempt to send it.
  */
  lemma HandedOffAtMostOnce(cfg: Config, steps: seq<Step>)
    requires cfg.Valid()
    ensures var log := Exec(cfg, Start, steps).log;
      && (forall i, j | 0 <= i < |log| && 0 <= j < |log| && log[i].id == log[j].id
            && IsHandOff(log[i]) && IsHandOff(log[j]) :: i == j)
      && (forall i, j | 0 <= i < j < |log| && log[i].id == log[j].id :: !IsHandOff(log[i]))
  {
    assert OnceInv(Exec(cfg, Start, steps).log) by {
      RunInv(cfg, steps);
    }
    OnceMeans(Exec(cfg, Start, steps).log);
  }

  lemma OnceMeans(log: seq<LogEntry>)
    requires OnceInv(log)
    ensures forall i, j | 0 <= i < |log| && 0 <= j < |log| && log[i].id == log[j].id
              && IsHandOff(log[i]) && IsHandOff(log[j]) :: i == j
    ensures forall i, j | 0 <= i < j < |log| && log[i].id == log[j].id :: !IsHandOff(log[i])
  {
  }

  /** After a hand-off the job's row is gone or is a lease nobody will turn into another send. */
  lemma HandedOffRowOnlyLeaves(cfg: Config, steps: seq<Step>, id: JobId)
    requires cfg.Valid()
    ensures var s := Exec(cfg, Start, steps);
      HandedOff(s.log, id) && id in s.db.rows ==>
        && s.db.rows[id].status == EmailSending
        && forall t | t in s.claims && s.claims[t].row.id == id && s.claims[t].row.status == EmailSending ::
             s.claims[t].phase != Working
  {
    RunInv(cfg, steps);
  }

  lemma LogStepGrows(cfg: Config, s: System, step: Step)
    ensures s.log <= Next(cfg, s, step).log
  {
  }

  lemma {:induction false} LogGrows(cfg: Config, s: System, steps: seq<Step>)
    ensures s.log <= Exec(cfg, s, steps).log
    decreases |steps|
  {
    if steps != [] {
      LogGrows(cfg, s, steps[..|steps| - 1]);
      LogStepGrows(cfg, Exec(cfg, s, steps[..|steps| - 1]), steps[|steps| - 1]);
    }
  }

  /** A hand-off that a step logs is the last thing the log of any continuation says about the job. */
  lemma LastEntry(cfg: Config, steps: seq<Step>, step: Step, e: LogEntry, more: seq<Step>)
    requires cfg.Valid() && IsHandOff(e)
    requires Exec(cfg, Start, steps + [step]).log == Exec(cfg, Start, steps).log + [e]
    ensures var n, log := |Exec(cfg, Start, steps).log|, Exec(cfg, Start, steps + [step] + more).log;
      && n < |log| && log[n] == e
      && forall k | n < k < |log| :: log[k].id != e.id
  {
    var log := Exec(cfg, Start, steps + [step] + more).log;
    ExecConcat(cfg, Start, steps + [step], more);
    LogGrows(cfg, Exec(cfg, Start, steps + [step]), more);
    HandedOffAtMostOnce(cfg, steps + [step] + more);
    var n := |Exec(cfg, Start, steps).log|;
    assert log[n] == (Exec(cfg, Start, steps).log + [e])[n];
  }

  /**
    Once the mail server took a job's report, or the connection broke while the message
    was being sent, no later step of any run sends it or hands it out again.
  */
  lemma NothingFollowsArrival(cfg: Config, steps: seq<Step>, token: Token, reply: MailReply, more: seq<Step>)
    requires cfg.Valid() && Enabled(Exec(cfg, Start, steps), Work(token, Send(reply)))
    requires reply.Done? || (reply.Thrown? && reply.atData)
    ensures var id := Exec(cfg, Start, steps).claims[token].row.id;
      var n, log := |Exec(cfg, Start, steps).log|, Exec(cfg, Start, steps + [Work(token, Send(reply))] + more).log;
      && n < |log| && log[n] == Mailed(id, reply)
      && forall k | n < k < |log| :: log[k].id != id
  {
    var step := Work(token, Send(reply));
    assert (steps + [step])[..|steps|] == steps;
    LastEntry(cfg, steps, step, Mailed(Exec(cfg, Start, steps).claims[token].row.id, reply), more);
  }

  /** Once a waiting report was fetched over its handle, no later step sends it or hands it out again. */
  lemma NothingFollowsFastResult(cfg: Config, steps: seq<Step>, handle: Handle, more: seq<Step>)
    requires cfg.Valid()
    requires var rows := Exec(cfg, Start, steps).db.rows;
      ByHandle(rows, handle).Some? && rows[ByHandle(rows, handle).value].status == AwaitingEmail
    ensures var s := Exec(cfg, Start, steps);
      var id, n := ByHandle(s.db.rows, handle).value, |s.log|;
      var after := Exec(cfg, Start, steps + [Request(handle, TakeFast)] + more);
      && id !in Exec(cfg, Start, steps + [Request(handle, TakeFast)]).db.rows
      && n < |after.log| && after.log[n] == FastTaken(id)
      && forall k | n < k < |after.log| :: after.log[k].id != id
  {
    var s, step := Exec(cfg, Start, steps), Request(handle, TakeFast);
    assert (steps + [step])[..|steps|] == steps;
    RunInv(cfg, steps);
    assert RowOk(cfg, s.db.rows[ByHandle(s.db.rows, handle).value]);
    LastEntry(cfg, steps, step, FastTaken(ByHandle(s.db.rows, handle).value), more);
  }
}
