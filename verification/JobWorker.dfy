/**
  The worker process: the slots it fills, and what it does with a claim once the engine
  or the mail server has answered. The engine, the mailer and the payload decryption are
  parameters of the calls.
*/
module JobWorker {
  import opened Wrappers
  import opened JobRows
  import opened JobProtocol
  import opened JobStore
  import opened JobLaws

  datatype EngineAnswer = Report(document: Payload, report: Payload) | PdfError(code: string)

  /**
    What one claim of the loop finds: its fresh token, its clock, the rows other
    transactions lock, and the tasks that settle before it answers.
  */
  datatype Turn = Turn(token: Token, now: Time, locked: set<JobId>, settled: set<Token>)

  /** The running tasks after `n` turns that each started one. */
  ghost function TasksAfter(running: set<Token>, turns: seq<Turn>, n: nat): set<Token>
    requires n <= |turns|
  {
    if n == 0 then running
    else TasksAfter(running, turns, n - 1) - turns[n - 1].settled + {turns[n - 1].token}
  }

  datatype FillEnd = Stopping | Full | NothingToClaim | Unfinished

  /** The state after the claims of `claimed`, one after another. */
  ghost function ClaimedDb(cfg: Config, db: Db, claimed: seq<Row>, turns: seq<Turn>): Db
    requires |claimed| <= |turns|
  {
    if claimed == [] then db
    else
      var n := |claimed| - 1;
      Touch(cfg, ClaimedDb(cfg, db, claimed[..n], turns), claimed[n].id, Claim(turns[n].token, turns[n].now))
  }

  /** The claim took the row its transaction had to pick, and returned it as written. */
  ghost predicate ClaimStep(cfg: Config, before: Db, turn: Turn, row: Row, after: Db) {
    && Picked(before.rows, turn.now, turn.locked, row.id)
    && after == Touch(cfg, before, row.id, Claim(turn.token, turn.now))
    && row.id in after.rows && after.rows[row.id] == row
  }

  ghost predicate ClaimSequence(cfg: Config, db: Db, claimed: seq<Row>, turns: seq<Turn>)
    requires |claimed| <= |turns|
  {
    claimed == [] ||
      var n := |claimed| - 1;
      && ClaimSequence(cfg, db, claimed[..n], turns)
      && ClaimStep(cfg, ClaimedDb(cfg, db, claimed[..n], turns), turns[n], claimed[n],
                   ClaimedDb(cfg, db, claimed, turns))
  }

  ghost predicate FreshTurns(active: set<Token>, turns: seq<Turn>) {
    && (forall i | 0 <= i < |turns| :: turns[i].token !in active)
    && (forall i, j | 0 <= i < j < |turns| :: turns[i].token != turns[j].token)
  }

  /** The table went from `was` to `db` and the tasks from `running` to `active` by the claims of `claimed`. */
  ghost predicate Filled(cfg: Config, was: Db, running: set<Token>, turns: seq<Turn>, claimed: seq<Row>, db: Db,
                         active: set<Token>)
  {
    && |claimed| <= |turns|
    && ClaimSequence(cfg, was, claimed, turns)
    && db == ClaimedDb(cfg, was, claimed, turns)
    && active == TasksAfter(running, turns, |claimed|)
  }

  lemma OneMoreSlot(cfg: Config, was: Db, running: set<Token>, turns: seq<Turn>, claimed: seq<Row>, db: Db,
                    active: set<Token>, row: Row, after: Db)
    requires Filled(cfg, was, running, turns, claimed, db, active)
    requires |claimed| < |turns| && ClaimStep(cfg, db, turns[|claimed|], row, after)
    ensures Filled(cfg, was, running, turns, claimed + [row], after,
                   active - turns[|claimed|].settled + {turns[|claimed|].token})
  {
    OneMoreClaim(cfg, was, claimed, turns, row, after);
  }

  lemma OneMoreClaim(cfg: Config, was: Db, claimed: seq<Row>, turns: seq<Turn>, row: Row, after: Db)
    requires |claimed| < |turns| && ClaimSequence(cfg, was, claimed, turns)
    requires ClaimStep(cfg, ClaimedDb(cfg, was, claimed, turns), turns[|claimed|], row, after)
    ensures ClaimSequence(cfg, was, claimed + [row], turns) && ClaimedDb(cfg, was, claimed + [row], turns) == after
  {
    assert (claimed + [row])[..|claimed|] == claimed;
  }

  lemma {:induction false} TokenUnused(running: set<Token>, turns: seq<Turn>, n: nat)
    requires FreshTurns(running, turns) && n < |turns|
    ensures forall m | n <= m < |turns| :: turns[m].token !in TasksAfter(running, turns, n)
  {
    if n > 0 {
      TokenUnused(running, turns, n - 1);
    }
  }

  ghost predicate NothingFor(rows: map<JobId, Row>, turn: Turn) {
    forall id :: !Eligible(rows, Queued, turn.now, turn.locked, id)
                 && !Eligible(rows, EmailPending, turn.now, turn.locked, id)
  }

  // ----- the slots: overlapping fillSlots calls, and one call as a run of them -----

  /** Tasks running, and `fillSlots` calls that checked for a free slot and wait for their claim. */
  datatype Slots = Slots(active: nat, awaiting: nat)

  datatype SlotStep = Check | Land | Miss | Settle

  function SlotNext(concurrency: nat, s: Slots, step: SlotStep): Slots {
    match step
    case Check => if s.active < concurrency then s.(awaiting := s.awaiting + 1) else s
    case Land => if 0 < s.awaiting then Slots(s.active + 1, s.awaiting - 1) else s
    case Miss => if 0 < s.awaiting then s.(awaiting := s.awaiting - 1) else s
    case Settle => if 0 < s.active then s.(active := s.active - 1) else s
  }

  function SlotExec(concurrency: nat, s: Slots, steps: seq<SlotStep>): Slots {
    if steps == [] then s
    else SlotNext(concurrency, SlotExec(concurrency, s, steps[..|steps| - 1]), steps[|steps| - 1])
  }

  const NoTasks: Slots := Slots(0, 0)

  /** At most `k` calls overlap at any moment of the run. */
  ghost predicate SlotOverlap(concurrency: nat, steps: seq<SlotStep>, k: nat) {
    forall n | 0 <= n <= |steps| :: SlotExec(concurrency, NoTasks, steps[..n]).awaiting <= k
  }

  /** With at most `k` overlapping calls the running tasks exceed the concurrency by at most `k - 1`. */
  lemma {:induction false} SlotsBounded(concurrency: nat, steps: seq<SlotStep>, k: nat)
    requires 0 < concurrency && SlotOverlap(concurrency, steps, k)
    ensures var s := SlotExec(concurrency, NoTasks, steps);
      s.active + s.awaiting <= concurrency - 1 + k
  {
    if steps != [] {
      var rest := steps[..|steps| - 1];
      forall n | 0 <= n <= |rest|
        ensures SlotExec(concurrency, NoTasks, rest[..n]).awaiting <= k
      {
        assert steps[..n] == rest[..n];
      }
      SlotsBounded(concurrency, rest, k);
      assert steps[..|steps|] == steps;
    }
  }

  lemma SlotSnoc(concurrency: nat, s: Slots, steps: seq<SlotStep>, step: SlotStep)
    ensures SlotExec(concurrency, s, steps + [step]) == SlotNext(concurrency, SlotExec(concurrency, s, steps), step)
  {
    assert (steps + [step])[..|steps|] == steps;
  }

  lemma OverlapSnoc(concurrency: nat, steps: seq<SlotStep>, step: SlotStep, k: nat)
    requires SlotOverlap(concurrency, steps, k)
    requires SlotNext(concurrency, SlotExec(concurrency, NoTasks, steps), step).awaiting <= k
    ensures SlotOverlap(concurrency, steps + [step], k)
  {
    var all := steps + [step];
    SlotSnoc(concurrency, NoTasks, steps, step);
    forall n | 0 <= n <= |all|
      ensures SlotExec(concurrency, NoTasks, all[..n]).awaiting <= k
    {
      if n <= |steps| {
        assert all[..n] == steps[..n];
      } else {
        assert all[..n] == all;
      }
    }
  }

  /** A run to `active` tasks and `awaiting` calls past the check. */
  lemma {:induction false} SlotRun(concurrency: nat, k: nat, active: nat, awaiting: nat) returns (steps: seq<SlotStep>)
    requires active < concurrency && 0 < k && awaiting <= k
    ensures SlotOverlap(concurrency, steps, k) && SlotExec(concurrency, NoTasks, steps) == Slots(active, awaiting)
    decreases active, awaiting
  {
    if awaiting > 0 {
      var before := SlotRun(concurrency, k, active, awaiting - 1);
      SlotSnoc(concurrency, NoTasks, before, Check);
      OverlapSnoc(concurrency, before, Check, k);
      steps := before + [Check];
    } else if active > 0 {
      var before := SlotRun(concurrency, k, active - 1, 1);
      SlotSnoc(concurrency, NoTasks, before, Land);
      OverlapSnoc(concurrency, before, Land, k);
      steps := before + [Land];
    } else {
      steps := [];
    }
  }

  /** The `k` waiting claims all land: the bound of `SlotsBounded` is reached for every `k`. */
  lemma {:induction false} SlotsReached(concurrency: nat, k: nat, j: nat) returns (steps: seq<SlotStep>)
    requires 0 < concurrency && 0 < k && j <= k
    ensures SlotOverlap(concurrency, steps, k)
    ensures SlotExec(concurrency, NoTasks, steps) == Slots(concurrency - 1 + j, k - j)
  {
    if j == 0 {
      steps := SlotRun(concurrency, k, concurrency - 1, k);
    } else {
      var before := SlotsReached(concurrency, k, j - 1);
      SlotSnoc(concurrency, NoTasks, before, Land);
      OverlapSnoc(concurrency, before, Land, k);
      steps := before + [Land];
    }
  }

  lemma {:induction false} SlotConcat(concurrency: nat, s: Slots, a: seq<SlotStep>, b: seq<SlotStep>)
    ensures SlotExec(concurrency, s, a + b) == SlotExec(concurrency, SlotExec(concurrency, s, a), b)
  {
    if b == [] {
      assert a + b == a;
    } else {
      assert (a + b)[..|a + b| - 1] == a + b[..|b| - 1];
      SlotConcat(concurrency, s, a, b[..|b| - 1]);
    }
  }

  /** `n` tasks settle. */
  lemma {:induction false} SettleRun(concurrency: nat, s: Slots, n: nat) returns (steps: seq<SlotStep>)
    requires n <= s.active
    ensures SlotExec(concurrency, s, steps) == s.(active := s.active - n)
  {
    steps := [];
    if n > 0 {
      var before := SettleRun(concurrency, s, n - 1);
      SlotSnoc(concurrency, s, before, Settle);
      steps := before + [Settle];
    }
  }

  /** One turn of the loop as a run of the slots: the check, the tasks that settle, and the claim's answer. */
  lemma TurnRun(concurrency: nat, active: set<Token>, turn: Turn, landed: bool) returns (steps: seq<SlotStep>)
    requires |active| < concurrency && turn.token !in active
    ensures SlotExec(concurrency, Slots(|active|, 0), steps)
            == Slots(|active - turn.settled + if landed then {turn.token} else {}|, 0)
  {
    var s := Slots(|active|, 0);
    var gone, answer := |active * turn.settled|, if landed then Land else Miss;
    assert active == (active - turn.settled) + (active * turn.settled);
    assert |active - turn.settled| == |active| - gone;
    var settles := SettleRun(concurrency, Slots(|active|, 1), gone);
    SlotSnoc(concurrency, s, [], Check);
    assert [] + [Check] == [Check];
    SlotConcat(concurrency, s, [Check], settles);
    SlotSnoc(concurrency, s, [Check] + settles, answer);
    steps := [Check] + settles + [answer];
    assert active - turn.settled + {} == active - turn.settled;
    assert |active - turn.settled + {turn.token}| == |active - turn.settled| + 1;
  }

  /**
    What a delivery comes to, by the mail server's answer: a retry only when the server
    refused before the message was sent, for now or without a code.
  */
  ghost predicate MailSettled(cfg: Config, before: Db, row: Row, token: Token, now: Time, reply: MailReply, after: Db) {
    if !Owned(before.rows, row.id, token, EmailSending) then after == before
    else if row.email.None? || row.report.None? then Left(before, after, row.id, EmailFailed)
    else
      match reply
      case Done => Left(before, after, row.id, EmailSent)
      case Unconfigured => Left(before, after, row.id, EmailFailed)
      case Thrown(code, atData) =>
        if !atData && (code.None? || 400 <= code.value <= 499) && row.emailAttempts < cfg.maxEmail
        then PutBack(before, after, row.id, EmailPending, now + RetryDelay(cfg, row.emailAttempts))
        else Left(before, after, row.id, EmailFailed)
  }

  /** Without a delivery the row is settled by failing it, as retryable or not. */
  lemma NotSent(cfg: Config, before: Db, row: Row, token: Token, now: Time, reply: MailReply, phase: Phase, after: Db)
    requires phase == if row.email.None? || row.report.None? then Working else Sent(Classify(reply))
    requires row.email.Some? && row.report.Some? ==> !reply.Done?
    requires after
      == Touch(cfg, before, row.id, FailEmail(token, now, row.emailAttempts, phase == Sent(Retryable)))
    ensures MailSettled(cfg, before, row, token, now, reply, after)
  {
    FailEmailLaw(cfg, before, row.id, token, now, row.emailAttempts, phase == Sent(Retryable));
  }

  /** What an analysis comes to: the report, a retry, or the end of the job. */
  ghost predicate PdfSettled(cfg: Config, before: Db, row: Row, token: Token, now: Time, answer: EngineAnswer,
                             after: Db) {
    if !Owned(before.rows, row.id, token, Processing) then after == before
    else if row.pdf.Some? && answer.Report? then
      if before.rows[row.id].expiresAt <= now then after == before
      else
        && after.rows - {row.id} == before.rows - {row.id}
        && after.events == before.events + multiset{AnalysisCompleted}
        && row.id in after.rows && after.rows[row.id].status == AwaitingEmail && after.rows[row.id].pdf.None?
        && after.rows[row.id].document == Some(answer.document) && after.rows[row.id].report == Some(answer.report)
    else if row.attempts >= cfg.maxProcessing
            || (row.pdf.Some? && answer.code in {"MALFORMED_PDF", "PROTECTED_PDF", "TOO_MANY_PAGES", "NO_READABLE_TEXT",
                                                 "PDF_TEXT_TOO_LARGE", "PDF_PAGE_TOO_LARGE", "OCR_UNAVAILABLE"})
    then Left(before, after, row.id, AnalysisFailed)
    else PutBack(before, after, row.id, Queued, now + RetryDelay(cfg, row.attempts))
  }

  class AnalysisWorker {
    const store: Store
    const concurrency: nat
    var active: set<Token>
    var stopping: bool

    constructor (store: Store, concurrency: nat)
      ensures this.store == store && this.concurrency == concurrency && active == {} && !stopping
    {
      this.store := store;
      this.concurrency := concurrency;
      active := {};
      stopping := false;
    }

    method Stop()
      modifies this`stopping
      ensures stopping
    {
      stopping := true;
    }

    method TaskSettled(token: Token)
      modifies this`active
      ensures active == old(active) - {token}
    {
      active := active - {token};
    }

    /** One round of the loop: tasks may settle while the claim is awaited; a claimed row starts one. */
    method TakeTurn(turn: Turn) returns (row: Option<Row>)
      requires store.Valid()
      modifies this`active, store
      ensures store.Valid()
      ensures row.None? ==> store.State() == old(store.State()) && NothingFor(store.rows, turn)
      ensures row.None? ==> active == old(active) - turn.settled
      ensures row.Some? ==> active == old(active) - turn.settled + {turn.token}
      ensures row.Some? ==> ClaimStep(store.cfg, old(store.State()), turn, row.value, store.State())
    {
      row := store.ClaimNextJob(turn.now, turn.locked, turn.token);
      active := active - turn.settled;
      if row.Some? {
        active := active + {turn.token};
      }
    }

    /**
      One `fillSlots` call that no other call overlaps, followed for at most `turns`
      turns: the tasks that settle meanwhile can keep it going. It never exceeds the
      configured concurrency, and what it does to the slots is a run of the slots machine.
    */
    method FillSlots(turns: seq<Turn>) returns (claimed: seq<Row>, end: FillEnd, ghost steps: seq<SlotStep>)
      requires store.Valid() && FreshTurns(active, turns)
      modifies this`active, store
      ensures store.Valid() && |claimed| <= |turns|
      ensures end == Stopping <==> stopping
      ensures stopping || concurrency <= old(|active|) ==> claimed == [] && active == old(active)
      ensures old(|active|) <= concurrency ==> |active| <= concurrency
      ensures end == Full ==> concurrency <= |active|
      ensures end == Unfinished ==> |claimed| == |turns| && |active| < concurrency
      ensures end == NothingToClaim ==> |claimed| < |turns| && NothingFor(store.rows, turns[|claimed|])
      ensures var tasks := TasksAfter(old(active), turns, |claimed|);
        && active == (if end == NothingToClaim then tasks - turns[|claimed|].settled else tasks)
        && Filled(store.cfg, old(store.State()), old(active), turns, claimed, store.State(), tasks)
      ensures SlotExec(concurrency, Slots(old(|active|), 0), steps) == Slots(|active|, 0)
    {
      claimed, end, steps := [], Stopping, [];
      if stopping {
        return;
      }
      while |active| < concurrency
        invariant store.Valid()
        invariant Filled(store.cfg, old(store.State()), old(active), turns, claimed, store.State(), active)
        invariant old(|active|) <= concurrency ==> |active| <= concurrency
        invariant concurrency <= old(|active|) ==> claimed == []
        invariant SlotExec(concurrency, Slots(old(|active|), 0), steps) == Slots(|active|, 0)
        decreases |turns| - |claimed|
      {
        if |claimed| == |turns| {
          end := Unfinished;
          return;
        }
        ghost var db, tasks, turn := store.State(), active, turns[|claimed|];
        TokenUnused(old(active), turns, |claimed|);
        var row := TakeTurn(turns[|claimed|]);
        ghost var round := TurnRun(concurrency, tasks, turn, row.Some?);
        SlotConcat(concurrency, Slots(old(|active|), 0), steps, round);
        steps := steps + round;
        if row.None? {
          assert tasks - turn.settled + {} == active;
          end := NothingToClaim;
          return;
        }
        OneMoreSlot(store.cfg, old(store.State()), old(active), turns, claimed, db, tasks, row.value, store.State());
        claimed := claimed + [row.value];
      }
      end := Full;
    }

    /** `processPdf` after the engine answered; the PDF is part of every processing claim. */
    method ProcessPdf(row: Row, token: Token, now: Time, answer: EngineAnswer)
      requires store.Valid()
      modifies store
      ensures store.Valid()
      ensures var c := Held(row, Working);
        store.State() == Touch(store.cfg, old(store.State()), row.id, CallOf(store.cfg, c, token,
          if row.pdf.None? then Fail(now, "PAYLOAD_MISSING")
          else match answer
               case Report(document, report) => Finish(now, document, report)
               case PdfError(code) => Fail(now, code)))
      ensures PdfSettled(store.cfg, old(store.State()), row, token, now, answer, store.State())
    {
      var code := "PAYLOAD_MISSING";
      if row.pdf.Some? {
        match answer {
          case Report(document, report) =>
            FinishLaw(store.cfg, store.State(), row.id, token, now, document, report);
            var _ := store.CompleteProcessing(row.id, token, now, document, report);
            return;
          case PdfError(c) => code := c;
        }
      }
      var retryable := code !in {"MALFORMED_PDF", "PROTECTED_PDF", "TOO_MANY_PAGES", "NO_READABLE_TEXT",
                                 "PDF_TEXT_TOO_LARGE", "PDF_PAGE_TOO_LARGE", "OCR_UNAVAILABLE"};
      var attemptCount := if retryable then row.attempts else store.cfg.maxProcessing;
      FailProcessingLaw(store.cfg, store.State(), row.id, token, now, attemptCount);
      var _ := store.AbandonProcessing(row.id, token, now, attemptCount);
    }

    /** `processEmail`; `reply` is what the mail server answers, if the payload can be read and sent. */
    method ProcessEmail(row: Row, token: Token, now: Time, reply: MailReply) returns (phase: Phase)
      requires store.Valid()
      modifies store
      ensures store.Valid()
      ensures phase == if row.email.None? || row.report.None? then Working else Sent(Classify(reply))
      ensures store.State() == Touch(store.cfg, old(store.State()), row.id,
        CallOf(store.cfg, Held(row, phase), token, if phase == Sent(Delivered) then ReportSent else ReportFailed(now)))
      ensures MailSettled(store.cfg, old(store.State()), row, token, now, reply, store.State())
    {
      phase := Working;
      if row.email.Some? && row.report.Some? {
        phase := Sent(Classify(reply));
        if reply.Done? {
          FinishEmailLaw(store.cfg, store.State(), row.id, token);
          var _ := store.CompleteEmail(row.id, token);
          return;
        }
      }
      ghost var before := store.State();
      var _ := store.AbandonEmail(row.id, token, now, row.emailAttempts, phase == Sent(Retryable));
      NotSent(store.cfg, before, row, token, now, reply, phase, store.State());
    }
  }
}
