/**
  The job queue as a state machine. Request handlers, workers, the cleanup timer and
  crashes interleave freely: a run is any sequence of steps, and a step that is not
  enabled changes nothing. A worker keeps the snapshot and token of its claim for as
  long as it likes, so it may come back after its lease was recovered or its row deleted.
*/
module JobProtocol {
  import opened Wrappers
  import opened JobRows
  import opened JobCleanup

  // ----- e-mail delivery -----

  datatype MailOutcome = Delivered | Uncertain | Retryable | Permanent

  /** What becomes of `sendMail`: done, or thrown with a reply code, if any, at some command. */
  datatype MailReply = Done | Unconfigured | Thrown(responseCode: Option<int>, atData: bool)

  /** How the mailer and the worker label it. */
  function Classify(reply: MailReply): MailOutcome {
    match reply
    case Done => Delivered
    case Unconfigured => Permanent
    case Thrown(responseCode, atData) =>
      if atData then Uncertain
      else if responseCode.None? || 400 <= responseCode.value < 500 then Retryable
      else Permanent
  }

  // ----- the state -----

  datatype Phase = Working | Sent(outcome: MailOutcome)

  /** What a worker holds: the row as its claim returned it. */
  datatype Held = Held(row: Row, phase: Phase)

  /** The log keeps what the mail server answered, not what the mailer makes of it. */
  datatype LogEntry = FastTaken(id: JobId) | Mailed(id: JobId, reply: MailReply)

  datatype System = System(
    db: Db,
    claims: map<Token, Held>,
    tokens: set<Token>,
    ids: set<JobId>,
    log: seq<LogEntry>,
    creators: nat,
    clock: Time)

  const Start: System := System(Db(map[], multiset{}), map[], {}, {}, [], 0, 0)

  /** The report left the system, or may have: the send went through, or broke off while the message was sent. */
  predicate IsHandOff(e: LogEntry) {
    e.FastTaken? || e.reply.Done? || (e.reply.Thrown? && e.reply.atData)
  }

  ghost predicate HandedOff(log: seq<LogEntry>, id: JobId) {
    exists k :: 0 <= k < |log| && log[k].id == id && IsHandOff(log[k])
  }

  // ----- the worker -----

  datatype Act =
    | Beat(now: Time)
    | Finish(now: Time, document: Payload, report: Payload)
    | Fail(now: Time, code: string)
    | Send(reply: MailReply)
    | ReportSent
    | ReportFailed(now: Time)

  predicate PermanentPdfError(code: string) {
    code in {"MALFORMED_PDF", "PROTECTED_PDF", "TOO_MANY_PAGES", "NO_READABLE_TEXT",
             "PDF_TEXT_TOO_LARGE", "PDF_PAGE_TOO_LARGE", "OCR_UNAVAILABLE"}
  }

  /**
    What `processPdf` and `processEmail` can do with a claim. A job may be finished or
    failed any number of times, since a call can throw after it committed; an e-mail is
    sent at most once per claim, reported sent only after a delivery, and reported
    failed after any outcome or when its payload cannot be read.
  */
  predicate Allowed(c: Held, act: Act) {
    match act
    case Beat(_) => c.row.status == Processing
    case Finish(_, _, _) => c.row.status == Processing
    case Fail(_, _) => c.row.status == Processing
    case Send(_) => c.row.status == EmailSending && c.phase == Working
    case ReportSent => c.row.status == EmailSending && c.phase == Sent(Delivered)
    case ReportFailed(_) => c.row.status == EmailSending
  }

  /** The transaction an act makes; `Send` talks to the mail server only. */
  function CallOf(cfg: Config, c: Held, token: Token, act: Act): Call
    requires !act.Send?
  {
    match act
    case Beat(now) => Heartbeat(token, now)
    case Finish(now, document, report) => FinishProcessing(token, now, document, report)
    case Fail(now, code) =>
      FailProcessing(token, now, if PermanentPdfError(code) then cfg.maxProcessing else c.row.attempts)
    case ReportSent => FinishEmail(token)
    case ReportFailed(now) => FailEmail(token, now, c.row.emailAttempts, c.phase == Sent(Retryable))
  }

  // ----- the steps -----

  datatype Step =
    | Admit(now: Time)
    | AbortAdmission
    | InsertJob(id: JobId, handle: Handle, input: Upload, now: Time, appNow: Time)
    | Request(handle: Handle, call: Call)
    | ClaimNext(id: JobId, token: Token, now: Time, locked: set<JobId>)
    | Work(token: Token, act: Act)
    | Cleanup(now: Time)
    | Crash(token: Token)
    | Tick(now: Time)

  ghost predicate Enabled(s: System, step: Step) {
    match step
    case Admit(now) => now <= s.clock
    case AbortAdmission => 0 < s.creators
    case InsertJob(id, _, _, _, _) => 0 < s.creators && id !in s.ids
    case Request(_, call) => call.StatusPoll? || call.TakeFast? || call.AttachEmail? || call.Cancel?
    case ClaimNext(id, token, now, locked) => token !in s.tokens && Picked(s.db.rows, now, locked, id)
    case Work(token, act) => token in s.claims && Allowed(s.claims[token], act)
    case Cleanup(_) => true
    case Crash(token) => token in s.claims
    case Tick(now) => s.clock <= now
  }

  ghost function Fire(cfg: Config, s: System, step: Step): System
    requires Enabled(s, step)
  {
    match step
    case Admit(now) =>
      if |ActiveIds(s.db.rows, now)| < cfg.maxActive then s.(creators := s.creators + 1) else s
    case AbortAdmission => s.(creators := s.creators - 1)
    case InsertJob(id, handle, input, now, appNow) => Inserted(cfg, s, NewRow(cfg, id, handle, input, now, appNow))
    case Request(handle, call) => Requested(cfg, s, handle, call)
    case ClaimNext(id, token, now, _) =>
      Granted(s, Touch(cfg, s.db, id, Claim(token, now)), id, token)
    case Work(token, act) => Worked(cfg, s, token, act)
    case Cleanup(now) => s.(db := RecoverAll(cfg, s.db, now))
    case Crash(token) => s.(claims := s.claims - {token})
    case Tick(now) => s.(clock := now)
  }

  ghost function Inserted(cfg: Config, s: System, r: Row): System
    requires 0 < s.creators
  {
    if Insertable(s.db, r)
    then s.(db := Insert(s.db, r), ids := s.ids + {r.id}, creators := s.creators - 1)
    else s.(creators := s.creators - 1)
  }

  ghost function Requested(cfg: Config, s: System, handle: Handle, call: Call): System {
    var found := ByHandle(s.db.rows, handle);
    if found.None? then s
    else
      var id := found.value;
      var taken := call.TakeFast? && EffectOf(cfg, call, s.db.rows[id]).Drop?;
      s.(db := Touch(cfg, s.db, id, call), log := if taken then s.log + [FastTaken(id)] else s.log)
  }

  ghost function Granted(s: System, db: Db, id: JobId, token: Token): System
    requires id in db.rows
  {
    s.(db := db, claims := s.claims[token := Held(db.rows[id], Working)], tokens := s.tokens + {token})
  }

  ghost function Worked(cfg: Config, s: System, token: Token, act: Act): System
    requires token in s.claims
  {
    var c := s.claims[token];
    if act.Send? then
      var outcome := Classify(act.reply);
      s.(claims := s.claims[token := c.(phase := Sent(outcome))], log := s.log + [Mailed(c.row.id, act.reply)])
    else
      var db := Touch(cfg, s.db, c.row.id, CallOf(cfg, c, token, act));
      var gaveUp := act.ReportFailed? && c.phase == Working;
      s.(db := db, claims := if gaveUp then s.claims[token := c.(phase := Sent(Permanent))] else s.claims)
  }

  ghost function Next(cfg: Config, s: System, step: Step): System {
    if Enabled(s, step) then Fire(cfg, s, step) else s
  }

  /** The state after `steps`, starting from `s`. */
  ghost function Exec(cfg: Config, s: System, steps: seq<Step>): System {
    if steps == [] then s else Next(cfg, Exec(cfg, s, steps[..|steps| - 1]), steps[|steps| - 1])
  }

  lemma {:induction false} ExecConcat(cfg: Config, s: System, a: seq<Step>, b: seq<Step>)
    ensures Exec(cfg, s, a + b) == Exec(cfg, Exec(cfg, s, a), b)
  {
    if b == [] {
      assert a + b == a;
    } else {
      assert (a + b)[..|a + b| - 1] == a + b[..|b| - 1];
      ExecConcat(cfg, s, a, b[..|b| - 1]);
    }
  }
}
