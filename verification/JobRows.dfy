/**
  The rows of `analysis_jobs`, the aggregate event counters, and the effect every
  transaction of the job service has on the one row it addresses.

  Each transaction is a conditional UPDATE or DELETE of a single row, so it is given
  here as `EffectOf(cfg, call, row)`: keep the row, replace it, or drop it, together
  with the metric written in the same transaction. Every call reads its own `now`;
  nothing below assumes that two calls agree about the time.
*/
module JobRows {
  import opened Wrappers

  type JobId = nat
  type Handle = nat
  type Token = nat
  type Time = int
  type Payload = string

  datatype Config = Config(
    maxActive: nat,
    ttl: nat,
    leaseSeconds: nat,
    maxProcessing: nat,
    maxEmail: nat,
    retryBase: nat)
  {
    /** The environment schema only admits positive settings. */
    ghost predicate Valid() {
      0 < maxActive && 0 < ttl && 0 < leaseSeconds && 0 < maxProcessing && 0 < maxEmail && 0 < retryBase
    }
  }

  datatype Status =
    | Queued | Processing | AwaitingEmail | EmailPending | EmailSending
    | Completed | Failed | Expired | Cancelled

  datatype SafeError = NoError | ProcessingRetry | EmailRetry | LeaseRecovered

  datatype Event =
    | AnalysisStarted | AnalysisFastCompleted | AnalysisCompleted | AnalysisFailed
    | AnalysisExpired | AnalysisCancelled | EmailSent | EmailFailed

  datatype Row = Row(
    id: JobId,
    handle: Handle,
    status: Status,
    roleSlug: string,
    seniority: Option<string>,
    catalogVersion: string,
    pdf: Option<Payload>,
    document: Option<Payload>,
    report: Option<Payload>,
    email: Option<Payload>,
    attempts: nat,
    emailAttempts: nat,
    lease: Option<Token>,
    leaseExpires: Option<Time>,
    createdAt: Time,
    availableAt: Time,
    expiresAt: Time,
    safeError: SafeError)

  datatype Db = Db(rows: map<JobId, Row>, events: multiset<Event>)

  predicate Terminal(s: Status) {
    s in {Completed, Failed, Expired, Cancelled}
  }

  predicate Leased(s: Status) {
    s in {Processing, EmailSending}
  }

  // ----- table constraints and the payload shape that makes them redundant -----

  /** The CHECK constraints of the table that concern payloads. */
  predicate SqlChecks(r: Row) {
    && (r.status in {Queued, Processing} ==> r.pdf.Some?)
    && (r.status == EmailSending ==> r.email.Some?)
    && (r.status == AwaitingEmail ==> r.report.Some?)
  }

  /** The exact payload and lease columns a row carries in each status. */
  predicate Shaped(r: Row) {
    && !Terminal(r.status)
    && (r.pdf.Some? <==> r.status in {Queued, Processing})
    && (r.report.Some? <==> r.status in {AwaitingEmail, EmailPending, EmailSending})
    && (r.document.Some? <==> r.report.Some?)
    && (r.email.Some? <==> r.status in {EmailPending, EmailSending})
    && (r.lease.Some? <==> Leased(r.status))
    && (r.leaseExpires.Some? <==> Leased(r.status))
  }

  /** The attempts a row may have used in each status. */
  predicate WithinBudget(cfg: Config, r: Row) {
    && r.attempts <= cfg.maxProcessing
    && r.emailAttempts <= cfg.maxEmail
    && (r.status == Queued ==> r.attempts < cfg.maxProcessing)
    && (r.status == Processing ==> 0 < r.attempts)
    && (r.status in {Queued, Processing, AwaitingEmail} ==> r.emailAttempts == 0)
    && (r.status == EmailPending ==> r.emailAttempts < cfg.maxEmail)
    && (r.status == EmailSending ==> 0 < r.emailAttempts)
  }

  predicate RowOk(cfg: Config, r: Row) {
    Shaped(r) && WithinBudget(cfg, r)
  }

  /** The two snapshots describe the same row up to the lease deadline a heartbeat moves. */
  predicate SameLease(a: Row, b: Row) {
    a == b.(leaseExpires := a.leaseExpires)
  }

  // ----- the transactions -----

  function Pow2(n: nat): (p: nat)
    ensures 0 < p
  {
    if n == 0 then 1 else 2 * Pow2(n - 1)
  }

  /** Exponential backoff, capped at five minutes. */
  function RetryDelay(cfg: Config, attempt: nat): (d: nat)
    ensures d <= 300
    ensures 0 < cfg.retryBase ==> 0 < d
  {
    var raw := cfg.retryBase * Pow2(if attempt == 0 then 0 else attempt - 1);
    if raw < 300 then raw else 300
  }

  lemma {:induction false} RetryDelayMonotone(cfg: Config, a: nat, b: nat)
    requires a <= b
    ensures RetryDelay(cfg, a) <= RetryDelay(cfg, b)
  {
    Pow2Monotone(if a == 0 then 0 else a - 1, if b == 0 then 0 else b - 1);
    var x, y := Pow2(if a == 0 then 0 else a - 1), Pow2(if b == 0 then 0 else b - 1);
    assert cfg.retryBase * x <= cfg.retryBase * y;
  }

  /** The first retry waits the base delay, each later one twice as long, up to the cap. */
  lemma RetryDelayDoubles(cfg: Config, attempt: nat)
    ensures RetryDelay(cfg, 0) == RetryDelay(cfg, 1) == if cfg.retryBase < 300 then cfg.retryBase else 300
    ensures 0 < attempt ==>
      RetryDelay(cfg, attempt + 1) == if RetryDelay(cfg, attempt) < 150 then 2 * RetryDelay(cfg, attempt) else 300
  {
    if 0 < attempt {
      var p := Pow2(attempt - 1);
      assert Pow2(attempt) == 2 * p;
      assert cfg.retryBase * (2 * p) == 2 * (cfg.retryBase * p);
    }
  }

  lemma {:induction false} Pow2Monotone(a: nat, b: nat)
    requires a <= b
    ensures Pow2(a) <= Pow2(b)
  {
    if a < b {
      Pow2Monotone(a, b - 1);
    }
  }

  /** A call of the job service that addresses one row. */
  datatype Call =
    | StatusPoll(now: Time)
    | TakeFast
    | AttachEmail(email: Payload, now: Time)
    | Cancel
    | Claim(token: Token, now: Time)
    | Heartbeat(token: Token, now: Time)
    | FinishProcessing(token: Token, now: Time, document: Payload, report: Payload)
    | FailProcessing(token: Token, now: Time, attemptCount: nat)
    | FinishEmail(token: Token)
    | FailEmail(token: Token, now: Time, attemptCount: nat, retryable: bool)
    | Recover(now: Time)

  datatype Effect =
    | Keep
    | Put(row: Row, metric: Option<Event>)
    | Drop(event: Event)

  predicate Claimable(r: Row, now: Time) {
    r.status in {Queued, EmailPending} && r.availableAt <= now && now < r.expiresAt
  }

  predicate LeaseLapsed(r: Row, now: Time) {
    r.leaseExpires.Some? && r.leaseExpires.value <= now
  }

  function RecoverEffect(cfg: Config, r: Row, now: Time): Effect {
    if r.status == Processing && LeaseLapsed(r, now) && now < r.expiresAt && r.attempts < cfg.maxProcessing
    then Put(Released(r, Queued, now, LeaseRecovered), None)
    else if r.status == EmailSending && LeaseLapsed(r, now) then Drop(EmailFailed)
    else if r.status == Processing && LeaseLapsed(r, now) && r.attempts >= cfg.maxProcessing then Drop(AnalysisFailed)
    else if r.expiresAt <= now then Drop(AnalysisExpired)
    else Keep
  }

  function FailProcessingEffect(cfg: Config, r: Row, token: Token, now: Time, attemptCount: nat): Effect {
    if !(r.lease == Some(token) && r.status == Processing) then Keep
    else if attemptCount >= cfg.maxProcessing then Drop(AnalysisFailed)
    else Put(Released(r, Queued, now + RetryDelay(cfg, attemptCount), ProcessingRetry), None)
  }

  function FailEmailEffect(cfg: Config, r: Row, token: Token, now: Time, attemptCount: nat, retryable: bool): Effect {
    if !(r.lease == Some(token) && r.status == EmailSending) then Keep
    else if !retryable || attemptCount >= cfg.maxEmail then Drop(EmailFailed)
    else Put(Released(r, EmailPending, now + RetryDelay(cfg, attemptCount), EmailRetry), None)
  }

  function EffectOf(cfg: Config, call: Call, r: Row): Effect {
    match call
    case StatusPoll(now) =>
      if r.expiresAt <= now then Drop(AnalysisExpired) else Keep
    case TakeFast =>
      if r.status == AwaitingEmail && r.report.Some? then Drop(AnalysisFastCompleted) else Keep
    case AttachEmail(email, now) =>
      if r.status == AwaitingEmail && now < r.expiresAt
      then Put(r.(email := Some(email), status := EmailPending, availableAt := now), None)
      else Keep
    case Cancel =>
      if r.status in {Queued, Processing, AwaitingEmail, EmailPending} then Drop(AnalysisCancelled) else Keep
    case Claim(token, now) =>
      if Claimable(r, now) then Put(Claimed(cfg, r, token, now), None) else Keep
    case Heartbeat(token, now) =>
      if r.lease == Some(token) && Leased(r.status)
      then Put(r.(leaseExpires := Some(now + cfg.leaseSeconds)), None)
      else Keep
    case FinishProcessing(token, now, document, report) =>
      if r.lease == Some(token) && r.status == Processing && now < r.expiresAt
      then Put(Reported(r, document, report), Some(AnalysisCompleted))
      else Keep
    case FailProcessing(token, now, attemptCount) => FailProcessingEffect(cfg, r, token, now, attemptCount)
    case FinishEmail(token) =>
      if r.lease == Some(token) && r.status == EmailSending then Drop(EmailSent) else Keep
    case FailEmail(token, now, attemptCount, retryable) =>
      FailEmailEffect(cfg, r, token, now, attemptCount, retryable)
    case Recover(now) => RecoverEffect(cfg, r, now)
  }

  /** The row that gives its lease back and waits in `status` until `availableAt`. */
  function Released(r: Row, status: Status, availableAt: Time, error: SafeError): Row {
    r.(status := status, availableAt := availableAt, safeError := error, leaseExpires := None, lease := None)
  }

  /** The row whose PDF has been exchanged for the parsed document and the report. */
  function Reported(r: Row, document: Payload, report: Payload): Row {
    r.(status := AwaitingEmail, pdf := None, document := Some(document), report := Some(report),
       leaseExpires := None, lease := None)
  }

  /** The row a claim writes: a queued job starts processing, a pending e-mail starts sending. */
  function Claimed(cfg: Config, r: Row, token: Token, now: Time): Row {
    var target := if r.status == Queued then Processing else EmailSending;
    r.(status := target,
       leaseExpires := Some(now + cfg.leaseSeconds),
       lease := Some(token),
       attempts := r.attempts + (if target == Processing then 1 else 0),
       emailAttempts := r.emailAttempts + (if target == EmailSending then 1 else 0))
  }

  ghost predicate Eligible(rows: map<JobId, Row>, source: Status, now: Time, locked: set<JobId>, id: JobId) {
    id in rows && id !in locked && rows[id].status == source && Claimable(rows[id], now)
  }

  /** The oldest eligible row of one source status; rows locked by another transaction are skipped. */
  ghost predicate OldestEligible(rows: map<JobId, Row>, source: Status, now: Time, locked: set<JobId>, id: JobId) {
    && Eligible(rows, source, now, locked, id)
    && forall other | Eligible(rows, source, now, locked, other) :: rows[id].createdAt <= rows[other].createdAt
  }

  /** The row a claim takes: the oldest queued job, and a pending e-mail only when no job is eligible. */
  ghost predicate Picked(rows: map<JobId, Row>, now: Time, locked: set<JobId>, id: JobId) {
    || OldestEligible(rows, Queued, now, locked, id)
    || (&& OldestEligible(rows, EmailPending, now, locked, id)
        && forall other :: !Eligible(rows, Queued, now, locked, other))
  }

  function MetricOf(e: Option<Event>): multiset<Event> {
    if e.Some? then multiset{e.value} else multiset{}
  }

  function Apply(db: Db, id: JobId, effect: Effect): Db {
    match effect
    case Keep => db
    case Put(row, metric) => Db(db.rows[id := row], db.events + MetricOf(metric))
    case Drop(event) => Db(db.rows - {id}, db.events + multiset{event})
  }

  /** The transaction `call` addressed to row `id`; it matches nothing when the row is gone. */
  function Touch(cfg: Config, db: Db, id: JobId, call: Call): Db {
    if id in db.rows then Apply(db, id, EffectOf(cfg, call, db.rows[id])) else db
  }

  // ----- admission -----

  predicate SlugAllowed(slug: string) {
    2 <= |slug| <= 80
    && forall i | 0 <= i < |slug| :: 'a' <= slug[i] <= 'z' || '0' <= slug[i] <= '9' || slug[i] == '-'
  }

  predicate SeniorityAllowed(s: Option<string>) {
    s.None? || s.value in {"all", "junior", "mid", "senior", "lead"}
  }

  /** The rows the admission query counts. */
  ghost function ActiveIds(rows: map<JobId, Row>, now: Time): set<JobId> {
    set id | id in rows && now < rows[id].expiresAt && !Terminal(rows[id].status)
  }

  datatype Upload = Upload(pdf: Payload, roleSlug: string, seniority: Option<string>, catalogVersion: string)

  /** `now` is the database clock, `appNow` the clock of the server process. */
  function NewRow(cfg: Config, id: JobId, handle: Handle, input: Upload, now: Time, appNow: Time): Row {
    Row(id, handle, Queued, input.roleSlug, input.seniority, input.catalogVersion,
        Some(input.pdf), None, None, None, 0, 0, None, None, now, now, appNow + cfg.ttl, NoError)
  }

  ghost predicate HandleFree(rows: map<JobId, Row>, handle: Handle) {
    forall id | id in rows :: rows[id].handle != handle
  }

  /** The constraints an INSERT has to meet: primary key, unique handle, and the CHECKs on the columns it sets. */
  ghost predicate Insertable(db: Db, r: Row) {
    && r.id !in db.rows && HandleFree(db.rows, r.handle)
    && SlugAllowed(r.roleSlug) && SeniorityAllowed(r.seniority) && r.createdAt < r.expiresAt
  }

  function Insert(db: Db, r: Row): Db {
    Db(db.rows[r.id := r], db.events + multiset{AnalysisStarted})
  }

  // ----- the table as a whole -----

  /** Primary key and unique handle, and every row in the shape of its status. */
  ghost predicate TableOk(rows: map<JobId, Row>) {
    RowsShaped(rows) && UniqueHandles(rows)
  }

  ghost predicate RowsShaped(rows: map<JobId, Row>) {
    forall id | id in rows :: rows[id].id == id && Shaped(rows[id])
  }

  ghost predicate UniqueHandles(rows: map<JobId, Row>) {
    forall i, j | i in rows && j in rows && rows[i].handle == rows[j].handle :: i == j
  }

  /** The row addressed by a browser handle. */
  ghost function ByHandle(rows: map<JobId, Row>, handle: Handle): Option<JobId> {
    if exists id :: id in rows && rows[id].handle == handle
    then var id :| id in rows && rows[id].handle == handle; Some(id)
    else None
  }

  ghost function TouchHandle(cfg: Config, db: Db, handle: Handle, call: Call): Db {
    var found := ByHandle(db.rows, handle);
    if found.Some? then Touch(cfg, db, found.value, call) else db
  }

  /** A row written from a well-shaped row is well shaped, so it meets the CHECK constraints. */
  lemma PutKeepsShape(cfg: Config, call: Call, r: Row)
    requires Shaped(r)
    ensures SqlChecks(r)
    ensures var e := EffectOf(cfg, call, r);
      e.Put? ==> Shaped(e.row) && SqlChecks(e.row) && e.row.id == r.id && e.row.handle == r.handle
                 && e.row.expiresAt == r.expiresAt && e.row.catalogVersion == r.catalogVersion
                 && e.row.roleSlug == r.roleSlug
  {
  }

  lemma TouchKeepsTable(cfg: Config, db: Db, id: JobId, call: Call)
    requires TableOk(db.rows)
    ensures TableOk(Touch(cfg, db, id, call).rows)
  {
    if id in db.rows {
      PutKeepsShape(cfg, call, db.rows[id]);
    }
  }
}
