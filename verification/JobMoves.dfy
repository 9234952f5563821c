/**
  What one transaction can do to one row. `Move` abstracts from the individual calls:
  a row is kept, has its lease extended, makes progress down a bounded measure, or is
  dropped with an event that fits its status. The whole-system invariants use only this.
*/
module JobMoves {
  import opened Wrappers
  import opened JobRows

  /**
    How many more changes a row can undergo, its deletion included. A queued job costs a
    claim and a release per attempt, then one for the report's arrival and the same again
    for the e-mail.
  */
  function Measure(cfg: Config, r: Row): int {
    var processing, mailing := 2 * (cfg.maxProcessing - r.attempts), 2 * (cfg.maxEmail - r.emailAttempts);
    match r.status
    case Queued => processing + 2 * cfg.maxEmail + 1
    case Processing => processing + 2 * cfg.maxEmail + 2
    case AwaitingEmail => 2 * cfg.maxEmail + 1
    case EmailPending => mailing
    case EmailSending => mailing + 1
    case _ => 0
  }

  predicate KeepsIdentity(r: Row, r': Row) {
    && r'.id == r.id && r'.handle == r.handle && r'.roleSlug == r.roleSlug && r'.seniority == r.seniority
    && r'.catalogVersion == r.catalogVersion && r'.createdAt == r.createdAt && r'.expiresAt == r.expiresAt
  }

  /** A row change other than a heartbeat: the lease is taken or given back, and the measure drops. */
  predicate Progress(cfg: Config, r: Row, r': Row, metric: Option<Event>) {
    && KeepsIdentity(r, r')
    && (r'.lease.None? || r.lease.None?)
    && Measure(cfg, r') < Measure(cfg, r)
    && r.emailAttempts <= r'.emailAttempts
    && (r.report.Some? ==> r'.report == r.report)
    && metric == (if r.report.None? && r'.report.Some? then Some(AnalysisCompleted) else None)
  }

  predicate Extends(r: Row, r': Row) {
    r' == r.(leaseExpires := r'.leaseExpires)
  }

  predicate FitsDrop(r: Row, e: Event) {
    match e
    case AnalysisFastCompleted => r.status == AwaitingEmail
    case AnalysisCancelled => r.status in {Queued, Processing, AwaitingEmail, EmailPending}
    case AnalysisFailed => r.status == Processing
    case AnalysisExpired => true
    case EmailSent => r.status == EmailSending
    case EmailFailed => r.status == EmailSending
    case _ => false
  }

  predicate Move(cfg: Config, r: Row, e: Effect) {
    match e
    case Keep => true
    case Put(r', metric) => RowOk(cfg, r') && ((Extends(r, r') && metric.None?) || Progress(cfg, r, r', metric))
    case Drop(event) => FitsDrop(r, event)
  }

  /** The attempt count a worker passes is the one in the row it claimed, or the maximum. */
  predicate Honest(cfg: Config, call: Call, r: Row) {
    && (call.FailProcessing? ==> r.attempts <= call.attemptCount)
    && (call.FailEmail? ==> r.emailAttempts <= call.attemptCount)
  }

  lemma EffectsMove(cfg: Config, call: Call, r: Row)
    requires cfg.Valid() && RowOk(cfg, r) && Honest(cfg, call, r)
    ensures Move(cfg, r, EffectOf(cfg, call, r))
  {
    match call
    case Claim(token, now) =>
      if Claimable(r, now) {
        ClaimMoves(cfg, r, token, now);
      }
    case FinishProcessing(token, now, document, report) =>
    case FailProcessing(token, now, attemptCount) =>
      assert EffectOf(cfg, call, r) == FailProcessingEffect(cfg, r, token, now, attemptCount);
    case FailEmail(token, now, attemptCount, retryable) =>
      assert EffectOf(cfg, call, r) == FailEmailEffect(cfg, r, token, now, attemptCount, retryable);
    case Recover(now) => assert EffectOf(cfg, call, r) == RecoverEffect(cfg, r, now);
    case _ =>
  }

  lemma ClaimMoves(cfg: Config, r: Row, token: Token, now: Time)
    requires RowOk(cfg, r) && Claimable(r, now)
    ensures RowOk(cfg, Claimed(cfg, r, token, now))
    ensures Progress(cfg, r, Claimed(cfg, r, token, now), None)
  {
  }

  lemma MeasureRange(cfg: Config, r: Row)
    requires RowOk(cfg, r)
    ensures 0 < Measure(cfg, r) <= 2 * cfg.maxProcessing + 2 * cfg.maxEmail + 1
  {
  }

  /** A call carrying a token the row does not hold matches nothing. */
  lemma FencedCall(cfg: Config, call: Call, token: Token, r: Row)
    requires call.Heartbeat? || call.FinishProcessing? || call.FailProcessing? || call.FinishEmail? || call.FailEmail?
    requires call.token == token && r.lease != Some(token)
    ensures EffectOf(cfg, call, r) == Keep
  {
  }
}
