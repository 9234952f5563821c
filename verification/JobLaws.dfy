/**
  What each transaction does to its row, column by column, and what follows for the
  transactions after it: a lease that was just taken or extended holds, a row that was
  just released waits, and the cleanup takes exactly the rows its WHERE clauses name.
*/
module JobLaws {
  import opened Wrappers
  import opened JobRows
  import opened JobCleanup

  /** All rows but `id`, and the events, are as before. */
  ghost predicate OnlyRow(before: Db, after: Db, id: JobId) {
    id in after.rows && after.rows - {id} == before.rows - {id} && after.events == before.events
  }

  lemma OtherRow(before: map<JobId, Row>, after: map<JobId, Row>, id: JobId, other: JobId)
    requires after - {id} == before - {id} && other != id
    ensures other in after <==> other in before
    ensures other in after ==> after[other] == before[other]
  {
    assert other in after <==> other in after - {id};
    assert other in before <==> other in before - {id};
    if other in after {
      assert after[other] == (after - {id})[other] == (before - {id})[other];
    }
  }

  /** The row is gone, with one event. */
  ghost predicate Left(before: Db, after: Db, id: JobId, event: Event) {
    after == Db(before.rows - {id}, before.events + multiset{event})
  }

  /** The columns no transaction changes once a job is inserted. */
  predicate SameJob(r: Row, r': Row) {
    && r'.id == r.id && r'.handle == r.handle && r'.roleSlug == r.roleSlug && r'.seniority == r.seniority
    && r'.catalogVersion == r.catalogVersion && r'.createdAt == r.createdAt && r'.expiresAt == r.expiresAt
  }

  predicate SamePayloads(r: Row, r': Row) {
    r'.pdf == r.pdf && r'.document == r.document && r'.report == r.report && r'.email == r.email
  }

  predicate Owned(rows: map<JobId, Row>, id: JobId, token: Token, status: Status) {
    id in rows && rows[id].lease == Some(token) && rows[id].status == status
  }

  lemma InsertLaw(cfg: Config, db: Db, id: JobId, handle: Handle, input: Upload, now: Time, appNow: Time)
    ensures var r := NewRow(cfg, id, handle, input, now, appNow);
      && Insert(db, r).rows - {id} == db.rows - {id}
      && Insert(db, r).events == db.events + multiset{AnalysisStarted}
      && id in Insert(db, r).rows
      && var r' := Insert(db, r).rows[id];
         && r'.id == id && r'.handle == handle && r'.status == Queued
         && r'.roleSlug == input.roleSlug && r'.seniority == input.seniority
           && r'.catalogVersion == input.catalogVersion
         && r'.pdf == Some(input.pdf) && r'.document.None? && r'.report.None? && r'.email.None?
         && r'.attempts == 0 && r'.emailAttempts == 0 && r'.lease.None? && r'.leaseExpires.None?
         && r'.createdAt == now && r'.availableAt == now && r'.expiresAt == appNow + cfg.ttl
  {
  }

  /** The constraints of the table, as its migration lists them; slugs by character code. */
  lemma InsertableLaw(db: Db, r: Row)
    ensures Insertable(db, r) <==>
      && r.id !in db.rows
      && (forall id | id in db.rows :: db.rows[id].handle != r.handle)
      && 2 <= |r.roleSlug| <= 80
      && (forall i | 0 <= i < |r.roleSlug| ::
            var code := r.roleSlug[i] as int; 97 <= code <= 122 || 48 <= code <= 57 || code == 45)
      && r.seniority in {None, Some("all"), Some("junior"), Some("mid"), Some("senior"), Some("lead")}
      && r.createdAt < r.expiresAt
  {
    forall i | 0 <= i < |r.roleSlug|
      ensures var c := r.roleSlug[i];
        ('a' <= c <= 'z' || '0' <= c <= '9' || c == '-')
          <==> (97 <= c as int <= 122 || 48 <= c as int <= 57 || c as int == 45)
    {
    }
  }

  // ----- claims and leases -----

  lemma ClaimLaw(cfg: Config, db: Db, id: JobId, token: Token, now: Time)
    requires id in db.rows
    ensures var r, after := db.rows[id], Touch(cfg, db, id, Claim(token, now));
      if r.status in {Queued, EmailPending} && r.availableAt <= now < r.expiresAt then
        && OnlyRow(db, after, id)
        && var r' := after.rows[id];
           && SameJob(r, r') && SamePayloads(r, r')
           && r'.lease == Some(token) && r'.leaseExpires == Some(now + cfg.leaseSeconds)
           && (r.status == Queued ==>
                 r'.status == Processing && r'.attempts == r.attempts + 1 && r'.emailAttempts == r.emailAttempts)
           && (r.status == EmailPending ==>
                 r'.status == EmailSending && r'.emailAttempts == r.emailAttempts + 1 && r'.attempts == r.attempts)
      else after == db
  {
  }

  lemma HeartbeatLaw(cfg: Config, db: Db, id: JobId, token: Token, now: Time)
    ensures var after := Touch(cfg, db, id, Heartbeat(token, now));
      if Owned(db.rows, id, token, Processing) || Owned(db.rows, id, token, EmailSending) then
        OnlyRow(db, after, id) && after.rows[id] == db.rows[id].(leaseExpires := Some(now + cfg.leaseSeconds))
      else after == db
  {
    if id in db.rows {
      var r := db.rows[id];
      assert EffectOf(cfg, Heartbeat(token, now), r)
        == if r.lease == Some(token) && r.status in {Processing, EmailSending}
           then Put(r.(leaseExpires := Some(now + cfg.leaseSeconds)), None) else Keep;
    }
  }

  /** Until its deadline no cleanup touches a leased row, unless the job itself expires. */
  lemma LeaseHolds(cfg: Config, db: Db, id: JobId, deadline: Time, t: Time)
    requires id in db.rows && Shaped(db.rows[id]) && db.rows[id].leaseExpires == Some(deadline)
    requires t < deadline && t < db.rows[id].expiresAt
    ensures id in RecoverAll(cfg, db, t).rows && RecoverAll(cfg, db, t).rows[id] == db.rows[id]
  {
  }

  /** A lease just taken at `now` holds for `leaseSeconds`. */
  lemma ClaimedLeaseHolds(cfg: Config, db: Db, id: JobId, token: Token, now: Time, t: Time)
    requires id in db.rows && Shaped(db.rows[id]) && db.rows[id].status in {Queued, EmailPending}
    requires db.rows[id].availableAt <= now < db.rows[id].expiresAt
    requires t < now + cfg.leaseSeconds && t < db.rows[id].expiresAt
    ensures var after := Touch(cfg, db, id, Claim(token, now));
      id in RecoverAll(cfg, after, t).rows && RecoverAll(cfg, after, t).rows[id] == after.rows[id]
  {
    ClaimLaw(cfg, db, id, token, now);
    PutKeepsShape(cfg, Claim(token, now), db.rows[id]);
    LeaseHolds(cfg, Touch(cfg, db, id, Claim(token, now)), id, now + cfg.leaseSeconds, t);
  }

  /** A lease just extended at `now` holds for `leaseSeconds` from then. */
  lemma ExtendedLeaseHolds(cfg: Config, db: Db, id: JobId, token: Token, now: Time, t: Time)
    requires Owned(db.rows, id, token, Processing) || Owned(db.rows, id, token, EmailSending)
    requires Shaped(db.rows[id]) && t < now + cfg.leaseSeconds && t < db.rows[id].expiresAt
    ensures var after := Touch(cfg, db, id, Heartbeat(token, now));
      id in RecoverAll(cfg, after, t).rows && RecoverAll(cfg, after, t).rows[id] == after.rows[id]
  {
    HeartbeatLaw(cfg, db, id, token, now);
    LeaseHolds(cfg, Touch(cfg, db, id, Heartbeat(token, now)), id, now + cfg.leaseSeconds, t);
  }

  // ----- finishing and failing -----

  lemma FinishLaw(cfg: Config, db: Db, id: JobId, token: Token, now: Time, document: Payload, report: Payload)
    ensures var after := Touch(cfg, db, id, FinishProcessing(token, now, document, report));
      if Owned(db.rows, id, token, Processing) && now < db.rows[id].expiresAt then
        && after.rows - {id} == db.rows - {id} && after.events == db.events + multiset{AnalysisCompleted}
        && id in after.rows
        && var r, r' := db.rows[id], after.rows[id];
           && SameJob(r, r') && r'.status == AwaitingEmail && r'.lease.None? && r'.leaseExpires.None?
           && r'.pdf.None? && r'.document == Some(document) && r'.report == Some(report) && r'.email == r.email
           && r'.attempts == r.attempts && r'.emailAttempts == r.emailAttempts
      else after == db
  {
  }

  /** The row was put back, to be claimed in `status` from `availableAt` on. */
  ghost predicate PutBack(before: Db, after: Db, id: JobId, status: Status, availableAt: Time) {
    && id in before.rows && OnlyRow(before, after, id)
    && var r, r' := before.rows[id], after.rows[id];
       && SameJob(r, r') && SamePayloads(r, r') && r'.attempts == r.attempts && r'.emailAttempts == r.emailAttempts
       && r'.status == status && r'.availableAt == availableAt && r'.lease.None? && r'.leaseExpires.None?
  }

  lemma FailProcessingLaw(cfg: Config, db: Db, id: JobId, token: Token, now: Time, attemptCount: nat)
    ensures var after := Touch(cfg, db, id, FailProcessing(token, now, attemptCount));
      if !Owned(db.rows, id, token, Processing) then after == db
      else if attemptCount >= cfg.maxProcessing then Left(db, after, id, AnalysisFailed)
      else PutBack(db, after, id, Queued, now + RetryDelay(cfg, attemptCount))
  {
  }

  lemma FailEmailLaw(cfg: Config, db: Db, id: JobId, token: Token, now: Time, attemptCount: nat, retryable: bool)
    ensures var after := Touch(cfg, db, id, FailEmail(token, now, attemptCount, retryable));
      if !Owned(db.rows, id, token, EmailSending) then after == db
      else if !retryable || attemptCount >= cfg.maxEmail then Left(db, after, id, EmailFailed)
      else PutBack(db, after, id, EmailPending, now + RetryDelay(cfg, attemptCount))
  {
    if id in db.rows {
      assert EffectOf(cfg, FailEmail(token, now, attemptCount, retryable), db.rows[id])
          == FailEmailEffect(cfg, db.rows[id], token, now, attemptCount, retryable);
    }
  }

  lemma FinishEmailLaw(cfg: Config, db: Db, id: JobId, token: Token)
    ensures var after := Touch(cfg, db, id, FinishEmail(token));
      if Owned(db.rows, id, token, EmailSending) then Left(db, after, id, EmailSent) else after == db
  {
  }

  /** A row that was put back is claimed from its `availableAt` on and not before. */
  lemma PutBackWaits(cfg: Config, before: Db, after: Db, id: JobId, status: Status, availableAt: Time, token: Token,
                     t: Time)
    requires PutBack(before, after, id, status, availableAt) && status in {Queued, EmailPending}
    ensures t < availableAt ==> Touch(cfg, after, id, Claim(token, t)) == after
    ensures availableAt <= t < before.rows[id].expiresAt ==>
      var claimed := Touch(cfg, after, id, Claim(token, t));
      id in claimed.rows && claimed.rows[id].lease == Some(token)
  {
    ClaimLaw(cfg, after, id, token, t);
  }

  // ----- requests -----

  lemma TakeFastLaw(cfg: Config, db: Db, id: JobId)
    requires id in db.rows
    ensures var after := Touch(cfg, db, id, TakeFast);
      if db.rows[id].status == AwaitingEmail && db.rows[id].report.Some?
      then Left(db, after, id, AnalysisFastCompleted)
      else after == db
  {
  }

  lemma AttachEmailLaw(cfg: Config, db: Db, id: JobId, email: Payload, now: Time)
    requires id in db.rows
    ensures var r, after := db.rows[id], Touch(cfg, db, id, AttachEmail(email, now));
      if r.status == AwaitingEmail && now < r.expiresAt then
        && OnlyRow(db, after, id)
        && var r' := after.rows[id];
           && SameJob(r, r') && r'.status == EmailPending && r'.availableAt == now && r'.email == Some(email)
           && r'.pdf == r.pdf && r'.document == r.document && r'.report == r.report
           && r'.attempts == r.attempts && r'.emailAttempts == r.emailAttempts && r'.lease == r.lease
      else after == db
  {
  }

  lemma CancelLaw(cfg: Config, db: Db, id: JobId)
    requires id in db.rows && Shaped(db.rows[id])
    ensures var after := Touch(cfg, db, id, Cancel);
      if db.rows[id].status == EmailSending then after == db else Left(db, after, id, AnalysisCancelled)
  {
  }

  lemma StatusPollLaw(cfg: Config, db: Db, id: JobId, now: Time)
    requires id in db.rows
    ensures var after := Touch(cfg, db, id, StatusPoll(now));
      if now < db.rows[id].expiresAt then after == db else Left(db, after, id, AnalysisExpired)
  {
  }

  // ----- the cleanup -----

  /** The lease of the row has lapsed. */
  predicate Overdue(r: Row, status: Status, now: Time) {
    r.status == status && r.leaseExpires.Some? && r.leaseExpires.value <= now
  }

  /** Which row the cleanup puts in which class, by the WHERE clauses of its four statements. */
  lemma ClassLaw(cfg: Config, r: Row, now: Time)
    ensures ClassOf(cfg, r, now) == Requeue <==>
      Overdue(r, Processing, now) && now < r.expiresAt && r.attempts < cfg.maxProcessing
    ensures ClassOf(cfg, r, now) == UncertainEmail <==> Overdue(r, EmailSending, now)
    ensures ClassOf(cfg, r, now) == Exhausted <==> Overdue(r, Processing, now) && r.attempts >= cfg.maxProcessing
    ensures ClassOf(cfg, r, now) == Lapsed <==>
      && r.expiresAt <= now && !Overdue(r, EmailSending, now)
      && !(Overdue(r, Processing, now) && r.attempts >= cfg.maxProcessing)
  {
  }

  /** Which rows the cleanup leaves, and how. */
  lemma CleanupLaw(cfg: Config, db: Db, now: Time, id: JobId)
    requires id in db.rows
    ensures var r, after := db.rows[id], RecoverAll(cfg, db, now).rows;
      && (id in after <==>
            && now < r.expiresAt && !Overdue(r, EmailSending, now)
            && !(Overdue(r, Processing, now) && r.attempts >= cfg.maxProcessing))
      && (id in after ==>
            if Overdue(r, Processing, now) then
              && SameJob(r, after[id]) && SamePayloads(r, after[id]) && after[id].status == Queued
              && after[id].availableAt == now && after[id].lease.None? && after[id].leaseExpires.None?
              && after[id].attempts == r.attempts && after[id].emailAttempts == r.emailAttempts
            else after[id] == r)
  {
    RowLeft(cfg, db, now, id);
    ClassLaw(cfg, db.rows[id], now);
  }
}
