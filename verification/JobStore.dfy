/**
  The job service itself: one method per transaction over a mutable table and event
  log, each proved to have exactly the effect `JobRows` gives for its call. Every write
  goes through `WriteRow`, whose precondition is the table's CHECK constraints.
*/
module JobStore {
  import opened Wrappers
  import opened JobRows
  import opened JobCleanup
  import opened JobLaws

  /** The answer to a status poll. */
  datatype StatusAnswer = StatusAnswer(status: Status, expiresAt: Time, pollAfterMs: nat, emailRequired: bool)

  function AnswerFor(r: Row, now: Time): StatusAnswer {
    if r.expiresAt <= now then StatusAnswer(Expired, r.expiresAt, 0, false)
    else StatusAnswer(r.status, r.expiresAt, if r.status == Queued then 1500 else 1000, r.status == AwaitingEmail)
  }

  /** What a failed call reports, even when it no longer owned the row. */
  datatype Disposal = Purged | Retry

  class Store {
    const cfg: Config
    var rows: map<JobId, Row>
    var events: multiset<Event>

    ghost predicate Valid()
      reads this
    {
      TableOk(rows)
    }

    ghost function State(): Db
      reads this
    {
      Db(rows, events)
    }

    constructor (cfg: Config)
      ensures Valid() && this.cfg == cfg && State() == Db(map[], multiset{})
    {
      this.cfg := cfg;
      rows := map[];
      events := multiset{};
    }

    method Metric(event: Event)
      modifies this`events
      ensures events == old(events) + multiset{event}
    {
      events := events + multiset{event};
    }

    /** An UPDATE of one row; the precondition says that no payload CHECK fires. */
    method WriteRow(r: Row)
      requires r.id in rows && SqlChecks(r)
      modifies this`rows
      ensures rows == old(rows)[r.id := r]
    {
      rows := rows[r.id := r];
    }

    method PurgeJob(id: JobId, event: Event) returns (deleted: bool)
      modifies this
      ensures deleted == (id in old(rows))
      ensures rows == old(rows) - {id}
      ensures events == if deleted then old(events) + multiset{event} else old(events)
    {
      deleted := id in rows;
      rows := rows - {id};
      if deleted {
        Metric(event);
      }
    }

    method SelectByHandle(handle: Handle) returns (found: Option<JobId>)
      requires Valid()
      ensures found == ByHandle(rows, handle)
      ensures found.Some? ==> found.value in rows && rows[found.value].handle == handle
    {
      var todo := rows.Keys;
      while todo != {}
        invariant todo <= rows.Keys
        invariant forall id | id in rows && id !in todo :: rows[id].handle != handle
      {
        var id :| id in todo;
        if rows[id].handle == handle {
          return Some(id);
        }
        todo := todo - {id};
      }
      found := None;
    }

    // ----- createAnalysisJob: a count, then an insert -----

    method AdmitsAnother(now: Time) returns (ok: bool)
      ensures ok == (|ActiveIds(rows, now)| < cfg.maxActive)
    {
      var count := 0;
      var todo := rows.Keys;
      ghost var counted: set<JobId> := {};
      while todo != {}
        invariant todo <= rows.Keys
        invariant forall id :: id in counted <==> id in ActiveIds(rows, now) && id !in todo
        invariant count == |counted|
      {
        var id :| id in todo;
        todo := todo - {id};
        if now < rows[id].expiresAt && rows[id].status !in {Completed, Failed, Expired, Cancelled} {
          count := count + 1;
          counted := counted + {id};
        }
      }
      assert counted == ActiveIds(rows, now);
      ok := count < cfg.maxActive;
    }

    method InsertJob(id: JobId, handle: Handle, input: Upload, now: Time, appNow: Time) returns (ok: bool)
      requires Valid()
      modifies this
      ensures Valid()
      ensures var r := NewRow(cfg, id, handle, input, now, appNow);
        && ok == old(Insertable(State(), r))
        && State() == if ok then Insert(old(State()), r) else old(State())
    {
      var r := Row(id, handle, Queued, input.roleSlug, input.seniority, input.catalogVersion,
                   Some(input.pdf), None, None, None, 0, 0, None, None, now, now, appNow + cfg.ttl, NoError);
      var clash := SelectByHandle(handle);
      ok := id !in rows && clash.None? && SlugAllowed(r.roleSlug) && SeniorityAllowed(r.seniority)
            && r.createdAt < r.expiresAt;
      if ok {
        rows := rows[id := r];
        assert SqlChecks(r);
        Metric(AnalysisStarted);
      }
    }

    // ----- requests made with the browser handle -----

    method StatusForHandle(handle: Handle, now: Time) returns (answer: Option<StatusAnswer>)
      requires Valid()
      modifies this
      ensures Valid()
      ensures State() == TouchHandle(cfg, old(State()), handle, StatusPoll(now))
      ensures var found := old(ByHandle(rows, handle));
        answer == if found.None? then None else Some(AnswerFor(old(rows)[found.value], now))
    {
      var found := SelectByHandle(handle);
      if found.None? {
        return None;
      }
      var row := rows[found.value];
      if row.expiresAt <= now {
        var _ := PurgeJob(row.id, AnalysisExpired);
        return Some(StatusAnswer(Expired, row.expiresAt, 0, false));
      }
      var pollAfterMs := if row.status == Queued then 1500 else 1000;
      answer := Some(StatusAnswer(row.status, row.expiresAt, pollAfterMs, row.status == AwaitingEmail));
    }

    method TakeFastResult(handle: Handle) returns (report: Option<Payload>)
      requires Valid()
      modifies this
      ensures Valid()
      ensures State() == TouchHandle(cfg, old(State()), handle, TakeFast)
      ensures report.Some? <==> State() != old(State())
      ensures report.Some? ==> var found := old(ByHandle(rows, handle));
        found.Some? && old(rows)[found.value].report == report
    {
      var found := SelectByHandle(handle);
      if found.None? || rows[found.value].status != AwaitingEmail || rows[found.value].report.None? {
        return None;
      }
      report := rows[found.value].report;
      var _ := PurgeJob(found.value, AnalysisFastCompleted);
      assert found.value !in rows;
    }

    method AttachEmailTo(handle: Handle, email: Payload, now: Time) returns (attached: bool)
      requires Valid()
      modifies this
      ensures Valid()
      ensures State() == TouchHandle(cfg, old(State()), handle, AttachEmail(email, now))
      ensures attached <==> State() != old(State())
    {
      var found := SelectByHandle(handle);
      if found.None? || rows[found.value].status != AwaitingEmail || rows[found.value].expiresAt <= now {
        return false;
      }
      WriteRow(rows[found.value].(email := Some(email), status := EmailPending, availableAt := now));
      attached := true;
      assert rows[found.value].status == EmailPending;
    }

    method CancelJob(handle: Handle) returns (cancelled: bool)
      requires Valid()
      modifies this
      ensures Valid()
      ensures State() == TouchHandle(cfg, old(State()), handle, Cancel)
      ensures cancelled <==> State() != old(State())
    {
      var found := SelectByHandle(handle);
      if found.None? || rows[found.value].status !in {Queued, Processing, AwaitingEmail, EmailPending} {
        return false;
      }
      WriteRow(rows[found.value].(status := Cancelled));
      var _ := PurgeJob(found.value, AnalysisCancelled);
      cancelled := true;
      assert rows == old(rows) - {found.value};
      assert found.value !in rows;
    }

    // ----- the worker's transactions -----

    /** SELECT ... ORDER BY created_at FOR UPDATE SKIP LOCKED LIMIT 1 for one source status. */
    method SelectOldest(source: Status, now: Time, locked: set<JobId>) returns (found: Option<JobId>)
      requires source in {Queued, EmailPending}
      ensures found.Some? ==> OldestEligible(rows, source, now, locked, found.value)
      ensures found.None? ==> forall id :: !Eligible(rows, source, now, locked, id)
    {
      found := None;
      var todo := rows.Keys;
      while todo != {}
        invariant todo <= rows.Keys
        invariant found.Some? ==> Eligible(rows, source, now, locked, found.value)
        invariant forall id | Eligible(rows, source, now, locked, id) && id !in todo ::
                    found.Some? && rows[found.value].createdAt <= rows[id].createdAt
      {
        var id :| id in todo;
        todo := todo - {id};
        if id !in locked && rows[id].status == source && Claimable(rows[id], now) {
          if found.None? || rows[id].createdAt < rows[found.value].createdAt {
            found := Some(id);
          }
        }
      }
    }

    method ClaimNextJob(now: Time, locked: set<JobId>, token: Token) returns (claimed: Option<Row>)
      requires Valid()
      modifies this
      ensures Valid()
      ensures claimed.None? ==>
        && State() == old(State())
        && forall id ::
             !old(Eligible(rows, Queued, now, locked, id)) && !old(Eligible(rows, EmailPending, now, locked, id))
      ensures claimed.Some? ==> var id := claimed.value.id;
        && old(Picked(rows, now, locked, id))
        && State() == Touch(cfg, old(State()), id, Claim(token, now))
        && rows[id] == claimed.value
        && old(rows)[id].status in {Queued, EmailPending} && old(rows)[id].availableAt <= now < old(rows)[id].expiresAt
        && claimed.value.lease == Some(token) && claimed.value.leaseExpires == Some(now + cfg.leaseSeconds)
    {
      var sources := [Queued, EmailPending];
      for k := 0 to |sources|
        invariant State() == old(State())
        invariant 0 < k ==> forall id :: !old(Eligible(rows, Queued, now, locked, id))
        invariant 1 < k ==> forall id :: !old(Eligible(rows, EmailPending, now, locked, id))
      {
        var found := SelectOldest(sources[k], now, locked);
        if found.Some? {
          var target := if sources[k] == Queued then Processing else EmailSending;
          var row := rows[found.value].(
            status := target,
            leaseExpires := Some(now + cfg.leaseSeconds),
            lease := Some(token),
            attempts := rows[found.value].attempts + (if target == Processing then 1 else 0),
            emailAttempts := rows[found.value].emailAttempts + (if target == EmailSending then 1 else 0));
          ClaimLaw(cfg, State(), found.value, token, now);
          PutKeepsShape(cfg, Claim(token, now), rows[found.value]);
          WriteRow(row);
          return Some(row);
        }
      }
      claimed := None;
    }

    method ExtendLease(id: JobId, token: Token, now: Time)
      requires Valid()
      modifies this
      ensures Valid()
      ensures State() == Touch(cfg, old(State()), id, Heartbeat(token, now))
    {
      if id in rows && rows[id].lease == Some(token) && rows[id].status in {Processing, EmailSending} {
        WriteRow(rows[id].(leaseExpires := Some(now + cfg.leaseSeconds)));
      }
    }

    method CompleteProcessing(id: JobId, token: Token, now: Time, document: Payload, report: Payload)
        returns (ok: bool)
      requires Valid()
      modifies this
      ensures Valid()
      ensures State() == Touch(cfg, old(State()), id, FinishProcessing(token, now, document, report))
      ensures ok <==> State() != old(State())
      ensures ok <==> old(Owned(rows, id, token, Processing)) && now < old(rows)[id].expiresAt
      ensures ok ==> id in rows && rows[id].status == AwaitingEmail && rows[id].lease.None?
      ensures ok ==> rows[id].document == Some(document) && rows[id].report == Some(report) && rows[id].pdf.None?
    {
      if id !in rows || rows[id].lease != Some(token) || rows[id].status != Processing || rows[id].expiresAt <= now {
        return false;
      }
      WriteRow(rows[id].(
        status := AwaitingEmail, pdf := None, document := Some(document), report := Some(report),
        leaseExpires := None, lease := None));
      Metric(AnalysisCompleted);
      ok := true;
      assert rows[id].status == AwaitingEmail;
    }

    method AbandonProcessing(id: JobId, token: Token, now: Time, attemptCount: nat) returns (answer: Disposal)
      requires Valid()
      modifies this
      ensures Valid()
      ensures answer == Purged <==> attemptCount >= cfg.maxProcessing
      ensures State() == Touch(cfg, old(State()), id, FailProcessing(token, now, attemptCount))
    {
      if attemptCount >= cfg.maxProcessing {
        if id in rows && rows[id].lease == Some(token) && rows[id].status == Processing {
          var _ := PurgeJob(id, AnalysisFailed);
        }
        return Purged;
      }
      if id in rows && rows[id].lease == Some(token) && rows[id].status == Processing {
        WriteRow(rows[id].(
          status := Queued, availableAt := now + RetryDelay(cfg, attemptCount), safeError := ProcessingRetry,
          leaseExpires := None, lease := None));
      }
      answer := Retry;
    }

    method CompleteEmail(id: JobId, token: Token) returns (ok: bool)
      requires Valid()
      modifies this
      ensures Valid()
      ensures State() == Touch(cfg, old(State()), id, FinishEmail(token))
      ensures ok <==> State() != old(State())
    {
      if id !in rows || rows[id].lease != Some(token) || rows[id].status != EmailSending {
        return false;
      }
      WriteRow(rows[id].(status := Completed));
      var _ := PurgeJob(id, EmailSent);
      ok := true;
      assert rows == old(rows) - {id};
      assert id !in rows;
    }

    method AbandonEmail(id: JobId, token: Token, now: Time, attemptCount: nat, retryable: bool)
        returns (answer: Disposal)
      requires Valid()
      modifies this
      ensures Valid()
      ensures answer == Purged <==> !retryable || attemptCount >= cfg.maxEmail
      ensures State() == Touch(cfg, old(State()), id, FailEmail(token, now, attemptCount, retryable))
    {
      assert id in rows ==> EffectOf(cfg, FailEmail(token, now, attemptCount, retryable), rows[id])
                            == FailEmailEffect(cfg, rows[id], token, now, attemptCount, retryable);
      if !retryable || attemptCount >= cfg.maxEmail {
        if id in rows && rows[id].lease == Some(token) && rows[id].status == EmailSending {
          var _ := PurgeJob(id, EmailFailed);
        }
        return Purged;
      }
      if id in rows && rows[id].lease == Some(token) && rows[id].status == EmailSending {
        WriteRow(rows[id].(
          status := EmailPending, availableAt := now + RetryDelay(cfg, attemptCount), safeError := EmailRetry,
          leaseExpires := None, lease := None));
      }
      answer := Retry;
    }

    // ----- recoverAndPurge: four statements over the whole table -----

    /** The UPDATE as it concerns one row. */
    method RequeueRow(id: JobId, now: Time) returns (moved: bool)
      requires id in rows && rows[id].id == id && Shaped(rows[id])
      modifies this`rows
      ensures moved == Requeues(cfg, old(rows)[id], now)
      ensures rows == old(rows)[id := RequeuedRow(cfg, old(rows)[id], now)]
    {
      var r := rows[id];
      moved := r.status == Processing && LeaseLapsed(r, now) && now < r.expiresAt && r.attempts < cfg.maxProcessing;
      if moved {
        WriteRow(r.(
          status := Queued, availableAt := now, safeError := LeaseRecovered, leaseExpires := None, lease := None));
      }
    }

    /** The UPDATE that puts every lapsed, unexpired, unexhausted job back in the queue. */
    method RequeueLapsed(now: Time) returns (count: nat)
      requires RowsShaped(rows)
      modifies this`rows
      ensures rows == AfterRequeue(cfg, old(rows), now)
      ensures count == |Requeued(cfg, old(rows), now)|
    {
      count := 0;
      var todo := rows.Keys;
      ghost var done: set<JobId> := {};
      while todo != {}
        invariant todo <= rows.Keys == old(rows).Keys
        invariant forall id | id in todo :: rows[id] == old(rows)[id]
        invariant forall id | id in rows && id !in todo :: rows[id] == RequeuedRow(cfg, old(rows)[id], now)
        invariant forall id :: id in done <==> id in old(rows) && id !in todo && Requeues(cfg, old(rows)[id], now)
        invariant count == |done|
      {
        var id :| id in todo;
        todo := todo - {id};
        var moved := RequeueRow(id, now);
        if moved {
          count := count + 1;
          done := done + {id};
        }
      }
      RequeuedAll(cfg, old(rows), rows, done, now);
    }

    /** DELETE ... WHERE doomed(row) RETURNING id. */
    method DeleteWhere(doomed: Row -> bool) returns (count: nat)
      modifies this`rows
      ensures rows == Surviving(old(rows), doomed)
      ensures count == |Doomed(old(rows), doomed)|
    {
      count := 0;
      var todo := rows.Keys;
      ghost var done: set<JobId> := {};
      while todo != {}
        invariant todo <= old(rows).Keys
        invariant forall id :: id in done <==> id in Doomed(old(rows), doomed) && id !in todo
        invariant rows == old(rows) - done
        invariant count == |done|
      {
        var id :| id in todo;
        todo := todo - {id};
        if doomed(rows[id]) {
          rows := rows - {id};
          count := count + 1;
          done := done + {id};
        }
      }
      assert done == Doomed(old(rows), doomed);
    }

    method RepeatMetric(event: Event, count: nat)
      modifies this`events
      ensures events == CountInto(old(events), event, count)
    {
      for index := 0 to count
        invariant events == CountInto(old(events), event, index)
      {
        Metric(event);
      }
    }

    method RecoverAndPurge(now: Time) returns (recovered: nat, purged: nat)
      requires Valid()
      modifies this
      ensures Valid()
      ensures State() == RecoverAll(cfg, old(State()), now)
      ensures recovered == |ClassIds(cfg, old(rows), now, Requeue)|
      ensures purged == |ClassIds(cfg, old(rows), now, UncertainEmail)|
                        + |ClassIds(cfg, old(rows), now, Exhausted)| + |ClassIds(cfg, old(rows), now, Lapsed)|
    {
      recovered := RequeueLapsed(now);
      var uncertain := DeleteWhere(UncertainTest(now));
      var exhausted := DeleteWhere(ExhaustedTest(cfg, now));
      var expired := DeleteWhere(ExpiredTest(now));
      StatementsClassify(cfg, old(rows), now);
      RecoverAllTallies(cfg, old(State()), now);
      CleanupKeepsTable(cfg, old(State()), now);
      RepeatMetric(EmailFailed, uncertain);
      RepeatMetric(AnalysisFailed, exhausted);
      RepeatMetric(AnalysisExpired, expired);
      purged := uncertain + exhausted + expired;
    }
  }
}
