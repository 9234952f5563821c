/**
  The invariant of the job queue and its preservation by every step: row shapes and
  attempt budgets, lease ownership, snapshots held by workers, the hand-off log and the
  event counters.
*/
module JobInvariants {
  import opened Wrappers
  import opened JobRows
  import opened JobProtocol
  import opened JobMoves

  ghost predicate RowsInv(cfg: Config, rows: map<JobId, Row>, ids: set<JobId>) {
    && (forall id | id in rows :: rows[id].id == id && id in ids && RowOk(cfg, rows[id]))
    && UniqueHandles(rows)
  }

  /** A lease token was minted once and is on at most one row. */
  ghost predicate LeaseInv(rows: map<JobId, Row>, tokens: set<Token>) {
    && (forall id | id in rows && rows[id].lease.Some? :: rows[id].lease.value in tokens)
    && (forall i, j | i in rows && j in rows && rows[i].lease.Some? && rows[i].lease == rows[j].lease :: i == j)
  }

  /** A held snapshot is a leased row as some claim wrote it. */
  ghost predicate HeldInv(cfg: Config, claims: map<Token, Held>, tokens: set<Token>, ids: set<JobId>) {
    forall t | t in claims ::
      && t in tokens
      && claims[t].row.lease == Some(t)
      && claims[t].row.id in ids
      && RowOk(cfg, claims[t].row)
      && (claims[t].phase.Sent? ==> claims[t].row.status == EmailSending)
  }

  /** While a row still carries the token of a claim it is the claimed row, but for the lease deadline. */
  ghost predicate MatchInv(rows: map<JobId, Row>, claims: map<Token, Held>) {
    forall t, id | t in claims && id in rows && rows[id].lease == Some(t) :: SameLease(rows[id], claims[t].row)
  }

  predicate Sending(c: Held) {
    c.row.status == EmailSending && c.phase == Working
  }

  /** A claim that may still send its report is the only one for its job, and nothing was handed off before. */
  ghost predicate SendInv(rows: map<JobId, Row>, claims: map<Token, Held>, log: seq<LogEntry>) {
    && (forall t | t in claims && Sending(claims[t]) ::
          && !HandedOff(log, claims[t].row.id)
          && (claims[t].row.id in rows ==> rows[claims[t].row.id].lease == Some(t)))
    && (forall t, u | t in claims && u in claims && Sending(claims[t]) && Sending(claims[u])
                      && claims[t].row.id == claims[u].row.id :: t == u)
  }

  predicate MayHaveArrived(p: Phase) {
    p in {Sent(Delivered), Sent(Uncertain)}
  }

  /** A row whose report was handed off is only waiting to be deleted. */
  ghost predicate HandInv(rows: map<JobId, Row>, claims: map<Token, Held>, log: seq<LogEntry>, ids: set<JobId>) {
    && (forall k | 0 <= k < |log| :: log[k].id in ids)
    && (forall id | id in rows && HandedOff(log, id) ::
          && rows[id].status == EmailSending
          && rows[id].lease.Some?
          && (rows[id].lease.value in claims ==> MayHaveArrived(claims[rows[id].lease.value].phase)))
  }

  /** Nothing about a job follows its hand-off in the log. */
  ghost predicate OnceInv(log: seq<LogEntry>) {
    forall i, j | 0 <= i < j < |log| && log[i].id == log[j].id :: !IsHandOff(log[i])
  }

  ghost function ReportedIds(rows: map<JobId, Row>): set<JobId> {
    set id | id in rows && rows[id].report.Some?
  }

  ghost function Departures(events: multiset<Event>): nat {
    events[AnalysisFastCompleted] + events[AnalysisCancelled] + events[AnalysisFailed]
    + events[AnalysisExpired] + events[EmailSent] + events[EmailFailed]
  }

  /** Every started job is live or left with exactly one event; completed reports are accounted for. */
  ghost predicate CountInv(db: Db) {
    && db.events[AnalysisStarted] == |db.rows| + Departures(db.events)
    && |ReportedIds(db.rows)| + db.events[AnalysisFastCompleted] + db.events[EmailSent] + db.events[EmailFailed]
       <= db.events[AnalysisCompleted]
    && db.events[AnalysisCompleted] + |db.rows| <= db.events[AnalysisStarted] + |ReportedIds(db.rows)|
  }

  ghost predicate Inv(cfg: Config, s: System) {
    && RowsInv(cfg, s.db.rows, s.ids)
    && LeaseInv(s.db.rows, s.tokens)
    && HeldInv(cfg, s.claims, s.tokens, s.ids)
    && MatchInv(s.db.rows, s.claims)
    && SendInv(s.db.rows, s.claims, s.log)
    && HandInv(s.db.rows, s.claims, s.log, s.ids)
    && OnceInv(s.log)
    && CountInv(s.db)
  }

  // ----- one row changes -----

  /** The rows after an effect on row `id`. */
  function RowsAfter(rows: map<JobId, Row>, id: JobId, e: Effect): map<JobId, Row> {
    match e
    case Keep => rows
    case Put(row, _) => rows[id := row]
    case Drop(_) => rows - {id}
  }

  /** An e-mail row leaves `email_sending` without being deleted only after a retryable refusal. */
  ghost predicate SendsSettled(claims: map<Token, Held>, r: Row, e: Effect) {
    r.status == EmailSending && e.Put? && !Extends(r, e.row) ==>
      r.lease.Some? && r.lease.value in claims && claims[r.lease.value].phase == Sent(Retryable)
  }

  predicate NoNewLease(r: Row, e: Effect) {
    e.Put? ==> e.row.lease.None? || Extends(r, e.row)
  }

  lemma TouchRows(cfg: Config, rows: map<JobId, Row>, ids: set<JobId>, id: JobId, e: Effect)
    requires RowsInv(cfg, rows, ids) && id in rows && Move(cfg, rows[id], e)
    ensures RowsInv(cfg, RowsAfter(rows, id, e), ids)
  {
    match e
    case Keep =>
    case Put(r', _) => PutRow(cfg, rows, ids, id, r');
    case Drop(_) =>
  }

  lemma PutRow(cfg: Config, rows: map<JobId, Row>, ids: set<JobId>, id: JobId, r': Row)
    requires RowsInv(cfg, rows, ids) && id in rows && RowOk(cfg, r')
    requires r'.id == rows[id].id && r'.handle == rows[id].handle
    ensures RowsInv(cfg, rows[id := r'], ids)
  {
  }

  lemma TouchLeases(rows: map<JobId, Row>, tokens: set<Token>, id: JobId, e: Effect)
    requires LeaseInv(rows, tokens) && id in rows && NoNewLease(rows[id], e)
    ensures LeaseInv(RowsAfter(rows, id, e), tokens)
  {
    match e
    case Keep =>
    case Put(r', _) =>
      assert r'.lease.Some? ==> r'.lease == rows[id].lease;
    case Drop(_) =>
  }

  lemma TouchMatches(rows: map<JobId, Row>, claims: map<Token, Held>, id: JobId, e: Effect)
    requires MatchInv(rows, claims) && id in rows && NoNewLease(rows[id], e)
    ensures MatchInv(RowsAfter(rows, id, e), claims)
  {
    match e
    case Keep =>
    case Put(r', _) =>
      forall t | t in claims && r'.lease == Some(t)
        ensures SameLease(r', claims[t].row)
      {
        assert SameLease(rows[id], claims[t].row);
      }
    case Drop(_) =>
  }

  /** A claim that may still send keeps its row: only a heartbeat can change it. */
  lemma SenderKeepsRow(rows: map<JobId, Row>, claims: map<Token, Held>, log: seq<LogEntry>, id: JobId, e: Effect,
                       t: Token)
    requires MatchInv(rows, claims) && SendInv(rows, claims, log) && id in rows && e.Put?
    requires SendsSettled(claims, rows[id], e) && t in claims && Sending(claims[t]) && claims[t].row.id == id
    ensures e.row.lease == Some(t)
  {
    assert SameLease(rows[id], claims[t].row);
  }

  lemma TouchSends(rows: map<JobId, Row>, claims: map<Token, Held>, log: seq<LogEntry>, id: JobId, e: Effect)
    requires MatchInv(rows, claims) && SendInv(rows, claims, log) && id in rows && SendsSettled(claims, rows[id], e)
    ensures SendInv(RowsAfter(rows, id, e), claims, log)
  {
    var after := RowsAfter(rows, id, e);
    forall t | t in claims && Sending(claims[t]) && claims[t].row.id in after
      ensures after[claims[t].row.id].lease == Some(t)
    {
      if claims[t].row.id == id && e.Put? {
        SenderKeepsRow(rows, claims, log, id, e, t);
      }
    }
  }

  /** A row whose report was handed off can at most have its lease extended. */
  lemma TouchHands(rows: map<JobId, Row>, claims: map<Token, Held>, log: seq<LogEntry>, ids: set<JobId>, id: JobId,
                   e: Effect)
    requires HandInv(rows, claims, log, ids) && id in rows && SendsSettled(claims, rows[id], e)
    ensures HandInv(RowsAfter(rows, id, e), claims, log, ids)
  {
    if e.Put? && HandedOff(log, id) {
      assert Extends(rows[id], e.row);
    }
  }

  lemma PutCounts(rows: map<JobId, Row>, id: JobId, r': Row)
    requires id in rows && (rows[id].report.Some? ==> r'.report.Some?)
    ensures |rows[id := r']| == |rows|
    ensures |ReportedIds(rows[id := r'])|
            == |ReportedIds(rows)| + (if rows[id].report.None? && r'.report.Some? then 1 else 0)
  {
    assert rows[id := r'].Keys == rows.Keys;
    assert |rows[id := r'].Keys| == |rows[id := r']| && |rows.Keys| == |rows|;
    var before, after := ReportedIds(rows), ReportedIds(rows[id := r']);
    if rows[id].report.None? && r'.report.Some? {
      assert id !in before;
      assert after == before + {id};
    } else {
      assert after == before;
    }
  }

  lemma DropCounts(rows: map<JobId, Row>, id: JobId)
    requires id in rows
    ensures |rows - {id}| == |rows| - 1
    ensures |ReportedIds(rows - {id})| == |ReportedIds(rows)| - (if rows[id].report.Some? then 1 else 0)
  {
    assert (rows - {id}).Keys == rows.Keys - {id};
    assert |(rows - {id}).Keys| == |rows - {id}| && |rows.Keys| == |rows|;
    var before, after := ReportedIds(rows), ReportedIds(rows - {id});
    if rows[id].report.Some? {
      assert id in before;
      assert after == before - {id};
    } else {
      assert after == before;
    }
  }

  lemma DepartureCounts(events: multiset<Event>, e: Event)
    ensures Departures(events + multiset{e})
            == Departures(events) + (if e in {AnalysisStarted, AnalysisCompleted} then 0 else 1)
    ensures forall x :: (events + multiset{e})[x] == events[x] + (if x == e then 1 else 0)
  {
  }

  lemma TouchCountsPut(cfg: Config, db: Db, id: JobId, r': Row, metric: Option<Event>)
    requires CountInv(db) && id in db.rows && Move(cfg, db.rows[id], Put(r', metric))
    ensures CountInv(Apply(db, id, Put(r', metric)))
  {
    var r := db.rows[id];
    assert r.report.Some? ==> r'.report.Some?;
    assert metric == if r.report.None? && r'.report.Some? then Some(AnalysisCompleted) else None;
    PutCounts(db.rows, id, r');
    if metric.Some? {
      DepartureCounts(db.events, AnalysisCompleted);
    } else {
      assert db.events + MetricOf(metric) == db.events;
    }
  }

  lemma TouchCountsDrop(cfg: Config, db: Db, id: JobId, event: Event)
    requires CountInv(db) && id in db.rows && Shaped(db.rows[id]) && FitsDrop(db.rows[id], event)
    ensures CountInv(Apply(db, id, Drop(event)))
  {
    DropCounts(db.rows, id);
    DepartureCounts(db.events, event);
  }

  lemma TouchCounts(cfg: Config, db: Db, id: JobId, e: Effect)
    requires CountInv(db) && id in db.rows && RowOk(cfg, db.rows[id]) && Move(cfg, db.rows[id], e)
    ensures CountInv(Apply(db, id, e))
  {
    match e
    case Keep =>
    case Put(r', metric) => TouchCountsPut(cfg, db, id, r', metric);
    case Drop(event) => TouchCountsDrop(cfg, db, id, event);
  }

  lemma TouchInv(cfg: Config, s: System, id: JobId, e: Effect)
    requires Inv(cfg, s) && id in s.db.rows && Move(cfg, s.db.rows[id], e) && NoNewLease(s.db.rows[id], e)
    requires SendsSettled(s.claims, s.db.rows[id], e)
    ensures Inv(cfg, s.(db := Apply(s.db, id, e)))
  {
    var rows := s.db.rows;
    assert Apply(s.db, id, e).rows == RowsAfter(rows, id, e);
    TouchRows(cfg, rows, s.ids, id, e);
    TouchLeases(rows, s.tokens, id, e);
    TouchMatches(rows, s.claims, id, e);
    TouchSends(rows, s.claims, s.log, id, e);
    TouchHands(rows, s.claims, s.log, s.ids, id, e);
    TouchCounts(cfg, s.db, id, e);
  }
}
