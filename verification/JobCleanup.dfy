/**
  `recoverAndPurge`: four statements over the whole table. They are shown to classify
  every row exactly once and to amount to one `Recover` call per row, in any order.
*/
module JobCleanup {
  import opened Wrappers
  import opened JobRows

  // ----- the statements -----

  predicate Requeues(cfg: Config, r: Row, now: Time) {
    r.status == Processing && LeaseLapsed(r, now) && now < r.expiresAt && r.attempts < cfg.maxProcessing
  }

  function RequeuedRow(cfg: Config, r: Row, now: Time): Row {
    if Requeues(cfg, r, now)
    then Released(r, Queued, now, LeaseRecovered)
    else r
  }

  ghost function Requeued(cfg: Config, rows: map<JobId, Row>, now: Time): set<JobId> {
    set id | id in rows && Requeues(cfg, rows[id], now)
  }

  ghost function AfterRequeue(cfg: Config, rows: map<JobId, Row>, now: Time): map<JobId, Row> {
    map id | id in rows :: RequeuedRow(cfg, rows[id], now)
  }

  lemma RequeuedAll(cfg: Config, rows: map<JobId, Row>, after: map<JobId, Row>, done: set<JobId>, now: Time)
    requires after.Keys == rows.Keys && forall id | id in rows :: after[id] == RequeuedRow(cfg, rows[id], now)
    requires forall id :: id in done <==> id in rows && Requeues(cfg, rows[id], now)
    ensures after == AfterRequeue(cfg, rows, now) && done == Requeued(cfg, rows, now)
  {
  }

  ghost function Doomed(rows: map<JobId, Row>, doomed: Row -> bool): set<JobId> {
    set id | id in rows && doomed(rows[id])
  }

  ghost function Surviving(rows: map<JobId, Row>, doomed: Row -> bool): map<JobId, Row> {
    map id | id in rows && !doomed(rows[id]) :: rows[id]
  }

  // ----- the classes -----

  datatype Class = Requeue | UncertainEmail | Exhausted | Lapsed | Untouched

  /** What the cleanup does with a row, read off the row as it was before the cleanup. */
  function ClassOf(cfg: Config, r: Row, now: Time): Class {
    match RecoverEffect(cfg, r, now)
    case Put(_, _) => Requeue
    case Drop(EmailFailed) => UncertainEmail
    case Drop(AnalysisFailed) => Exhausted
    case Drop(_) => Lapsed
    case Keep => Untouched
  }

  ghost function ClassIds(cfg: Config, rows: map<JobId, Row>, now: Time, c: Class): set<JobId> {
    set id | id in rows && ClassOf(cfg, rows[id], now) == c
  }

  /** The rows left when the cleanup is restricted to the rows in `ids`. */
  ghost function RecoveredRows(cfg: Config, rows: map<JobId, Row>, ids: set<JobId>, now: Time): map<JobId, Row> {
    map id | id in rows && (id in ids ==> ClassOf(cfg, rows[id], now) in {Requeue, Untouched})
      :: if id in ids then RequeuedRow(cfg, rows[id], now) else rows[id]
  }

  ghost function RecoverOn(cfg: Config, db: Db, ids: set<JobId>, now: Time): Db {
    Db(RecoveredRows(cfg, db.rows, ids, now),
       Tally(db.events,
             |ClassIds(cfg, db.rows, now, UncertainEmail) * ids|,
             |ClassIds(cfg, db.rows, now, Exhausted) * ids|,
             |ClassIds(cfg, db.rows, now, Lapsed) * ids|))
  }

  function CountInto(events: multiset<Event>, e: Event, n: nat): multiset<Event> {
    events[e := events[e] + n]
  }

  /** The metrics of one cleanup. */
  function Tally(events: multiset<Event>, uncertain: nat, exhausted: nat, lapsed: nat): multiset<Event> {
    CountInto(CountInto(CountInto(events, EmailFailed, uncertain), AnalysisFailed, exhausted), AnalysisExpired, lapsed)
  }

  lemma TallyOne(events: multiset<Event>, a: nat, b: nat, c: nat)
    ensures Tally(events, a + 1, b, c) == Tally(events, a, b, c) + multiset{EmailFailed}
    ensures Tally(events, a, b + 1, c) == Tally(events, a, b, c) + multiset{AnalysisFailed}
    ensures Tally(events, a, b, c + 1) == Tally(events, a, b, c) + multiset{AnalysisExpired}
    ensures |Tally(events, a, b, c)| == |events| + a + b + c
    ensures forall e :: Tally(events, a, b, c)[e] == events[e] + (match e
      case EmailFailed => a
      case AnalysisFailed => b
      case AnalysisExpired => c
      case _ => 0)
  {
  }

  ghost function RecoverAll(cfg: Config, db: Db, now: Time): Db {
    RecoverOn(cfg, db, db.rows.Keys, now)
  }

  lemma RecoverAllTallies(cfg: Config, db: Db, now: Time)
    ensures RecoverAll(cfg, db, now) == Db(RecoveredRows(cfg, db.rows, db.rows.Keys, now),
      Tally(db.events, |ClassIds(cfg, db.rows, now, UncertainEmail)|,
            |ClassIds(cfg, db.rows, now, Exhausted)|, |ClassIds(cfg, db.rows, now, Lapsed)|))
  {
    forall c: Class
      ensures ClassIds(cfg, db.rows, now, c) * db.rows.Keys == ClassIds(cfg, db.rows, now, c)
    {
    }
  }

  // ----- the statements, read in order -----

  function UncertainTest(now: Time): Row -> bool {
    (r: Row) => r.status == EmailSending && LeaseLapsed(r, now)
  }

  function ExhaustedTest(cfg: Config, now: Time): Row -> bool {
    (r: Row) => r.status == Processing && LeaseLapsed(r, now) && r.attempts >= cfg.maxProcessing
  }

  function ExpiredTest(now: Time): Row -> bool {
    (r: Row) => r.expiresAt <= now
  }

  ghost function AfterUncertain(cfg: Config, rows: map<JobId, Row>, now: Time): map<JobId, Row> {
    Surviving(AfterRequeue(cfg, rows, now), UncertainTest(now))
  }

  ghost function AfterExhausted(cfg: Config, rows: map<JobId, Row>, now: Time): map<JobId, Row> {
    Surviving(AfterUncertain(cfg, rows, now), ExhaustedTest(cfg, now))
  }

  lemma RowClassified(cfg: Config, r: Row, now: Time)
    ensures Requeues(cfg, r, now) <==> ClassOf(cfg, r, now) == Requeue
    ensures UncertainTest(now)(RequeuedRow(cfg, r, now)) <==> ClassOf(cfg, r, now) == UncertainEmail
    ensures ExhaustedTest(cfg, now)(RequeuedRow(cfg, r, now)) <==> ClassOf(cfg, r, now) == Exhausted
    ensures ClassOf(cfg, r, now) !in {UncertainEmail, Exhausted} ==>
      (ExpiredTest(now)(RequeuedRow(cfg, r, now)) <==> ClassOf(cfg, r, now) == Lapsed)
    ensures RecoverEffect(cfg, r, now).Drop? <==> ClassOf(cfg, r, now) in {UncertainEmail, Exhausted, Lapsed}
  {
  }

  /** One row's way through the four statements. */
  lemma IdClassified(cfg: Config, rows: map<JobId, Row>, now: Time, id: JobId)
    ensures id in Requeued(cfg, rows, now) <==> id in ClassIds(cfg, rows, now, Requeue)
    ensures id in Doomed(AfterRequeue(cfg, rows, now), UncertainTest(now))
      <==> id in ClassIds(cfg, rows, now, UncertainEmail)
    ensures id in Doomed(AfterUncertain(cfg, rows, now), ExhaustedTest(cfg, now))
      <==> id in ClassIds(cfg, rows, now, Exhausted)
    ensures id in Doomed(AfterExhausted(cfg, rows, now), ExpiredTest(now)) <==> id in ClassIds(cfg, rows, now, Lapsed)
  {
    if id in rows {
      RowClassified(cfg, rows[id], now);
    }
  }

  lemma IdSurvives(cfg: Config, rows: map<JobId, Row>, now: Time, id: JobId)
    ensures var last := Surviving(AfterExhausted(cfg, rows, now), ExpiredTest(now));
      && (id in last <==> id in RecoveredRows(cfg, rows, rows.Keys, now))
      && (id in last ==> last[id] == RecoveredRows(cfg, rows, rows.Keys, now)[id])
  {
    if id in rows {
      RowClassified(cfg, rows[id], now);
    }
  }

  /** Running the four statements one after another classifies each row by its original columns. */
  lemma StatementsClassify(cfg: Config, rows: map<JobId, Row>, now: Time)
    ensures Requeued(cfg, rows, now) == ClassIds(cfg, rows, now, Requeue)
    ensures Doomed(AfterRequeue(cfg, rows, now), UncertainTest(now)) == ClassIds(cfg, rows, now, UncertainEmail)
    ensures Doomed(AfterUncertain(cfg, rows, now), ExhaustedTest(cfg, now)) == ClassIds(cfg, rows, now, Exhausted)
    ensures Doomed(AfterExhausted(cfg, rows, now), ExpiredTest(now)) == ClassIds(cfg, rows, now, Lapsed)
    ensures Surviving(AfterExhausted(cfg, rows, now), ExpiredTest(now)) == RecoveredRows(cfg, rows, rows.Keys, now)
  {
    forall id: JobId {
      IdClassified(cfg, rows, now, id);
    }
    forall id: JobId {
      IdSurvives(cfg, rows, now, id);
    }
  }

  lemma RowAfterCleanup(cfg: Config, r: Row, now: Time)
    requires ClassOf(cfg, r, now) in {Requeue, Untouched}
    ensures var after := RequeuedRow(cfg, r, now);
      && now < after.expiresAt
      && !(Leased(after.status) && LeaseLapsed(after, now))
      && (ClassOf(cfg, r, now) == Untouched ==> after == r)
      && (ClassOf(cfg, r, now) == Requeue ==>
            after.status == Queued && after.lease.None? && after.attempts == r.attempts < cfg.maxProcessing)
  {
  }

  /** What the cleanup leaves of the row `id`. */
  lemma RowLeft(cfg: Config, db: Db, now: Time, id: JobId)
    requires id in db.rows
    ensures var after := RecoverAll(cfg, db, now).rows;
      && (id in after <==> ClassOf(cfg, db.rows[id], now) in {Requeue, Untouched})
      && (id in after ==> after[id] == RequeuedRow(cfg, db.rows[id], now))
  {
  }

  /**
    The cleanup splits the table into five disjoint classes that cover it: the purged
    ones are exactly the rows that disappear, untouched rows stay as they were, and no
    row that survives is expired or still holds a lapsed lease.
  */
  lemma CleanupPartitions(cfg: Config, db: Db, now: Time)
    ensures var after := RecoverAll(cfg, db, now).rows;
      && (forall id | id in after ::
            && id in db.rows
            && now < after[id].expiresAt
            && !(Leased(after[id].status) && LeaseLapsed(after[id], now))
            && match ClassOf(cfg, db.rows[id], now) {
                 case Untouched => after[id] == db.rows[id]
                 case Requeue => after[id].status == Queued && after[id].lease.None?
                   && after[id].attempts < cfg.maxProcessing
                 case _ => false
               })
      && (forall id | id in db.rows && id !in after ::
            ClassOf(cfg, db.rows[id], now) in {UncertainEmail, Exhausted, Lapsed})
  {
    var after := RecoverAll(cfg, db, now).rows;
    forall id | id in db.rows
      ensures id in after <==> ClassOf(cfg, db.rows[id], now) in {Requeue, Untouched}
      ensures id in after ==> after[id] == RequeuedRow(cfg, db.rows[id], now)
    {
      RowLeft(cfg, db, now, id);
    }
    forall id | id in after
      ensures id in db.rows
    {
    }
    forall r: Row | ClassOf(cfg, r, now) in {Requeue, Untouched} {
      RowAfterCleanup(cfg, r, now);
    }
  }

  /** The five classes count every row once, and the cleanup removes exactly three of them. */
  lemma CleanupCounts(cfg: Config, db: Db, now: Time)
    ensures var purged := |ClassIds(cfg, db.rows, now, UncertainEmail)|
                          + |ClassIds(cfg, db.rows, now, Exhausted)| + |ClassIds(cfg, db.rows, now, Lapsed)|;
      && |db.rows| == |RecoverAll(cfg, db, now).rows| + purged
      && |db.rows| == |ClassIds(cfg, db.rows, now, Requeue)| + |ClassIds(cfg, db.rows, now, Untouched)| + purged
      && |RecoverAll(cfg, db, now).events| == |db.events| + purged
  {
    var rows, left := db.rows, RecoveredRows(cfg, db.rows, db.rows.Keys, now);
    var requeued, untouched := ClassIds(cfg, rows, now, Requeue), ClassIds(cfg, rows, now, Untouched);
    var uncertain, exhausted, lapsed := ClassIds(cfg, rows, now, UncertainEmail),
      ClassIds(cfg, rows, now, Exhausted), ClassIds(cfg, rows, now, Lapsed);
    ClassesCover(cfg, rows, now);
    FiveParts(rows.Keys, requeued, untouched, uncertain, exhausted, lapsed);
    assert |rows| == |rows.Keys| && |left| == |left.Keys|;
    CleanupEvents(cfg, db, now);
  }

  lemma CleanupEvents(cfg: Config, db: Db, now: Time)
    ensures |RecoverAll(cfg, db, now).events|
            == |db.events| + |ClassIds(cfg, db.rows, now, UncertainEmail)|
               + |ClassIds(cfg, db.rows, now, Exhausted)| + |ClassIds(cfg, db.rows, now, Lapsed)|
  {
    RecoverAllTallies(cfg, db, now);
    TallyOne(db.events, |ClassIds(cfg, db.rows, now, UncertainEmail)|,
             |ClassIds(cfg, db.rows, now, Exhausted)|, |ClassIds(cfg, db.rows, now, Lapsed)|);
  }

  lemma ClassesCover(cfg: Config, rows: map<JobId, Row>, now: Time)
    ensures RecoveredRows(cfg, rows, rows.Keys, now).Keys
            == ClassIds(cfg, rows, now, Requeue) + ClassIds(cfg, rows, now, Untouched)
    ensures rows.Keys == ClassIds(cfg, rows, now, Requeue) + ClassIds(cfg, rows, now, Untouched)
                         + ClassIds(cfg, rows, now, UncertainEmail) + ClassIds(cfg, rows, now, Exhausted)
                         + ClassIds(cfg, rows, now, Lapsed)
  {
  }

  lemma FiveParts(all: set<JobId>, a: set<JobId>, b: set<JobId>, c: set<JobId>, d: set<JobId>, e: set<JobId>)
    requires all == a + b + c + d + e
    requires a !! b !! c !! d !! e
    ensures |a + b| == |a| + |b|
    ensures |all| == |a| + |b| + |c| + |d| + |e|
  {
    assert |a + b + c| == |a + b| + |c|;
    assert |a + b + c + d| == |a + b + c| + |d|;
  }

  lemma ClassGrows(cfg: Config, rows: map<JobId, Row>, ids: set<JobId>, id: JobId, now: Time, c: Class)
    requires id !in ids && id in rows
    ensures |ClassIds(cfg, rows, now, c) * (ids + {id})|
            == |ClassIds(cfg, rows, now, c) * ids| + (if ClassOf(cfg, rows[id], now) == c then 1 else 0)
  {
    var before := ClassIds(cfg, rows, now, c) * ids;
    if ClassOf(cfg, rows[id], now) == c {
      assert ClassIds(cfg, rows, now, c) * (ids + {id}) == before + {id};
    } else {
      assert ClassIds(cfg, rows, now, c) * (ids + {id}) == before;
    }
  }

  lemma RowsGrow(cfg: Config, rows: map<JobId, Row>, ids: set<JobId>, id: JobId, now: Time)
    requires id !in ids && id in rows
    ensures id in RecoveredRows(cfg, rows, ids, now) && RecoveredRows(cfg, rows, ids, now)[id] == rows[id]
    ensures RecoveredRows(cfg, rows, ids + {id}, now)
            == if ClassOf(cfg, rows[id], now) in {Requeue, Untouched}
               then RecoveredRows(cfg, rows, ids, now)[id := RequeuedRow(cfg, rows[id], now)]
               else RecoveredRows(cfg, rows, ids, now) - {id}
  {
  }

  /** The effect of one `Recover` call, said in terms of the row's class. */
  lemma EffectByClass(cfg: Config, r: Row, now: Time)
    ensures RecoverEffect(cfg, r, now) ==
      match ClassOf(cfg, r, now)
      case Requeue => Put(RequeuedRow(cfg, r, now), None)
      case UncertainEmail => Drop(EmailFailed)
      case Exhausted => Drop(AnalysisFailed)
      case Lapsed => Drop(AnalysisExpired)
      case Untouched => Keep
    ensures ClassOf(cfg, r, now) == Untouched ==> RequeuedRow(cfg, r, now) == r
  {
  }

  /** Cleaning one more row is one more `Recover` call. */
  lemma RecoverStep(cfg: Config, db: Db, ids: set<JobId>, id: JobId, now: Time)
    requires id !in ids && id in db.rows
    ensures RecoverOn(cfg, db, ids + {id}, now) == Touch(cfg, RecoverOn(cfg, db, ids, now), id, Recover(now))
  {
    var before := RecoverOn(cfg, db, ids, now);
    RowsGrow(cfg, db.rows, ids, id, now);
    EventsGrow(cfg, db, ids, id, now);
    TouchByClass(cfg, before, id, now);
  }

  /** One `Recover` call per listed row, in that order. */
  ghost function RecoverEach(cfg: Config, db: Db, ids: seq<JobId>, now: Time): Db {
    if ids == [] then db
    else Touch(cfg, RecoverEach(cfg, db, ids[..|ids| - 1], now), ids[|ids| - 1], Recover(now))
  }

  ghost predicate Lists(ids: seq<JobId>, all: set<JobId>) {
    && (forall i, j | 0 <= i < j < |ids| :: ids[i] != ids[j])
    && (forall id :: id in ids <==> id in all)
  }

  lemma {:induction false} Listing(all: set<JobId>) returns (ids: seq<JobId>)
    ensures Lists(ids, all)
  {
    ids := [];
    if all != {} {
      var id :| id in all;
      var rest := Listing(all - {id});
      ids := rest + [id];
    }
  }

  lemma RecoverNothing(cfg: Config, db: Db, now: Time)
    ensures RecoverOn(cfg, db, {}, now) == db
  {
    assert RecoveredRows(cfg, db.rows, {}, now) == db.rows;
    forall c: Class
      ensures ClassIds(cfg, db.rows, now, c) * {} == {}
    {
    }
  }

  lemma {:induction false} EachIsOn(cfg: Config, db: Db, ids: seq<JobId>, all: set<JobId>, now: Time)
    requires Lists(ids, all) && all <= db.rows.Keys
    ensures RecoverEach(cfg, db, ids, now) == RecoverOn(cfg, db, all, now)
    decreases |ids|
  {
    if ids == [] {
      assert all == {};
      RecoverNothing(cfg, db, now);
    } else {
      var n, last := |ids| - 1, ids[|ids| - 1];
      assert ids == ids[..n] + [last];
      assert all - {last} + {last} == all;
      EachIsOn(cfg, db, ids[..n], all - {last}, now);
      RecoverStep(cfg, db, all - {last}, last, now);
    }
  }

  /** The cleanup of the whole table is one `Recover` call per row, in whatever order. */
  lemma CleanupInAnyOrder(cfg: Config, db: Db, ids: seq<JobId>, now: Time)
    requires Lists(ids, db.rows.Keys)
    ensures RecoverEach(cfg, db, ids, now) == RecoverAll(cfg, db, now)
  {
    EachIsOn(cfg, db, ids, db.rows.Keys, now);
  }

  /** One `Recover` call, said in terms of the row's class. */
  lemma TouchByClass(cfg: Config, db: Db, id: JobId, now: Time)
    requires id in db.rows
    ensures Touch(cfg, db, id, Recover(now)).rows
            == if ClassOf(cfg, db.rows[id], now) in {Requeue, Untouched}
               then db.rows[id := RequeuedRow(cfg, db.rows[id], now)]
               else db.rows - {id}
    ensures Touch(cfg, db, id, Recover(now)).events == db.events +
      match ClassOf(cfg, db.rows[id], now)
      case UncertainEmail => multiset{EmailFailed}
      case Exhausted => multiset{AnalysisFailed}
      case Lapsed => multiset{AnalysisExpired}
      case _ => multiset{}
  {
    EffectByClass(cfg, db.rows[id], now);
    assert db.rows[id := db.rows[id]] == db.rows;
  }

  lemma EventsGrow(cfg: Config, db: Db, ids: set<JobId>, id: JobId, now: Time)
    requires id !in ids && id in db.rows
    ensures RecoverOn(cfg, db, ids + {id}, now).events == RecoverOn(cfg, db, ids, now).events +
      match ClassOf(cfg, db.rows[id], now)
      case UncertainEmail => multiset{EmailFailed}
      case Exhausted => multiset{AnalysisFailed}
      case Lapsed => multiset{AnalysisExpired}
      case _ => multiset{}
  {
    ClassGrows(cfg, db.rows, ids, id, now, UncertainEmail);
    ClassGrows(cfg, db.rows, ids, id, now, Exhausted);
    ClassGrows(cfg, db.rows, ids, id, now, Lapsed);
    TallyOne(db.events, |ClassIds(cfg, db.rows, now, UncertainEmail) * ids|,
             |ClassIds(cfg, db.rows, now, Exhausted) * ids|, |ClassIds(cfg, db.rows, now, Lapsed) * ids|);
  }

  lemma RequeuedKeepsShape(cfg: Config, r: Row, now: Time)
    requires Shaped(r)
    ensures var r' := RequeuedRow(cfg, r, now); Shaped(r') && r'.id == r.id && r'.handle == r.handle
  {
  }

  lemma CleanupKeepsTable(cfg: Config, db: Db, now: Time)
    requires TableOk(db.rows)
    ensures TableOk(RecoverAll(cfg, db, now).rows)
  {
    var after := RecoveredRows(cfg, db.rows, db.rows.Keys, now);
    assert RecoverAll(cfg, db, now).rows == after;
    forall id | id in after
      ensures id in db.rows && after[id].id == id && Shaped(after[id]) && after[id].handle == db.rows[id].handle
    {
      RequeuedKeepsShape(cfg, db.rows[id], now);
    }
  }
}
