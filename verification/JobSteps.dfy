/** Every step of the job queue keeps the invariant, so every run does. */
module JobSteps {
  import opened Wrappers
  import opened JobRows
  import opened JobCleanup
  import opened JobProtocol
  import opened JobMoves
  import opened JobInvariants

  // ----- requests -----

  lemma HandedOffGrows(log: seq<LogEntry>, e: LogEntry, id: JobId)
    ensures HandedOff(log + [e], id) <==> HandedOff(log, id) || (e.id == id && IsHandOff(e))
  {
    if HandedOff(log, id) {
      var k :| 0 <= k < |log| && log[k].id == id && IsHandOff(log[k]);
      assert (log + [e])[k] == log[k];
    }
    if e.id == id && IsHandOff(e) {
      assert (log + [e])[|log|] == e;
    }
  }

  /** The log may record something about a job that was not handed off before. */
  lemma OnceGrows(log: seq<LogEntry>, e: LogEntry)
    requires OnceInv(log) && !HandedOff(log, e.id)
    ensures OnceInv(log + [e])
  {
  }

  lemma FastTakenInv(cfg: Config, s: System, id: JobId)
    requires Inv(cfg, s) && id !in s.db.rows && id in s.ids && !HandedOff(s.log, id)
    requires forall t | t in s.claims && Sending(s.claims[t]) :: s.claims[t].row.id != id
    ensures Inv(cfg, s.(log := s.log + [FastTaken(id)]))
  {
    OnceGrows(s.log, FastTaken(id));
    FastTakenHands(s.db.rows, s.claims, s.log, s.ids, id);
  }

  lemma FastTakenHands(rows: map<JobId, Row>, claims: map<Token, Held>, log: seq<LogEntry>, ids: set<JobId>, id: JobId)
    requires SendInv(rows, claims, log) && HandInv(rows, claims, log, ids) && id !in rows && id in ids
    requires forall t | t in claims && Sending(claims[t]) :: claims[t].row.id != id
    ensures SendInv(rows, claims, log + [FastTaken(id)]) && HandInv(rows, claims, log + [FastTaken(id)], ids)
  {
    forall other {
      HandedOffGrows(log, FastTaken(id), other);
    }
  }

  /** A fast result is taken from a row whose report nobody handed off or is sending. */
  lemma TakenIsUnsent(cfg: Config, s: System, id: JobId)
    requires Inv(cfg, s) && id in s.db.rows && s.db.rows[id].status == AwaitingEmail
    ensures !HandedOff(s.log, id)
    ensures forall t | t in s.claims && Sending(s.claims[t]) :: s.claims[t].row.id != id
  {
    assert RowOk(cfg, s.db.rows[id]);
  }

  /** A request is a move of the row it addresses that mints no lease. */
  lemma RequestMoves(cfg: Config, call: Call, claims: map<Token, Held>, r: Row)
    requires cfg.Valid() && RowOk(cfg, r)
    requires call.StatusPoll? || call.TakeFast? || call.AttachEmail? || call.Cancel?
    ensures var e := EffectOf(cfg, call, r);
      && Move(cfg, r, e) && NoNewLease(r, e) && SendsSettled(claims, r, e)
      && (call.TakeFast? && e.Drop? ==> r.status == AwaitingEmail)
  {
    EffectsMove(cfg, call, r);
  }

  lemma RequestInv(cfg: Config, s: System, handle: Handle, call: Call)
    requires cfg.Valid() && Inv(cfg, s) && Enabled(s, Request(handle, call))
    ensures Inv(cfg, Requested(cfg, s, handle, call))
  {
    var found := ByHandle(s.db.rows, handle);
    if found.Some? {
      RequestMoves(cfg, call, s.claims, s.db.rows[found.value]);
      RequestedInv(cfg, s, found.value, call, EffectOf(cfg, call, s.db.rows[found.value]));
    }
  }

  lemma RequestedInv(cfg: Config, s: System, id: JobId, call: Call, e: Effect)
    requires Inv(cfg, s) && id in s.db.rows && Move(cfg, s.db.rows[id], e) && NoNewLease(s.db.rows[id], e)
    requires SendsSettled(s.claims, s.db.rows[id], e)
    requires call.TakeFast? && e.Drop? ==> s.db.rows[id].status == AwaitingEmail
    ensures var log := if call.TakeFast? && e.Drop? then s.log + [FastTaken(id)] else s.log;
      Inv(cfg, s.(db := Apply(s.db, id, e), log := log))
  {
    TouchInv(cfg, s, id, e);
    if call.TakeFast? && e.Drop? {
      TakenIsUnsent(cfg, s, id);
      FastTakenInv(cfg, s.(db := Apply(s.db, id, e)), id);
    }
  }

  lemma InsertCounts(db: Db, r: Row)
    requires CountInv(db) && r.id !in db.rows && r.report.None?
    ensures CountInv(Insert(db, r))
  {
    assert db.rows[r.id := r].Keys == db.rows.Keys + {r.id};
    assert ReportedIds(db.rows[r.id := r]) == ReportedIds(db.rows);
  }

  lemma InsertSends(cfg: Config, s: System, r: Row)
    requires HeldInv(cfg, s.claims, s.tokens, s.ids) && r.id !in s.ids
    requires SendInv(s.db.rows, s.claims, s.log) && HandInv(s.db.rows, s.claims, s.log, s.ids)
    ensures SendInv(s.db.rows[r.id := r], s.claims, s.log)
    ensures HandInv(s.db.rows[r.id := r], s.claims, s.log, s.ids + {r.id})
  {
    assert !HandedOff(s.log, r.id);
  }

  lemma InsertLeases(cfg: Config, s: System, r: Row)
    requires LeaseInv(s.db.rows, s.tokens) && HeldInv(cfg, s.claims, s.tokens, s.ids) && MatchInv(s.db.rows, s.claims)
    requires r.lease.None?
    ensures LeaseInv(s.db.rows[r.id := r], s.tokens) && MatchInv(s.db.rows[r.id := r], s.claims)
    ensures HeldInv(cfg, s.claims, s.tokens, s.ids + {r.id})
  {
  }

  lemma InsertRows(cfg: Config, rows: map<JobId, Row>, ids: set<JobId>, r: Row)
    requires RowsInv(cfg, rows, ids) && RowOk(cfg, r) && HandleFree(rows, r.handle)
    ensures RowsInv(cfg, rows[r.id := r], ids + {r.id})
  {
  }

  lemma InsertInv(cfg: Config, s: System, r: Row)
    requires cfg.Valid() && Inv(cfg, s) && 0 < s.creators && r.id !in s.ids
    requires RowOk(cfg, r) && r.status == Queued
    ensures Inv(cfg, Inserted(cfg, s, r))
  {
    if Insertable(s.db, r) {
      InsertCounts(s.db, r);
      InsertSends(cfg, s, r);
      InsertRows(cfg, s.db.rows, s.ids, r);
      InsertLeases(cfg, s, r);
    }
  }

  // ----- claims -----

  lemma ClaimInv(cfg: Config, s: System, id: JobId, token: Token, now: Time)
    requires cfg.Valid() && Inv(cfg, s) && id in s.db.rows && Claimable(s.db.rows[id], now) && token !in s.tokens
    ensures var db := Touch(cfg, s.db, id, Claim(token, now));
      id in db.rows && Inv(cfg, Granted(s, db, id, token))
  {
    var r := s.db.rows[id];
    var r' := Claimed(cfg, r, token, now);
    ClaimMoves(cfg, r, token, now);
    assert EffectOf(cfg, Claim(token, now), r) == Put(r', None);
    ClaimedInv(cfg, s, id, token, r');
  }

  /** The system after row `id` was claimed with a fresh token and written as `r'`. */
  lemma ClaimedInv(cfg: Config, s: System, id: JobId, token: Token, r': Row)
    requires Inv(cfg, s) && id in s.db.rows && token !in s.tokens
    requires Progress(cfg, s.db.rows[id], r', None) && RowOk(cfg, r') && r'.lease == Some(token)
    requires s.db.rows[id].status != EmailSending
    ensures Inv(cfg, Granted(s, Apply(s.db, id, Put(r', None)), id, token))
  {
    var rows, rows' := s.db.rows, s.db.rows[id := r'];
    var claims' := s.claims[token := Held(r', Working)];
    TouchRows(cfg, rows, s.ids, id, Put(r', None));
    TouchCounts(cfg, s.db, id, Put(r', None));
    ClaimLeases(rows, s.claims, s.tokens, id, token, r');
    ClaimHeld(cfg, s.claims, s.tokens, s.ids, id, token, r');
    ClaimSends(cfg, rows, s.claims, s.tokens, s.ids, s.log, id, token, r');
    assert Granted(s, Apply(s.db, id, Put(r', None)), id, token).claims == claims';
  }

  lemma ClaimHeld(cfg: Config, claims: map<Token, Held>, tokens: set<Token>, ids: set<JobId>, id: JobId, token: Token,
                  r': Row)
    requires HeldInv(cfg, claims, tokens, ids) && id in ids && r'.id == id && r'.lease == Some(token) && RowOk(cfg, r')
    ensures HeldInv(cfg, claims[token := Held(r', Working)], tokens + {token}, ids)
  {
  }

  lemma ClaimLeases(rows: map<JobId, Row>, claims: map<Token, Held>, tokens: set<Token>, id: JobId, token: Token,
                    r': Row)
    requires LeaseInv(rows, tokens) && MatchInv(rows, claims) && id in rows && token !in tokens
    requires r'.lease == Some(token) && forall t | t in claims :: t in tokens
    ensures LeaseInv(rows[id := r'], tokens + {token})
    ensures MatchInv(rows[id := r'], claims[token := Held(r', Working)])
  {
  }

  /** A row that is not being sent was not handed off, and no claim is sending for it. */
  lemma NotSendingIsUnsent(cfg: Config, rows: map<JobId, Row>, claims: map<Token, Held>, tokens: set<Token>,
                           ids: set<JobId>, log: seq<LogEntry>, id: JobId)
    requires HeldInv(cfg, claims, tokens, ids) && MatchInv(rows, claims) && SendInv(rows, claims, log)
    requires HandInv(rows, claims, log, ids) && id in rows && rows[id].status != EmailSending
    ensures !HandedOff(log, id)
    ensures forall t | t in claims && Sending(claims[t]) :: claims[t].row.id != id
  {
    forall t | t in claims && Sending(claims[t]) && claims[t].row.id in rows
      ensures rows[claims[t].row.id].status == EmailSending
    {
      SenderRowStatus(rows, claims, log, t);
    }
  }

  lemma SenderRowStatus(rows: map<JobId, Row>, claims: map<Token, Held>, log: seq<LogEntry>, t: Token)
    requires MatchInv(rows, claims) && SendInv(rows, claims, log)
    requires t in claims && Sending(claims[t]) && claims[t].row.id in rows
    ensures rows[claims[t].row.id].status == EmailSending
  {
    assert SameLease(rows[claims[t].row.id], claims[t].row);
  }

  lemma ClaimSends(cfg: Config, rows: map<JobId, Row>, claims: map<Token, Held>, tokens: set<Token>, ids: set<JobId>,
                   log: seq<LogEntry>, id: JobId, token: Token, r': Row)
    requires HeldInv(cfg, claims, tokens, ids) && MatchInv(rows, claims) && SendInv(rows, claims, log)
    requires HandInv(rows, claims, log, ids) && LeaseInv(rows, tokens) && token !in tokens
    requires id in rows && rows[id].status != EmailSending && r'.id == id && r'.lease == Some(token)
    ensures SendInv(rows[id := r'], claims[token := Held(r', Working)], log)
    ensures HandInv(rows[id := r'], claims[token := Held(r', Working)], log, ids)
  {
    NotSendingIsUnsent(cfg, rows, claims, tokens, ids, log, id);
  }

  // ----- the worker's acts -----

  /** A claim that has an outcome no longer counts as one that may send. */
  lemma SettledSends(rows: map<JobId, Row>, claims: map<Token, Held>, log: seq<LogEntry>, ids: set<JobId>, token: Token,
                     outcome: MailOutcome)
    requires SendInv(rows, claims, log) && HandInv(rows, claims, log, ids) && token in claims && Sending(claims[token])
    ensures var claims' := claims[token := claims[token].(phase := Sent(outcome))];
      SendInv(rows, claims', log) && HandInv(rows, claims', log, ids)
  {
    var claims' := claims[token := claims[token].(phase := Sent(outcome))];
    forall t | t in claims' && Sending(claims'[t])
      ensures t in claims && claims'[t] == claims[t]
    {
    }
    forall id | id in rows && HandedOff(log, id)
      ensures rows[id].lease != Some(token)
    {
    }
  }

  lemma PhaseKeeps(cfg: Config, rows: map<JobId, Row>, claims: map<Token, Held>, tokens: set<Token>, ids: set<JobId>,
                   token: Token, outcome: MailOutcome)
    requires HeldInv(cfg, claims, tokens, ids) && MatchInv(rows, claims) && token in claims && Sending(claims[token])
    ensures var claims' := claims[token := claims[token].(phase := Sent(outcome))];
      HeldInv(cfg, claims', tokens, ids) && MatchInv(rows, claims')
  {
  }

  /** A worker that goes from working on a delivery to having an outcome, without a log entry. */
  lemma SettleInv(cfg: Config, s: System, token: Token, outcome: MailOutcome)
    requires Inv(cfg, s) && token in s.claims && Sending(s.claims[token])
    ensures Inv(cfg, s.(claims := s.claims[token := s.claims[token].(phase := Sent(outcome))]))
  {
    SettledSends(s.db.rows, s.claims, s.log, s.ids, token, outcome);
    PhaseKeeps(cfg, s.db.rows, s.claims, s.tokens, s.ids, token, outcome);
  }

  lemma SendHands(cfg: Config, rows: map<JobId, Row>, claims: map<Token, Held>, tokens: set<Token>, ids: set<JobId>,
                  log: seq<LogEntry>, token: Token, reply: MailReply)
    requires HeldInv(cfg, claims, tokens, ids) && MatchInv(rows, claims) && SendInv(rows, claims, log)
    requires HandInv(rows, claims, log, ids) && token in claims && Sending(claims[token])
    ensures var claims' := claims[token := claims[token].(phase := Sent(Classify(reply)))];
      var log' := log + [Mailed(claims[token].row.id, reply)];
      SendInv(rows, claims', log') && HandInv(rows, claims', log', ids)
  {
    var e := Mailed(claims[token].row.id, reply);
    forall id {
      HandedOffGrows(log, e, id);
    }
  }

  lemma SendStepInv(cfg: Config, s: System, token: Token, reply: MailReply)
    requires Inv(cfg, s) && token in s.claims && Sending(s.claims[token])
    ensures Inv(cfg, Worked(cfg, s, token, Send(reply)))
  {
    OnceGrows(s.log, Mailed(s.claims[token].row.id, reply));
    SendHands(cfg, s.db.rows, s.claims, s.tokens, s.ids, s.log, token, reply);
    PhaseKeeps(cfg, s.db.rows, s.claims, s.tokens, s.ids, token, Classify(reply));
  }

  /** What an act of the owner of a lease does to the leased row. */
  lemma ActMoves(cfg: Config, claims: map<Token, Held>, token: Token, act: Act, r: Row)
    requires cfg.Valid() && token in claims && Allowed(claims[token], act) && !act.Send?
    requires RowOk(cfg, r) && r.lease == Some(token) && SameLease(r, claims[token].row)
    ensures var e := EffectOf(cfg, CallOf(cfg, claims[token], token, act), r);
      Move(cfg, r, e) && NoNewLease(r, e) && SendsSettled(claims, r, e)
  {
    EffectsMove(cfg, CallOf(cfg, claims[token], token, act), r);
  }

  /** An act is a move of the claimed row, or has no effect on it. */
  lemma ActEffect(cfg: Config, s: System, token: Token, act: Act) returns (e: Effect)
    requires cfg.Valid() && Inv(cfg, s) && token in s.claims && Allowed(s.claims[token], act) && !act.Send?
    requires s.claims[token].row.id in s.db.rows
    ensures var id := s.claims[token].row.id; var r := s.db.rows[id];
      && Touch(cfg, s.db, id, CallOf(cfg, s.claims[token], token, act)) == Apply(s.db, id, e)
      && Move(cfg, r, e) && NoNewLease(r, e) && SendsSettled(s.claims, r, e)
  {
    var c := s.claims[token];
    var r, call := s.db.rows[c.row.id], CallOf(cfg, c, token, act);
    e := EffectOf(cfg, call, r);
    if r.lease == Some(token) {
      assert SameLease(r, c.row) && RowOk(cfg, r);
      ActMoves(cfg, s.claims, token, act, r);
    } else {
      FencedCall(cfg, call, token, r);
    }
  }

  lemma ActInv(cfg: Config, s: System, token: Token, act: Act)
    requires cfg.Valid() && Inv(cfg, s) && token in s.claims && Allowed(s.claims[token], act) && !act.Send?
    ensures Inv(cfg, s.(db := Touch(cfg, s.db, s.claims[token].row.id, CallOf(cfg, s.claims[token], token, act))))
  {
    if s.claims[token].row.id in s.db.rows {
      var e := ActEffect(cfg, s, token, act);
      TouchInv(cfg, s, s.claims[token].row.id, e);
    }
  }

  lemma WorkInv(cfg: Config, s: System, token: Token, act: Act)
    requires cfg.Valid() && Inv(cfg, s) && Enabled(s, Work(token, act))
    ensures Inv(cfg, Worked(cfg, s, token, act))
  {
    if act.Send? {
      SendStepInv(cfg, s, token, act.reply);
    } else {
      ActInv(cfg, s, token, act);
      var c := s.claims[token];
      var db := Touch(cfg, s.db, c.row.id, CallOf(cfg, c, token, act));
      if act.ReportFailed? && c.phase == Working {
        SettleInv(cfg, s.(db := db), token, Permanent);
      }
    }
  }

  // ----- cleanup -----

  lemma RecoverMoves(cfg: Config, claims: map<Token, Held>, r: Row, now: Time)
    requires cfg.Valid() && RowOk(cfg, r)
    ensures var e := RecoverEffect(cfg, r, now);
      e == EffectOf(cfg, Recover(now), r) && Move(cfg, r, e) && NoNewLease(r, e) && SendsSettled(claims, r, e)
  {
    EffectsMove(cfg, Recover(now), r);
  }

  lemma RecoverTouchInv(cfg: Config, s: System, id: JobId, now: Time)
    requires cfg.Valid() && Inv(cfg, s)
    ensures Inv(cfg, s.(db := Touch(cfg, s.db, id, Recover(now))))
  {
    if id in s.db.rows {
      RecoverMoves(cfg, s.claims, s.db.rows[id], now);
      TouchInv(cfg, s, id, RecoverEffect(cfg, s.db.rows[id], now));
    }
  }

  lemma {:induction false} RecoverEachInv(cfg: Config, s: System, ids: seq<JobId>, now: Time)
    requires cfg.Valid() && Inv(cfg, s)
    ensures Inv(cfg, s.(db := RecoverEach(cfg, s.db, ids, now)))
    decreases |ids|
  {
    if ids == [] {
      assert s.(db := s.db) == s;
    } else {
      var n, before := |ids| - 1, RecoverEach(cfg, s.db, ids[..|ids| - 1], now);
      RecoverEachInv(cfg, s, ids[..n], now);
      RecoverTouchInv(cfg, s.(db := before), ids[n], now);
    }
  }

  // ----- all steps, all runs -----

  lemma CrashInv(cfg: Config, s: System, token: Token)
    requires Inv(cfg, s)
    ensures Inv(cfg, s.(claims := s.claims - {token}))
  {
  }

  /** Admissions and the clock touch neither rows nor claims. */
  lemma QuietInv(cfg: Config, s: System, creators: nat, clock: Time)
    requires Inv(cfg, s)
    ensures Inv(cfg, s.(creators := creators, clock := clock))
  {
  }

  lemma QuietStepInv(cfg: Config, s: System, step: Step)
    requires Inv(cfg, s) && Enabled(s, step) && (step.Admit? || step.AbortAdmission? || step.Tick?)
    ensures Inv(cfg, Fire(cfg, s, step))
  {
    match step
    case Admit(_) => QuietInv(cfg, s, s.creators + 1, s.clock);
    case AbortAdmission => QuietInv(cfg, s, s.creators - 1, s.clock);
    case Tick(now) => QuietInv(cfg, s, s.creators, now);
  }

  lemma InsertStepInv(cfg: Config, s: System, step: Step)
    requires cfg.Valid() && Inv(cfg, s) && Enabled(s, step) && step.InsertJob?
    ensures Inv(cfg, Fire(cfg, s, step))
  {
    InsertInv(cfg, s, NewRow(cfg, step.id, step.handle, step.input, step.now, step.appNow));
  }

  lemma ClaimStepInv(cfg: Config, s: System, step: Step)
    requires cfg.Valid() && Inv(cfg, s) && Enabled(s, step) && step.ClaimNext?
    ensures Inv(cfg, Fire(cfg, s, step))
  {
    ClaimInv(cfg, s, step.id, step.token, step.now);
  }

  lemma CleanupInv(cfg: Config, s: System, now: Time)
    requires cfg.Valid() && Inv(cfg, s)
    ensures Inv(cfg, s.(db := RecoverAll(cfg, s.db, now)))
  {
    var ids := Listing(s.db.rows.Keys);
    RecoverEachInv(cfg, s, ids, now);
    CleanupInAnyOrder(cfg, s.db, ids, now);
  }

  lemma FireInv(cfg: Config, s: System, step: Step)
    requires cfg.Valid() && Inv(cfg, s) && Enabled(s, step)
    ensures Inv(cfg, Fire(cfg, s, step))
  {
    match step
    case InsertJob(_, _, _, _, _) => InsertStepInv(cfg, s, step);
    case Request(handle, call) => RequestInv(cfg, s, handle, call);
    case ClaimNext(_, _, _, _) => ClaimStepInv(cfg, s, step);
    case Work(token, act) => WorkInv(cfg, s, token, act);
    case Cleanup(now) => CleanupInv(cfg, s, now);
    case Crash(token) => CrashInv(cfg, s, token);
    case _ => QuietStepInv(cfg, s, step);
  }

  lemma StepInv(cfg: Config, s: System, step: Step)
    requires cfg.Valid() && Inv(cfg, s)
    ensures Inv(cfg, Next(cfg, s, step))
  {
    if Enabled(s, step) {
      FireInv(cfg, s, step);
    }
  }

  lemma {:induction false} ExecInv(cfg: Config, s: System, steps: seq<Step>)
    requires cfg.Valid() && Inv(cfg, s)
    ensures Inv(cfg, Exec(cfg, s, steps))
  {
    if steps != [] {
      ExecInv(cfg, s, steps[..|steps| - 1]);
      StepInv(cfg, Exec(cfg, s, steps[..|steps| - 1]), steps[|steps| - 1]);
    }
  }

  /** The invariant holds in every reachable state. */
  lemma RunInv(cfg: Config, steps: seq<Step>)
    requires cfg.Valid()
    ensures Inv(cfg, Exec(cfg, Start, steps))
  {
    assert ReportedIds(Start.db.rows) == {};
    ExecInv(cfg, Start, steps);
  }
}
