/** The mail server is asked to deliver a job's report at most `maxEmail` times. */
module JobMail {
  import opened Wrappers
  import opened JobRows
  import opened JobProtocol
  import opened JobInvariants
  import opened JobSteps
  import opened JobTheorems

  function MailCount(log: seq<LogEntry>, id: JobId): nat {
    if log == [] then 0
    else
      var last := log[|log| - 1];
      MailCount(log[..|log| - 1], id) + if last.Mailed? && last.id == id then 1 else 0
  }

  lemma MailCountGrows(log: seq<LogEntry>, e: LogEntry, id: JobId)
    ensures MailCount(log + [e], id) == MailCount(log, id) + if e.Mailed? && e.id == id then 1 else 0
  {
    assert (log + [e])[..|log|] == log;
  }

  /** Sends never outnumber the e-mail attempts charged to the row, and a claim about to send has one in hand. */
  ghost predicate MailInv(cfg: Config, rows: map<JobId, Row>, claims: map<Token, Held>, ids: set<JobId>,
                          log: seq<LogEntry>)
  {
    && (forall id: JobId :: MailCount(log, id) <= cfg.maxEmail)
    && (forall id: JobId | id !in ids :: MailCount(log, id) == 0)
    && (forall id | id in rows :: MailCount(log, id) <= rows[id].emailAttempts)
    && (forall t | t in claims && Sending(claims[t]) :: MailCount(log, claims[t].row.id) < claims[t].row.emailAttempts)
  }

  ghost predicate MailsCharged(cfg: Config, s: System) {
    MailInv(cfg, s.db.rows, s.claims, s.ids, s.log)
  }

  /** Rows keep their charged attempts, and only new jobs get new rows. */
  ghost predicate ChargesKept(rows: map<JobId, Row>, rows': map<JobId, Row>, ids: set<JobId>) {
    forall id | id in rows' ::
      if id in rows then rows[id].emailAttempts <= rows'[id].emailAttempts else id !in ids
  }

  /** A row change that leaves the log as it is and lets nobody send who could not before. */
  lemma RowsMailInv(cfg: Config, rows: map<JobId, Row>, rows': map<JobId, Row>, claims: map<Token, Held>,
                    claims': map<Token, Held>, ids: set<JobId>, ids': set<JobId>, log: seq<LogEntry>)
    requires MailInv(cfg, rows, claims, ids, log) && ChargesKept(rows, rows', ids) && ids <= ids'
    requires forall t | t in claims' && Sending(claims'[t]) :: t in claims && claims'[t] == claims[t]
    ensures MailInv(cfg, rows', claims', ids', log)
  {
  }

  lemma StepKeepsCharges(cfg: Config, s: System, step: Step)
    requires cfg.Valid() && Inv(cfg, s)
    ensures ChargesKept(s.db.rows, Next(cfg, s, step).db.rows, s.ids)
  {
    var rows' := Next(cfg, s, step).db.rows;
    forall id | id in rows'
      ensures if id in s.db.rows then s.db.rows[id].emailAttempts <= rows'[id].emailAttempts else id !in s.ids
    {
      StepRowStep(cfg, s, step, id);
    }
  }

  /** A claim charges the attempt it is about to use. */
  lemma ChargedMailInv(cfg: Config, rows: map<JobId, Row>, claims: map<Token, Held>, ids: set<JobId>,
                       log: seq<LogEntry>,
                       id: JobId, token: Token, r': Row)
    requires MailInv(cfg, rows, claims, ids, log) && id in rows && r'.id == id
    requires rows[id].emailAttempts + (if r'.status == EmailSending then 1 else 0) == r'.emailAttempts
    ensures MailInv(cfg, rows[id := r'], claims[token := Held(r', Working)], ids, log)
  {
    var claims' := claims[token := Held(r', Working)];
    forall t | t in claims' && Sending(claims'[t])
      ensures MailCount(log, claims'[t].row.id) < claims'[t].row.emailAttempts
    {
      if t == token {
        assert MailCount(log, id) <= rows[id].emailAttempts;
      }
    }
  }

  lemma ClaimMailInv(cfg: Config, s: System, step: Step)
    requires RowsInv(cfg, s.db.rows, s.ids) && MailsCharged(cfg, s) && Enabled(s, step) && step.ClaimNext?
    ensures MailsCharged(cfg, Fire(cfg, s, step))
  {
    var id, r' := step.id, Claimed(cfg, s.db.rows[step.id], step.token, step.now);
    assert EffectOf(cfg, Claim(step.token, step.now), s.db.rows[id]) == Put(r', None);
    assert s.db.rows[id].id == id;
    ChargedMailInv(cfg, s.db.rows, s.claims, s.ids, s.log, id, step.token, r');
  }

  /** A send uses the attempt its claim was charged, and no other claim may send for that job. */
  lemma SentMailInv(cfg: Config, rows: map<JobId, Row>, claims: map<Token, Held>, ids: set<JobId>, log: seq<LogEntry>,
                    token: Token, reply: MailReply)
    requires MailInv(cfg, rows, claims, ids, log) && SendInv(rows, claims, log)
    requires token in claims && Sending(claims[token])
    requires claims[token].row.id in ids && claims[token].row.emailAttempts <= cfg.maxEmail
    requires claims[token].row.id in rows
      ==> rows[claims[token].row.id].emailAttempts == claims[token].row.emailAttempts
    ensures MailInv(cfg, rows, claims[token := claims[token].(phase := Sent(Classify(reply)))], ids,
                    log + [Mailed(claims[token].row.id, reply)])
  {
    var c := claims[token];
    var claims', log' := claims[token := c.(phase := Sent(Classify(reply)))], log + [Mailed(c.row.id, reply)];
    forall id: JobId
      ensures MailCount(log', id) == MailCount(log, id) + if id == c.row.id then 1 else 0
    {
      MailCountGrows(log, Mailed(c.row.id, reply), id);
    }
    forall t | t in claims' && Sending(claims'[t])
      ensures t in claims && claims'[t] == claims[t] && claims[t].row.id != c.row.id
    {
      assert t != token;
    }
  }

  lemma SendMailInv(cfg: Config, s: System, token: Token, reply: MailReply)
    requires Inv(cfg, s) && MailsCharged(cfg, s) && token in s.claims && Sending(s.claims[token])
    ensures MailsCharged(cfg, Worked(cfg, s, token, Send(reply)))
  {
    var c := s.claims[token];
    assert RowOk(cfg, c.row);
    if c.row.id in s.db.rows {
      assert SameLease(s.db.rows[c.row.id], c.row);
    }
    SentMailInv(cfg, s.db.rows, s.claims, s.ids, s.log, token, reply);
  }

  lemma FastMailInv(cfg: Config, rows: map<JobId, Row>, claims: map<Token, Held>, ids: set<JobId>, log: seq<LogEntry>,
                    id: JobId)
    requires MailInv(cfg, rows, claims, ids, log)
    ensures MailInv(cfg, rows, claims, ids, log + [FastTaken(id)])
  {
    forall other: JobId {
      MailCountGrows(log, FastTaken(id), other);
    }
  }

  lemma RequestMailInv(cfg: Config, s: System, handle: Handle, call: Call)
    requires MailsCharged(cfg, s)
    requires ChargesKept(s.db.rows, Requested(cfg, s, handle, call).db.rows, s.ids)
    ensures MailsCharged(cfg, Requested(cfg, s, handle, call))
  {
    var rows' := Requested(cfg, s, handle, call).db.rows;
    RowsMailInv(cfg, s.db.rows, rows', s.claims, s.claims, s.ids, s.ids, s.log);
    var id := RequestLog(cfg, s, handle, call);
    FastMailInv(cfg, rows', s.claims, s.ids, s.log, id);
  }

  /** A request logs nothing but a fast result. */
  lemma RequestLog(cfg: Config, s: System, handle: Handle, call: Call) returns (id: JobId)
    ensures var s' := Requested(cfg, s, handle, call);
      s'.claims == s.claims && s'.ids == s.ids && s'.log in {s.log, s.log + [FastTaken(id)]}
  {
    var found := ByHandle(s.db.rows, handle);
    id := if found.Some? then found.value else 0;
  }

  /** A step that is no request, no claim and no send leaves the log alone and lets nobody new send. */
  lemma QuietClaims(cfg: Config, s: System, step: Step)
    requires Enabled(s, step) && !step.Request? && !step.ClaimNext? && !(step.Work? && step.act.Send?)
    ensures var s' := Fire(cfg, s, step);
      && s'.log == s.log && s.ids <= s'.ids
      && forall t | t in s'.claims && Sending(s'.claims[t]) :: t in s.claims && s'.claims[t] == s.claims[t]
  {
  }

  lemma QuietMailInv(cfg: Config, s: System, step: Step)
    requires cfg.Valid() && Inv(cfg, s) && MailsCharged(cfg, s) && Enabled(s, step)
    requires !step.Request? && !step.ClaimNext? && !(step.Work? && step.act.Send?)
    ensures MailsCharged(cfg, Fire(cfg, s, step))
  {
    var s' := Next(cfg, s, step);
    StepKeepsCharges(cfg, s, step);
    QuietClaims(cfg, s, step);
    RowsMailInv(cfg, s.db.rows, s'.db.rows, s.claims, s'.claims, s.ids, s'.ids, s.log);
  }

  lemma StepMailInv(cfg: Config, s: System, step: Step)
    requires cfg.Valid() && Inv(cfg, s) && MailsCharged(cfg, s)
    ensures MailsCharged(cfg, Next(cfg, s, step))
  {
    if Enabled(s, step) {
      if step.Request? {
        StepKeepsCharges(cfg, s, step);
        RequestMailInv(cfg, s, step.handle, step.call);
      } else if step.ClaimNext? {
        ClaimMailInv(cfg, s, step);
      } else if step.Work? && step.act.Send? {
        SendMailInv(cfg, s, step.token, step.act.reply);
      } else {
        QuietMailInv(cfg, s, step);
      }
    }
  }

  lemma {:induction false} RunMailInv(cfg: Config, steps: seq<Step>)
    requires cfg.Valid()
    ensures MailsCharged(cfg, Exec(cfg, Start, steps))
  {
    if steps != [] {
      RunMailInv(cfg, steps[..|steps| - 1]);
      RunInv(cfg, steps[..|steps| - 1]);
      StepMailInv(cfg, Exec(cfg, Start, steps[..|steps| - 1]), steps[|steps| - 1]);
    }
  }

  /** Over every run, retries included. */
  lemma SendsBounded(cfg: Config, steps: seq<Step>, id: JobId)
    requires cfg.Valid()
    ensures MailCount(Exec(cfg, Start, steps).log, id) <= cfg.maxEmail
  {
    RunMailInv(cfg, steps);
  }
}
