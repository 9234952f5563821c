/**
  `createAnalysisJob` counts the live jobs and inserts a new one in a second statement,
  so requests that overlap can exceed the cap. The overshoot is bounded by the number of
  overlapping requests, and that bound is reached.
*/
module JobOvershoot {
  import opened Sets
  import opened JobRows
  import opened JobProtocol
  import opened JobInvariants
  import opened JobSteps
  import opened JobTheorems

  /** At most `k` requests are ever between the count and the insert. */
  ghost predicate Overlap(cfg: Config, steps: seq<Step>, k: nat) {
    forall n | 0 <= n <= |steps| :: Exec(cfg, Start, steps[..n]).creators <= k
  }

  ghost function Active(s: System): nat {
    |ActiveIds(s.db.rows, s.clock)|
  }

  lemma ActiveStep(cfg: Config, s: System, step: Step)
    requires cfg.Valid() && Inv(cfg, s) && Enabled(s, step) && !step.Admit? && !step.InsertJob?
    ensures Active(Next(cfg, s, step)) <= Active(s)
    ensures Next(cfg, s, step).creators <= s.creators
  {
    var s' := Next(cfg, s, step);
    forall id | id in ActiveIds(s'.db.rows, s'.clock)
      ensures id in ActiveIds(s.db.rows, s.clock)
    {
      StepRowStep(cfg, s, step, id);
      StepKeepsIds(cfg, s, step, id);
    }
    SubsetAtMost(ActiveIds(s'.db.rows, s'.clock), ActiveIds(s.db.rows, s.clock));
  }

  lemma StepKeepsIds(cfg: Config, s: System, step: Step, id: JobId)
    requires cfg.Valid() && Inv(cfg, s) && !step.InsertJob?
    ensures id in Next(cfg, s, step).db.rows ==> id in s.db.rows
  {
    StepRowStep(cfg, s, step, id);
    assert RowsInv(cfg, Next(cfg, s, step).db.rows, Next(cfg, s, step).ids) by {
      StepInv(cfg, s, step);
    }
    OnlyInsertAddsIds(cfg, s, step);
  }

  lemma OnlyInsertAddsIds(cfg: Config, s: System, step: Step)
    requires !step.InsertJob?
    ensures Next(cfg, s, step).ids == s.ids
  {
  }

  lemma GateStep(cfg: Config, s: System, step: Step, k: nat)
    requires cfg.Valid() && Inv(cfg, s) && Next(cfg, s, step).creators <= k
    requires Active(s) + s.creators <= cfg.maxActive - 1 + k
    ensures var s' := Next(cfg, s, step);
      Active(s') + s'.creators <= cfg.maxActive - 1 + k
  {
    if Enabled(s, step) {
      match step
      case Admit(now) =>
        SubsetAtMost(ActiveIds(s.db.rows, s.clock), ActiveIds(s.db.rows, now));
      case InsertJob(id, handle, input, now, appNow) =>
        SubsetAtMost(ActiveIds(Next(cfg, s, step).db.rows, s.clock), ActiveIds(s.db.rows, s.clock) + {id});
      case _ => ActiveStep(cfg, s, step);
    }
  }

  /**
    With at most `k` overlapping admissions the live, unexpired jobs never exceed the cap
    by more than `k - 1`; a single admission at a time never exceeds the cap at all.
  */
  lemma {:induction false} OvershootBounded(cfg: Config, steps: seq<Step>, k: nat)
    requires cfg.Valid() && Overlap(cfg, steps, k)
    ensures var s := Exec(cfg, Start, steps);
      Active(s) + s.creators <= cfg.maxActive - 1 + k
  {
    if steps == [] {
      assert ActiveIds(Start.db.rows, Start.clock) == {};
    } else {
      var rest := steps[..|steps| - 1];
      forall n | 0 <= n <= |rest|
        ensures Exec(cfg, Start, rest[..n]).creators <= k
      {
        assert steps[..n] == rest[..n];
      }
      OvershootBounded(cfg, rest, k);
      RunInv(cfg, rest);
      assert steps[..|steps|] == steps;
      GateStep(cfg, Exec(cfg, Start, rest), steps[|steps| - 1], k);
    }
  }

  // ----- the bound is reached -----

  lemma ExecSnoc(cfg: Config, steps: seq<Step>, step: Step)
    ensures Exec(cfg, Start, steps + [step]) == Next(cfg, Exec(cfg, Start, steps), step)
  {
    assert (steps + [step])[..|steps|] == steps;
  }

  lemma OverlapSnoc(cfg: Config, steps: seq<Step>, step: Step, k: nat)
    requires Overlap(cfg, steps, k) && Exec(cfg, Start, steps + [step]).creators <= k
    ensures Overlap(cfg, steps + [step], k)
  {
    var all := steps + [step];
    forall n | 0 <= n <= |all|
      ensures Exec(cfg, Start, all[..n]).creators <= k
    {
      if n <= |steps| {
        assert all[..n] == steps[..n];
      } else {
        assert all[..n] == all;
      }
    }
  }

  /** Jobs 0 to n - 1 are queued and unexpired, and `c` requests are past the count. */
  ghost predicate Loaded(s: System, n: nat, c: nat) {
    && s.clock == 0 && s.creators == c
    && s.ids == s.db.rows.Keys && |s.db.rows| == n
    && (forall id | id in s.db.rows ::
          id < n && s.db.rows[id].handle == id && 0 < s.db.rows[id].expiresAt && s.db.rows[id].status == Queued)
  }

  lemma LoadedActive(s: System, n: nat, c: nat)
    requires Loaded(s, n, c)
    ensures Active(s) == n
  {
    assert ActiveIds(s.db.rows, s.clock) == s.db.rows.Keys;
  }

  predicate UploadAllowed(input: Upload) {
    SlugAllowed(input.roleSlug) && SeniorityAllowed(input.seniority)
  }

  lemma LoadInsert(cfg: Config, s: System, n: nat, c: nat, input: Upload)
    requires cfg.Valid() && Loaded(s, n, c) && 0 < c && UploadAllowed(input)
    ensures Loaded(Next(cfg, s, InsertJob(n, n, input, 0, 0)), n + 1, c - 1)
  {
    var r := NewRow(cfg, n, n, input, 0, 0);
    assert Insertable(s.db, r);
    assert s.db.rows[n := r].Keys == s.db.rows.Keys + {n};
    assert |s.db.rows[n := r].Keys| == |s.db.rows.Keys| + 1;
  }

  lemma {:induction false} LoadRun(cfg: Config, n: nat, k: nat, input: Upload) returns (steps: seq<Step>)
    requires cfg.Valid() && 0 < k && n < cfg.maxActive && UploadAllowed(input)
    ensures Overlap(cfg, steps, k) && Loaded(Exec(cfg, Start, steps), n, 0)
  {
    steps := [];
    if n > 0 {
      var before := LoadRun(cfg, n - 1, k, input);
      var s := Exec(cfg, Start, before);
      LoadedActive(s, n - 1, 0);
      ExecSnoc(cfg, before, Admit(0));
      OverlapSnoc(cfg, before, Admit(0), k);
      LoadInsert(cfg, Next(cfg, s, Admit(0)), n - 1, 1, input);
      steps := before + [Admit(0)] + [InsertJob(n - 1, n - 1, input, 0, 0)];
      ExecSnoc(cfg, before + [Admit(0)], InsertJob(n - 1, n - 1, input, 0, 0));
      OverlapSnoc(cfg, before + [Admit(0)], InsertJob(n - 1, n - 1, input, 0, 0), k);
    }
  }

  /** `c` more requests pass the count while the table is one short of the cap. */
  lemma {:induction false} AdmitRun(cfg: Config, k: nat, c: nat, input: Upload) returns (steps: seq<Step>)
    requires cfg.Valid() && 0 < k && c <= k && UploadAllowed(input)
    ensures Overlap(cfg, steps, k) && Loaded(Exec(cfg, Start, steps), cfg.maxActive - 1, c)
  {
    if c == 0 {
      steps := LoadRun(cfg, cfg.maxActive - 1, k, input);
    } else {
      var before := AdmitRun(cfg, k, c - 1, input);
      LoadedActive(Exec(cfg, Start, before), cfg.maxActive - 1, c - 1);
      steps := before + [Admit(0)];
      ExecSnoc(cfg, before, Admit(0));
      OverlapSnoc(cfg, before, Admit(0), k);
    }
  }

  /** All `k` waiting requests insert: the bound of `OvershootBounded` is reached for every `k`. */
  lemma {:induction false} OvershootReached(cfg: Config, k: nat, j: nat, input: Upload) returns (steps: seq<Step>)
    requires cfg.Valid() && 0 < k && j <= k && UploadAllowed(input)
    ensures Overlap(cfg, steps, k)
    ensures Active(Exec(cfg, Start, steps)) == cfg.maxActive - 1 + j
    ensures Loaded(Exec(cfg, Start, steps), cfg.maxActive - 1 + j, k - j)
  {
    if j == 0 {
      steps := AdmitRun(cfg, k, k, input);
      LoadedActive(Exec(cfg, Start, steps), cfg.maxActive - 1, k);
    } else {
      var before := OvershootReached(cfg, k, j - 1, input);
      var n := cfg.maxActive - 1 + (j - 1);
      var step := InsertJob(n, n, input, 0, 0);
      LoadInsert(cfg, Exec(cfg, Start, before), n, k - j + 1, input);
      steps := before + [step];
      ExecSnoc(cfg, before, step);
      OverlapSnoc(cfg, before, step, k);
      LoadedActive(Exec(cfg, Start, steps), n + 1, k - j);
    }
  }
}
