/** Whole runs of the queue in which every repository call is one step, issued by any instance in any order.
    A crash is an instance that issues no further call. */
module QueueRuns {
  import opened Base
  import opened SendJobs

  datatype Call =
    | Create(id: int, taskId: int, logId: int, vars: string, key: string)
    | ClaimDue(inst: string, limit: nat, now: int)
    | OneRow(id: int, u: Update) // RenewClaim, MarkDone or MarkFailed; or a claim or recovery of this row alone
    | RecoverAll(now: int, appNow: int)

  function Step(t: Table, c: Call, cfg: Config): Table {
    match c
    case Create(id, taskId, logId, vars, key) =>
      if HasKey(t, key) || id in t then t else t[id := NewJob(taskId, logId, vars, key)]
    case ClaimDue(inst, limit, now) => OnRows(t, DueIds(t, now, limit), Update.Claim(inst, now))
    case OneRow(id, u) => OnRow(t, id, u)
    case RecoverAll(now, appNow) => OnEveryRow(t, Recover(cfg, now, appNow))
  }

  /** The calls the service makes: retry limits never exceed the configured one (a corrupt payload passes 1). */
  predicate Allowed(c: Call, cfg: Config) {
    c.OneRow? ==>
      || c.u.Claim? || c.u.Renew? || c.u.Finish?
      || (c.u.Fail? && 1 <= c.u.max <= cfg.maxAttempts)
      || (c.u.Recover? && c.u.cfg == cfg)
  }

  ghost predicate AllAllowed(run: seq<Call>, cfg: Config) {
    1 <= cfg.maxAttempts && forall c :: c in run ==> Allowed(c, cfg)
  }

  function Exec(t: Table, run: seq<Call>, cfg: Config): Table {
    if run == [] then t else Step(Exec(t, run[..|run| - 1], cfg), run[|run| - 1], cfg)
  }

  lemma {:induction false} ExecAppend(t: Table, a: seq<Call>, b: seq<Call>, cfg: Config)
    ensures Exec(t, a + b, cfg) == Exec(Exec(t, a, cfg), b, cfg)
  {
    if b == [] {
      assert a + b == a;
    } else {
      var n := |b| - 1;
      ExecAppend(t, a, b[..n], cfg);
      assert (a + b)[..|a + b| - 1] == a + b[..n];
    }
  }

  // ---- what one step does to one row ----

  function UpdateOf(t: Table, c: Call, cfg: Config, id: int): Option<Update> {
    match c
    case Create(_, _, _, _, _) => None
    case ClaimDue(inst, limit, now) => if id in DueIds(t, now, limit) then Some(Update.Claim(inst, now)) else None
    case OneRow(k, u) => if k == id then Some(u) else None
    case RecoverAll(now, appNow) => Some(Recover(cfg, now, appNow))
  }

  lemma RowAfter(t: Table, c: Call, cfg: Config, id: int)
    requires id in t
    ensures id in Step(t, c, cfg)
    ensures var u := UpdateOf(t, c, cfg, id);
            Step(t, c, cfg)[id] == if u == None then t[id] else Apply(t[id], u.value)
  {
  }

  lemma NewRow(t: Table, c: Call, cfg: Config, id: int)
    requires id !in t && id in Step(t, c, cfg)
    ensures c.Create? && c.id == id && Step(t, c, cfg)[id] == NewJob(c.taskId, c.logId, c.vars, c.key)
  {
  }

  predicate Moved(j: Job, k: Job) {
    j.status != k.status || j.attempts != k.attempts
  }

  // ---- how often a job is sent ----

  function IsClaim(t: Table, c: Call, cfg: Config, id: int): nat {
    if id in t && id in Step(t, c, cfg) && t[id].status == Pending && Step(t, c, cfg)[id].status == Claimed
    then 1 else 0
  }

  function Claims(t: Table, run: seq<Call>, cfg: Config, id: int): nat {
    if run == [] then 0
    else
      var before := run[..|run| - 1];
      Claims(t, before, cfg, id) + IsClaim(Exec(t, before, cfg), run[|run| - 1], cfg, id)
  }

  /** `claims` counts the hand-outs of this row so far. */
  predicate ClaimLaw(j: Job, claims: nat, maxAttempts: int) {
    match j.status
    case Pending => claims == j.attempts < maxAttempts
    case Claimed => 1 <= claims == j.attempts + 1 <= maxAttempts
    case Done => 1 <= claims == j.attempts + 1 <= maxAttempts
    case Failed => 1 <= claims <= maxAttempts && (claims == j.attempts || claims == j.attempts + 1)
  }

  lemma ClaimLawStep(j: Job, u: Update, claims: nat, cfg: Config)
    requires ClaimLaw(j, claims, cfg.maxAttempts)
    requires u.Claim? || u.Renew? || u.Finish? || (u.Fail? && 1 <= u.max <= cfg.maxAttempts)
            || (u.Recover? && u.cfg == cfg)
    ensures var k := Apply(j, u);
            ClaimLaw(k, claims + (if j.status == Pending && k.status == Claimed then 1 else 0), cfg.maxAttempts)
  {
  }

  /** From an empty table, the hand-outs of every job are tied exactly to its attempts counter. */
  lemma {:induction false} ClaimsFollowAttempts(run: seq<Call>, cfg: Config, id: int)
    requires AllAllowed(run, cfg)
    ensures var t := Exec(map[], run, cfg);
            if id in t then ClaimLaw(t[id], Claims(map[], run, cfg, id), cfg.maxAttempts)
            else Claims(map[], run, cfg, id) == 0
  {
    if run != [] {
      var before, c := run[..|run| - 1], run[|run| - 1];
      ClaimsFollowAttempts(before, cfg, id);
      var t := Exec(map[], before, cfg);
      if id in t {
        RowAfter(t, c, cfg, id);
        var u := UpdateOf(t, c, cfg, id);
        if u.Some? {
          assert Allowed(c, cfg);
          ClaimLawStep(t[id], u.value, Claims(map[], before, cfg, id), cfg);
        }
      } else if id in Step(t, c, cfg) {
        NewRow(t, c, cfg, id);
      }
    }
  }

  /** However the calls interleave and whichever instances stop, no job is handed out more than maxAttempts times. */
  lemma BoundedSends(run: seq<Call>, cfg: Config, id: int)
    requires AllAllowed(run, cfg)
    ensures Claims(map[], run, cfg, id) <= cfg.maxAttempts
  {
    ClaimsFollowAttempts(run, cfg, id);
  }

  // ---- every job ends ----

  function Work(j: Job, maxAttempts: int): int {
    match j.status
    case Pending => 2 * (maxAttempts - j.attempts)
    case Claimed => 2 * (maxAttempts - j.attempts) - 1
    case Done => 0
    case Failed => 0
  }

  lemma WorkFalls(j: Job, u: Update, cfg: Config)
    requires !Terminal(j) ==> j.attempts < cfg.maxAttempts
    requires u.Claim? || u.Renew? || u.Finish? || (u.Fail? && 1 <= u.max <= cfg.maxAttempts)
            || (u.Recover? && u.cfg == cfg)
    ensures var k := Apply(j, u);
            && 0 <= Work(k, cfg.maxAttempts) <= Work(j, cfg.maxAttempts)
            && (Moved(j, k) ==> Work(k, cfg.maxAttempts) < Work(j, cfg.maxAttempts))
  {
  }

  function Moves(t: Table, run: seq<Call>, cfg: Config, id: int): nat {
    if run == [] then 0
    else
      var before := run[..|run| - 1];
      var s := Exec(t, before, cfg);
      var s' := Step(s, run[|run| - 1], cfg);
      Moves(t, before, cfg, id) + if id in s && id in s' && Moved(s[id], s'[id]) then 1 else 0
  }

  /** A job changes status or counter at most 2 * maxAttempts times in any run. */
  lemma {:induction false} BoundedMoves(run: seq<Call>, cfg: Config, id: int)
    requires AllAllowed(run, cfg)
    ensures var t := Exec(map[], run, cfg);
            if id in t then Moves(map[], run, cfg, id) + Work(t[id], cfg.maxAttempts) <= 2 * cfg.maxAttempts
                            && 0 <= Work(t[id], cfg.maxAttempts)
            else Moves(map[], run, cfg, id) == 0
  {
    if run != [] {
      var before, c := run[..|run| - 1], run[|run| - 1];
      BoundedMoves(before, cfg, id);
      ClaimsFollowAttempts(before, cfg, id);
      var t := Exec(map[], before, cfg);
      if id in t {
        RowAfter(t, c, cfg, id);
        var u := UpdateOf(t, c, cfg, id);
        if u.Some? {
          assert Allowed(c, cfg);
          WorkFalls(t[id], u.value, cfg);
        }
      } else if id in Step(t, c, cfg) {
        NewRow(t, c, cfg, id);
      }
    }
  }

  // ---- done and failed are final; a former holder has no effect ----

  lemma {:induction false} TerminalIsFinal(t: Table, run: seq<Call>, cfg: Config, id: int)
    requires AllAllowed(run, cfg) && id in t && Terminal(t[id])
    ensures id in Exec(t, run, cfg) && Exec(t, run, cfg)[id] == t[id]
  {
    if run != [] {
      var before, c := run[..|run| - 1], run[|run| - 1];
      TerminalIsFinal(t, before, cfg, id);
      assert Allowed(c, cfg);
      RowAfter(Exec(t, before, cfg), c, cfg, id);
    }
  }

  /** The step hands this very row to `inst`. */
  predicate TakesRow(t: Table, c: Call, cfg: Config, id: int, inst: string) {
    var u := UpdateOf(t, c, cfg, id);
    u.Some? && u.value.Claim? && u.value.inst == inst
  }

  /** `inst` does not claim this row again; it may claim any others. */
  ghost predicate NeverRetaken(t: Table, run: seq<Call>, cfg: Config, id: int, inst: string) {
    forall k :: 0 <= k < |run| ==> !TakesRow(Exec(t, run[..k], cfg), run[k], cfg, id, inst)
  }

  predicate IsCallBy(c: Call, id: int, inst: string) {
    c.OneRow? && c.id == id && (match c.u
                                case Renew(i, _) => i == inst
                                case Finish(i, _) => i == inst
                                case Fail(i, _, _, _, _) => i == inst
                                case _ => false)
  }

  /** Once `inst` has lost a job (to a takeover or to completion), nothing it later calls on that job has any
      effect on the table, until it claims that same job again. Its other workers may go on claiming other jobs. */
  lemma {:induction false} FormerHolderHasNoEffect(t: Table, run: seq<Call>, cfg: Config, id: int, inst: string)
    requires AllAllowed(run, cfg) && id in t && !HeldBy(t[id], inst) && NeverRetaken(t, run, cfg, id, inst)
    ensures id in Exec(t, run, cfg) && !HeldBy(Exec(t, run, cfg)[id], inst)
    ensures forall c :: IsCallBy(c, id, inst) ==> Step(Exec(t, run, cfg), c, cfg) == Exec(t, run, cfg)
  {
    if run != [] {
      var n := |run| - 1;
      forall k | 0 <= k < n ensures !TakesRow(Exec(t, run[..n][..k], cfg), run[..n][k], cfg, id, inst) {
        assert run[..n][..k] == run[..k];
      }
      FormerHolderHasNoEffect(t, run[..n], cfg, id, inst);
      assert run[n] in run;
      NotRetakenStep(Exec(t, run[..n], cfg), run[n], cfg, id, inst);
    }
  }

  lemma NotRetakenStep(t: Table, c: Call, cfg: Config, id: int, inst: string)
    requires Allowed(c, cfg) && id in t && !HeldBy(t[id], inst) && !TakesRow(t, c, cfg, id, inst)
    ensures id in Step(t, c, cfg) && !HeldBy(Step(t, c, cfg)[id], inst)
  {
    RowAfter(t, c, cfg, id);
  }

  /** Claimed rows carry a holder and a time, and no others do. */
  lemma {:induction false} ClaimColumnsAgree(run: seq<Call>, cfg: Config, id: int)
    requires AllAllowed(run, cfg) && id in Exec(map[], run, cfg)
    ensures WellFormedRow(Exec(map[], run, cfg)[id])
  {
    if run != [] {
      var before, c := run[..|run| - 1], run[|run| - 1];
      var t := Exec(map[], before, cfg);
      assert Allowed(c, cfg);
      if id in t {
        ClaimColumnsAgree(before, cfg, id);
        RowAfter(t, c, cfg, id);
      } else {
        NewRow(t, c, cfg, id);
      }
    }
  }

  lemma ClaimTakesIff(t: Table, cfg: Config, id: int, inst: string, limit: nat, now: int)
    requires id in t && Due(t[id], now)
    ensures var t' := Step(t, ClaimDue(inst, limit, now), cfg);
            id in t' && (Moved(t[id], t'[id]) <==> |SmallerDue(t, now, id)| < limit)
  {
    RowAfter(t, ClaimDue(inst, limit, now), cfg, id);
    SelectedIff(t, now, limit, id);
  }

  lemma RecoveryTakesIff(t: Table, cfg: Config, id: int, now: int, appNow: int)
    requires id in t
    ensures var t' := Step(t, RecoverAll(now, appNow), cfg);
            id in t' && (Moved(t[id], t'[id]) <==> Stale(t[id], cfg.ttl, now))
  {
    RowAfter(t, RecoverAll(now, appNow), cfg, id);
  }

  /** A claim with room for at least one more than the smaller due ids takes the job, and no other does; a recovery
      after the TTL takes it from whoever holds it. */
  lemma NoJobIsStuck(t: Table, cfg: Config, id: int, inst: string, limit: nat, now: int, appNow: int)
    requires id in t
    ensures Due(t[id], now) ==>
              var t' := Step(t, ClaimDue(inst, limit, now), cfg);
              id in t' && (Moved(t[id], t'[id]) <==> |SmallerDue(t, now, id)| < limit)
    ensures var t' := Step(t, RecoverAll(now, appNow), cfg);
            id in t' && (Moved(t[id], t'[id]) <==> Stale(t[id], cfg.ttl, now))
  {
    RecoveryTakesIff(t, cfg, id, now, appNow);
    if Due(t[id], now) { ClaimTakesIff(t, cfg, id, inst, limit, now); }
  }
}
