/** The statement level refines the call level: a whole run of interleaved statements, in which no gap between the two
    UPDATEs of a MarkFailed is disturbed, does to the table what some run of atomic calls does. */
module QueueRefinement {
  import opened Base
  import opened SendJobs
  import Q = QueueRuns
  import opened QueueStatements
  import opened QueueAnomalies

  /** Thread w is between the two UPDATEs of MarkFailed on job id. */
  predicate Open(s: Sys, w: int, id: int) { IsFailing(s, w) && s.threads[w].id == id }

  /** A gap is open on the job: `inst` has counted a failure that is still to be settled. */
  predicate OpenBy(s: Sys, id: int, inst: string) {
    exists w :: w in s.threads && Open(s, w, id) && s.threads[w].inst == inst
  }

  /** The statement disturbs no open gap: recovery looks while the claims are fresh, and no second thread of the holder
      finishes or fails the same job. Threads may die anywhere. */
  ghost predicate Calm(s: Sys, st: Stmt, cfg: Config) {
    match st
    case FinishOne(id, inst, _) => !OpenBy(s, id, inst)
    case CountFail(_, id, inst, _, _) => !OpenBy(s, id, inst)
    case Requeue(now, _) => GapsFresh(s, cfg, now)
    case Abandon(now) => GapsFresh(s, cfg, now)
    case _ => true
  }

  /** A thread dies inside a gap: its failure is counted and will never be settled. */
  predicate DiesInGap(s: Sys, st: Stmt) { st.Crash? && IsFailing(s, st.w) }

  /** A call of the call level, or what is left of a MarkFailed whose thread died: the counting alone. */
  predicate Permitted(c: Q.Call, cfg: Config) { Q.Allowed(c, cfg) || (c.OneRow? && c.u.CountFailure?) }

  ghost predicate NobodyDiesInGap(run: seq<Stmt>, cfg: Config) {
    forall k :: 0 <= k < |run| ==> !DiesInGap(Exec(EMPTY, run[..k], cfg), run[k])
  }

  ghost predicate GapsFresh(s: Sys, cfg: Config, now: int) {
    forall w, id :: id in s.jobs && Open(s, w, id) ==> !Stale(s.jobs[id], cfg.ttl, now)
  }

  ghost predicate CalmRun(run: seq<Stmt>, cfg: Config) {
    forall k :: 0 <= k < |run| ==> Calm(Exec(EMPTY, run[..k], cfg), run[k], cfg)
  }

  // ---- the refinement relation ----

  /** What an open gap looks like from the call level, where the failure has not been counted yet. */
  predicate Counted(s: Sys, t: Table, w: int, cfg: Config)
    requires IsFailing(s, w)
  {
    var Failing(id, inst, attempts, max) := s.threads[w];
    && id in t && id in s.jobs && HeldBy(t[id], inst)
    && attempts == t[id].attempts + 1 && 1 <= max <= cfg.maxAttempts
    && s.jobs[id] == Apply(t[id], CountFailure(inst, s.jobs[id].lastError))
  }

  ghost predicate AllCounted(s: Sys, t: Table, cfg: Config) { forall w :: IsFailing(s, w) ==> Counted(s, t, w, cfg) }

  ghost predicate DistinctGaps(s: Sys) {
    forall v, w :: IsFailing(s, v) && IsFailing(s, w) && v != w ==> s.threads[v].id != s.threads[w].id
  }

  ghost predicate NoGap(s: Sys, id: int) { forall w :: !Open(s, w, id) }

  ghost predicate RestAgrees(s: Sys, t: Table) {
    s.jobs.Keys == t.Keys && forall id :: id in s.jobs && NoGap(s, id) ==> s.jobs[id] == t[id]
  }

  /** Rows agree, except that a row with an open gap has its failure counted already. */
  ghost predicate Refines(s: Sys, t: Table, cfg: Config) {
    AllCounted(s, t, cfg) && DistinctGaps(s) && RestAgrees(s, t)
  }

  ghost predicate SameGaps(s: Sys, s': Sys) {
    && (forall w :: IsFailing(s', w) <==> IsFailing(s, w))
    && forall w :: IsFailing(s, w) && IsFailing(s', w) ==> s'.threads[w] == s.threads[w]
  }

  /** Both levels change the same row in the same way, and the threads keep their gaps. */
  lemma SameUpdate(s: Sys, t: Table, cfg: Config, s': Sys, id: int, u: Update)
    requires Refines(s, t, cfg)
    requires s'.jobs == OnRow(s.jobs, id, u) && SameGaps(s, s')
    requires u.Claim? || u.Renew? || (u.Finish? && !OpenBy(s, id, u.inst))
    ensures Refines(s', OnRow(t, id, u), cfg)
  {
    var t' := OnRow(t, id, u);
    forall w | IsFailing(s', w) ensures Counted(s', t', w, cfg) {
      assert Counted(s, t, w, cfg);
      if s.threads[w].id == id { assert Open(s, w, id); }
    }
    forall k | k in s'.jobs && NoGap(s', k) ensures s'.jobs[k] == t'[k] {
      assert NoGap(s, k) by { forall w ensures !Open(s, w, k) { assert !Open(s', w, k); } }
    }
  }

  lemma SameTable(s: Sys, t: Table, cfg: Config, s': Sys)
    requires Refines(s, t, cfg)
    requires s'.jobs == s.jobs && SameGaps(s, s')
    ensures Refines(s', t, cfg)
  {
    forall w | IsFailing(s', w) ensures Counted(s', t, w, cfg) { assert Counted(s, t, w, cfg); }
    forall k | k in s'.jobs && NoGap(s', k) ensures s'.jobs[k] == t[k] {
      assert NoGap(s, k) by { forall w ensures !Open(s, w, k) { assert !Open(s', w, k); } }
    }
  }

  lemma NewRowRefines(s: Sys, t: Table, cfg: Config, id: int, row: Job)
    requires Refines(s, t, cfg) && id !in s.jobs
    ensures Refines(s.(jobs := s.jobs[id := row]), t[id := row], cfg)
  {
    var s', t' := s.(jobs := s.jobs[id := row]), t[id := row];
    forall w | IsFailing(s', w) ensures Counted(s', t', w, cfg) { assert Counted(s, t, w, cfg); }
    forall k | k in s'.jobs && NoGap(s', k) ensures s'.jobs[k] == t'[k] {
      if k != id { assert NoGap(s, k) by { forall w ensures !Open(s, w, k) { assert !Open(s', w, k); } } }
    }
  }

  lemma KeysAgree(s: Sys, t: Table, cfg: Config, key: string)
    requires Refines(s, t, cfg)
    ensures HasKey(s.jobs, key) <==> HasKey(t, key)
  {
    forall id | id in s.jobs ensures s.jobs[id].dedupeKey == t[id].dedupeKey {
      if w :| Open(s, w, id) { assert Counted(s, t, w, cfg); }
    }
  }

  /** The holder of a job no thread of its own has a gap on: nobody has. */
  lemma NoGapOnOwnJob(s: Sys, t: Table, cfg: Config, id: int, inst: string)
    requires Refines(s, t, cfg) && id in s.jobs && HeldBy(s.jobs[id], inst) && !OpenBy(s, id, inst)
    ensures NoGap(s, id) && s.jobs[id] == t[id]
  {
    forall v ensures !Open(s, v, id) {
      assert IsFailing(s, v) ==> Counted(s, t, v, cfg);
    }
  }

  /** The first UPDATE of MarkFailed opens a gap; the call level does nothing yet. */
  lemma GapOpens(s: Sys, t: Table, cfg: Config, w: int, id: int, inst: string, err: string, max: int)
    requires Refines(s, t, cfg) && 1 <= max <= cfg.maxAttempts && !OpenBy(s, id, inst)
    ensures Refines(Step(s, CountFail(w, id, inst, err, max), cfg), t, cfg)
  {
    if w !in s.threads && id in s.jobs && HeldBy(s.jobs[id], inst) {
      GapOpened(s, t, cfg, Step(s, CountFail(w, id, inst, err, max), cfg), w, id, inst, err, max);
    }
  }

  lemma GapOpened(s: Sys, t: Table, cfg: Config, s': Sys, w: int, id: int, inst: string, err: string, max: int)
    requires Refines(s, t, cfg) && 1 <= max <= cfg.maxAttempts && !OpenBy(s, id, inst)
    requires w !in s.threads && id in s.jobs && HeldBy(s.jobs[id], inst)
    requires s'.jobs == s.jobs[id := Apply(s.jobs[id], CountFailure(inst, err))]
    requires s'.threads == s.threads[w := Failing(id, inst, s.jobs[id].attempts + 1, max)]
    ensures Refines(s', t, cfg)
  {
    NoGapOnOwnJob(s, t, cfg, id, inst);
    assert DistinctGaps(s') by {
      forall v | IsFailing(s', v) && v != w ensures s'.threads[v].id != id {
        assert IsFailing(s, v) && !Open(s, v, id);
      }
    }
    forall v | IsFailing(s', v) ensures Counted(s', t, v, cfg) {
      if v != w { OtherGapStays(s, t, cfg, s', v, id); }
    }
    forall k | k in s'.jobs && NoGap(s', k) ensures s'.jobs[k] == t[k] {
      assert !Open(s', w, k);
      assert NoGap(s, k) by { forall v ensures !Open(s, v, k) { assert !Open(s', v, k); } }
    }
  }

  /** A gap on another job sees neither a change of its row nor of its thread. */
  lemma OtherGapStays(s: Sys, t: Table, cfg: Config, s': Sys, v: int, id: int)
    requires Refines(s, t, cfg) && IsFailing(s, v) && IsFailing(s', v) && s'.threads[v] == s.threads[v]
            && !Open(s, v, id)
    requires s'.jobs.Keys == s.jobs.Keys && forall k :: k in s.jobs && k != id ==> s'.jobs[k] == s.jobs[k]
    ensures Counted(s', t, v, cfg)
  {
    assert Counted(s, t, v, cfg);
  }

  /** The second UPDATE closes it; together they are the documented step. */
  lemma GapCloses(s: Sys, t: Table, cfg: Config, w: int, appNow: int)
    requires Refines(s, t, cfg) && IsFailing(s, w)
    ensures var Failing(id, inst, _, max) := s.threads[w];
            id in s.jobs && Refines(Step(s, Settle(w, appNow), cfg),
                OnRow(t, id, Fail(inst, s.jobs[id].lastError, max, cfg.backoff, appNow)), cfg)
  {
    var Failing(id, inst, attempts, max) := s.threads[w];
    assert Counted(s, t, w, cfg);
    var s' := Step(s, Settle(w, appNow), cfg);
    var t' := OnRow(t, id, Fail(inst, s.jobs[id].lastError, max, cfg.backoff, appNow));
    assert s'.jobs[id] == t'[id];
    forall v | IsFailing(s', v) ensures Counted(s', t', v, cfg) {
      assert v != w && IsFailing(s, v) && Counted(s, t, v, cfg);
    }
    forall k | k in s'.jobs && NoGap(s', k) ensures s'.jobs[k] == t'[k] {
      if k != id {
        assert NoGap(s, k) by { forall v ensures !Open(s, v, k) { assert !Open(s', v, k); } }
      }
    }
  }

  /** When the thread dies instead, the call level is left with a counted failure too. */
  lemma GapIsAbandoned(s: Sys, t: Table, cfg: Config, w: int)
    requires Refines(s, t, cfg) && IsFailing(s, w)
    ensures var Failing(id, inst, _, _) := s.threads[w];
            id in s.jobs && Refines(Step(s, Crash(w), cfg), OnRow(t, id, CountFailure(inst, s.jobs[id].lastError)), cfg)
  {
    var Failing(id, inst, _, _) := s.threads[w];
    assert Counted(s, t, w, cfg);
    var s' := Step(s, Crash(w), cfg);
    var t' := OnRow(t, id, CountFailure(inst, s.jobs[id].lastError));
    assert s'.jobs[id] == t'[id];
    forall v | IsFailing(s', v) ensures Counted(s', t', v, cfg) {
      assert v != w && IsFailing(s, v) && Counted(s, t, v, cfg);
    }
    forall k | k in s'.jobs && NoGap(s', k) ensures s'.jobs[k] == t'[k] {
      if k != id {
        assert NoGap(s, k) by { forall v ensures !Open(s, v, k) { assert !Open(s', v, k); } }
      }
    }
  }

  lemma FreshRowsStay(j: Job, cfg: Config, u: Update, now: int)
    requires !Stale(j, cfg.ttl, now)
    requires (u.RequeueStale? && u.cfg == cfg && u.now == now) || (u.AbandonStale? && u.cfg == cfg && u.now == now)
    ensures Apply(j, u) == j
  {
  }

  lemma EveryRowRefines(s: Sys, t: Table, cfg: Config, u: Update, now: int)
    requires Refines(s, t, cfg) && GapsFresh(s, cfg, now)
    requires (u.RequeueStale? && u.cfg == cfg && u.now == now) || (u.AbandonStale? && u.cfg == cfg && u.now == now)
    ensures Refines(s.(jobs := OnEveryRow(s.jobs, u)), OnEveryRow(t, u), cfg)
  {
    var s', t' := s.(jobs := OnEveryRow(s.jobs, u)), OnEveryRow(t, u);
    forall w | IsFailing(s', w) ensures Counted(s', t', w, cfg) {
      var id := s.threads[w].id;
      assert Counted(s, t, w, cfg) && Open(s, w, id);
      FreshRowsStay(s.jobs[id], cfg, u, now);
      FreshRowsStay(t[id], cfg, u, now);
    }
    forall k | k in s'.jobs && NoGap(s', k) ensures s'.jobs[k] == t'[k] {
      assert NoGap(s, k) by { forall w ensures !Open(s, w, k) { assert !Open(s', w, k); } }
    }
  }

  // ---- a recovery statement is a series of recoveries of single rows ----

  function RecoverEach(ids: seq<int>, cfg: Config, now: int, appNow: int): seq<Q.Call> {
    seq(|ids|, i requires 0 <= i < |ids| => Q.OneRow(ids[i], Recover(cfg, now, appNow)))
  }

  lemma {:induction false} RecoveredInTurn(t: Table, ids: seq<int>, cfg: Config, now: int, appNow: int)
    requires forall i :: 0 <= i < |ids| ==> ids[i] in t
    requires forall i, k :: 0 <= i < k < |ids| ==> ids[i] < ids[k]
    ensures Q.Exec(t, RecoverEach(ids, cfg, now, appNow), cfg) == OnRows(t, ids, Recover(cfg, now, appNow))
  {
    if ids != [] {
      var n := |ids| - 1;
      RecoveredInTurn(t, ids[..n], cfg, now, appNow);
      assert RecoverEach(ids, cfg, now, appNow)[..n] == RecoverEach(ids[..n], cfg, now, appNow);
      OnRowsGrows(t, ids[..n], ids[n], Recover(cfg, now, appNow));
      assert ids == ids[..n] + [ids[n]];
    } else {
      SameMap(t, OnRows(t, ids, Recover(cfg, now, appNow)));
    }
  }

  lemma RecoveredAreRequeued(t: Table, ids: seq<int>, cfg: Config, now: int, appNow: int)
    requires forall k :: k in ids <==> k in StaleBelowLimit(t, cfg, now)
    ensures OnRows(t, ids, Recover(cfg, now, appNow)) == OnEveryRow(t, RequeueStale(cfg, now, appNow))
  {
    var recovered, requeued := OnRows(t, ids, Recover(cfg, now, appNow)), OnEveryRow(t, RequeueStale(cfg, now, appNow));
    forall k | k in t ensures recovered[k] == requeued[k] {
      assert k in ids <==> k in StaleBelowLimit(t, cfg, now);
    }
    SameMap(recovered, requeued);
  }

  lemma RecoveredAreAbandoned(t: Table, ids: seq<int>, cfg: Config, now: int, appNow: int)
    requires forall k :: k in ids <==> k in StaleAtLimit(t, cfg, now)
    ensures OnRows(t, ids, Recover(cfg, now, appNow)) == OnEveryRow(t, AbandonStale(cfg, now))
  {
    var recovered, abandoned := OnRows(t, ids, Recover(cfg, now, appNow)), OnEveryRow(t, AbandonStale(cfg, now));
    forall k | k in t ensures recovered[k] == abandoned[k] {
      assert k in ids <==> k in StaleAtLimit(t, cfg, now);
    }
    SameMap(recovered, abandoned);
  }

  lemma RequeuedInTurn(t: Table, cfg: Config, now: int, appNow: int) returns (calls: seq<Q.Call>)
    ensures Q.Exec(t, calls, cfg) == OnEveryRow(t, RequeueStale(cfg, now, appNow))
    ensures forall c :: c in calls ==> Q.Allowed(c, cfg)
  {
    var ids := Ascending(StaleBelowLimit(t, cfg, now));
    forall i | 0 <= i < |ids| ensures ids[i] in t { assert ids[i] in ids && ids[i] in StaleBelowLimit(t, cfg, now); }
    calls := RecoverEach(ids, cfg, now, appNow);
    RecoveredInTurn(t, ids, cfg, now, appNow);
    RecoveredAreRequeued(t, ids, cfg, now, appNow);
  }

  lemma AbandonedInTurn(t: Table, cfg: Config, now: int) returns (calls: seq<Q.Call>)
    ensures Q.Exec(t, calls, cfg) == OnEveryRow(t, AbandonStale(cfg, now))
    ensures forall c :: c in calls ==> Q.Allowed(c, cfg)
  {
    var ids := Ascending(StaleAtLimit(t, cfg, now));
    forall i | 0 <= i < |ids| ensures ids[i] in t { assert ids[i] in ids && ids[i] in StaleAtLimit(t, cfg, now); }
    calls := RecoverEach(ids, cfg, now, 0);
    RecoveredInTurn(t, ids, cfg, now, 0);
    RecoveredAreAbandoned(t, ids, cfg, now, 0);
  }

  // ---- one statement, then whole runs ----

  lemma OneCall(t: Table, c: Q.Call, cfg: Config)
    ensures Q.Exec(t, [c], cfg) == Q.Step(t, c, cfg) && Q.Exec(t, [], cfg) == t
  {
    assert [c][..0] == [];
  }

  lemma InsertRefines(s: Sys, t: Table, st: Stmt, cfg: Config) returns (calls: seq<Q.Call>)
    requires Refines(s, t, cfg) && st.Insert?
    ensures Refines(Step(s, st, cfg), Q.Exec(t, calls, cfg), cfg) && forall c :: c in calls ==> Q.Allowed(c, cfg)
  {
    KeysAgree(s, t, cfg, st.key);
    calls := [Q.Create(st.id, st.taskId, st.logId, st.vars, st.key)];
    OneCall(t, calls[0], cfg);
    if !HasKey(s.jobs, st.key) && st.id !in s.jobs {
      NewRowRefines(s, t, cfg, st.id, NewJob(st.taskId, st.logId, st.vars, st.key));
    }
  }

  lemma UpdateRefines(s: Sys, t: Table, st: Stmt, cfg: Config, id: int, u: Update) returns (calls: seq<Q.Call>)
    requires Refines(s, t, cfg) && Step(s, st, cfg).jobs == OnRow(s.jobs, id, u) && SameGaps(s, Step(s, st, cfg))
    requires u.Claim? || u.Renew? || (u.Finish? && !OpenBy(s, id, u.inst))
    ensures Refines(Step(s, st, cfg), Q.Exec(t, calls, cfg), cfg) && forall c :: c in calls ==> Q.Allowed(c, cfg)
  {
    calls := [Q.OneRow(id, u)];
    OneCall(t, calls[0], cfg);
    SameUpdate(s, t, cfg, Step(s, st, cfg), id, u);
  }

  lemma SettleRefines(s: Sys, t: Table, st: Stmt, cfg: Config) returns (calls: seq<Q.Call>)
    requires Refines(s, t, cfg) && st.Settle? && IsFailing(s, st.w)
    ensures Refines(Step(s, st, cfg), Q.Exec(t, calls, cfg), cfg) && forall c :: c in calls ==> Q.Allowed(c, cfg)
  {
    var Failing(id, inst, _, max) := s.threads[st.w];
    GapCloses(s, t, cfg, st.w, st.appNow);
    assert Counted(s, t, st.w, cfg);
    calls := [Q.OneRow(id, Fail(inst, s.jobs[id].lastError, max, cfg.backoff, st.appNow))];
    OneCall(t, calls[0], cfg);
  }

  lemma DeathRefines(s: Sys, t: Table, st: Stmt, cfg: Config) returns (calls: seq<Q.Call>)
    requires Refines(s, t, cfg) && DiesInGap(s, st)
    ensures Refines(Step(s, st, cfg), Q.Exec(t, calls, cfg), cfg) && forall c :: c in calls ==> Permitted(c, cfg)
  {
    GapIsAbandoned(s, t, cfg, st.w);
    var Failing(id, inst, _, _) := s.threads[st.w];
    calls := [Q.OneRow(id, CountFailure(inst, s.jobs[id].lastError))];
    OneCall(t, calls[0], cfg);
  }

  lemma StatementRefines(s: Sys, t: Table, st: Stmt, cfg: Config) returns (calls: seq<Q.Call>)
    requires Refines(s, t, cfg) && Calm(s, st, cfg) && (st.CountFail? ==> 1 <= st.max <= cfg.maxAttempts)
    ensures Refines(Step(s, st, cfg), Q.Exec(t, calls, cfg), cfg)
    ensures forall c :: c in calls ==> Permitted(c, cfg) && (!DiesInGap(s, st) ==> Q.Allowed(c, cfg))
  {
    calls := [];
    match st
    case Insert(_, _, _, _, _) => calls := InsertRefines(s, t, st, cfg);
    case SelectDue(_, _, _, _) => SameTable(s, t, cfg, Step(s, st, cfg));
    case ClaimNext(w, now) =>
      if IsClaiming(s, w) {
        calls := UpdateRefines(s, t, st, cfg, s.threads[w].ids[0], Update.Claim(s.threads[w].inst, now));
      }
    case RenewOne(id, inst, now) => calls := UpdateRefines(s, t, st, cfg, id, Renew(inst, now));
    case FinishOne(id, inst, now) => calls := UpdateRefines(s, t, st, cfg, id, Finish(inst, now));
    case CountFail(w, id, inst, err, max) => GapOpens(s, t, cfg, w, id, inst, err, max);
    case Settle(w, _) => if IsFailing(s, w) { calls := SettleRefines(s, t, st, cfg); }
    case Requeue(now, appNow) =>
      calls := RequeuedInTurn(t, cfg, now, appNow);
      EveryRowRefines(s, t, cfg, RequeueStale(cfg, now, appNow), now);
    case Abandon(now) =>
      calls := AbandonedInTurn(t, cfg, now);
      EveryRowRefines(s, t, cfg, AbandonStale(cfg, now), now);
    case Crash(w) =>
      if IsFailing(s, w) {
        calls := DeathRefines(s, t, st, cfg);
      } else {
        SameTable(s, t, cfg, Step(s, st, cfg));
      }
  }

  /** Every calm run of statements refines a run of atomic calls, the ones all call-level theorems are about, and of
      countings alone for the threads that died in a gap. */
  lemma {:induction false} CalmRunRefinesCalls(run: seq<Stmt>, cfg: Config) returns (calls: seq<Q.Call>)
    requires Allowed(run, cfg) && CalmRun(run, cfg)
    ensures Refines(Exec(EMPTY, run, cfg), Q.Exec(map[], calls, cfg), cfg)
    ensures forall c :: c in calls ==> Permitted(c, cfg)
    ensures NobodyDiesInGap(run, cfg) ==> Q.AllAllowed(calls, cfg)
  {
    calls := [];
    if run != [] {
      var n := |run| - 1;
      ShorterRun(run, cfg, n);
      calls := CalmRunRefinesCalls(run[..n], cfg);
      assert run[n] in run;
      var more := StatementRefines(Exec(EMPTY, run[..n], cfg), Q.Exec(map[], calls, cfg), run[n], cfg);
      Q.ExecAppend(map[], calls, more, cfg);
      calls := calls + more;
    }
  }

  lemma ShorterRun(run: seq<Stmt>, cfg: Config, n: nat)
    requires n <= |run| && CalmRun(run, cfg)
    ensures CalmRun(run[..n], cfg) && (NobodyDiesInGap(run, cfg) ==> NobodyDiesInGap(run[..n], cfg))
  {
    forall k | 0 <= k < n
      ensures Calm(Exec(EMPTY, run[..n][..k], cfg), run[..n][k], cfg)
      ensures NobodyDiesInGap(run, cfg) ==> !DiesInGap(Exec(EMPTY, run[..n][..k], cfg), run[..n][k])
    {
      assert run[..n][..k] == run[..k];
    }
  }

  /** When no gap is open and nobody has died in one, the table is one that atomic calls reach. */
  lemma QuietTableIsReachable(run: seq<Stmt>, cfg: Config) returns (calls: seq<Q.Call>)
    requires Allowed(run, cfg) && CalmRun(run, cfg) && NobodyDiesInGap(run, cfg)
    requires forall w :: !IsFailing(Exec(EMPTY, run, cfg), w)
    ensures Q.AllAllowed(calls, cfg) && Exec(EMPTY, run, cfg).jobs == Q.Exec(map[], calls, cfg)
  {
    calls := CalmRunRefinesCalls(run, cfg);
    var s, t := Exec(EMPTY, run, cfg), Q.Exec(map[], calls, cfg);
    forall id | id in s.jobs ensures s.jobs[id] == t[id] {
      assert forall w :: !IsFailing(s, w) ==> !Open(s, w, id);
    }
    SameMap(s.jobs, t);
  }

  lemma NoSettle(s: Sys, t: Table, cfg: Config, st: Stmt, id: int)
    requires Refines(s, t, cfg) && id in s.jobs && Terminal(s.jobs[id])
    ensures !Settles(s, st, id)
  {
    assert forall w :: IsFailing(s, w) ==> Counted(s, t, w, cfg);
  }

  /** In a calm run done and failed are final at statement level too. */
  lemma FinishedStaysFinished(run: seq<Stmt>, cfg: Config, k: nat, id: int)
    requires Allowed(run, cfg) && CalmRun(run, cfg) && k < |run|
    requires id in Exec(EMPTY, run[..k], cfg).jobs && Terminal(Exec(EMPTY, run[..k], cfg).jobs[id])
    ensures id in Exec(EMPTY, run[..k + 1], cfg).jobs
            && Exec(EMPTY, run[..k + 1], cfg).jobs[id] == Exec(EMPTY, run[..k], cfg).jobs[id]
  {
    var before := run[..k];
    ShorterRun(run, cfg, k);
    var calls := CalmRunRefinesCalls(before, cfg);
    var s, t := Exec(EMPTY, before, cfg), Q.Exec(map[], calls, cfg);
    NoSettle(s, t, cfg, run[k], id);
    FinishedJobChangesIff(s, run[k], cfg, id);
    OneMore(EMPTY, run, cfg, k);
  }
}
