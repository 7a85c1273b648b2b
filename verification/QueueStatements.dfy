/** The queue one SQL statement at a time. A worker thread that is inside Claim (between its SELECT and its
    UPDATEs) or inside MarkFailed (between its two UPDATEs) keeps what it has read; anything may happen meanwhile. */
module QueueStatements {
  import opened Base
  import opened SendJobs

  datatype Local =
    | Claiming(inst: string, ids: seq<int>)
    | Failing(id: int, inst: string, attempts: int, max: int)

  /** `threads` holds the threads that are inside a call. */
  datatype Sys = Sys(jobs: Table, threads: map<int, Local>)

  datatype Stmt =
    | Insert(id: int, taskId: int, logId: int, vars: string, key: string)
    | SelectDue(w: int, inst: string, limit: nat, now: int)
    | ClaimNext(w: int, now: int)
    | RenewOne(id: int, inst: string, now: int)
    | FinishOne(id: int, inst: string, now: int)
    | CountFail(w: int, id: int, inst: string, err: string, max: int)
    | Settle(w: int, appNow: int)
    | Requeue(now: int, appNow: int)
    | Abandon(now: int)
    | Crash(w: int)

  predicate IsFailing(s: Sys, w: int) {
    w in s.threads && s.threads[w].Failing?
  }

  predicate IsClaiming(s: Sys, w: int) {
    w in s.threads && s.threads[w].Claiming? && s.threads[w].ids != []
  }

  function Step(s: Sys, st: Stmt, cfg: Config): Sys {
    match st
    case Insert(id, taskId, logId, vars, key) =>
      if HasKey(s.jobs, key) || id in s.jobs then s
      else s.(jobs := s.jobs[id := NewJob(taskId, logId, vars, key)])
    case SelectDue(w, inst, limit, now) =>
      if w in s.threads then s else s.(threads := s.threads[w := Claiming(inst, DueIds(s.jobs, now, limit))])
    case ClaimNext(w, now) =>
      if !IsClaiming(s, w) then s
      else
        var Claiming(inst, ids) := s.threads[w];
        Sys(OnRow(s.jobs, ids[0], Update.Claim(inst, now)), s.threads[w := Claiming(inst, ids[1..])])
    case RenewOne(id, inst, now) => s.(jobs := OnRow(s.jobs, id, Renew(inst, now)))
    case FinishOne(id, inst, now) => s.(jobs := OnRow(s.jobs, id, Finish(inst, now)))
    case CountFail(w, id, inst, err, max) =>
      if w in s.threads || id !in s.jobs || !HeldBy(s.jobs[id], inst) then s
      else Sys(OnRow(s.jobs, id, CountFailure(inst, err)),
               s.threads[w := Failing(id, inst, s.jobs[id].attempts + 1, max)])
    case Settle(w, appNow) =>
      if !IsFailing(s, w) then s
      else
        var Failing(id, _, attempts, max) := s.threads[w];
        Sys(OnRow(s.jobs, id, SettleFailure(attempts, max, cfg.backoff, appNow)), s.threads - {w})
    case Requeue(now, appNow) => s.(jobs := OnEveryRow(s.jobs, RequeueStale(cfg, now, appNow)))
    case Abandon(now) => s.(jobs := OnEveryRow(s.jobs, AbandonStale(cfg, now)))
    case Crash(w) => s.(threads := s.threads - {w})
  }

  const EMPTY := Sys(map[], map[])

  function Exec(s: Sys, run: seq<Stmt>, cfg: Config): Sys {
    if run == [] then s else Step(Exec(s, run[..|run| - 1], cfg), run[|run| - 1], cfg)
  }

  /** Retry limits passed to MarkFailed are the configured one or 1. */
  ghost predicate Allowed(run: seq<Stmt>, cfg: Config) {
    1 <= cfg.maxAttempts && forall st :: st in run && st.CountFail? ==> 1 <= st.max <= cfg.maxAttempts
  }

  function UpdateOf(s: Sys, st: Stmt, cfg: Config, id: int): Option<Update> {
    match st
    case Insert(_, _, _, _, _) => None
    case SelectDue(_, _, _, _) => None
    case ClaimNext(w, now) =>
      if IsClaiming(s, w) && s.threads[w].ids[0] == id then Some(Update.Claim(s.threads[w].inst, now)) else None
    case RenewOne(k, inst, now) => if k == id then Some(Renew(inst, now)) else None
    case FinishOne(k, inst, now) => if k == id then Some(Finish(inst, now)) else None
    case CountFail(w, k, inst, err, _) => if k == id && w !in s.threads then Some(CountFailure(inst, err)) else None
    case Settle(w, appNow) =>
      if IsFailing(s, w) && s.threads[w].id == id
      then Some(SettleFailure(s.threads[w].attempts, s.threads[w].max, cfg.backoff, appNow))
      else None
    case Requeue(now, appNow) => Some(RequeueStale(cfg, now, appNow))
    case Abandon(now) => Some(AbandonStale(cfg, now))
    case Crash(_) => None
  }

  lemma RowAfter(s: Sys, st: Stmt, cfg: Config, id: int)
    requires id in s.jobs
    ensures id in Step(s, st, cfg).jobs
    ensures var u := UpdateOf(s, st, cfg, id);
            Step(s, st, cfg).jobs[id] == if u == None then s.jobs[id] else Apply(s.jobs[id], u.value)
  {
  }

  lemma NewRow(s: Sys, st: Stmt, cfg: Config, id: int)
    requires id !in s.jobs && id in Step(s, st, cfg).jobs
    ensures st.Insert? && st.id == id && Step(s, st, cfg).jobs[id].status == Pending
    ensures Step(s, st, cfg).jobs[id].attempts == 0 && Step(s, st, cfg).threads == s.threads
    ensures Step(s, st, cfg).jobs[id].claimedBy == None && Step(s, st, cfg).jobs[id].claimedAt == None
  {
  }

  // ---- claimed <=> claimed_by set <=> claimed_at set ----

  lemma WellFormedStep(s: Sys, st: Stmt, cfg: Config, id: int)
    requires id in s.jobs && WellFormedRow(s.jobs[id])
    ensures id in Step(s, st, cfg).jobs && WellFormedRow(Step(s, st, cfg).jobs[id])
  {
    RowAfter(s, st, cfg, id);
  }

  lemma {:induction false} ClaimColumnsAgree(run: seq<Stmt>, cfg: Config, id: int)
    requires id in Exec(EMPTY, run, cfg).jobs
    ensures WellFormedRow(Exec(EMPTY, run, cfg).jobs[id])
  {
    if run != [] {
      var before, st := run[..|run| - 1], run[|run| - 1];
      var s := Exec(EMPTY, before, cfg);
      if id in s.jobs {
        ClaimColumnsAgree(before, cfg, id);
        WellFormedStep(s, st, cfg, id);
      } else {
        NewRow(s, st, cfg, id);
      }
    }
  }

  // ---- exclusivity ----

  predicate ClaimsRow(s: Sys, st: Stmt, cfg: Config, id: int) {
    id in s.jobs && id in Step(s, st, cfg).jobs && s.jobs[id].status == Pending
        && Step(s, st, cfg).jobs[id].status == Claimed
  }

  /** The two ways a job goes back into the queue: MarkFailed's second UPDATE and RecoverStale's first. */
  predicate Releases(s: Sys, st: Stmt, cfg: Config, id: int) {
    id in s.jobs
    && (|| (st.Settle? && IsFailing(s, st.w) && s.threads[st.w].id == id
            && s.threads[st.w].attempts < s.threads[st.w].max)
        || (st.Requeue? && Stale(s.jobs[id], cfg.ttl, st.now) && s.jobs[id].attempts + 1 < cfg.maxAttempts))
  }

  lemma OnlyReleaseReopens(s: Sys, st: Stmt, cfg: Config, id: int)
    requires id in s.jobs && s.jobs[id].status != Pending && !Releases(s, st, cfg, id)
    ensures id in Step(s, st, cfg).jobs && Step(s, st, cfg).jobs[id].status != Pending
  {
    RowAfter(s, st, cfg, id);
  }

  lemma OneMore(s: Sys, run: seq<Stmt>, cfg: Config, k: nat)
    requires k < |run|
    ensures Exec(s, run[..k + 1], cfg) == Step(Exec(s, run[..k], cfg), run[k], cfg)
  {
    assert run[..k + 1][..k] == run[..k];
  }

  /** Nothing from step i up to step k puts the job back into the queue. */
  ghost predicate NoRelease(s: Sys, run: seq<Stmt>, cfg: Config, id: int, i: nat, k: nat)
    requires i <= k <= |run|
  {
    forall r :: i <= r < k ==> !Releases(Exec(s, run[..r], cfg), run[r], cfg, id)
  }

  lemma NoReleaseBefore(s: Sys, run: seq<Stmt>, cfg: Config, id: int, i: nat, k: nat)
    requires i < k <= |run| && NoRelease(s, run, cfg, id, i, k)
    ensures NoRelease(s, run, cfg, id, i, k - 1) && !Releases(Exec(s, run[..k - 1], cfg), run[k - 1], cfg, id)
  {
  }

  lemma {:induction false} ClosedWithoutRelease(s: Sys, run: seq<Stmt>, cfg: Config, id: int, i: nat, k: nat)
    requires i <= k <= |run| && NoRelease(s, run, cfg, id, i, k)
    requires id in Exec(s, run[..i], cfg).jobs && Exec(s, run[..i], cfg).jobs[id].status != Pending
    ensures id in Exec(s, run[..k], cfg).jobs && Exec(s, run[..k], cfg).jobs[id].status != Pending
    decreases k
  {
    if i < k {
      NoReleaseBefore(s, run, cfg, id, i, k);
      ClosedWithoutRelease(s, run, cfg, id, i, k - 1);
      OneMore(s, run, cfg, k - 1);
      OnlyReleaseReopens(Exec(s, run[..k - 1], cfg), run[k - 1], cfg, id);
    }
  }

  /** Two successful claims of one job always have a release of that job between them. */
  lemma ClaimsAreExclusive(s: Sys, run: seq<Stmt>, cfg: Config, id: int, i: nat, k: nat) returns (r: nat)
    requires i < k < |run|
    requires ClaimsRow(Exec(s, run[..i], cfg), run[i], cfg, id) && ClaimsRow(Exec(s, run[..k], cfg), run[k], cfg, id)
    ensures i < r < k && Releases(Exec(s, run[..r], cfg), run[r], cfg, id)
  {
    OneMore(s, run, cfg, i);
    if NoRelease(s, run, cfg, id, i + 1, k) {
      ClosedWithoutRelease(s, run, cfg, id, i + 1, k);
      assert false;
    }
    r :| i + 1 <= r < k && Releases(Exec(s, run[..r], cfg), run[r], cfg, id);
  }

  predicate DueIfPending(s: Sys, id: int, now: int) {
    id in s.jobs && (s.jobs[id].status == Pending ==> Due(s.jobs[id], now))
  }

  lemma StaysDue(s: Sys, st: Stmt, cfg: Config, id: int, now: int)
    requires DueIfPending(s, id, now) && !Releases(s, st, cfg, id)
    ensures DueIfPending(Step(s, st, cfg), id, now)
  {
    RowAfter(s, st, cfg, id);
  }

  /** A thread that claims a job from its SELECT snapshot respects the retry time unless the job was released in
      between: the claiming UPDATE itself does not look at next_retry_at. */
  lemma {:induction false} SnapshotStaysDue(s: Sys, run: seq<Stmt>, cfg: Config, id: int, i: nat, k: nat, now: int)
    requires i <= k <= |run| && NoRelease(s, run, cfg, id, i, k) && DueIfPending(Exec(s, run[..i], cfg), id, now)
    ensures DueIfPending(Exec(s, run[..k], cfg), id, now)
    decreases k
  {
    if i < k {
      NoReleaseBefore(s, run, cfg, id, i, k);
      SnapshotStaysDue(s, run, cfg, id, i, k - 1, now);
      OneMore(s, run, cfg, k - 1);
      StaysDue(Exec(s, run[..k - 1], cfg), run[k - 1], cfg, id, now);
    }
  }

  // ---- bounded sends survive every interleaving of statements ----

  function Claims(s: Sys, run: seq<Stmt>, cfg: Config, id: int): nat {
    if run == [] then 0
    else
      var before := run[..|run| - 1];
      Claims(s, before, cfg, id) + if ClaimsRow(Exec(s, before, cfg), run[|run| - 1], cfg, id) then 1 else 0
  }

  function ReleaseCount(s: Sys, run: seq<Stmt>, cfg: Config, id: int): nat {
    if run == [] then 0
    else
      var before := run[..|run| - 1];
      ReleaseCount(s, before, cfg, id) + if Releases(Exec(s, before, cfg), run[|run| - 1], cfg, id) then 1 else 0
  }

  /** Threads that have counted a failure of the job and are about to put it back into the queue. */
  function AboutToRelease(s: Sys, id: int): set<int> {
    set w | w in s.threads && s.threads[w].Failing? && s.threads[w].id == id && s.threads[w].attempts < s.threads[w].max
  }

  /** Every release, done or still to come, has its own value of the attempts counter, and that value is below the
      limit. */
  ghost predicate ReleaseLaw(s: Sys, id: int, claims: nat, releases: nat, cfg: Config) {
    if id !in s.jobs then claims == 0 && releases == 0 && AboutToRelease(s, id) == {}
    else
      && claims <= releases + (if s.jobs[id].status == Pending then 0 else 1)
      && releases + |AboutToRelease(s, id)| <= s.jobs[id].attempts
      && releases + |AboutToRelease(s, id)| <= cfg.maxAttempts - 1
  }

  /** What a statement does to the threads. */
  datatype Effect = Keep | Put(w: int, local: Local) | Drop(w: int)

  function EffectOf(s: Sys, st: Stmt): Effect {
    match st
    case SelectDue(w, inst, limit, now) =>
      if w in s.threads then Keep else Put(w, Claiming(inst, DueIds(s.jobs, now, limit)))
    case ClaimNext(w, _) =>
      if IsClaiming(s, w) then Put(w, Claiming(s.threads[w].inst, s.threads[w].ids[1..])) else Keep
    case CountFail(w, id, inst, _, max) =>
      if w in s.threads || id !in s.jobs || !HeldBy(s.jobs[id], inst) then Keep
      else Put(w, Failing(id, inst, s.jobs[id].attempts + 1, max))
    case Settle(w, _) => if IsFailing(s, w) then Drop(w) else Keep
    case Crash(w) => Drop(w)
    case _ => Keep
  }

  function Affected(threads: map<int, Local>, e: Effect): map<int, Local> {
    match e
    case Keep => threads
    case Put(w, local) => threads[w := local]
    case Drop(w) => threads - {w}
  }

  lemma ThreadsAfter(s: Sys, st: Stmt, cfg: Config)
    ensures Step(s, st, cfg).threads == Affected(s.threads, EffectOf(s, st))
  {
  }

  /** The statement counts a failure below the limit: one more release is under way. */
  predicate StartsRelease(s: Sys, st: Stmt, id: int) {
    st.CountFail? && st.w !in s.threads && st.id == id && id in s.jobs && HeldBy(s.jobs[id], st.inst)
        && s.jobs[id].attempts + 1 < st.max
  }

  lemma ReleaseStarted(s: Sys, st: Stmt, cfg: Config, id: int)
    requires StartsRelease(s, st, id)
    ensures |AboutToRelease(Step(s, st, cfg), id)| == |AboutToRelease(s, id)| + 1
  {
    assert AboutToRelease(Step(s, st, cfg), id) == AboutToRelease(s, id) + {st.w};
  }

  lemma ReleaseCompleted(s: Sys, st: Stmt, cfg: Config, id: int)
    requires st.Settle? && Releases(s, st, cfg, id)
    ensures |AboutToRelease(Step(s, st, cfg), id)| == |AboutToRelease(s, id)| - 1
  {
    assert st.w in AboutToRelease(s, id);
    assert AboutToRelease(Step(s, st, cfg), id) == AboutToRelease(s, id) - {st.w};
  }

  lemma NoReleaseStarted(s: Sys, st: Stmt, cfg: Config, id: int)
    requires !StartsRelease(s, st, id)
    ensures |AboutToRelease(Step(s, st, cfg), id)| <= |AboutToRelease(s, id)|
  {
    ThreadsAfter(s, st, cfg);
    var e := EffectOf(s, st);
    assert e.Put? && e.local.Failing? && e.local.id == id ==> e.local.attempts >= e.local.max;
    assert AboutToRelease(Step(s, st, cfg), id) <= AboutToRelease(s, id);
    SubsetSize(AboutToRelease(Step(s, st, cfg), id), AboutToRelease(s, id));
  }

  lemma ReleaseLawStep(s: Sys, st: Stmt, cfg: Config, id: int, claims: nat, releases: nat)
    requires ReleaseLaw(s, id, claims, releases, cfg)
    requires 1 <= cfg.maxAttempts && (st.CountFail? ==> 1 <= st.max <= cfg.maxAttempts)
    ensures ReleaseLaw(Step(s, st, cfg), id,
                       claims + (if ClaimsRow(s, st, cfg, id) then 1 else 0),
                       releases + (if Releases(s, st, cfg, id) then 1 else 0), cfg)
  {
    if id in s.jobs {
      RowAfter(s, st, cfg, id);
      if StartsRelease(s, st, id) { ReleaseStarted(s, st, cfg, id); } else { NoReleaseStarted(s, st, cfg, id); }
      if st.Settle? && Releases(s, st, cfg, id) { ReleaseCompleted(s, st, cfg, id); }
      if s.jobs[id].status != Pending && !Releases(s, st, cfg, id) { OnlyReleaseReopens(s, st, cfg, id); }
    } else if id in Step(s, st, cfg).jobs {
      NewRow(s, st, cfg, id);
      assert AboutToRelease(Step(s, st, cfg), id) == AboutToRelease(s, id);
    } else {
      assert AboutToRelease(Step(s, st, cfg), id) <= AboutToRelease(s, id);
    }
  }

  lemma {:induction false} ReleasesFollowAttempts(run: seq<Stmt>, cfg: Config, id: int)
    requires Allowed(run, cfg)
    ensures ReleaseLaw(Exec(EMPTY, run, cfg), id, Claims(EMPTY, run, cfg, id), ReleaseCount(EMPTY, run, cfg, id), cfg)
  {
    if run != [] {
      var before, st := run[..|run| - 1], run[|run| - 1];
      ReleasesFollowAttempts(before, cfg, id);
      assert st in run;
      ReleaseLawStep(Exec(EMPTY, before, cfg), st, cfg, id, Claims(EMPTY, before, cfg, id),
          ReleaseCount(EMPTY, before, cfg, id));
    }
  }

  /** The thread's next claiming UPDATE is for this job, and the job is still pending. */
  predicate HandsOut(s: Sys, st: Stmt, id: int) {
    && st.ClaimNext? && st.w in s.threads && s.threads[st.w].Claiming? && s.threads[st.w].ids != []
    && s.threads[st.w].ids[0] == id && id in s.jobs && s.jobs[id].status == Pending
  }

  lemma ClaimsRowIff(s: Sys, st: Stmt, cfg: Config, id: int)
    ensures ClaimsRow(s, st, cfg, id) <==> HandsOut(s, st, id)
  {
    if id in s.jobs { RowAfter(s, st, cfg, id); }
  }

  /** The steps of the run that hand the job to a thread. */
  function HandOuts(run: seq<Stmt>, cfg: Config, id: int): set<int> {
    set k | 0 <= k < |run| && HandsOut(Exec(EMPTY, run[..k], cfg), run[k], id)
  }

  lemma HandOutsGrow(run: seq<Stmt>, cfg: Config, id: int)
    requires run != []
    ensures var n := |run| - 1;
            HandOuts(run, cfg, id)
            == HandOuts(run[..n], cfg, id) + if HandsOut(Exec(EMPTY, run[..n], cfg), run[n], id) then {n} else {}
  {
    var n := |run| - 1;
    forall k | 0 <= k < n ensures run[..n][..k] == run[..k] && run[..n][k] == run[k] {
    }
  }

  lemma {:induction false} ClaimsAreHandOuts(run: seq<Stmt>, cfg: Config, id: int)
    ensures Claims(EMPTY, run, cfg, id) == |HandOuts(run, cfg, id)|
  {
    if run != [] {
      var n := |run| - 1;
      ClaimsAreHandOuts(run[..n], cfg, id);
      HandOutsGrow(run, cfg, id);
      ClaimsRowIff(Exec(EMPTY, run[..n], cfg), run[n], cfg, id);
    }
  }

  /** The retry limit bounds the hand-outs of a job in every interleaving of single statements, with any crashes:
      the unguarded second UPDATE of MarkFailed can release a job at a wrong moment, but not once too often. */
  lemma BoundedSends(run: seq<Stmt>, cfg: Config, id: int)
    requires Allowed(run, cfg)
    ensures |HandOuts(run, cfg, id)| <= cfg.maxAttempts
    ensures Claims(EMPTY, run, cfg, id) <= cfg.maxAttempts
  {
    ReleasesFollowAttempts(run, cfg, id);
    ClaimsAreHandOuts(run, cfg, id);
  }

  // ---- MarkFailed's two statements against its documented single step ----

  /** `s` is `a` in which thread w has counted a failure of job id and not yet settled it. */
  ghost predicate InGap(s: Sys, a: Sys, w: int, id: int, inst: string, err: string, max: int) {
    && id in a.jobs && HeldBy(a.jobs[id], inst) && w !in a.threads
    && s.jobs == a.jobs[id := Apply(a.jobs[id], CountFailure(inst, err))]
    && s.threads == a.threads[w := Failing(id, inst, a.jobs[id].attempts + 1, max)]
  }

  predicate ByThread(st: Stmt, w: int) {
    match st
    case SelectDue(v, _, _, _) => v == w
    case ClaimNext(v, _) => v == w
    case CountFail(v, _, _, _, _) => v == w
    case Settle(v, _) => v == w
    case Crash(v) => v == w
    case _ => false
  }

  /** The claim is fresh whenever recovery looks, and no other thread of the instance finishes or fails the same job. */
  predicate Undisturbed(s: Sys, st: Stmt, cfg: Config, w: int, id: int, inst: string)
    requires id in s.jobs
  {
    !ByThread(st, w)
    && match st
       case FinishOne(k, i, _) => !(k == id && i == inst)
       case CountFail(_, k, i, _, _) => !(k == id && i == inst)
       case Settle(v, _) => !(IsFailing(s, v) && s.threads[v].id == id)
       case Requeue(now, _) => !Stale(s.jobs[id], cfg.ttl, now)
       case Abandon(now) => !Stale(s.jobs[id], cfg.ttl, now)
       case _ => true
  }

  ghost predicate UndisturbedRun(s: Sys, run: seq<Stmt>, cfg: Config, w: int, id: int, inst: string) {
    forall k :: 0 <= k < |run| ==>
                  id in Exec(s, run[..k], cfg).jobs && Undisturbed(Exec(s, run[..k], cfg), run[k], cfg, w, id, inst)
  }

  lemma SameDueIds(t: Table, t': Table, id: int, now: int, limit: nat)
    requires id in t && t.Keys == t'.Keys && t[id].status == Claimed && t'[id].status == Claimed
    requires forall k :: k in t && k != id ==> t[k] == t'[k]
    ensures DueIds(t, now, limit) == DueIds(t', now, limit)
  {
    assert (set k | k in t && Due(t[k], now)) == (set k | k in t' && Due(t'[k], now));
  }

  lemma SameEffect(s: Sys, a: Sys, st: Stmt, cfg: Config, w: int, id: int, inst: string, err: string, max: int)
    requires InGap(s, a, w, id, inst, err, max) && Undisturbed(s, st, cfg, w, id, inst)
    ensures EffectOf(s, st) == EffectOf(a, st) && (EffectOf(a, st).Keep? || EffectOf(a, st).w != w)
  {
    if st.SelectDue? { SameDueIds(s.jobs, a.jobs, id, st.now, st.limit); }
  }

  lemma EffectsCommute(threads: map<int, Local>, e: Effect, w: int, local: Local)
    requires w !in threads && (e.Keep? || e.w != w)
    ensures w !in Affected(threads, e)
    ensures Affected(threads[w := local], e) == Affected(threads, e)[w := local]
  {
  }

  lemma GapThreads(s: Sys, a: Sys, st: Stmt, cfg: Config, w: int, id: int, inst: string, err: string, max: int)
    requires InGap(s, a, w, id, inst, err, max) && Undisturbed(s, st, cfg, w, id, inst)
    ensures w !in Step(a, st, cfg).threads
    ensures Step(s, st, cfg).threads == Step(a, st, cfg).threads[w := s.threads[w]]
  {
    ThreadsAfter(s, st, cfg);
    ThreadsAfter(a, st, cfg);
    SameEffect(s, a, st, cfg, w, id, inst, err, max);
    EffectsCommute(a.threads, EffectOf(a, st), w, s.threads[w]);
  }

  lemma SameHasKey(t: Table, t': Table, key: string)
    requires t.Keys == t'.Keys && forall i :: i in t ==> t[i].dedupeKey == t'[i].dedupeKey
    ensures HasKey(t, key) <==> HasKey(t', key)
  {
  }

  lemma GapKeys(s: Sys, a: Sys, st: Stmt, cfg: Config, w: int, id: int, inst: string, err: string, max: int)
    requires InGap(s, a, w, id, inst, err, max)
    ensures Step(s, st, cfg).jobs.Keys == Step(a, st, cfg).jobs.Keys
    ensures forall k :: k in Step(s, st, cfg).jobs && k !in s.jobs ==>
                          Step(s, st, cfg).jobs[k] == Step(a, st, cfg).jobs[k]
  {
    if st.Insert? {
      SameHasKey(s.jobs, a.jobs, st.key);
    }
  }

  lemma GapOtherRow(s: Sys, a: Sys, st: Stmt, cfg: Config, w: int, id: int, inst: string, err: string, max: int, k: int)
    requires InGap(s, a, w, id, inst, err, max) && Undisturbed(s, st, cfg, w, id, inst) && k in s.jobs && k != id
    ensures k in Step(s, st, cfg).jobs && k in Step(a, st, cfg).jobs
            && Step(s, st, cfg).jobs[k] == Step(a, st, cfg).jobs[k]
  {
    RowAfter(s, st, cfg, k);
    RowAfter(a, st, cfg, k);
    assert UpdateOf(s, st, cfg, k) == UpdateOf(a, st, cfg, k);
  }

  lemma GapOwnRow(s: Sys, a: Sys, st: Stmt, cfg: Config, w: int, id: int, inst: string, err: string, max: int)
    requires InGap(s, a, w, id, inst, err, max) && Undisturbed(s, st, cfg, w, id, inst)
    ensures id in Step(s, st, cfg).jobs && id in Step(a, st, cfg).jobs
    ensures var j := Step(a, st, cfg).jobs[id];
            && HeldBy(j, inst) && j.attempts == a.jobs[id].attempts
            && Step(s, st, cfg).jobs[id] == Apply(j, CountFailure(inst, err))
  {
    RowAfter(s, st, cfg, id);
    RowAfter(a, st, cfg, id);
  }

  lemma GapStep(s: Sys, a: Sys, st: Stmt, cfg: Config, w: int, id: int, inst: string, err: string, max: int)
    requires InGap(s, a, w, id, inst, err, max) && Undisturbed(s, st, cfg, w, id, inst)
    ensures InGap(Step(s, st, cfg), Step(a, st, cfg), w, id, inst, err, max)
  {
    var s', a' := Step(s, st, cfg), Step(a, st, cfg);
    GapThreads(s, a, st, cfg, w, id, inst, err, max);
    GapKeys(s, a, st, cfg, w, id, inst, err, max);
    GapOwnRow(s, a, st, cfg, w, id, inst, err, max);
    forall k | k in s'.jobs ensures s'.jobs[k] == a'.jobs[id := Apply(a'.jobs[id], CountFailure(inst, err))][k] {
      if k != id && k in s.jobs { GapOtherRow(s, a, st, cfg, w, id, inst, err, max, k); }
    }
    SameMap(s'.jobs, a'.jobs[id := Apply(a'.jobs[id], CountFailure(inst, err))]);
  }

  lemma {:induction false} GapRun(s: Sys, a: Sys, run: seq<Stmt>, cfg: Config, w: int, id: int, inst: string,
      err: string, max: int)
    requires InGap(s, a, w, id, inst, err, max) && UndisturbedRun(s, run, cfg, w, id, inst)
    ensures InGap(Exec(s, run, cfg), Exec(a, run, cfg), w, id, inst, err, max)
  {
    if run != [] {
      var n := |run| - 1;
      var before := run[..n];
      forall k | 0 <= k < |before|
        ensures id in Exec(s, before[..k], cfg).jobs
                && Undisturbed(Exec(s, before[..k], cfg), before[k], cfg, w, id, inst)
      {
        assert before[..k] == run[..k];
      }
      GapRun(s, a, before, cfg, w, id, inst, err, max);
      GapStep(Exec(s, before, cfg), Exec(a, before, cfg), run[n], cfg, w, id, inst, err, max);
    }
  }

  /** Whatever else runs between MarkFailed's two statements, if the claim stays undisturbed the outcome is that of
      the documented atomic step taken at the end of the gap, with the rest of the run unaware of the first half. */
  lemma UndisturbedFailIsAtomic(s: Sys, mid: seq<Stmt>, cfg: Config, w: int, id: int, inst: string, err: string,
      max: int, appNow: int)
    requires id in s.jobs && HeldBy(s.jobs[id], inst) && w !in s.threads
    requires UndisturbedRun(Step(s, CountFail(w, id, inst, err, max), cfg), mid, cfg, w, id, inst)
    ensures var split := Step(Exec(Step(s, CountFail(w, id, inst, err, max), cfg), mid, cfg), Settle(w, appNow), cfg);
            var plain := Exec(s, mid, cfg);
            split == plain.(jobs := OnRow(plain.jobs, id, Fail(inst, err, max, cfg.backoff, appNow)))
  {
    var s1 := Step(s, CountFail(w, id, inst, err, max), cfg);
    GapRun(s1, s, mid, cfg, w, id, inst, err, max);
    SettleGap(Exec(s1, mid, cfg), Exec(s, mid, cfg), cfg, w, id, inst, err, max, appNow);
  }

  lemma SettleGap(s: Sys, a: Sys, cfg: Config, w: int, id: int, inst: string, err: string, max: int, appNow: int)
    requires InGap(s, a, w, id, inst, err, max)
    ensures Step(s, Settle(w, appNow), cfg) == a.(jobs := OnRow(a.jobs, id, Fail(inst, err, max, cfg.backoff, appNow)))
  {
    var split := Step(s, Settle(w, appNow), cfg);
    assert split.threads == a.threads;
    assert split.jobs[id] == Apply(a.jobs[id], Fail(inst, err, max, cfg.backoff, appNow));
    SameMap(split.jobs, OnRow(a.jobs, id, Fail(inst, err, max, cfg.backoff, appNow)));
  }
}
