/** What can go wrong between two statements of one call: exactly when it does, and runs in which it does. */
module QueueAnomalies {
  import opened Base
  import opened SendJobs
  import opened QueueStatements

  // ---- MarkFailed: the second UPDATE is guarded by the id only ----

  /** The second UPDATE of a MarkFailed on this job. */
  predicate Settles(s: Sys, st: Stmt, id: int) { st.Settle? && IsFailing(s, st.w) && s.threads[st.w].id == id }

  /** That UPDATE puts the job back into the queue rather than failing it. */
  predicate Requeues(s: Sys, st: Stmt, id: int) { Settles(s, st, id) && s.threads[st.w].attempts < s.threads[st.w].max }

  /** A finished job changes status exactly through such an UPDATE: below the limit it becomes pending again, at
      the limit a delivered job becomes failed. */
  lemma FinishedJobChangesIff(s: Sys, st: Stmt, cfg: Config, id: int)
    requires id in s.jobs && Terminal(s.jobs[id])
    ensures id in Step(s, st, cfg).jobs
    ensures Step(s, st, cfg).jobs[id].status != s.jobs[id].status
            <==> Settles(s, st, id) && (Requeues(s, st, id) || s.jobs[id].status == Done)
    ensures !Terminal(Step(s, st, cfg).jobs[id]) <==> Requeues(s, st, id)
    ensures !Settles(s, st, id) ==> Step(s, st, cfg).jobs[id] == s.jobs[id]
  {
    RowAfter(s, st, cfg, id);
  }

  /** A statement takes the job out of the hands of `inst`: another thread of `inst` finishes it, a MarkFailed on it is
      settled, or a recovery finds the claim stale. */
  predicate EndsClaim(s: Sys, st: Stmt, cfg: Config, id: int, inst: string)
    requires id in s.jobs
  {
    match st
    case FinishOne(k, i, _) => k == id && i == inst
    case Settle(_, _) => Settles(s, st, id)
    case Requeue(now, _) => Stale(s.jobs[id], cfg.ttl, now) && s.jobs[id].attempts + 1 < cfg.maxAttempts
    case Abandon(now) => Stale(s.jobs[id], cfg.ttl, now) && s.jobs[id].attempts + 1 >= cfg.maxAttempts
    case _ => false
  }

  /** A holder loses its claim exactly through those. In particular a claim that is fresh and whose holder does
      not finish the job is taken away exactly by settling a MarkFailed, whichever instance counted that failure. */
  lemma ClaimIsLostIff(s: Sys, st: Stmt, cfg: Config, id: int, inst: string)
    requires id in s.jobs && HeldBy(s.jobs[id], inst)
    ensures id in Step(s, st, cfg).jobs
    ensures !HeldBy(Step(s, st, cfg).jobs[id], inst) <==> EndsClaim(s, st, cfg, id, inst)
    ensures (st.Requeue? || st.Abandon? ==> !Stale(s.jobs[id], cfg.ttl, st.now))
            && !(st.FinishOne? && st.inst == inst) ==>
              (!HeldBy(Step(s, st, cfg).jobs[id], inst) <==> Settles(s, st, id))
  {
    RowAfter(s, st, cfg, id);
  }

  function At(run: seq<Stmt>, cfg: Config, k: nat): Sys
    requires k <= |run|
  {
    Exec(EMPTY, run[..k], cfg)
  }

  /** The whole run leaves thread w between the two UPDATEs of a MarkFailed by `inst`; step i was the first of them. */
  ghost predicate OpenGap(run: seq<Stmt>, cfg: Config, i: nat, w: int, id: int, inst: string) {
    && i < |run| && run[i].CountFail? && run[i].w == w && run[i].id == id && run[i].inst == inst
    && id in At(run, cfg, i).jobs && HeldBy(At(run, cfg, i).jobs[id], inst)
    && forall j :: i < j <= |run| ==> FailingOn(At(run, cfg, j), w, id, inst)
  }

  predicate FailingOn(s: Sys, w: int, id: int, inst: string) {
    IsFailing(s, w) && s.threads[w].id == id && s.threads[w].inst == inst
  }

  lemma GapStaysOpen(run: seq<Stmt>, cfg: Config, i: nat, w: int, id: int, inst: string)
    requires run != [] && OpenGap(run[..|run| - 1], cfg, i, w, id, inst)
            && FailingOn(Exec(EMPTY, run, cfg), w, id, inst)
    ensures OpenGap(run, cfg, i, w, id, inst)
  {
    var n := |run| - 1;
    PrefixAt(run, cfg, n, i);
    assert run[..|run|] == run;
    forall j | i < j <= |run| ensures FailingOn(At(run, cfg, j), w, id, inst) {
      if j <= n {
        PrefixAt(run, cfg, n, j);
        assert FailingOn(At(run[..n], cfg, j), w, id, inst);
      }
    }
  }

  lemma FailingThreadAfter(s: Sys, st: Stmt, cfg: Config, w: int)
    requires IsFailing(Step(s, st, cfg), w)
    ensures if IsFailing(s, w) then Step(s, st, cfg).threads[w] == s.threads[w]
            else && st.CountFail? && st.w == w && st.id in s.jobs && HeldBy(s.jobs[st.id], st.inst)
                 && Step(s, st, cfg).threads[w].id == st.id && Step(s, st, cfg).threads[w].inst == st.inst
  {
    ThreadsAfter(s, st, cfg);
  }

  lemma PrefixAt(run: seq<Stmt>, cfg: Config, n: nat, k: nat)
    requires k <= n <= |run|
    ensures At(run[..n], cfg, k) == At(run, cfg, k)
  {
    assert run[..n][..k] == run[..k];
  }

  lemma {:induction false} EveryGapWasOpened(run: seq<Stmt>, cfg: Config, w: int) returns (i: nat)
    requires IsFailing(Exec(EMPTY, run, cfg), w)
    ensures var t := Exec(EMPTY, run, cfg).threads[w]; OpenGap(run, cfg, i, w, t.id, t.inst)
  {
    assert run != [];
    var n := |run| - 1;
    var before, t := run[..n], Exec(EMPTY, run, cfg).threads[w];
    FailingThreadAfter(Exec(EMPTY, before, cfg), run[n], cfg, w);
    assert run[..|run|] == run;
    if IsFailing(Exec(EMPTY, before, cfg), w) {
      i := EveryGapWasOpened(before, cfg, w);
      GapStaysOpen(run, cfg, i, w, t.id, t.inst);
    } else {
      i := n;
    }
  }

  predicate HeldAt(run: seq<Stmt>, cfg: Config, k: nat, id: int, inst: string)
    requires k <= |run|
  {
    id in At(run, cfg, k).jobs && HeldBy(At(run, cfg, k).jobs[id], inst)
  }

  /** From step i up to step k the job is in the hands of `inst`. */
  ghost predicate HeldFrom(run: seq<Stmt>, cfg: Config, i: nat, k: nat, id: int, inst: string)
    requires i <= k <= |run|
  {
    forall j :: i <= j <= k ==> HeldAt(run, cfg, j, id, inst)
  }

  predicate EndsAt(run: seq<Stmt>, cfg: Config, j: nat, id: int, inst: string)
    requires j < |run|
  {
    id in At(run, cfg, j).jobs && EndsClaim(At(run, cfg, j), run[j], cfg, id, inst)
  }

  ghost predicate NothingEnds(run: seq<Stmt>, cfg: Config, i: nat, k: nat, id: int, inst: string)
    requires k <= |run|
  {
    forall j :: i <= j < k ==> !EndsAt(run, cfg, j, id, inst)
  }

  lemma HeldAtNextIff(run: seq<Stmt>, cfg: Config, k: nat, id: int, inst: string)
    requires k < |run| && HeldAt(run, cfg, k, id, inst)
    ensures HeldAt(run, cfg, k + 1, id, inst) <==> !EndsAt(run, cfg, k, id, inst)
  {
    OneMore(EMPTY, run, cfg, k);
    ClaimIsLostIff(At(run, cfg, k), run[k], cfg, id, inst);
  }

  lemma {:induction false} HeldFromIff(run: seq<Stmt>, cfg: Config, i: nat, k: nat, id: int, inst: string)
    requires i <= k <= |run| && HeldAt(run, cfg, i, id, inst)
    ensures HeldFrom(run, cfg, i, k, id, inst) <==> NothingEnds(run, cfg, i, k, id, inst)
    decreases k
  {
    if i < k {
      HeldFromIff(run, cfg, i, k - 1, id, inst);
      if HeldFrom(run, cfg, i, k - 1, id, inst) {
        assert HeldAt(run, cfg, k - 1, id, inst);
        HeldAtNextIff(run, cfg, k - 1, id, inst);
      }
    }
  }

  /** For every run that has come to the second UPDATE of a MarkFailed: the UPDATE still acts on the claim whose failure
      was counted if and only if, in the open gap, no recovery found that claim stale, no other thread of the same
      instance finished the job, and no other MarkFailed on it was settled. */
  lemma GapIsIntactIff(run: seq<Stmt>, cfg: Config, w: int) returns (i: nat)
    requires IsFailing(Exec(EMPTY, run, cfg), w)
    ensures var t := Exec(EMPTY, run, cfg).threads[w];
            && OpenGap(run, cfg, i, w, t.id, t.inst)
            && (HeldFrom(run, cfg, i + 1, |run|, t.id, t.inst) <==> NothingEnds(run, cfg, i + 1, |run|, t.id, t.inst))
            && (forall j :: i < j < |run| && run[j].Settle? && EndsAt(run, cfg, j, t.id, t.inst) ==> run[j].w != w)
  {
    i := EveryGapWasOpened(run, cfg, w);
    var t := Exec(EMPTY, run, cfg).threads[w];
    OneMore(EMPTY, run, cfg, i);
    RowAfter(At(run, cfg, i), run[i], cfg, t.id);
    HeldFromIff(run, cfg, i + 1, |run|, t.id, t.inst);
    forall j | i < j < |run| && run[j].Settle? && EndsAt(run, cfg, j, t.id, t.inst) ensures run[j].w != w {
      assert IsFailing(At(run, cfg, j + 1), w);
      OneMore(EMPTY, run, cfg, j);
    }
  }

  /** So whenever the second UPDATE hits a finished job, a waiting one or another instance's claim, one of those acted
      in the gap, while the claim was still there. */
  lemma HarmNeedsDisturbance(run: seq<Stmt>, cfg: Config, w: int) returns (i: nat, j: nat)
    requires IsFailing(Exec(EMPTY, run, cfg), w)
    requires var t := Exec(EMPTY, run, cfg).threads[w];
             t.id in Exec(EMPTY, run, cfg).jobs ==> !HeldBy(Exec(EMPTY, run, cfg).jobs[t.id], t.inst)
    ensures var t := Exec(EMPTY, run, cfg).threads[w];
            i < j < |run| && OpenGap(run, cfg, i, w, t.id, t.inst) && EndsAt(run, cfg, j, t.id, t.inst)
  {
    i := GapIsIntactIff(run, cfg, w);
    var t := Exec(EMPTY, run, cfg).threads[w];
    assert run[..|run|] == run && At(run, cfg, |run|) == Exec(EMPTY, run, cfg);
    assert !HeldAt(run, cfg, |run|, t.id, t.inst);
    j :| i < j < |run| && EndsAt(run, cfg, j, t.id, t.inst);
  }

  // ---- runs in which it happens ----

  /** Instance a stops after the first of MarkFailed's statements, called with the limit `max`. */
  function StallingRun(max: int): seq<Stmt> {
    [Insert(1, 7, 0, "null", ""), SelectDue(10, "a", 1, 0), ClaimNext(10, 0), CountFail(11, 1, "a", "smtp", max)]
  }

  /** Instance b takes the job over. */
  function TakeoverRun(): seq<Stmt> {
    [Requeue(200, 200), SelectDue(20, "b", 1, 300), ClaimNext(20, 300)]
  }

  const CFG := Config(120, 3, [])

  lemma Stalls(max: int) returns (s: Sys)
    ensures s == Exec(EMPTY, StallingRun(max), CFG)
    ensures s.jobs.Keys == {1} && HeldBy(s.jobs[1], "a") && s.jobs[1].claimedAt == Some(0) && s.jobs[1].attempts == 1
    ensures s.threads == map[10 := Claiming("a", []), 11 := Failing(1, "a", 1, max)]
  {
    var s1 := Inserted(StallingRun(max), CFG);
    var s2 := Step(s1, SelectDue(10, "a", 1, 0), CFG);
    assert s2.threads == map[10 := Claiming("a", [1])] && [1][1..] == [];
    var s3 := Step(s2, ClaimNext(10, 0), CFG);
    assert s3.threads == map[10 := Claiming("a", [])] && HeldBy(s3.jobs[1], "a");
    s := Step(s3, CountFail(11, 1, "a", "smtp", max), CFG);
    FourSteps(EMPTY, StallingRun(max), CFG);
  }

  lemma TakesOver(s: Sys, max: int) returns (t: Sys)
    requires s.jobs.Keys == {1} && HeldBy(s.jobs[1], "a") && s.jobs[1].claimedAt == Some(0) && s.jobs[1].attempts == 1
    requires s.threads == map[10 := Claiming("a", []), 11 := Failing(1, "a", 1, max)]
    ensures t == Exec(s, TakeoverRun(), CFG)
    ensures t.jobs.Keys == {1} && HeldBy(t.jobs[1], "b") && t.jobs[1].claimedAt == Some(300)
    ensures 11 in t.threads && t.threads[11] == Failing(1, "a", 1, max)
  {
    var s1 := Step(s, Requeue(200, 200), CFG);
    assert s1.threads == s.threads && s1.jobs.Keys == {1} && Due(s1.jobs[1], 300);
    OnlyDueId(s1.jobs, 300);
    var s2 := Step(s1, SelectDue(20, "b", 1, 300), CFG);
    assert s2.threads[20] == Claiming("b", [1]) && [1][1..] == [];
    t := Step(s2, ClaimNext(20, 300), CFG);
    ThreeSteps(s, TakeoverRun(), CFG);
  }

  lemma StalledRunsAreAllowed(max: int)
    requires 1 <= max <= 3
    ensures Allowed(StallingRun(max) + TakeoverRun(), CFG)
    ensures Allowed(StallingRun(max) + TakeoverRun() + [FinishOne(1, "b", 310)], CFG)
  {
    var run := StallingRun(max) + TakeoverRun() + [FinishOne(1, "b", 310)];
    assert forall i :: 0 <= i < |run| && run[i].CountFail? ==> run[i].max == max;
    assert forall st :: st in StallingRun(max) + TakeoverRun() ==> st in run;
  }

  /** A live claim is taken away: the stalled instance wakes up and settles its old failure while b is delivering. */
  lemma LiveClaimCanBeTaken()
    ensures var run := StallingRun(3) + TakeoverRun();
            var s := Exec(EMPTY, run, CFG);
            && Allowed(run, CFG)
            && 1 in s.jobs && HeldBy(s.jobs[1], "b") && !Stale(s.jobs[1], CFG.ttl, 400)
            && 1 in Step(s, Settle(11, 400), CFG).jobs && Due(Step(s, Settle(11, 400), CFG).jobs[1], 400)
  {
    var s := TakenOver(3);
    StalledRunsAreAllowed(3);
    SettlesTakenOver(s);
  }

  lemma TakenOver(max: int) returns (t: Sys)
    ensures t == Exec(EMPTY, StallingRun(max) + TakeoverRun(), CFG)
    ensures t.jobs.Keys == {1} && HeldBy(t.jobs[1], "b") && t.jobs[1].claimedAt == Some(300)
    ensures 11 in t.threads && t.threads[11] == Failing(1, "a", 1, max)
  {
    var s := Stalls(max);
    t := TakesOver(s, max);
    ExecAppend(EMPTY, StallingRun(max), TakeoverRun(), CFG);
  }

  lemma SettlesTakenOver(s: Sys)
    requires 1 in s.jobs && 11 in s.threads && s.threads[11] == Failing(1, "a", 1, 3)
    ensures 1 in Step(s, Settle(11, 400), CFG).jobs && Due(Step(s, Settle(11, 400), CFG).jobs[1], 400)
  {
  }

  lemma Delivers(max: int) returns (t: Sys)
    ensures t == Exec(EMPTY, StallingRun(max) + TakeoverRun() + [FinishOne(1, "b", 310)], CFG)
    ensures 1 in t.jobs && t.jobs[1].status == Done && 11 in t.threads && t.threads[11] == Failing(1, "a", 1, max)
  {
    var s := TakenOver(max);
    var run := StallingRun(max) + TakeoverRun() + [FinishOne(1, "b", 310)];
    assert run[..|run| - 1] == StallingRun(max) + TakeoverRun();
    t := Step(s, FinishOne(1, "b", 310), CFG);
  }

  /** A delivered job becomes pending again. */
  lemma DeliveredJobCanBeRevived()
    ensures var run := StallingRun(3) + TakeoverRun() + [FinishOne(1, "b", 310)];
            var s := Exec(EMPTY, run, CFG);
            && Allowed(run, CFG)
            && 1 in s.jobs && s.jobs[1].status == Done
            && 1 in Step(s, Settle(11, 400), CFG).jobs && Due(Step(s, Settle(11, 400), CFG).jobs[1], 400)
  {
    var s := Delivers(3);
    StalledRunsAreAllowed(3);
    SettlesTakenOver(s);
  }

  /** A delivered job is recorded as failed: the stalled call had the limit 1, as for a payload that does not decode. */
  lemma DeliveredJobCanFail()
    ensures var run := StallingRun(1) + TakeoverRun() + [FinishOne(1, "b", 310)];
            var s := Exec(EMPTY, run, CFG);
            && Allowed(run, CFG)
            && 1 in s.jobs && s.jobs[1].status == Done
            && 1 in Step(s, Settle(11, 400), CFG).jobs && Step(s, Settle(11, 400), CFG).jobs[1].status == Failed
  {
    var s := Delivers(1);
    StalledRunsAreAllowed(1);
    FinishedJobChangesIff(s, Settle(11, 400), CFG, 1);
  }

  // ---- Claim: only the SELECT looks at the retry time ----

  /** The last time before step k that the job was put back into the queue. */
  ghost predicate LastRelease(s: Sys, run: seq<Stmt>, cfg: Config, id: int, r: nat, k: nat) {
    r < k <= |run| && Releases(Exec(s, run[..r], cfg), run[r], cfg, id) && NoRelease(s, run, cfg, id, r + 1, k)
  }

  lemma {:induction false} FindLastRelease(s: Sys, run: seq<Stmt>, cfg: Config, id: int, i: nat, k: nat)
      returns (r: nat)
    requires i <= k <= |run| && !NoRelease(s, run, cfg, id, i, k)
    ensures i <= r && LastRelease(s, run, cfg, id, r, k)
    decreases k
  {
    r := k - 1;
    NoReleaseSplits(s, run, cfg, id, i, k);
    if NoRelease(s, run, cfg, id, r, k) {
      NoReleaseSplits(s, run, cfg, id, r, k);
      r := FindLastRelease(s, run, cfg, id, i, k - 1);
      NoReleaseSplits(s, run, cfg, id, r + 1, k);
    }
  }

  lemma NoReleaseSplits(s: Sys, run: seq<Stmt>, cfg: Config, id: int, i: nat, k: nat)
    requires i < k <= |run|
    ensures NoRelease(s, run, cfg, id, i, k)
            <==> NoRelease(s, run, cfg, id, i, k - 1) && NoRelease(s, run, cfg, id, k - 1, k)
    ensures NoRelease(s, run, cfg, id, k - 1, k) <==> !Releases(Exec(s, run[..k - 1], cfg), run[k - 1], cfg, id)
  {
  }

  lemma PendingStep(s: Sys, st: Stmt, cfg: Config, id: int)
    requires id in s.jobs && id in Step(s, st, cfg).jobs && !Releases(s, st, cfg, id)
    requires Step(s, st, cfg).jobs[id].status == Pending
    ensures s.jobs[id].status == Pending && s.jobs[id].nextRetryAt == Step(s, st, cfg).jobs[id].nextRetryAt
  {
    RowAfter(s, st, cfg, id);
  }

  /** A job that is pending at step k and was not released since step i has kept its retry time. */
  lemma {:induction false} RetryTimeIsKept(s: Sys, run: seq<Stmt>, cfg: Config, id: int, i: nat, k: nat)
    requires i <= k <= |run| && NoRelease(s, run, cfg, id, i, k) && id in Exec(s, run[..i], cfg).jobs
    ensures id in Exec(s, run[..k], cfg).jobs
    ensures Exec(s, run[..k], cfg).jobs[id].status == Pending ==>
              Exec(s, run[..k], cfg).jobs[id].nextRetryAt == Exec(s, run[..i], cfg).jobs[id].nextRetryAt
    decreases k
  {
    if i < k {
      RetryTimeIsKept(s, run, cfg, id, i, k - 1);
      OneMore(s, run, cfg, k - 1);
      RowAfter(Exec(s, run[..k - 1], cfg), run[k - 1], cfg, id);
      if Exec(s, run[..k], cfg).jobs[id].status == Pending {
        PendingStep(Exec(s, run[..k - 1], cfg), run[k - 1], cfg, id);
      }
    }
  }

  /** The release at step r stored a retry time after `now`. */
  predicate StoresLater(s: Sys, run: seq<Stmt>, cfg: Config, id: int, r: nat, now: int)
    requires r < |run|
  {
    var t := Exec(s, run[..r + 1], cfg).jobs;
    id in t && t[id].nextRetryAt.Some? && now < t[id].nextRetryAt.value
  }

  /** Step k claims the job from the ids selected at step i. */
  predicate ClaimsSelected(s: Sys, run: seq<Stmt>, cfg: Config, id: int, i: nat, k: nat) {
    && i < k < |run| && run[i].SelectDue? && run[k].ClaimNext?
    && id in DueIds(Exec(s, run[..i], cfg).jobs, run[i].now, run[i].limit)
    && ClaimsRow(Exec(s, run[..k], cfg), run[k], cfg, id)
  }

  lemma LastReleaseDecides(s: Sys, run: seq<Stmt>, cfg: Config, id: int, r: nat, k: nat, now: int)
    requires LastRelease(s, run, cfg, id, r, k)
    requires id in Exec(s, run[..k], cfg).jobs && Exec(s, run[..k], cfg).jobs[id].status == Pending
    ensures StoresLater(s, run, cfg, id, r, now) <==> !Due(Exec(s, run[..k], cfg).jobs[id], now)
  {
    OneMore(s, run, cfg, r);
    RowAfter(Exec(s, run[..r], cfg), run[r], cfg, id);
    RetryTimeIsKept(s, run, cfg, id, r + 1, k);
  }

  ghost predicate PostponedSince(s: Sys, run: seq<Stmt>, cfg: Config, id: int, i: nat, k: nat, now: int) {
    exists r :: i < r && LastRelease(s, run, cfg, id, r, k) && StoresLater(s, run, cfg, id, r, now)
  }

  lemma SelectReleasesNothing(s: Sys, run: seq<Stmt>, cfg: Config, id: int, i: nat, r: nat, k: nat)
    requires i < |run| && run[i].SelectDue? && LastRelease(s, run, cfg, id, r, k)
    ensures r != i
  {
  }

  /** With a clock that does not go back, a claim comes before the job's retry time if and only if the job was released
      after the SELECT and the last release stored a retry time after the claim. */
  lemma ClaimIsEarlyIff(s: Sys, run: seq<Stmt>, cfg: Config, id: int, i: nat, k: nat)
    requires ClaimsSelected(s, run, cfg, id, i, k) && run[i].now <= run[k].now
    ensures !Due(Exec(s, run[..k], cfg).jobs[id], run[k].now) <==> PostponedSince(s, run, cfg, id, i, k, run[k].now)
  {
    var now := run[k].now;
    if PostponedSince(s, run, cfg, id, i, k, now) {
      var r :| i < r && LastRelease(s, run, cfg, id, r, k) && StoresLater(s, run, cfg, id, r, now);
      LastReleaseDecides(s, run, cfg, id, r, k, now);
    }
    if NoRelease(s, run, cfg, id, i, k) {
      SnapshotStaysDue(s, run, cfg, id, i, k, run[i].now);
    } else {
      var r := FindLastRelease(s, run, cfg, id, i, k);
      SelectReleasesNothing(s, run, cfg, id, i, r, k);
      LastReleaseDecides(s, run, cfg, id, r, k, now);
    }
  }

  const WAITING := Config(120, 3, [400])

  /** Instances a and b both select the job; b claims it first and its delivery fails, to be retried 400 seconds
      later. */
  function BothSelect(): seq<Stmt> {
    [Insert(1, 7, 0, "null", ""), SelectDue(10, "a", 1, 0), SelectDue(20, "b", 1, 0), ClaimNext(20, 0)]
  }

  function Fails(): seq<Stmt> { [CountFail(21, 1, "b", "smtp", 3), Settle(21, 100), ClaimNext(10, 100)] }

  /** Instance a then claims the job at once, from its old SELECT. */
  lemma ClaimCanBeEarly()
    ensures var run := BothSelect() + Fails();
            && Allowed(run, WAITING) && ClaimsSelected(EMPTY, run, WAITING, 1, 1, 6) && run[1].now <= run[6].now
            && Exec(EMPTY, run[..6], WAITING).jobs[1].nextRetryAt == Some(500) && run[6].now == 100
  {
    var run := BothSelect() + Fails();
    assert forall j :: 0 <= j < |run| && run[j].CountFail? ==> run[j].max == 3;
    var s1 := Inserted(run, WAITING);
    var s4 := SelectedByBoth(s1);
    FourSteps(EMPTY, run[..4], WAITING);
    FailedAndClaimed(s4, run);
  }

  /** After the first statement the job is there and due. */
  lemma Inserted(run: seq<Stmt>, cfg: Config) returns (s1: Sys)
    requires run != [] && run[0] == Insert(1, 7, 0, "null", "")
    ensures s1 == Exec(EMPTY, run[..1], cfg) == Step(EMPTY, run[0], cfg)
    ensures s1 == Sys(map[1 := NewJob(7, 0, "null", "")], map[]) && DueIds(s1.jobs, 0, 1) == [1]
  {
    OneMore(EMPTY, run, cfg, 0);
    assert run[..0] == [];
    s1 := Step(EMPTY, run[0], cfg);
    assert s1 == Sys(map[1 := NewJob(7, 0, "null", "")], map[]);
    OnlyDueId(s1.jobs, 0);
  }

  lemma SelectedByBoth(s1: Sys) returns (s4: Sys)
    requires s1 == Sys(map[1 := NewJob(7, 0, "null", "")], map[]) && DueIds(s1.jobs, 0, 1) == [1]
    ensures s4 == Step(Step(Step(s1, SelectDue(10, "a", 1, 0), WAITING), SelectDue(20, "b", 1, 0), WAITING),
            ClaimNext(20, 0), WAITING)
    ensures s4.threads == map[10 := Claiming("a", [1]), 20 := Claiming("b", [])]
    ensures 1 in s4.jobs && HeldBy(s4.jobs[1], "b") && s4.jobs[1].attempts == 0
  {
    var s3 := Step(Step(s1, SelectDue(10, "a", 1, 0), WAITING), SelectDue(20, "b", 1, 0), WAITING);
    assert s3.threads == map[10 := Claiming("a", [1]), 20 := Claiming("b", [1])] && [1][1..] == [];
    s4 := Step(s3, ClaimNext(20, 0), WAITING);
  }

  lemma FailedAndClaimed(s4: Sys, run: seq<Stmt>)
    requires |run| == 7 && s4 == Exec(EMPTY, run[..4], WAITING)
    requires run[4] == CountFail(21, 1, "b", "smtp", 3) && run[5] == Settle(21, 100) && run[6] == ClaimNext(10, 100)
    requires s4.threads == map[10 := Claiming("a", [1]), 20 := Claiming("b", [])]
    requires 1 in s4.jobs && HeldBy(s4.jobs[1], "b") && s4.jobs[1].attempts == 0
    ensures 1 in Exec(EMPTY, run[..6], WAITING).jobs && Exec(EMPTY, run[..6], WAITING).jobs[1].nextRetryAt == Some(500)
    ensures ClaimsRow(Exec(EMPTY, run[..6], WAITING), run[6], WAITING, 1)
  {
    OneMore(EMPTY, run, WAITING, 4);
    OneMore(EMPTY, run, WAITING, 5);
    var s6 := FailsAt(s4);
    ClaimsPending(s6);
  }

  lemma FailsAt(s4: Sys) returns (s6: Sys)
    requires s4.threads == map[10 := Claiming("a", [1]), 20 := Claiming("b", [])]
    requires 1 in s4.jobs && HeldBy(s4.jobs[1], "b") && s4.jobs[1].attempts == 0
    ensures s6 == Step(Step(s4, CountFail(21, 1, "b", "smtp", 3), WAITING), Settle(21, 100), WAITING)
    ensures 1 in s6.jobs && s6.jobs[1].status == Pending && s6.jobs[1].nextRetryAt == Some(500)
    ensures 10 in s6.threads && s6.threads[10] == Claiming("a", [1])
  {
    var s5 := Step(s4, CountFail(21, 1, "b", "smtp", 3), WAITING);
    assert s5.threads == s4.threads[21 := Failing(1, "b", 1, 3)];
    s6 := Step(s5, Settle(21, 100), WAITING);
  }

  lemma ClaimsPending(s: Sys)
    requires 1 in s.jobs && s.jobs[1].status == Pending && 10 in s.threads && s.threads[10] == Claiming("a", [1])
    ensures ClaimsRow(s, ClaimNext(10, 100), WAITING, 1)
  {
  }

  // ---- running short lists ----

  lemma ThreeSteps(s: Sys, run: seq<Stmt>, cfg: Config)
    requires |run| == 3
    ensures Exec(s, run, cfg) == Step(Step(Step(s, run[0], cfg), run[1], cfg), run[2], cfg)
  {
    OneMore(s, run, cfg, 0);
    OneMore(s, run, cfg, 1);
    OneMore(s, run, cfg, 2);
    assert run[..0] == [] && run[..3] == run;
  }

  lemma FourSteps(s: Sys, run: seq<Stmt>, cfg: Config)
    requires |run| == 4
    ensures Exec(s, run, cfg) == Step(Step(Step(Step(s, run[0], cfg), run[1], cfg), run[2], cfg), run[3], cfg)
  {
    ThreeSteps(s, run[..3], cfg);
    OneMore(s, run, cfg, 3);
    assert run[..4] == run;
  }

  lemma {:induction false} ExecAppend(s: Sys, run: seq<Stmt>, more: seq<Stmt>, cfg: Config)
    ensures Exec(s, run + more, cfg) == Exec(Exec(s, run, cfg), more, cfg)
  {
    if more == [] {
      assert run + more == run;
    } else {
      var n := |more| - 1;
      ExecAppend(s, run, more[..n], cfg);
      assert (run + more)[..|run + more| - 1] == run + more[..n];
    }
  }

  lemma OnlyDueId(t: Table, now: int)
    requires t.Keys == {1} && Due(t[1], now)
    ensures DueIds(t, now, 1) == [1]
  {
    assert (set id | id in t && Due(t[id], now)) == {1};
    var ids := DueIds(t, now, 1);
    assert 1 in ids;
  }
}
