/** How long a failed job waits: the retry delays over whole runs of calls. */
module QueueRetries {
  import opened Base
  import opened SendJobs
  import opened QueueRuns

  /** The step records a failed delivery of the job: its holder reports one, or a recovery finds the claim stale and the
      limit not reached. */
  predicate FailsJob(t: Table, c: Call, cfg: Config, id: int) {
    id in t && t[id].status == Claimed
    && match c
       case OneRow(k, Fail(inst, _, _, _, _)) => k == id && t[id].claimedBy == Some(inst)
       case OneRow(k, Recover(_, now, _)) =>
         k == id && Stale(t[id], cfg.ttl, now) && t[id].attempts + 1 < cfg.maxAttempts
       case RecoverAll(now, _) => Stale(t[id], cfg.ttl, now) && t[id].attempts + 1 < cfg.maxAttempts
       case _ => false
  }

  function Failures(run: seq<Call>, cfg: Config, id: int): nat {
    if run == [] then 0
    else
      var before := run[..|run| - 1];
      Failures(before, cfg, id) + if FailsJob(Exec(map[], before, cfg), run[|run| - 1], cfg, id) then 1 else 0
  }

  lemma FailureCounts(t: Table, c: Call, cfg: Config, id: int)
    requires Allowed(c, cfg) && id in t
    ensures id in Step(t, c, cfg)
    ensures Step(t, c, cfg)[id].attempts == t[id].attempts + if FailsJob(t, c, cfg, id) then 1 else 0
  {
    RowAfter(t, c, cfg, id);
  }

  /** The attempts column is the number of failures recorded so far. */
  lemma {:induction false} AttemptsAreFailures(run: seq<Call>, cfg: Config, id: int)
    requires AllAllowed(run, cfg)
    ensures var t := Exec(map[], run, cfg);
            if id in t then t[id].attempts == Failures(run, cfg, id) else Failures(run, cfg, id) == 0
  {
    if run != [] {
      var before, c := run[..|run| - 1], run[|run| - 1];
      AttemptsAreFailures(before, cfg, id);
      var t := Exec(map[], before, cfg);
      assert Allowed(c, cfg);
      if id in t {
        FailureCounts(t, c, cfg, id);
      } else if id in Step(t, c, cfg) {
        NewRow(t, c, cfg, id);
      }
    }
  }

  predicate PendingAt(t: Table, run: seq<Call>, cfg: Config, id: int, k: nat)
    requires k <= |run|
  {
    id in Exec(t, run[..k], cfg) && Exec(t, run[..k], cfg)[id].status == Pending
  }

  /** Nobody takes the job in this run. */
  ghost predicate Waits(t: Table, run: seq<Call>, cfg: Config, id: int) {
    forall k :: 0 <= k <= |run| ==> PendingAt(t, run, cfg, id, k)
  }

  lemma PendingRowStays(t: Table, c: Call, cfg: Config, id: int)
    requires Allowed(c, cfg) && id in t && t[id].status == Pending
    ensures id in Step(t, c, cfg) && (Step(t, c, cfg)[id] == t[id] || Step(t, c, cfg)[id].status == Claimed)
  {
    RowAfter(t, c, cfg, id);
  }

  lemma {:induction false} WaitingRowStays(t: Table, run: seq<Call>, cfg: Config, id: int)
    requires AllAllowed(run, cfg) && Waits(t, run, cfg, id)
    ensures id in t && id in Exec(t, run, cfg) && Exec(t, run, cfg)[id] == t[id]
  {
    assert PendingAt(t, run, cfg, id, |run|) && run[..|run|] == run;
    if run != [] {
      var n := |run| - 1;
      forall k | 0 <= k <= n ensures PendingAt(t, run[..n], cfg, id, k) {
        assert PendingAt(t, run, cfg, id, k) && run[..n][..k] == run[..k];
      }
      WaitingRowStays(t, run[..n], cfg, id);
      assert PendingAt(t, run, cfg, id, n) && Allowed(run[n], cfg);
      PendingRowStays(Exec(t, run[..n], cfg), run[n], cfg, id);
    }
  }

  /** The retry time that the k-th failure of the job stores. */
  lemma FailureIsStored(t: Table, cfg: Config, id: int, k: nat, failure: Call, appNow: int) returns (retry: int)
    requires ReportsFailure(t, failure, cfg, id, appNow) && t[id].attempts == k - 1 && 1 <= k < cfg.maxAttempts
    ensures retry == appNow + DelayAfter(k, cfg.backoff)
    ensures var t' := Step(t, failure, cfg);
            id in t' && t'[id].status == Pending && t'[id].nextRetryAt == Some(retry)
  {
    FailedRow(t[id], failure.u.inst, failure.u.err, cfg.maxAttempts, cfg.backoff, appNow);
    retry := Apply(t[id], failure.u).nextRetryAt.value;
  }

  /** The k-th of the delays, or the last one when there are fewer, or 0. */
  function DelayAfter(k: int, delays: seq<int>): int
    requires 1 <= k
  {
    if |delays| == 0 then 0 else delays[(if k <= |delays| then k else |delays|) - 1]
  }

  /** The k-th failure of a job, reported by its holder below the limit, waits for exactly the k-th delay, or the last
      one when there are fewer: whatever runs meanwhile, a claim takes the job if and only if that time has come and it
      has room for the job. */
  lemma KthFailureWaits(run: seq<Call>, mid: seq<Call>, cfg: Config, id: int, k: nat, failure: Call, appNow: int)
    returns (retry: int)
    requires AllAllowed(run, cfg) && AllAllowed(mid, cfg)
    requires Failures(run, cfg, id) == k - 1 && k < cfg.maxAttempts
    requires ReportsFailure(Exec(map[], run, cfg), failure, cfg, id, appNow)
    requires Waits(Step(Exec(map[], run, cfg), failure, cfg), mid, cfg, id)
    ensures retry == appNow + DelayAfter(k, cfg.backoff)
    ensures forall other, limit, now ::
              TakenFrom(Exec(Step(Exec(map[], run, cfg), failure, cfg), mid, cfg), cfg, id, retry, other, limit, now)
  {
    AttemptsAreFailures(run, cfg, id);
    retry := FailureWaits(Exec(map[], run, cfg), mid, cfg, id, k, failure, appNow);
  }

  /** The holder of the job reports a failed delivery. */
  predicate ReportsFailure(t: Table, c: Call, cfg: Config, id: int, appNow: int) {
    && id in t && c.OneRow? && c.id == id && c.u.Fail? && HeldBy(t[id], c.u.inst)
    && c.u.max == cfg.maxAttempts && c.u.backoff == cfg.backoff && c.u.appNow == appNow
  }

  lemma FailureWaits(t: Table, mid: seq<Call>, cfg: Config, id: int, k: nat, failure: Call, appNow: int)
    returns (retry: int)
    requires ReportsFailure(t, failure, cfg, id, appNow) && t[id].attempts == k - 1 && 1 <= k < cfg.maxAttempts
    requires AllAllowed(mid, cfg) && Waits(Step(t, failure, cfg), mid, cfg, id)
    ensures retry == appNow + DelayAfter(k, cfg.backoff)
    ensures forall other, limit, now ::
              TakenFrom(Exec(Step(t, failure, cfg), mid, cfg), cfg, id, retry, other, limit, now)
  {
    retry := FailureIsStored(t, cfg, id, k, failure, appNow);
    forall other, limit, now
      ensures TakenFrom(Exec(Step(t, failure, cfg), mid, cfg), cfg, id, retry, other, limit, now)
    {
      ClaimAfterWaiting(Step(t, failure, cfg), mid, cfg, id, retry, other, limit, now);
    }
  }

  /** A claim takes the job exactly from the time `retry` on, when it has room for it. */
  predicate TakenFrom(t: Table, cfg: Config, id: int, retry: int, inst: string, limit: nat, now: int) {
    var t' := Step(t, ClaimDue(inst, limit, now), cfg);
    && id in t && id in t'
    && t'[id].status == if retry <= now && |SmallerDue(t, now, id)| < limit then Claimed else Pending
  }

  lemma ClaimAfterWaiting(failed: Table, mid: seq<Call>, cfg: Config, id: int, retry: int, inst: string, limit: nat,
      now: int)
    requires AllAllowed(mid, cfg) && Waits(failed, mid, cfg, id)
    requires id in failed && failed[id].nextRetryAt == Some(retry)
    ensures TakenFrom(Exec(failed, mid, cfg), cfg, id, retry, inst, limit, now)
  {
    WaitingRowStays(failed, mid, cfg, id);
    assert PendingAt(failed, mid, cfg, id, |mid|) && mid[..|mid|] == mid;
    ClaimOfWaiting(Exec(failed, mid, cfg), cfg, id, retry, inst, limit, now);
  }

  lemma ClaimOfWaiting(t: Table, cfg: Config, id: int, retry: int, inst: string, limit: nat, now: int)
    requires id in t && t[id].status == Pending && t[id].nextRetryAt == Some(retry)
    ensures TakenFrom(t, cfg, id, retry, inst, limit, now)
  {
    RowAfter(t, ClaimDue(inst, limit, now), cfg, id);
    if retry <= now { SelectedIff(t, now, limit, id); }
  }
}
