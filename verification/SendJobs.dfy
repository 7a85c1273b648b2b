/** The `send_jobs` table, the UPDATE statements issued on it, and the repository that issues them.
    Times are whole seconds: `now` is the database's NOW(), `appNow` the caller's own clock. */
module SendJobs {
  import opened Base

  datatype Status = Pending | Claimed | Done | Failed

  datatype Job = Job(
    taskId: int, logId: int, vars: string, dedupeKey: string,
    status: Status, claimedBy: Option<string>, claimedAt: Option<int>, attempts: int,
    nextRetryAt: Option<int>, lastError: string, sentAt: Option<int>)

  type Table = map<int, Job>

  function NewJob(taskId: int, logId: int, vars: string, dedupeKey: string): Job {
    Job(taskId, logId, vars, dedupeKey, Pending, None, None, 0, None, "", None)
  }

  predicate HeldBy(j: Job, inst: string) {
    j.status == Claimed && j.claimedBy == Some(inst)
  }

  predicate Due(j: Job, now: int) {
    j.status == Pending && (j.nextRetryAt == None || j.nextRetryAt.value <= now)
  }

  predicate Stale(j: Job, ttl: int, now: int) {
    j.status == Claimed && j.claimedAt.Some? && j.claimedAt.value < now - ttl
  }

  function BackoffFor(attempt: int, backoff: seq<int>): int {
    if |backoff| == 0 then 0
    else if attempt < 0 then backoff[0]
    else if attempt >= |backoff| then backoff[|backoff| - 1]
    else backoff[attempt]
  }

  /** The retry time that follows the k-th failure of a job, in terms of the configured delays: the k-th of them, the
      last one when there are fewer, none when there are none. */
  ghost predicate RetriesAfter(retry: Option<int>, k: int, backoff: seq<int>, appNow: int) {
    && retry.Some?
    && (|backoff| == 0 ==> retry.value == appNow)
    && (1 <= k <= |backoff| ==> retry.value == appNow + backoff[k - 1])
    && (0 < |backoff| < k ==> retry.value == appNow + backoff[|backoff| - 1])
  }

  predicate Terminal(j: Job) { j.status == Done || j.status == Failed }

  /** Claimed, claimed_by set and claimed_at set are the same. */
  predicate WellFormedRow(j: Job) {
    (j.status == Claimed <==> j.claimedBy.Some?) && (j.status == Claimed <==> j.claimedAt.Some?)
  }

  /** The queue parameters every instance shares: claim TTL in seconds, retry limit, retry delays. */
  datatype Config = Config(ttl: int, maxAttempts: int, backoff: seq<int>)

  /** One UPDATE statement. `Fail` and `Recover` are the documented single steps of MarkFailed and
      RecoverStale; the repository issues each as two of the other statements. */
  datatype Update =
    | Claim(inst: string, now: int)
    | Renew(inst: string, now: int)
    | Finish(inst: string, now: int)
    | CountFailure(inst: string, err: string)
    | SettleFailure(attempts: int, max: int, backoff: seq<int>, appNow: int)
    | Fail(inst: string, err: string, max: int, backoff: seq<int>, appNow: int)
    | RequeueStale(cfg: Config, now: int, appNow: int)
    | AbandonStale(cfg: Config, now: int)
    | Recover(cfg: Config, now: int, appNow: int)

  function Release(j: Job, status: Status, nextRetryAt: Option<int>): Job {
    j.(status := status, nextRetryAt := nextRetryAt, claimedBy := None, claimedAt := None)
  }

  /** The row after the statement; a row its WHERE clause misses comes back as it is. */
  function Apply(j: Job, u: Update): Job {
    match u
    case Claim(inst, now) =>
      if j.status == Pending then j.(status := Claimed, claimedBy := Some(inst), claimedAt := Some(now)) else j
    case Renew(inst, now) =>
      if HeldBy(j, inst) then j.(claimedAt := Some(now)) else j
    case Finish(inst, now) =>
      if HeldBy(j, inst)
      then j.(status := Done, sentAt := Some(now), claimedBy := None, claimedAt := None)
      else j
    case CountFailure(inst, err) =>
      if HeldBy(j, inst) then j.(attempts := j.attempts + 1, lastError := err) else j
    case SettleFailure(attempts, max, backoff, appNow) => // WHERE id=? and nothing else
      if attempts >= max then Release(j, Failed, None)
      else Release(j, Pending, Some(appNow + BackoffFor(attempts - 1, backoff)))
    case Fail(inst, err, max, backoff, appNow) =>
      if !HeldBy(j, inst) then j
      else if j.attempts + 1 >= max
      then Release(j, Failed, None).(attempts := j.attempts + 1, lastError := err)
      else Release(j, Pending, Some(appNow + BackoffFor(j.attempts, backoff)))
           .(attempts := j.attempts + 1, lastError := err)
    case RequeueStale(cfg, now, appNow) =>
      if Stale(j, cfg.ttl, now) && j.attempts + 1 < cfg.maxAttempts
      then Release(j, Pending, Some(appNow + BackoffFor(0, cfg.backoff)))
           .(attempts := j.attempts + 1, lastError := "claim timeout, instance crashed: " + j.lastError)
      else j
    case AbandonStale(cfg, now) =>
      if Stale(j, cfg.ttl, now) && j.attempts + 1 >= cfg.maxAttempts
      then Release(j, Failed, None).(lastError := "claim timeout, max attempts reached")
      else j
    case Recover(cfg, now, appNow) =>
      if !Stale(j, cfg.ttl, now) then j
      else if j.attempts + 1 < cfg.maxAttempts
      then Release(j, Pending, Some(appNow + BackoffFor(0, cfg.backoff)))
           .(attempts := j.attempts + 1, lastError := "claim timeout, instance crashed: " + j.lastError)
      else Release(j, Failed, None).(lastError := "claim timeout, max attempts reached")
  }

  /** The documented step of MarkFailed on a row that `inst` holds. */
  lemma FailedRow(j: Job, inst: string, err: string, max: int, backoff: seq<int>, appNow: int)
    requires j.status == Claimed && j.claimedBy == Some(inst)
    ensures var k := Apply(j, Fail(inst, err, max, backoff, appNow));
            && k == j.(status := k.status, attempts := j.attempts + 1, lastError := err,
                       nextRetryAt := k.nextRetryAt, claimedBy := None, claimedAt := None)
            && (k.attempts >= max ==> k.status == Failed && k.nextRetryAt == None)
            && (k.attempts < max ==> k.status == Pending && RetriesAfter(k.nextRetryAt, k.attempts, backoff, appNow))
  {
  }

  /** What RecoverStale makes of a row: only a claim older than the TTL is touched. */
  ghost predicate Recovered(j: Job, k: Job, cfg: Config, now: int, appNow: int) {
    if j.status == Claimed && j.claimedAt.Some? && j.claimedAt.value + cfg.ttl < now then
      && k == j.(status := k.status, attempts := k.attempts, lastError := k.lastError,
                 nextRetryAt := k.nextRetryAt, claimedBy := None, claimedAt := None)
      && if j.attempts + 1 < cfg.maxAttempts
         then k.status == Pending && k.attempts == j.attempts + 1
              && k.nextRetryAt == Some(if |cfg.backoff| > 0 then appNow + cfg.backoff[0] else appNow)
         else k.status == Failed && k.attempts == j.attempts && k.nextRetryAt == None
    else k == j
  }

  /** The documented step of RecoverStale on any row. */
  lemma RecoveredRow(j: Job, cfg: Config, now: int, appNow: int)
    ensures Recovered(j, Apply(j, Recover(cfg, now, appNow)), cfg, now, appNow)
  {
  }

  /** UPDATE ... WHERE id=? AND ... */
  function OnRow(t: Table, id: int, u: Update): Table {
    if id in t then t[id := Apply(t[id], u)] else t
  }

  /** UPDATE ... WHERE id IN ids AND ... */
  function OnRows(t: Table, ids: seq<int>, u: Update): Table {
    map id | id in t :: if id in ids then Apply(t[id], u) else t[id]
  }

  /** UPDATE ... with no id in its WHERE clause. */
  function OnEveryRow(t: Table, u: Update): Table {
    map id | id in t :: Apply(t[id], u)
  }

  /** UNIQUE KEY uk_jobs_dedupe; NULL (here: empty) keys never clash. */
  ghost predicate UniqueKeys(t: Table) {
    forall i, k :: i in t && k in t && t[i].dedupeKey != "" && t[i].dedupeKey == t[k].dedupeKey ==> i == k
  }

  predicate HasKey(t: Table, key: string) {
    key != "" && exists id :: id in t && t[id].dedupeKey == key
  }

  // ---- SELECT id ... ORDER BY id LIMIT n ----

  function DueIds(t: Table, now: int, limit: nat): (r: seq<int>)
    ensures |r| <= limit
    ensures forall i, k :: 0 <= i < k < |r| ==> r[i] < r[k]
    ensures forall id :: id in r ==> id in t && Due(t[id], now)
    ensures forall id :: id in t && Due(t[id], now) && id !in r ==> |r| == limit && forall k :: k in r ==> k < id
  {
    var due := set id | id in t && Due(t[id], now);
    var all := Ascending(due);
    assert forall id :: id in t && Due(t[id], now) <==> id in due;
    if limit < |all| then
      PrefixIsBelow(all, limit);
      all[..limit]
    else all
  }

  lemma PrefixIsBelow(s: seq<int>, n: nat)
    requires n <= |s| && forall i, k :: 0 <= i < k < |s| ==> s[i] < s[k]
    ensures forall x :: x in s[..n] ==> x in s
    ensures forall x, y :: x in s && x !in s[..n] && y in s[..n] ==> y < x
  {
    assert forall j :: 0 <= j < n ==> s[j] in s[..n];
    forall x, y | x in s && x !in s[..n] && y in s[..n] ensures y < x {
      var i :| 0 <= i < |s| && s[i] == x;
      var k :| 0 <= k < n && s[..n][k] == y;
    }
  }

  function SmallerDue(t: Table, now: int, id: int): set<int> {
    set k | k in t && k < id && Due(t[k], now)
  }

  lemma {:induction false} SizeOfAscending(s: seq<int>, below: set<int>)
    requires forall i, k :: 0 <= i < k < |s| ==> s[i] < s[k]
    requires forall x :: x in below <==> x in s
    ensures |below| == |s|
  {
    if s != [] {
      var n := |s| - 1;
      assert s == s[..n] + [s[n]] && s[n] !in s[..n];
      SizeOfAscending(s[..n], below - {s[n]});
    } else if below != {} {
      var x := Pick(below);
      assert false;
    }
  }

  /** In an ascending list the number of members below the one at p is p. */
  lemma RankInAscending(s: seq<int>, p: nat, below: set<int>)
    requires p < |s| && forall i, k :: 0 <= i < k < |s| ==> s[i] < s[k]
    requires forall x :: x in below <==> x in s && x < s[p]
    ensures |below| == p
  {
    forall x ensures x in below <==> x in s[..p] {
      if x in below {
        var q :| 0 <= q < |s| && s[q] == x;
        assert s[..p][q] == x;
      }
      if x in s[..p] {
        var q :| 0 <= q < p && s[..p][q] == x;
        assert s[q] == x;
      }
    }
    SizeOfAscending(s[..p], below);
  }

  /** A due row is among the ids selected exactly when fewer than `limit` due rows have smaller ids. */
  lemma SelectedIff(t: Table, now: int, limit: nat, id: int)
    requires id in t && Due(t[id], now)
    ensures id in DueIds(t, now, limit) <==> |SmallerDue(t, now, id)| < limit
  {
    var ids := DueIds(t, now, limit);
    if id in ids {
      var p :| 0 <= p < |ids| && ids[p] == id;
      RankInAscending(ids, p, SmallerDue(t, now, id));
    } else {
      var all := set x | x in ids;
      SizeOfAscending(ids, all);
      SubsetSize(all, SmallerDue(t, now, id));
    }
  }

  lemma OnRowsGrows(t: Table, ids: seq<int>, id: int, u: Update)
    requires id in t && id !in ids
    ensures OnRows(t, ids, u)[id] == t[id]
    ensures OnRow(OnRows(t, ids, u), id, u) == OnRows(t, ids + [id], u)
  {
    var grown := OnRow(OnRows(t, ids, u), id, u);
    forall k | k in t ensures grown[k] == OnRows(t, ids + [id], u)[k] {
      assert k in ids + [id] <==> k in ids || k == id;
    }
  }

  lemma UpdatesKeepKeys(t: Table, ids: seq<int>, u: Update)
    ensures UniqueKeys(t) ==> UniqueKeys(OnRows(t, ids, u)) && UniqueKeys(OnEveryRow(t, u))
  {
    assert forall id :: id in t ==> Apply(t[id], u).dedupeKey == t[id].dedupeKey;
  }

  /** Claiming the next selected row: it is still pending, and the rows claimed so far grow by it. */
  lemma NextClaim(t: Table, ids: seq<int>, i: nat, inst: string, now: int)
    requires i < |ids| && ids[i] in t && t[ids[i]].status == Pending && ids[i] !in ids[..i]
    ensures var u := Update.Claim(inst, now);
            && OnRows(t, ids[..i], u)[ids[i]].status == Pending
            && OnRow(OnRows(t, ids[..i], u), ids[i], u) == OnRows(t, ids[..i + 1], u)
  {
    OnRowsGrows(t, ids[..i], ids[i], Update.Claim(inst, now));
    assert ids[..i + 1] == ids[..i] + [ids[i]];
  }

  lemma NoRows(t: Table, u: Update)
    ensures OnRows(t, [], u) == t
  {
    SameMap(OnRows(t, [], u), t);
  }

  lemma ClaimedRows(t: Table, limit: nat, inst: string, now: int)
    ensures var out := DueIds(t, now, limit);
            var t' := OnRows(t, out, Update.Claim(inst, now));
            forall id :: id in out ==>
              id in t && Due(t[id], now) && id in t' && HeldBy(t'[id], inst) && t'[id].claimedAt == Some(now)
  {
  }

  /** Distinct ids of pending rows. */
  ghost predicate Claimable(t: Table, ids: seq<int>) {
    forall i :: 0 <= i < |ids| ==> ids[i] in t && t[ids[i]].status == Pending && ids[i] !in ids[..i]
  }

  lemma SelectedAreClaimable(t: Table, now: int, limit: nat)
    ensures Claimable(t, DueIds(t, now, limit))
  {
    var ids := DueIds(t, now, limit);
    forall i | 0 <= i < |ids| ensures ids[i] in t && t[ids[i]].status == Pending && ids[i] !in ids[..i] {
      assert ids[i] in ids;
    }
  }

  function StaleIds(t: Table, ttl: int, now: int): set<int> {
    set id | id in t && Stale(t[id], ttl, now)
  }

  function StaleBelowLimit(t: Table, cfg: Config, now: int): set<int> {
    set id | id in t && Stale(t[id], cfg.ttl, now) && t[id].attempts + 1 < cfg.maxAttempts
  }

  function StaleAtLimit(t: Table, cfg: Config, now: int): set<int> {
    set id | id in t && Stale(t[id], cfg.ttl, now) && t[id].attempts + 1 >= cfg.maxAttempts
  }

  lemma RecoverRowIsTwoUpdates(j: Job, cfg: Config, now: int, appNow: int)
    ensures var k := Apply(j, RequeueStale(cfg, now, appNow));
            && Apply(k, AbandonStale(cfg, now)) == Apply(j, Recover(cfg, now, appNow))
            && (Stale(k, cfg.ttl, now) <==> Stale(j, cfg.ttl, now) && j.attempts + 1 >= cfg.maxAttempts)
            && (Stale(k, cfg.ttl, now) ==> k == j)
  {
  }

  /** RecoverStale's two statements never meet the same row, and together are its documented step. */
  lemma RecoverIsTwoUpdates(t: Table, cfg: Config, now: int, appNow: int)
    ensures var requeued := OnEveryRow(t, RequeueStale(cfg, now, appNow));
            && OnEveryRow(requeued, AbandonStale(cfg, now)) == OnEveryRow(t, Recover(cfg, now, appNow))
            && StaleAtLimit(requeued, cfg, now) == StaleAtLimit(t, cfg, now)
  {
    forall id | id in t {
      RecoverRowIsTwoUpdates(t[id], cfg, now, appNow);
    }
  }

  lemma StaleRowsSplit(t: Table, cfg: Config, now: int)
    ensures |StaleBelowLimit(t, cfg, now)| + |StaleAtLimit(t, cfg, now)| == |StaleIds(t, cfg.ttl, now)|
  {
    var below, limit := StaleBelowLimit(t, cfg, now), StaleAtLimit(t, cfg, now);
    assert below !! limit && below + limit == StaleIds(t, cfg.ttl, now);
  }

  /** The repository over the shared table. Each method issues its SQL statements one after the other. */
  class SendJobRepo {
    var jobs: Table
    var nextId: int

    ghost predicate Valid() reads this {
      UniqueKeys(jobs) && 0 < nextId && forall id :: id in jobs ==> 0 < id < nextId
    }

    constructor ()
      ensures Valid() && jobs == map[]
    {
      jobs, nextId := map[], 1;
    }

    method Create(taskId: int, logId: int, vars: string, key: string) returns (id: int)
      requires Valid()
      modifies this
      ensures Valid()
      ensures id in jobs && jobs[id].dedupeKey == key
      ensures HasKey(old(jobs), key) ==> jobs == old(jobs)
      ensures !HasKey(old(jobs), key) ==>
                id !in old(jobs) && jobs == old(jobs)[id := NewJob(taskId, logId, vars, key)]
      ensures id in old(jobs) <==> key != "" && exists k :: k in old(jobs) && old(jobs)[k].dedupeKey == key
      // the new row is the caller's, waiting, never tried
      ensures id !in old(jobs) ==>
                jobs[id].taskId == taskId && jobs[id].logId == logId && jobs[id].vars == vars
                && jobs[id].status == Pending && jobs[id].attempts == 0 && jobs[id].nextRetryAt == None
                && jobs[id].claimedBy == None && jobs[id].claimedAt == None
    {
      if HasKey(jobs, key) {
        id :| id in jobs && jobs[id].dedupeKey == key;
      } else {
        id := nextId;
        jobs, nextId := jobs[id := NewJob(taskId, logId, vars, key)], nextId + 1;
      }
    }

    method Claim(inst: string, limit: nat, now: int) returns (out: seq<int>)
      requires Valid()
      modifies this
      ensures Valid()
      ensures |out| <= limit
      ensures forall id :: id in out ==> id in old(jobs) && Due(old(jobs)[id], now)
                                         && id in jobs && HeldBy(jobs[id], inst) && jobs[id].claimedAt == Some(now)
      // a due row stays behind only when the limit is used up by rows with smaller ids
      ensures forall id :: id in old(jobs) && Due(old(jobs)[id], now) && id !in out ==>
                             |out| == limit && forall k :: k in out ==> k < id
      ensures jobs.Keys == old(jobs).Keys
      ensures forall id :: id in jobs ==>
                             jobs[id] == if id in out
                                         then old(jobs)[id].(status := Claimed, claimedBy := Some(inst),
                                                             claimedAt := Some(now))
                                         else old(jobs)[id]
      ensures out == DueIds(old(jobs), now, limit)
      ensures jobs == OnRows(old(jobs), out, Update.Claim(inst, now))
    {
      var ids := DueIds(jobs, now, limit);
      SelectedAreClaimable(jobs, now, limit);
      UpdatesKeepKeys(jobs, ids, Update.Claim(inst, now));
      ClaimedRows(jobs, limit, inst, now);
      out := ClaimEach(ids, inst, now);
    }

    /** The guarded UPDATEs, one per selected id; a row that is no longer pending is passed over. */
    method ClaimEach(ids: seq<int>, inst: string, now: int) returns (out: seq<int>)
      requires Claimable(jobs, ids)
      modifies this`jobs
      ensures out == ids && jobs == OnRows(old(jobs), ids, Update.Claim(inst, now))
    {
      ghost var before := jobs;
      out := [];
      NoRows(before, Update.Claim(inst, now));
      for i := 0 to |ids|
        invariant out == ids[..i] && jobs == OnRows(before, ids[..i], Update.Claim(inst, now))
      {
        NextClaim(before, ids, i, inst, now);
        if ids[i] in jobs && jobs[ids[i]].status == Pending {
          jobs := OnRow(jobs, ids[i], Update.Claim(inst, now));
          out := out + [ids[i]];
        }
      }
      assert ids[..|ids|] == ids;
    }

    method RenewClaim(id: int, inst: string, now: int)
      requires Valid()
      modifies this
      ensures Valid()
      ensures jobs == OnRow(old(jobs), id, Renew(inst, now))
      ensures if id in old(jobs) && old(jobs)[id].status == Claimed && old(jobs)[id].claimedBy == Some(inst)
              then jobs == old(jobs)[id := old(jobs)[id].(claimedAt := Some(now))] else jobs == old(jobs)
    {
      if id in jobs && HeldBy(jobs[id], inst) {
        jobs := jobs[id := jobs[id].(claimedAt := Some(now))];
      }
    }

    method MarkDone(id: int, inst: string, now: int) returns (ok: bool)
      requires Valid()
      modifies this
      ensures Valid()
      ensures ok <==> id in old(jobs) && old(jobs)[id].status == Claimed && old(jobs)[id].claimedBy == Some(inst)
      ensures jobs == OnRow(old(jobs), id, Finish(inst, now))
      ensures if ok
              then id in jobs && jobs[id].status == Done && jobs[id].sentAt == Some(now)
                   && jobs[id].claimedBy == None && jobs[id].claimedAt == None
              else jobs == old(jobs)
    {
      ok := id in jobs && HeldBy(jobs[id], inst);
      if ok {
        jobs := jobs[id := jobs[id].(status := Done, sentAt := Some(now), claimedBy := None, claimedAt := None)];
      }
    }

    /** Two statements; back to back they are the one documented step. */
    method MarkFailed(id: int, inst: string, err: string, max: int, backoff: seq<int>, appNow: int)
      returns (ok: bool)
      requires Valid()
      modifies this
      ensures Valid()
      ensures ok <==> id in old(jobs) && old(jobs)[id].status == Claimed && old(jobs)[id].claimedBy == Some(inst)
      ensures jobs == OnRow(old(jobs), id, Fail(inst, err, max, backoff, appNow))
      ensures !ok ==> jobs == old(jobs)
      ensures ok ==>
                id in jobs && jobs[id].attempts == old(jobs)[id].attempts + 1 && jobs[id].lastError == err
                && jobs[id].claimedBy == None && jobs[id].claimedAt == None
      ensures ok && jobs[id].attempts >= max ==> jobs[id].status == Failed && jobs[id].nextRetryAt == None
      // below the limit the k-th failure waits for the k-th delay, or the last one there is
      ensures ok && jobs[id].attempts < max ==>
                jobs[id].status == Pending && RetriesAfter(jobs[id].nextRetryAt, jobs[id].attempts, backoff, appNow)
    {
      if id !in jobs || !HeldBy(jobs[id], inst) {
        return false;
      }
      FailedRow(jobs[id], inst, err, max, backoff, appNow);
      jobs := OnRow(jobs, id, CountFailure(inst, err));
      var attempts := jobs[id].attempts;
      jobs := OnRow(jobs, id, SettleFailure(attempts, max, backoff, appNow));
      return true;
    }

    method RecoverStale(cfg: Config, now: int, appNow: int) returns (n: int)
      requires Valid()
      modifies this
      ensures Valid()
      ensures n == |StaleIds(old(jobs), cfg.ttl, now)|
      ensures jobs == OnEveryRow(old(jobs), Recover(cfg, now, appNow))
      // stale claims below the limit wait for the first delay, the others fail, and no other row changes
      ensures forall id :: id in old(jobs) ==> id in jobs && Recovered(old(jobs)[id], jobs[id], cfg, now, appNow)
    {
      forall id | id in jobs ensures Recovered(jobs[id], Apply(jobs[id], Recover(cfg, now, appNow)), cfg, now, appNow) {
        RecoveredRow(jobs[id], cfg, now, appNow);
      }
      RecoverIsTwoUpdates(jobs, cfg, now, appNow);
      StaleRowsSplit(jobs, cfg, now);
      UpdatesKeepKeys(jobs, [], Recover(cfg, now, appNow));
      n := |StaleBelowLimit(jobs, cfg, now)|;
      jobs := OnEveryRow(jobs, RequeueStale(cfg, now, appNow));
      n := n + |StaleAtLimit(jobs, cfg, now)|;
      jobs := OnEveryRow(jobs, AbandonStale(cfg, now));
    }
  }
}
