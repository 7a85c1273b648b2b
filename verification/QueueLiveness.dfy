/** Endless schedules of the queue: `trace(n)` is the table after n steps. */
module QueueLiveness {
  import opened Base
  import opened SendJobs
  import opened QueueRuns

  ghost predicate Follows(trace: nat -> Table, schedule: nat -> Call, n: nat, cfg: Config) {
    Allowed(schedule(n), cfg) && trace(n + 1) == Step(trace(n), schedule(n), cfg)
  }

  ghost predicate Endless(trace: nat -> Table, schedule: nat -> Call, cfg: Config) {
    trace(0) == map[] && 1 <= cfg.maxAttempts && forall n: nat :: Follows(trace, schedule, n, cfg)
  }

  ghost predicate Ended(trace: nat -> Table, n: nat, id: int) {
    id in trace(n) && Terminal(trace(n)[id])
  }

  ghost predicate MovesAt(trace: nat -> Table, m: nat, id: int) {
    id in trace(m) && id in trace(m + 1) && Moved(trace(m)[id], trace(m + 1)[id])
  }

  /** From step `from` on the job is not starved: while it is neither done nor failed, some later step moves it. */
  ghost predicate Served(trace: nat -> Table, from: nat, id: int) {
    forall n: nat :: from <= n && !Ended(trace, n, id) ==> MovesLater(trace, n, id)
  }

  ghost predicate MovesLater(trace: nat -> Table, n: nat, id: int) { exists m: nat :: n <= m && MovesAt(trace, m, id) }

  /** After n steps the job is there, below its retry limit unless it has ended, with at most `work` moves left. */
  ghost predicate Running(trace: nat -> Table, n: nat, cfg: Config, id: int, work: int) {
    && id in trace(n)
    && (!Terminal(trace(n)[id]) ==> trace(n)[id].attempts < cfg.maxAttempts)
    && 0 <= Work(trace(n)[id], cfg.maxAttempts) <= work
  }

  lemma RunningStep(trace: nat -> Table, schedule: nat -> Call, n: nat, cfg: Config, id: int, work: int)
    requires Endless(trace, schedule, cfg) && Running(trace, n, cfg, id, work)
    ensures Running(trace, n + 1, cfg, id, work)
    ensures MovesAt(trace, n, id) ==> Running(trace, n + 1, cfg, id, work - 1)
  {
    assert Follows(trace, schedule, n, cfg);
    var t, c := trace(n), schedule(n);
    RowAfter(t, c, cfg, id);
    var u := UpdateOf(t, c, cfg, id);
    if u.Some? { WorkFalls(t[id], u.value, cfg); }
  }

  lemma {:induction false} RunningLater(trace: nat -> Table, schedule: nat -> Call, n: nat, m: nat, cfg: Config,
      id: int, work: int)
    requires Endless(trace, schedule, cfg) && n <= m && Running(trace, n, cfg, id, work)
    ensures Running(trace, m, cfg, id, work)
    decreases m - n
  {
    if n < m {
      RunningLater(trace, schedule, n, m - 1, cfg, id, work);
      RunningStep(trace, schedule, m - 1, cfg, id, work);
    }
  }

  lemma {:induction false} TraceIsRun(trace: nat -> Table, schedule: nat -> Call, n: nat, cfg: Config)
      returns (run: seq<Call>)
    requires Endless(trace, schedule, cfg)
    ensures AllAllowed(run, cfg) && Exec(map[], run, cfg) == trace(n)
  {
    if n == 0 {
      run := [];
    } else {
      var before := TraceIsRun(trace, schedule, n - 1, cfg);
      assert Follows(trace, schedule, n - 1, cfg);
      run := before + [schedule(n - 1)];
      assert run[..|run| - 1] == before;
    }
  }

  lemma {:induction false} EndsWithin(trace: nat -> Table, schedule: nat -> Call, n: nat, cfg: Config, id: int,
      work: int)
    requires Endless(trace, schedule, cfg) && Served(trace, n, id) && Running(trace, n, cfg, id, work)
    ensures exists end: nat :: n <= end && Ended(trace, end, id)
    decreases work
  {
    if !Ended(trace, n, id) {
      assert MovesLater(trace, n, id);
      var m: nat :| n <= m && MovesAt(trace, m, id);
      RunningLater(trace, schedule, n, m, cfg, id, work);
      RunningStep(trace, schedule, m, cfg, id, work);
      EndsWithin(trace, schedule, m + 1, cfg, id, work - 1);
    }
  }

  /** A job that is not starved ends, because every effective step lowers its measure. */
  lemma ServedJobEnds(trace: nat -> Table, schedule: nat -> Call, n: nat, cfg: Config, id: int)
    requires Endless(trace, schedule, cfg) && Served(trace, n, id) && id in trace(n)
    ensures exists end: nat :: n <= end && Ended(trace, end, id)
  {
    var run := TraceIsRun(trace, schedule, n, cfg);
    BoundedMoves(run, cfg, id);
    ClaimsFollowAttempts(run, cfg, id);
    EndsWithin(trace, schedule, n, cfg, id, 2 * cfg.maxAttempts);
  }

  // ---- the service's loops ----

  /** Some worker polls at or after `time`, for one job or more. */
  predicate Polls(c: Call, time: int) { c.ClaimDue? && 1 <= c.limit && time <= c.now }

  ghost predicate PolledAfter(schedule: nat -> Call, n: nat, time: int) {
    exists m: nat :: n <= m && Polls(schedule(m), time)
  }

  predicate Recovers(c: Call, time: int) { c.RecoverAll? && time <= c.now }

  ghost predicate RecoveredAfter(schedule: nat -> Call, n: nat, time: int) {
    exists m: nat :: n <= m && Recovers(schedule(m), time)
  }

  /** The polling loops and the recovery loops go on, while the database's clock passes every bound. */
  ghost predicate LoopsGoOn(schedule: nat -> Call) {
    && (forall n: nat, time: int :: PolledAfter(schedule, n, time))
    && (forall n: nat, time: int :: RecoveredAfter(schedule, n, time))
  }

  predicate HasPositiveId(c: Call) { c.Create? ==> 0 < c.id }

  predicate RenewsRow(c: Call, id: int) { c.OneRow? && c.id == id && c.u.Renew? }

  ghost predicate RenewedAfter(schedule: nat -> Call, m: nat, id: int) {
    exists k: nat :: m <= k && RenewsRow(schedule(k), id)
  }

  ghost predicate Still(trace: nat -> Table, n: nat, id: int) { forall m: nat :: n <= m ==> !MovesAt(trace, m, id) }

  /** A delivery that neither returns nor stops renewing its claim. */
  ghost predicate RenewedForever(trace: nat -> Table, schedule: nat -> Call, n: nat, id: int) {
    && id in trace(n) && trace(n)[id].status == Claimed && Still(trace, n, id)
    && forall m: nat :: n <= m ==> RenewedAfter(schedule, m, id)
  }

  /** What the service does in the long run: it polls, it recovers, its ids are positive, and no delivery hangs
      forever. */
  ghost predicate Serviced(trace: nat -> Table, schedule: nat -> Call) {
    && LoopsGoOn(schedule)
    && (forall n: nat :: HasPositiveId(schedule(n)))
    && forall n: nat, id: int :: !RenewedForever(trace, schedule, n, id)
  }

  lemma {:induction false} IdsArePositive(trace: nat -> Table, schedule: nat -> Call, n: nat, cfg: Config, id: int)
    requires Endless(trace, schedule, cfg) && (forall m: nat :: HasPositiveId(schedule(m))) && id in trace(n)
    ensures 0 < id
  {
    if n > 0 {
      assert Follows(trace, schedule, n - 1, cfg) && HasPositiveId(schedule(n - 1));
      if id in trace(n - 1) {
        IdsArePositive(trace, schedule, n - 1, cfg, id);
      } else {
        NewRow(trace(n - 1), schedule(n - 1), cfg, id);
      }
    }
  }

  /** A row that does not move keeps its status and counter. */
  lemma {:induction false} StillKeepsStatus(trace: nat -> Table, schedule: nat -> Call, n: nat, m: nat, cfg: Config,
      id: int)
    requires Endless(trace, schedule, cfg) && n <= m && id in trace(n) && Still(trace, n, id)
    ensures id in trace(m) && trace(m)[id].status == trace(n)[id].status
    decreases m - n
  {
    if n < m {
      StillKeepsStatus(trace, schedule, n, m - 1, cfg, id);
      assert Follows(trace, schedule, m - 1, cfg) && !MovesAt(trace, m - 1, id);
      RowAfter(trace(m - 1), schedule(m - 1), cfg, id);
    }
  }

  lemma UnmovedRow(t: Table, c: Call, cfg: Config, id: int)
    requires Allowed(c, cfg) && id in t && WellFormedRow(t[id]) && !Terminal(t[id])
    requires t[id].status == Claimed ==> !RenewsRow(c, id)
    ensures id in Step(t, c, cfg) && (Moved(t[id], Step(t, c, cfg)[id]) || Step(t, c, cfg)[id] == t[id])
  {
    RowAfter(t, c, cfg, id);
  }

  lemma RowIsWellFormed(trace: nat -> Table, schedule: nat -> Call, n: nat, cfg: Config, id: int)
    requires Endless(trace, schedule, cfg) && id in trace(n)
    ensures WellFormedRow(trace(n)[id])
  {
    var run := TraceIsRun(trace, schedule, n, cfg);
    ClaimColumnsAgree(run, cfg, id);
  }

  /** A row that neither moves nor is renewed stays as it is. */
  lemma {:induction false} StillKeepsRow(trace: nat -> Table, schedule: nat -> Call, n: nat, m: nat, cfg: Config,
      id: int)
    requires Endless(trace, schedule, cfg) && n <= m && id in trace(n) && !Terminal(trace(n)[id]) && Still(trace, n, id)
    requires trace(n)[id].status == Claimed ==> !RenewedAfter(schedule, n, id)
    ensures id in trace(m) && trace(m)[id] == trace(n)[id]
    decreases m - n
  {
    if n < m {
      StillKeepsRow(trace, schedule, n, m - 1, cfg, id);
      RowIsWellFormed(trace, schedule, m - 1, cfg, id);
      assert Follows(trace, schedule, m - 1, cfg) && !MovesAt(trace, m - 1, id);
      UnmovedRow(trace(m - 1), schedule(m - 1), cfg, id);
    }
  }

  /** A claimed job moves: its holder ends it, or stops renewing and is recovered. */
  lemma ClaimedJobMoves(trace: nat -> Table, schedule: nat -> Call, n: nat, cfg: Config, id: int)
    requires Endless(trace, schedule, cfg) && Serviced(trace, schedule) && id in trace(n)
            && trace(n)[id].status == Claimed
    ensures MovesLater(trace, n, id)
  {
    if Still(trace, n, id) {
      assert !RenewedForever(trace, schedule, n, id);
      var m: nat :| n <= m && !RenewedAfter(schedule, m, id);
      StillKeepsStatus(trace, schedule, n, m, cfg, id);
      RowIsWellFormed(trace, schedule, m, cfg, id);
      var late := trace(m)[id].claimedAt.value + cfg.ttl + 1;
      assert RecoveredAfter(schedule, m, late);
      var k: nat :| m <= k && Recovers(schedule(k), late);
      StillKeepsRow(trace, schedule, m, k, cfg, id);
      assert Follows(trace, schedule, k, cfg);
      RecoveryTakesIff(trace(k), cfg, id, schedule(k).now, schedule(k).appNow);
      assert MovesAt(trace, k, id);
    }
  }

  /** From step n on no job with a smaller id is pending or claimed any more. */
  ghost predicate Quiet(trace: nat -> Table, n: nat, id: int) {
    forall m: nat, j: int :: n <= m && j < id && j in trace(m) ==> Terminal(trace(m)[j])
  }

  /** A pending job moves once the smaller ids are quiet: it is the first in every claim that finds it due. */
  lemma PendingJobMoves(trace: nat -> Table, schedule: nat -> Call, n: nat, quiet: nat, cfg: Config, id: int)
    requires Endless(trace, schedule, cfg) && Serviced(trace, schedule) && id in trace(n)
            && trace(n)[id].status == Pending
    requires Quiet(trace, quiet, id)
    ensures MovesLater(trace, n, id)
  {
    if Still(trace, n, id) {
      var time := if trace(n)[id].nextRetryAt.Some? then trace(n)[id].nextRetryAt.value else 0;
      var p := if n < quiet then quiet else n;
      assert PolledAfter(schedule, p, time);
      var k: nat :| p <= k && Polls(schedule(k), time);
      StillKeepsRow(trace, schedule, n, k, cfg, id);
      assert Follows(trace, schedule, k, cfg);
      var c := schedule(k);
      assert Due(trace(k)[id], c.now) && SmallerDue(trace(k), c.now, id) == {};
      ClaimTakesIff(trace(k), cfg, id, c.inst, c.limit, c.now);
      assert MovesAt(trace, k, id);
    }
  }

  lemma JobIsServed(trace: nat -> Table, schedule: nat -> Call, n: nat, quiet: nat, cfg: Config, id: int)
    requires Endless(trace, schedule, cfg) && Serviced(trace, schedule) && id in trace(n) && Quiet(trace, quiet, id)
    ensures Served(trace, n, id)
  {
    forall k: nat | n <= k && !Ended(trace, k, id) ensures MovesLater(trace, k, id) {
      StaysInTable(trace, schedule, n, k, cfg, id);
      if trace(k)[id].status == Claimed {
        ClaimedJobMoves(trace, schedule, k, cfg, id);
      } else {
        PendingJobMoves(trace, schedule, k, quiet, cfg, id);
      }
    }
  }

  lemma {:induction false} StaysInTable(trace: nat -> Table, schedule: nat -> Call, n: nat, m: nat, cfg: Config,
      id: int)
    requires Endless(trace, schedule, cfg) && n <= m && id in trace(n)
    ensures id in trace(m) && (Terminal(trace(n)[id]) ==> trace(m)[id] == trace(n)[id])
    decreases m - n
  {
    if n < m {
      StaysInTable(trace, schedule, n, m - 1, cfg, id);
      assert Follows(trace, schedule, m - 1, cfg);
      RowAfter(trace(m - 1), schedule(m - 1), cfg, id);
    }
  }

  /** By induction on the id: the finitely many smaller jobs all end some time. */
  lemma {:induction false} SmallerJobsEnd(trace: nat -> Table, schedule: nat -> Call, cfg: Config, id: int)
      returns (quiet: nat)
    requires Endless(trace, schedule, cfg) && Serviced(trace, schedule)
    ensures Quiet(trace, quiet, id)
    decreases id, 0
  {
    if id <= 1 {
      quiet := 0;
      forall m: nat, j: int | j in trace(m) ensures 0 < j {
        IdsArePositive(trace, schedule, m, cfg, j);
      }
    } else {
      var j := id - 1;
      quiet := SmallerJobsEnd(trace, schedule, cfg, j);
      if n: nat :| j in trace(n) {
        EveryJobEnds(trace, schedule, n, cfg, j);
        var end: nat :| n <= end && Ended(trace, end, j);
        if quiet < end { quiet := end; }
        forall m: nat | quiet <= m ensures j in trace(m) && Terminal(trace(m)[j]) {
          StaysInTable(trace, schedule, end, m, cfg, j);
        }
      }
    }
  }

  /** On every endless schedule of the service's loops, every job ends done or failed. */
  lemma {:induction false} EveryJobEnds(trace: nat -> Table, schedule: nat -> Call, n: nat, cfg: Config, id: int)
    requires Endless(trace, schedule, cfg) && Serviced(trace, schedule) && id in trace(n)
    ensures exists end: nat :: n <= end && Ended(trace, end, id)
    decreases id, 1
  {
    IdsArePositive(trace, schedule, n, cfg, id);
    var quiet := SmallerJobsEnd(trace, schedule, cfg, id);
    JobIsServed(trace, schedule, n, quiet, cfg, id);
    ServedJobEnds(trace, schedule, n, cfg, id);
  }

  // ---- such schedules exist ----

  /** A job is created, then one instance polls and recovers in turn while the clock counts the steps. */
  function PlainSchedule(n: nat): Call {
    if n == 0 then Create(1, 7, 0, "null", "")
    else if n % 2 == 1 then ClaimDue("a", 1, n)
    else RecoverAll(n, n)
  }

  function PlainTrace(n: nat, cfg: Config): Table {
    if n == 0 then map[] else Step(PlainTrace(n - 1, cfg), PlainSchedule(n - 1), cfg)
  }

  lemma LoopsOfPlainSchedule()
    ensures LoopsGoOn(PlainSchedule)
  {
    forall n: nat, time: int ensures PolledAfter(PlainSchedule, n, time) && RecoveredAfter(PlainSchedule, n, time) {
      var m := 2 * (n + 1 + if time < 0 then 0 else time);
      assert Polls(PlainSchedule(m + 1), time) && Recovers(PlainSchedule(m), time);
    }
  }

  /** The assumptions of `EveryJobEnds` can be met, by an instance that never delivers anything: its job is in the table
      from the first step on, so it ends. */
  lemma UndeliveredJobEnds(cfg: Config) returns (end: nat)
    requires 1 <= cfg.maxAttempts
    ensures var trace := (n: nat) => PlainTrace(n, cfg);
            Endless(trace, PlainSchedule, cfg) && Serviced(trace, PlainSchedule)
    ensures 1 in PlainTrace(end, cfg) && Terminal(PlainTrace(end, cfg)[1])
  {
    var trace := (n: nat) => PlainTrace(n, cfg);
    LoopsOfPlainSchedule();
    assert forall n: nat :: Follows(trace, PlainSchedule, n, cfg);
    forall n: nat, id: int ensures !RenewedForever(trace, PlainSchedule, n, id) {
      assert !RenewedAfter(PlainSchedule, n, id);
    }
    assert 1 in trace(1);
    EveryJobEnds(trace, PlainSchedule, 1, cfg, 1);
    end :| 1 <= end && Ended(trace, end, 1);
  }
}
