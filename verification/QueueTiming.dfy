/** The timing of renewals and recovery. Wall-clock times and durations are nanoseconds; the database keeps seconds. */
module QueueTiming {
  import opened Base
  import opened SendJobs
  import opened QueueRuns

  const SECOND := 1_000_000_000

  function Sec(t: int): int { t / SECOND }

  function RenewInterval(claimTTL: int): int {
    if claimTTL <= 0 then SECOND else if claimTTL / 3 >= SECOND then claimTTL / 3 else SECOND
  }

  function RecoverInterval(claimTTL: int): int {
    if claimTTL <= 0 then SECOND else if claimTTL / 4 >= SECOND then claimTTL / 4 else SECOND
  }

  function SafeClaimTTL(claimTTL: int): int {
    if claimTTL <= 0 then 120 * SECOND else claimTTL
  }

  /** The seconds RecoverStale puts into its WHERE clause. */
  function TtlSeconds(claimTTL: int): int { SafeClaimTTL(claimTTL) / SECOND }

  /** A claim last renewed at r counts as stale at time t. */
  predicate StaleAt(claimTTL: int, r: int, t: int) { Sec(r) < Sec(t) - TtlSeconds(claimTTL) }

  /** The three durations in terms of the TTL: a third and a fourth of it in whole nanoseconds, but a second at least;
      and an unset TTL stands for two minutes. */
  lemma IntervalsFollowTtl(ttl: int)
    ensures ttl >= 3_000_000_000 ==> 3 * RenewInterval(ttl) <= ttl < 3 * (RenewInterval(ttl) + 1)
    ensures ttl < 3_000_000_000 ==> RenewInterval(ttl) == 1_000_000_000
    ensures ttl >= 4_000_000_000 ==> 4 * RecoverInterval(ttl) <= ttl < 4 * (RecoverInterval(ttl) + 1)
    ensures ttl < 4_000_000_000 ==> RecoverInterval(ttl) == 1_000_000_000
    ensures TtlSeconds(ttl) * 1_000_000_000 <= (if ttl <= 0 then 120_000_000_000 else ttl)
            < (TtlSeconds(ttl) + 1) * 1_000_000_000
  {
  }

  /** The renewal period protects a live claim exactly when the TTL is unset or at least one second. */
  lemma RenewalPeriodIsSafeIff(claimTTL: int)
    ensures (forall r, t :: 0 <= t - r <= RenewInterval(claimTTL) ==> !StaleAt(claimTTL, r, t))
            <==> (claimTTL <= 0 || claimTTL >= SECOND)
  {
    if claimTTL <= 0 || claimTTL >= SECOND {
      assert RenewInterval(claimTTL) <= TtlSeconds(claimTTL) * SECOND;
      forall r, t | 0 <= t - r <= RenewInterval(claimTTL) ensures !StaleAt(claimTTL, r, t) {
      }
    } else {
      assert RenewInterval(claimTTL) == SECOND && StaleAt(claimTTL, 0, SECOND);
    }
  }

  /** A call and the moment the database executes it. */
  datatype Event = Event(at: int, call: Call)

  function Calls(run: seq<Event>): seq<Call> {
    seq(|run|, i requires 0 <= i < |run| => run[i].call)
  }

  function After(t: Table, run: seq<Event>, cfg: Config): Table { Exec(t, Calls(run), cfg) }

  predicate ClockAgrees(e: Event) {
    match e.call
    case Create(_, _, _, _, _) => true
    case ClaimDue(_, _, now) => now == Sec(e.at)
    case OneRow(_, Claim(_, now)) => now == Sec(e.at)
    case OneRow(_, Renew(_, now)) => now == Sec(e.at)
    case OneRow(_, Recover(_, now, _)) => now == Sec(e.at)
    case OneRow(_, _) => true
    case RecoverAll(now, _) => now == Sec(e.at)
  }

  ghost predicate TimedRun(run: seq<Event>, cfg: Config) {
    && 1 <= cfg.maxAttempts
    && (forall k :: 0 <= k < |run| ==> Allowed(run[k].call, cfg) && ClockAgrees(run[k]))
    && forall i, k :: 0 <= i < k < |run| ==> run[i].at <= run[k].at
  }

  predicate IsRenewal(e: Event, id: int, inst: string) {
    e.call.OneRow? && e.call.id == id && e.call.u.Renew? && e.call.u.inst == inst
  }

  predicate Ends(e: Event, id: int, inst: string) {
    IsCallBy(e.call, id, inst) && !e.call.u.Renew?
  }

  function LastRenewal(run: seq<Event>, start: int, id: int, inst: string): int {
    if run == [] then start
    else if IsRenewal(run[|run| - 1], id, inst) then run[|run| - 1].at
    else LastRenewal(run[..|run| - 1], start, id, inst)
  }

  /** At every event the holder's latest renewal is at most `gap` old. */
  ghost predicate RenewedEvery(run: seq<Event>, gap: int, start: int, id: int, inst: string) {
    forall k :: 0 <= k < |run| ==> 0 <= run[k].at - LastRenewal(run[..k], start, id, inst) <= gap
  }

  lemma LastEvent(t: Table, run: seq<Event>, cfg: Config)
    requires run != []
    ensures After(t, run, cfg) == Step(After(t, run[..|run| - 1], cfg), run[|run| - 1].call, cfg)
  {
    assert Calls(run)[..|run| - 1] == Calls(run[..|run| - 1]);
  }

  /** No step of any instance takes the job from a holder that keeps renewing, until the holder itself ends it. */
  lemma {:induction false} LiveHolderKeepsJob(t: Table, run: seq<Event>, cfg: Config, claimTTL: int, gap: int,
      start: int, id: int, inst: string)
    requires TimedRun(run, cfg) && cfg.ttl == TtlSeconds(claimTTL)
    requires gap <= cfg.ttl * SECOND
    requires id in t && HeldBy(t[id], inst) && t[id].claimedAt == Some(Sec(start))
    requires RenewedEvery(run, gap, start, id, inst) && forall e :: e in run ==> !Ends(e, id, inst)
    ensures id in After(t, run, cfg) && HeldBy(After(t, run, cfg)[id], inst)
    ensures After(t, run, cfg)[id].claimedAt == Some(Sec(LastRenewal(run, start, id, inst)))
  {
    if run != [] {
      var before, e := run[..|run| - 1], run[|run| - 1];
      forall k | 0 <= k < |before| ensures 0 <= before[k].at - LastRenewal(before[..k], start, id, inst) <= gap {
        assert before[..k] == run[..k];
      }
      LiveHolderKeepsJob(t, before, cfg, claimTTL, gap, start, id, inst);
      LastEvent(t, run, cfg);
      var s := After(t, before, cfg);
      assert e in run && 0 <= e.at - LastRenewal(before, start, id, inst) <= gap;
      KeepsHeldRow(s, e, cfg, gap, LastRenewal(before, start, id, inst), id, inst);
    }
  }

  lemma KeepsHeldRow(s: Table, e: Event, cfg: Config, gap: int, renewed: int, id: int, inst: string)
    requires Allowed(e.call, cfg) && ClockAgrees(e) && gap <= cfg.ttl * SECOND && 0 <= e.at - renewed <= gap
    requires id in s && HeldBy(s[id], inst) && s[id].claimedAt == Some(Sec(renewed)) && !Ends(e, id, inst)
    ensures id in Step(s, e.call, cfg) && HeldBy(Step(s, e.call, cfg)[id], inst)
    ensures Step(s, e.call, cfg)[id].claimedAt == Some(Sec(if IsRenewal(e, id, inst) then e.at else renewed))
  {
    RowAfter(s, e.call, cfg, id);
    assert Sec(e.at) <= Sec(renewed) + cfg.ttl;
    assert !Stale(s[id], cfg.ttl, Sec(e.at));
  }

  /** With the service's own intervals and any TTL the renewal period is safe for, a live holder is never robbed. */
  lemma RenewalLoopKeepsJob(t: Table, run: seq<Event>, cfg: Config, claimTTL: int, start: int, id: int, inst: string)
    requires TimedRun(run, cfg) && cfg.ttl == TtlSeconds(claimTTL) && (claimTTL <= 0 || claimTTL >= SECOND)
    requires id in t && HeldBy(t[id], inst) && t[id].claimedAt == Some(Sec(start))
    requires RenewedEvery(run, RenewInterval(claimTTL), start, id, inst) && forall e :: e in run ==> !Ends(e, id, inst)
    ensures id in After(t, run, cfg) && HeldBy(After(t, run, cfg)[id], inst)
  {
    assert RenewInterval(claimTTL) <= TtlSeconds(claimTTL) * SECOND;
    LiveHolderKeepsJob(t, run, cfg, claimTTL, RenewInterval(claimTTL), start, id, inst);
  }

  // ---- a holder that stops renewing ----

  /** The first moment at which a claim last renewed at `renewed` is stale. */
  function StaleFrom(cfg: Config, renewed: int): int { (Sec(renewed) + cfg.ttl + 1) * SECOND }

  function LastRecovery(run: seq<Event>, start: int): int {
    if run == [] then start
    else if run[|run| - 1].call.RecoverAll? then run[|run| - 1].at
    else LastRecovery(run[..|run| - 1], start)
  }

  /** At every event the latest recovery by any instance was at most `gap` earlier; `start` is one before the run. */
  ghost predicate RecoveredEvery(run: seq<Event>, gap: int, start: int) {
    forall k :: 0 <= k < |run| ==> run[k].at - LastRecovery(run[..k], start) <= gap
  }

  predicate SameClaim(t: Table, id: int, inst: string, claimedAt: int) {
    id in t && HeldBy(t[id], inst) && t[id].claimedAt == Some(claimedAt)
  }

  lemma {:induction false} FirstLateRecovery(run: seq<Event>, gap: int, start: int, from: int) returns (k: nat)
    requires RecoveredEvery(run, gap, start) && start < from <= LastRecovery(run, start)
    ensures k < |run| && run[k].call.RecoverAll? && from <= run[k].at < from + gap
  {
    k := |run| - 1;
    var before := run[..k];
    if LastRecovery(before, start) >= from {
      forall m | 0 <= m < k ensures before[m].at - LastRecovery(before[..m], start) <= gap {
        assert before[..m] == run[..m];
      }
      k := FirstLateRecovery(before, gap, start, from);
    }
  }

  lemma RecoveryReleases(t: Table, e: Event, cfg: Config, renewed: int, id: int, inst: string)
    requires SameClaim(t, id, inst, Sec(renewed)) && ClockAgrees(e)
    requires e.call.RecoverAll? && StaleFrom(cfg, renewed) <= e.at
    ensures !SameClaim(Step(t, e.call, cfg), id, inst, Sec(renewed))
  {
    RowAfter(t, e.call, cfg, id);
  }

  lemma HeldUntilReleased(t: Table, c: Call, cfg: Config, id: int, inst: string, claimedAt: int)
    requires SameClaim(t, id, inst, claimedAt) && Allowed(c, cfg) && !(IsCallBy(c, id, inst) && c.u.Renew?)
    ensures id in Step(t, c, cfg)
    ensures HeldBy(Step(t, c, cfg)[id], inst) ==> SameClaim(Step(t, c, cfg), id, inst, claimedAt)
  {
    RowAfter(t, c, cfg, id);
  }

  lemma OneMore(t: Table, run: seq<Event>, cfg: Config, k: nat)
    requires k < |run|
    ensures After(t, run[..k + 1], cfg) == Step(After(t, run[..k], cfg), run[k].call, cfg)
  {
    assert run[..k + 1][..k] == run[..k];
    LastEvent(t, run[..k + 1], cfg);
  }

  /** After k events the claim is still the same, or it was lost at some point i before. */
  lemma {:induction false} HeldOrLost(t: Table, run: seq<Event>, cfg: Config, k: nat, id: int, inst: string,
      claimedAt: int)
    returns (i: nat)
    requires TimedRun(run, cfg) && SameClaim(t, id, inst, claimedAt) && k <= |run|
    requires forall m :: 0 <= m < |run| ==> !IsRenewal(run[m], id, inst)
    ensures i <= k && id in After(t, run[..i], cfg)
    ensures (i == k && SameClaim(After(t, run[..i], cfg), id, inst, claimedAt))
            || (0 < i && !HeldBy(After(t, run[..i], cfg)[id], inst))
    decreases k
  {
    if k == 0 {
      i := 0;
      assert run[..0] == [];
    } else {
      i := HeldOrLost(t, run, cfg, k - 1, id, inst, claimedAt);
      if SameClaim(After(t, run[..i], cfg), id, inst, claimedAt) {
        HeldUntilReleased(After(t, run[..i], cfg), run[i].call, cfg, id, inst, claimedAt);
        OneMore(t, run, cfg, i);
        i := k;
      }
    }
  }

  /** When the holder falls silent, the job leaves its hands within TTL plus one second plus the recovery interval of
      the last renewal: some recovery in that time releases it, if it has not ended before. */
  lemma SilentHolderIsReplaced(t: Table, run: seq<Event>, cfg: Config, gap: int, start: int, renewed: int, id: int,
      inst: string)
    returns (i: nat)
    requires TimedRun(run, cfg) && SameClaim(t, id, inst, Sec(renewed))
    requires forall k :: 0 <= k < |run| ==> !IsRenewal(run[k], id, inst)
    requires RecoveredEvery(run, gap, start) && start < StaleFrom(cfg, renewed)
    requires run != [] && run[|run| - 1].at >= StaleFrom(cfg, renewed) + gap
    ensures 0 < i <= |run| && run[i - 1].at < StaleFrom(cfg, renewed) + gap <= renewed + (cfg.ttl + 1) * SECOND + gap
    ensures id in After(t, run[..i], cfg) && !HeldBy(After(t, run[..i], cfg)[id], inst)
  {
    var last := run[..|run| - 1];
    forall m | 0 <= m < |last| ensures last[m].at - LastRecovery(last[..m], start) <= gap {
      assert last[..m] == run[..m];
    }
    var k := FirstLateRecovery(last, gap, start, StaleFrom(cfg, renewed));
    assert last[k] == run[k] && StaleFrom(cfg, renewed) <= renewed + (cfg.ttl + 1) * SECOND;
    i := HeldOrLost(t, run, cfg, k, id, inst, Sec(renewed));
    if SameClaim(After(t, run[..i], cfg), id, inst, Sec(renewed)) {
      RecoveryReleases(After(t, run[..k], cfg), run[k], cfg, renewed, id, inst);
      HeldUntilReleased(After(t, run[..k], cfg), run[k].call, cfg, id, inst, Sec(renewed));
      OneMore(t, run, cfg, k);
      i := k + 1;
    }
  }

  // ---- and no earlier bound holds ----

  /** The holder is silent from `renewed` on, some instance recovers at least every `gap`, and the run reaches `due`. */
  ghost predicate SilentRun(t: Table, run: seq<Event>, cfg: Config, gap: int, start: int, renewed: int, id: int,
      inst: string, due: int) {
    && TimedRun(run, cfg) && SameClaim(t, id, inst, Sec(renewed))
    && (forall k :: 0 <= k < |run| ==> !IsRenewal(run[k], id, inst))
    && RecoveredEvery(run, gap, start) && start < StaleFrom(cfg, renewed)
    && run != [] && due <= run[|run| - 1].at
  }

  ghost predicate LostBefore(t: Table, run: seq<Event>, cfg: Config, id: int, inst: string, due: int) {
    exists i :: 0 < i <= |run| && run[i - 1].at < due
                && id in After(t, run[..i], cfg) && !HeldBy(After(t, run[..i], cfg)[id], inst)
  }

  /** One recovery just before the claim becomes stale, the next one `gap` later. */
  function TardyRun(cfg: Config, gap: int, renewed: int): seq<Event> {
    var at := StaleFrom(cfg, renewed) - 1;
    [Event(at, RecoverAll(Sec(at), Sec(at))), Event(at + gap, RecoverAll(Sec(at + gap), Sec(at + gap)))]
  }

  lemma TardyRunIsSilent(t: Table, cfg: Config, gap: int, renewed: int, id: int, inst: string)
    requires SameClaim(t, id, inst, Sec(renewed)) && 0 <= gap && 1 <= cfg.maxAttempts
    ensures var at := StaleFrom(cfg, renewed) - 1;
            SilentRun(t, TardyRun(cfg, gap, renewed), cfg, gap, at, renewed, id, inst, at + gap)
  {
    var run, at := TardyRun(cfg, gap, renewed), StaleFrom(cfg, renewed) - 1;
    assert run[..0] == [] && run[..1][..0] == [] && run[..1] == [run[0]];
    assert LastRecovery(run[..1], at) == at && LastRecovery(run[..0], at) == at;
  }

  lemma TardyRunKeepsClaim(t: Table, cfg: Config, gap: int, renewed: int, id: int, inst: string)
    requires SameClaim(t, id, inst, Sec(renewed)) && 0 <= gap
    ensures !LostBefore(t, TardyRun(cfg, gap, renewed), cfg, id, inst, StaleFrom(cfg, renewed) - 1 + gap)
  {
    var run := TardyRun(cfg, gap, renewed);
    assert run[..0] == [] && Calls(run[..0]) == [];
    OneMore(t, run, cfg, 0);
    RowAfter(t, run[0].call, cfg, id);
    assert Sec(StaleFrom(cfg, renewed) - 1) == Sec(renewed) + cfg.ttl;
    assert HeldBy(After(t, run[..1], cfg)[id], inst);
    assert |run| == 2 && run[1].at == StaleFrom(cfg, renewed) - 1 + gap;
  }

  /** Every run with recoveries at most `gap` apart takes the job from its silent holder before the time `due` if and
      only if `due` is at least the moment of staleness plus `gap`. */
  lemma SilentHolderBoundIff(t: Table, cfg: Config, gap: int, renewed: int, id: int, inst: string, due: int)
    requires SameClaim(t, id, inst, Sec(renewed)) && 1 <= gap && 1 <= cfg.maxAttempts
    ensures (forall run, start ::
               SilentRun(t, run, cfg, gap, start, renewed, id, inst, due) ==> LostBefore(t, run, cfg, id, inst, due))
            <==> StaleFrom(cfg, renewed) + gap <= due
  {
    if StaleFrom(cfg, renewed) + gap <= due {
      forall run, start | SilentRun(t, run, cfg, gap, start, renewed, id, inst, due)
        ensures LostBefore(t, run, cfg, id, inst, due)
      {
        var i := SilentHolderIsReplaced(t, run, cfg, gap, start, renewed, id, inst);
      }
    } else {
      var run, at := TardyRun(cfg, gap, renewed), StaleFrom(cfg, renewed) - 1;
      TardyRunIsSilent(t, cfg, gap, renewed, id, inst);
      TardyRunKeepsClaim(t, cfg, gap, renewed, id, inst);
      assert SilentRun(t, run, cfg, gap, at, renewed, id, inst, due);
      assert !LostBefore(t, run, cfg, id, inst, due);
    }
  }

  /** A TTL of 4 s and the service's recovery interval for it, 1 s: a claim renewed at 0 is still held 5.9 s later. */
  lemma TtlAndIntervalAreNotEnough()
    ensures var ttl := 4 * SECOND;
            var cfg := Config(TtlSeconds(ttl), 3, []);
            var job := NewJob(7, 0, "null", "").(status := Claimed, claimedBy := Some("a"), claimedAt := Some(0));
            var run := TardyRun(cfg, RecoverInterval(ttl), 0);
            && SafeClaimTTL(ttl) + RecoverInterval(ttl) == 5 * SECOND
            && SilentRun(map[1 := job], run, cfg, RecoverInterval(ttl), 4_999_999_999, 0, 1, "a", 5_999_999_999)
            && !LostBefore(map[1 := job], run, cfg, 1, "a", 5_999_999_999)
  {
    var cfg := Config(4, 3, []);
    var job := NewJob(7, 0, "null", "").(status := Claimed, claimedBy := Some("a"), claimedAt := Some(0));
    var t := map[1 := job];
    var run := TardyRun(cfg, SECOND, 0);
    assert StaleFrom(cfg, 0) == 5_000_000_000;
    TardyRunIsSilent(t, cfg, SECOND, 0, 1, "a");
    TardyRunKeepsClaim(t, cfg, SECOND, 0, 1, "a");
    assert SilentRun(t, run, cfg, SECOND, 4_999_999_999, 0, 1, "a", 5_999_999_999);
  }

  /** With the service's own recovery loop on some instance: within TTL, one second and the recovery interval. */
  lemma RecoveryLoopReplacesHolder(t: Table, run: seq<Event>, cfg: Config, claimTTL: int, start: int, renewed: int,
      id: int, inst: string)
    returns (i: nat)
    requires TimedRun(run, cfg) && cfg.ttl == TtlSeconds(claimTTL) && SameClaim(t, id, inst, Sec(renewed))
    requires forall k :: 0 <= k < |run| ==> !IsRenewal(run[k], id, inst)
    requires RecoveredEvery(run, RecoverInterval(claimTTL), start) && start <= renewed
    requires run != [] && run[|run| - 1].at >= renewed + SafeClaimTTL(claimTTL) + SECOND + RecoverInterval(claimTTL)
    ensures 0 < i <= |run| && run[i - 1].at < renewed + SafeClaimTTL(claimTTL) + SECOND + RecoverInterval(claimTTL)
    ensures id in After(t, run[..i], cfg) && !HeldBy(After(t, run[..i], cfg)[id], inst)
  {
    assert TtlSeconds(claimTTL) * SECOND <= SafeClaimTTL(claimTTL);
    i := SilentHolderIsReplaced(t, run, cfg, RecoverInterval(claimTTL), start, renewed, id, inst);
  }
}
