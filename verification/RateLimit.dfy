/** The fixed-window limiter: one shared table of counters, and in every instance a cache of refusals in front of it.
    Times are Unix seconds. */
module RateLimit {
  import opened Base
  import opened Text

  datatype Policy = Policy(window: int, limit: int)

  /** Every bucket is used with one window length and one limit. */
  type Policies = string -> Policy

  ghost predicate Sane(p: Policies) {
    forall b :: 1 <= p(b).window && 0 <= p(b).limit
  }

  type Counters = map<(string, int), int>

  /** The window that `now` lies in: windows are `window` long and start at its multiples. */
  function WindowStart(p: Policy, now: int): (start: int)
    requires 1 <= p.window
    ensures start <= now < start + p.window && start % p.window == 0
  {
    StartOfWindow(now, p.window);
    now / p.window * p.window
  }

  lemma StartOfWindow(now: int, window: int)
    requires 1 <= window
    ensures var start := now / window * window; start <= now < start + window && start % window == 0
  {
    MultipleHasNoRest(now / window, window);
  }

  lemma MultipleHasNoRest(k: int, window: int)
    requires 1 <= window
    ensures k * window % window == 0
  {
    var q, r := k * window / window, k * window % window;
    assert (k - q) * window == r;
    assert k - q >= 1 ==> (k - q) * window >= window;
    assert k - q <= -1 ==> (k - q) * window <= -window;
  }

  /** Two times are in the same window exactly when the same multiple of its length is the last one before both. */
  lemma SameWindowIff(p: Policy, now: int, k: int)
    requires 1 <= p.window
    ensures WindowStart(p, now) == k * p.window <==> k * p.window <= now < (k + 1) * p.window
  {
    var q := now / p.window;
    assert WindowStart(p, now) == q * p.window;
    assert (k + 1) * p.window == k * p.window + p.window;
    if k * p.window <= now < (k + 1) * p.window {
      assert (q - k) * p.window == q * p.window - k * p.window;
      assert q - k >= 1 ==> (q - k) * p.window >= p.window;
      assert q - k <= -1 ==> (q - k) * p.window <= -p.window;
    }
  }

  function WindowEnd(p: Policy, now: int): int
    requires 1 <= p.window
  {
    WindowStart(p, now) + p.window
  }

  function CountOf(c: Counters, row: (string, int)): int {
    if row in c then c[row] else 0
  }

  /** INSERT ... ON DUPLICATE KEY UPDATE count = count + 1. */
  function Bumped(c: Counters, row: (string, int)): Counters {
    c[row := CountOf(c, row) + 1]
  }

  function CacheKey(row: (string, int)): string { row.0 + ['|'] + Decimal(row.1) }

  lemma CacheKeyIsInjective(r: (string, int), s: (string, int))
    requires CacheKey(r) == CacheKey(s)
    ensures r == s
  {
    CutAtLastSeparator(r.0, Decimal(r.1), s.0, Decimal(s.1), '|');
    DecimalIsInjective(r.1, s.1);
  }

  function Evicted(denied: map<string, int>, now: int): map<string, int> {
    if |denied| < 4096 then denied else map k | k in denied && denied[k] > now :: denied[k]
  }

  /** A cached refusal is always one the counters confirm. */
  ghost predicate Confirmed(c: Counters, denied: map<string, int>, p: Policies) {
    forall row :: CacheKey(row) in denied ==> CountOf(c, row) > p(row.0).limit
  }

  class Table {
    var counts: Counters
    constructor ()
      ensures counts == map[]
    {
      counts := map[];
    }
  }

  class RateLimitRepo {
    const table: Table
    const policies: Policies
    var denied: map<string, int>

    ghost predicate Valid() reads this, table {
      Sane(policies) && Confirmed(table.counts, denied, policies)
    }

    constructor (table: Table, policies: Policies)
      requires Sane(policies)
      ensures Valid() && this.table == table && this.policies == policies && denied == map[]
    {
      this.table, this.policies, denied := table, policies, map[];
    }

    /** The verdict is that of the counter alone, and the cache only ever saves the counting of refused calls. */
    method Allow(bucket: string, now: int, later: int) returns (ok: bool)
      requires Valid()
      modifies this`denied, table
      ensures Valid()
      // with the count n found in the window of `now`: the call passes exactly below the limit, and is counted unless
      // the count is over the limit already
      ensures var p, start := policies(bucket), WindowStart(policies(bucket), now);
              var row, counts := (bucket, start), old(table.counts);
              var n := if row in counts then counts[row] else 0;
              && start <= now < start + p.window
              && (ok <==> n < p.limit)
              && (table.counts == counts[row := n + 1] || (!ok && n > p.limit && table.counts == counts))
              // a refusal is remembered, one that was counted until the end of the window
              && (!ok ==> CacheKey(row) in denied && now < denied[CacheKey(row)])
              && (!ok && table.counts != counts ==> denied[CacheKey(row)] == start + p.window)
              // the cache answers exactly for a row whose refusal it still remembers
              && (table.counts == counts <==> CacheKey(row) in old(denied) && now < old(denied)[CacheKey(row)])
              && (table.counts == counts ==> denied == old(denied))
    {
      var row := (bucket, WindowStart(policies(bucket), now));
      if CacheKey(row) in denied && denied[CacheKey(row)] > now {
        return false;
      }
      ok := CountCall(row, WindowEnd(policies(bucket), now), later);
    }

    /** The call goes to the counter, and its refusal into the cache. */
    method CountCall(row: (string, int), windowEnd: int, later: int) returns (ok: bool)
      requires Valid()
      modifies this`denied, table
      ensures Valid()
      ensures var n := CountOf(old(table.counts), row);
              table.counts == old(table.counts)[row := n + 1] && (ok <==> n < policies(row.0).limit)
      ensures denied == if ok then old(denied) else Evicted(old(denied), later)[CacheKey(row) := windowEnd]
    {
      table.counts := Bumped(table.counts, row);
      ok := table.counts[row] <= policies(row.0).limit;
      if !ok {
        SetDenied(row, windowEnd, later);
      }
    }

    method SetDenied(row: (string, int), windowEnd: int, now: int)
      requires Valid() && CountOf(table.counts, row) > policies(row.0).limit
      modifies this`denied
      ensures Valid()
      ensures denied == Evicted(old(denied), now)[CacheKey(row) := windowEnd]
    {
      if |denied| >= 4096 {
        denied := map k | k in denied && denied[k] > now :: denied[k];
      }
      denied := denied[CacheKey(row) := windowEnd];
      forall r | CacheKey(r) in denied ensures CountOf(table.counts, r) > policies(r.0).limit {
        if CacheKey(r) == CacheKey(row) { CacheKeyIsInjective(r, row); }
      }
    }
  }

  // ---- many instances, interleaved between the cache look-up, the counting and the caching ----

  /** `pending`: refused calls, by instance and row, whose refusal is not cached yet. */
  datatype Sys = Sys(counts: Counters, caches: map<int, map<string, int>>, pending: set<(int, (string, int))>)

  datatype Action =
    | Hit(inst: int, bucket: string, now: int)      // the call finds its refusal in the cache
    | Count(inst: int, bucket: string, now: int)    // the call goes to the counter
    | Cache(inst: int, bucket: string, now: int, later: int) // the refused call caches its refusal

  function Row(a: Action, p: Policies): (string, int)
    requires 1 <= p(a.bucket).window
  {
    (a.bucket, WindowStart(p(a.bucket), a.now))
  }

  function CacheOf(s: Sys, inst: int): map<string, int> {
    if inst in s.caches then s.caches[inst] else map[]
  }

  predicate Enabled(s: Sys, a: Action, p: Policies)
    requires 1 <= p(a.bucket).window
  {
    match a
    case Hit(inst, _, now) => CacheKey(Row(a, p)) in CacheOf(s, inst) && CacheOf(s, inst)[CacheKey(Row(a, p))] > now
    case Count(_, _, _) => true
    case Cache(inst, _, _, _) => (inst, Row(a, p)) in s.pending
  }

  ghost function Step(s: Sys, a: Action, p: Policies): Sys
    requires Sane(p)
  {
    if !Enabled(s, a, p) then s
    else
      var row := Row(a, p);
      match a
      case Hit(_, _, _) => s
      case Count(inst, bucket, _) =>
        var counts := Bumped(s.counts, row);
        s.(counts := counts, pending := if counts[row] <= p(bucket).limit then s.pending else s.pending + {(inst, row)})
      case Cache(inst, bucket, now, later) =>
        s.(caches := s.caches[inst := Evicted(CacheOf(s, inst), later)[CacheKey(row) := WindowEnd(p(bucket), now)]],
           pending := s.pending - {(inst, row)})
  }

  /** A cache answers for a row exactly while it remembers its refusal. */
  lemma HitIff(s: Sys, inst: int, bucket: string, now: int, p: Policies)
    requires Sane(p)
    ensures var key := CacheKey((bucket, WindowStart(p(bucket), now)));
            Enabled(s, Hit(inst, bucket, now), p)
            <==> inst in s.caches && key in s.caches[inst] && now < s.caches[inst][key]
  {
  }

  const EMPTY := Sys(map[], map[], {})

  ghost function Exec(run: seq<Action>, p: Policies): Sys
    requires Sane(p)
  {
    if run == [] then EMPTY else Step(Exec(run[..|run| - 1], p), run[|run| - 1], p)
  }

  predicate IsVerdict(s: Sys, a: Action, p: Policies)
    requires 1 <= p(a.bucket).window
  {
    Enabled(s, a, p) && !a.Cache?
  }

  /** The calls in the order of their verdicts, as (bucket, window start). */
  ghost function Calls(run: seq<Action>, p: Policies): seq<(string, int)>
    requires Sane(p)
  {
    if run == [] then []
    else
      var before, a := run[..|run| - 1], run[|run| - 1];
      Calls(before, p) + if IsVerdict(Exec(before, p), a, p) then [Row(a, p)] else []
  }

  ghost function Verdicts(run: seq<Action>, p: Policies): seq<bool>
    requires Sane(p)
  {
    if run == [] then []
    else
      var before, a := run[..|run| - 1], run[|run| - 1];
      var s := Exec(before, p);
      Verdicts(before, p)
      + if IsVerdict(s, a, p) then [a.Count? && CountOf(s.counts, Row(a, p)) + 1 <= p(a.bucket).limit] else []
  }

  // ---- the limiter without caches ----

  function PlainCounts(calls: seq<(string, int)>): Counters {
    if calls == [] then map[] else Bumped(PlainCounts(calls[..|calls| - 1]), calls[|calls| - 1])
  }

  function PlainVerdicts(calls: seq<(string, int)>, p: Policies): seq<bool> {
    if calls == [] then []
    else
      var before, row := calls[..|calls| - 1], calls[|calls| - 1];
      PlainVerdicts(before, p) + [CountOf(PlainCounts(before), row) + 1 <= p(row.0).limit]
  }

  /** Counters agree up to the limit; every cached or pending refusal is one the counters confirm. */
  ghost predicate Simulates(s: Sys, plain: Counters, p: Policies) {
    && (forall row :: CountOf(s.counts, row) == CountOf(plain, row)
                      || (CountOf(s.counts, row) > p(row.0).limit && CountOf(plain, row) > p(row.0).limit))
    && (forall i :: i in s.caches ==> Confirmed(s.counts, s.caches[i], p))
    && (forall x :: x in s.pending ==> CountOf(s.counts, x.1) > p(x.1.0).limit)
  }

  /** Counting moves both counters, so they stay equal or both over the limit. */
  lemma SimulatesCount(s: Sys, plain: Counters, a: Action, p: Policies)
    requires Sane(p) && Simulates(s, plain, p) && a.Count?
    ensures Simulates(Step(s, a, p), Bumped(plain, Row(a, p)), p)
    ensures CountOf(s.counts, Row(a, p)) + 1 <= p(a.bucket).limit
            <==> CountOf(plain, Row(a, p)) + 1 <= p(a.bucket).limit
  {
    var s' := Step(s, a, p);
    assert forall r :: CountOf(s'.counts, r) >= CountOf(s.counts, r);
  }

  lemma SimulatesCaching(s: Sys, plain: Counters, a: Action, p: Policies)
    requires Sane(p) && Simulates(s, plain, p) && a.Cache? && Enabled(s, a, p)
    ensures Simulates(Step(s, a, p), plain, p)
  {
    var row, s' := Row(a, p), Step(s, a, p);
    var cache := s'.caches[a.inst];
    assert (a.inst, row) in s.pending;
    forall r | CacheKey(r) in cache ensures CountOf(s.counts, r) > p(r.0).limit {
      if CacheKey(r) == CacheKey(row) {
        CacheKeyIsInjective(r, row);
      } else {
        assert a.inst in s.caches && CacheKey(r) in s.caches[a.inst];
      }
    }
  }

  lemma SimulatesHit(s: Sys, plain: Counters, a: Action, p: Policies)
    requires Sane(p) && Simulates(s, plain, p) && a.Hit? && Enabled(s, a, p)
    ensures Simulates(s, Bumped(plain, Row(a, p)), p) && CountOf(plain, Row(a, p)) > p(a.bucket).limit
  {
    assert a.inst in s.caches && Confirmed(s.counts, s.caches[a.inst], p);
  }

  lemma SimulatesStep(s: Sys, plain: Counters, a: Action, p: Policies)
    requires Sane(p) && Simulates(s, plain, p)
    ensures Simulates(Step(s, a, p), if IsVerdict(s, a, p) then Bumped(plain, Row(a, p)) else plain, p)
    ensures IsVerdict(s, a, p) ==>
              ((a.Count? && CountOf(s.counts, Row(a, p)) + 1 <= p(a.bucket).limit)
               <==> CountOf(plain, Row(a, p)) + 1 <= p(a.bucket).limit)
  {
    if Enabled(s, a, p) {
      match a
      case Hit(_, _, _) => SimulatesHit(s, plain, a, p);
      case Count(_, _, _) => SimulatesCount(s, plain, a, p);
      case Cache(_, _, _, _) => SimulatesCaching(s, plain, a, p);
    }
  }

  lemma PlainAppend(calls: seq<(string, int)>, row: (string, int), p: Policies)
    ensures PlainCounts(calls + [row]) == Bumped(PlainCounts(calls), row)
    ensures PlainVerdicts(calls + [row], p)
            == PlainVerdicts(calls, p) + [CountOf(PlainCounts(calls), row) + 1 <= p(row.0).limit]
  {
    assert (calls + [row])[..|calls|] == calls;
  }

  /** For any number of instances and any interleaving, the verdicts are those of the limiter without caches. */
  lemma {:induction false} CachedVerdictsArePlain(run: seq<Action>, p: Policies)
    requires Sane(p)
    ensures Verdicts(run, p) == PlainVerdicts(Calls(run, p), p)
    ensures Simulates(Exec(run, p), PlainCounts(Calls(run, p)), p)
  {
    if run != [] {
      var before, a := run[..|run| - 1], run[|run| - 1];
      CachedVerdictsArePlain(before, p);
      var s, calls := Exec(before, p), Calls(before, p);
      SimulatesStep(s, PlainCounts(calls), a, p);
      if IsVerdict(s, a, p) {
        PlainAppend(calls, Row(a, p), p);
      } else {
        assert Calls(run, p) == calls && Verdicts(run, p) == Verdicts(before, p);
      }
    }
  }

  // ---- how many calls pass ----

  function CallsTo(calls: seq<(string, int)>, row: (string, int)): nat {
    if calls == [] then 0
    else CallsTo(calls[..|calls| - 1], row) + if calls[|calls| - 1] == row then 1 else 0
  }

  function PassesOf(calls: seq<(string, int)>, verdicts: seq<bool>, row: (string, int)): nat
    requires |calls| == |verdicts|
  {
    if calls == [] then 0
    else
      var n := |calls| - 1;
      PassesOf(calls[..n], verdicts[..n], row) + if calls[n] == row && verdicts[n] then 1 else 0
  }

  function Min(a: int, b: int): int { if a < b then a else b }

  lemma {:induction false} PlainPasses(calls: seq<(string, int)>, p: Policies, row: (string, int))
    requires 0 <= p(row.0).limit
    ensures |PlainVerdicts(calls, p)| == |calls|
    ensures CountOf(PlainCounts(calls), row) == CallsTo(calls, row)
    ensures PassesOf(calls, PlainVerdicts(calls, p), row) == Min(CallsTo(calls, row), p(row.0).limit)
  {
    if calls != [] {
      var n := |calls| - 1;
      PlainPasses(calls[..n], p, row);
      assert PlainVerdicts(calls, p)[..n] == PlainVerdicts(calls[..n], p);
    }
  }

  /** Of the n calls counted under one row, exactly min(n, limit) pass. */
  lemma RowPasses(run: seq<Action>, p: Policies, row: (string, int))
    requires Sane(p)
    ensures |Verdicts(run, p)| == |Calls(run, p)|
    ensures PassesOf(Calls(run, p), Verdicts(run, p), row) == Min(CallsTo(Calls(run, p), row), p(row.0).limit)
  {
    CachedVerdictsArePlain(run, p);
    PlainPasses(Calls(run, p), p, row);
  }

  // ---- the same by the times of the calls ----

  /** The answered calls, as (bucket, time): those that reach the counter and those that find a refusal in the cache. */
  ghost function TimedCalls(run: seq<Action>, p: Policies): seq<(string, int)>
    requires Sane(p)
  {
    if run == [] then []
    else
      var before, a := run[..|run| - 1], run[|run| - 1];
      TimedCalls(before, p)
      + if a.Count? || (a.Hit? && Enabled(Exec(before, p), a, p)) then [(a.bucket, a.now)] else []
  }

  predicate Between(call: (string, int), bucket: string, from: int, to: int) { call.0 == bucket && from <= call.1 < to }

  function CallsBetween(calls: seq<(string, int)>, bucket: string, from: int, to: int): nat {
    if calls == [] then 0
    else
      var n := |calls| - 1;
      CallsBetween(calls[..n], bucket, from, to) + if Between(calls[n], bucket, from, to) then 1 else 0
  }

  function PassesBetween(calls: seq<(string, int)>, verdicts: seq<bool>, bucket: string, from: int, to: int): nat
    requires |calls| == |verdicts|
  {
    if calls == [] then 0
    else
      var n := |calls| - 1;
      PassesBetween(calls[..n], verdicts[..n], bucket, from, to)
      + if Between(calls[n], bucket, from, to) && verdicts[n] then 1 else 0
  }

  ghost function RowsOf(calls: seq<(string, int)>, p: Policies): seq<(string, int)>
    requires Sane(p)
  {
    seq(|calls|, i requires 0 <= i < |calls| => (calls[i].0, WindowStart(p(calls[i].0), calls[i].1)))
  }

  lemma {:induction false} CallsAreTimed(run: seq<Action>, p: Policies)
    requires Sane(p)
    ensures Calls(run, p) == RowsOf(TimedCalls(run, p), p)
  {
    if run != [] { CallsAreTimed(run[..|run| - 1], p); }
  }

  lemma {:induction false} CountedByWindow(calls: seq<(string, int)>, verdicts: seq<bool>, p: Policies,
      bucket: string, k: int)
    requires Sane(p) && |calls| == |verdicts|
    ensures var row, from, to := (bucket, k * p(bucket).window), k * p(bucket).window, (k + 1) * p(bucket).window;
            && CallsTo(RowsOf(calls, p), row) == CallsBetween(calls, bucket, from, to)
            && PassesOf(RowsOf(calls, p), verdicts, row) == PassesBetween(calls, verdicts, bucket, from, to)
  {
    if calls != [] {
      var n := |calls| - 1;
      CountedByWindow(calls[..n], verdicts[..n], p, bucket, k);
      assert RowsOf(calls, p)[..n] == RowsOf(calls[..n], p);
      SameWindowIff(p(bucket), calls[n].1, k);
    }
  }

  /** Of the n calls that all instances make on a bucket from k * window up to (k + 1) * window, exactly min(n, limit)
      pass. */
  lemma ExactlyTheLimitPasses(run: seq<Action>, p: Policies, bucket: string, k: int)
    requires Sane(p)
    ensures |Verdicts(run, p)| == |TimedCalls(run, p)|
    ensures var from, to := k * p(bucket).window, (k + 1) * p(bucket).window;
            PassesBetween(TimedCalls(run, p), Verdicts(run, p), bucket, from, to)
            == Min(CallsBetween(TimedCalls(run, p), bucket, from, to), p(bucket).limit)
  {
    CallsAreTimed(run, p);
    RowPasses(run, p, (bucket, k * p(bucket).window));
    CountedByWindow(TimedCalls(run, p), Verdicts(run, p), p, bucket, k);
  }
}
