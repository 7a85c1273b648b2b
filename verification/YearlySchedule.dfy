/** A cron schedule restricted to a list of years: the search that jumps from year to year. */
module YearlySchedule {
  import opened Base

  /** A point in time: its year, and its distance from the start of that year. */
  datatype Instant = Instant(year: int, offset: nat)

  predicate Before(a: Instant, b: Instant) {
    a.year < b.year || (a.year == b.year && a.offset < b.offset)
  }

  function Jan1(year: int): Instant { Instant(year, 0) }

  type Oracle = Instant -> Option<Instant>

  type Triggers = Instant -> bool

  /** The base schedule: `next` gives the least trigger strictly after its argument, or none when there is none. */
  ghost predicate IsBase(next: Oracle, trig: Triggers) {
    forall t :: match next(t)
                case None => forall x :: trig(x) ==> !Before(t, x)
                case Some(c) => trig(c) && Before(t, c) && forall x :: trig(x) && Before(t, x) ==> !Before(x, c)
  }

  /** What parseYearList guarantees. */
  ghost predicate IsYearList(years: seq<int>) {
    (forall i, k :: 0 <= i < k < |years| ==> years[i] < years[k]) && forall y :: y in years ==> y > 0
  }

  function FirstAfter(years: seq<int>, y: int): (r: int)
    ensures r != 0 ==> r in years && r > y
  {
    if years == [] then 0 else if years[0] > y then years[0] else FirstAfter(years[1..], y)
  }

  lemma {:induction false} FirstAfterIsLeast(years: seq<int>, y: int)
    requires IsYearList(years)
    ensures var r := FirstAfter(years, y);
            if r == 0 then forall v :: v in years ==> v <= y else forall v :: v in years && v > y ==> r <= v
  {
    if years != [] {
      assert forall v :: v in years <==> v == years[0] || v in years[1..];
      assert forall v :: v in years ==> years[0] <= v;
      if years[0] <= y { FirstAfterIsLeast(years[1..], y); } else { assert years[0] in years; }
    }
  }

  function Last(years: seq<int>): int
    requires years != []
  {
    years[|years| - 1]
  }

  function YearsLeft(years: seq<int>, t: Instant): nat
    requires years != []
  {
    if t.year < Last(years) then Last(years) - t.year else 0
  }

  /** The search with no bound on its rounds. */
  ghost function Search(next: Oracle, trig: Triggers, years: seq<int>, t: Instant): Option<Instant>
    requires IsBase(next, trig) && IsYearList(years) && years != []
    decreases YearsLeft(years, t)
  {
    match next(t)
    case None => None
    case Some(c) =>
      if c.year in years then Some(c)
      else if c.year > Last(years) then None
      else
        var y := FirstAfter(years, c.year);
        if y == 0 then None else Search(next, trig, years, Jan1(y))
  }

  method NextYearAfter(years: seq<int>, y: int) returns (r: int)
    requires IsYearList(years)
    ensures r == FirstAfter(years, y)
  {
    for i := 0 to |years|
      invariant FirstAfter(years, y) == FirstAfter(years[i..], y)
    {
      if years[i] > y {
        return years[i];
      }
      assert years[i..][1..] == years[i + 1..];
    }
    return 0;
  }

  class YearlySpecSchedule {
    const spec: Oracle
    const years: seq<int>

    constructor (spec: Oracle, years: seq<int>)
      ensures this.spec == spec && this.years == years
    {
      this.spec, this.years := spec, years;
    }

    /** The bound len(years)+2 never ends the search: the result is that of the unbounded one. */
    method Next(after: Instant, ghost trig: Triggers) returns (r: Option<Instant>)
      requires IsBase(spec, trig) && IsYearList(years)
      ensures years == [] ==> r == None
      ensures years != [] ==> r == Search(spec, trig, years, after)
    {
      if |years| == 0 {
        return None;
      }
      var t := after;
      var i := 0;
      ghost var k := -1; // index of the year jumped to last
      while i < |years| + 2
        invariant 0 <= i <= |years| + 2
        invariant -1 <= k < |years| && i <= k + 1
        invariant k >= 0 ==> t == Jan1(years[k])
        invariant Search(spec, trig, years, after) == Search(spec, trig, years, t)
      {
        var cand := spec(t);
        if cand == None {
          return None;
        }
        var cy := cand.value.year;
        if cy in years {
          return cand;
        }
        if cy > years[|years| - 1] {
          return None;
        }
        var next := NextYearAfter(years, cy);
        if next == 0 {
          return None;
        }
        ghost var m :| 0 <= m < |years| && years[m] == next;
        t, i, k := Jan1(next), i + 1, m;
      }
    }
  }

  // ---- what the search finds ----

  predicate Allowed(trig: Triggers, years: seq<int>, x: Instant) { trig(x) && x.year in years }

  ghost predicate IsEarliest(trig: Triggers, years: seq<int>, after: Instant, r: Option<Instant>) {
    match r
    case None => forall x :: Allowed(trig, years, x) ==> !Before(after, x)
    case Some(c) => Allowed(trig, years, c) && Before(after, c)
                    && forall x :: Allowed(trig, years, x) && Before(after, x) ==> !Before(x, c)
  }

  lemma {:induction false} SearchIsSound(next: Oracle, trig: Triggers, years: seq<int>, t: Instant)
    requires IsBase(next, trig) && IsYearList(years) && years != []
    ensures var r := Search(next, trig, years, t); r.Some? ==> Allowed(trig, years, r.value) && Before(t, r.value)
    decreases YearsLeft(years, t)
  {
    if next(t).Some? {
      var c := next(t).value;
      var y := FirstAfter(years, c.year);
      if c.year !in years && c.year <= Last(years) && y != 0 {
        SearchIsSound(next, trig, years, Jan1(y));
      }
    }
  }

  /** Year y is skipped over: its first moment is a trigger and the earliest one allowed, and some base trigger lies
      before it in a year that is not allowed, with no allowed year in between. */
  ghost predicate SkipsNewYear(trig: Triggers, years: seq<int>, after: Instant, y: int) {
    && y in years && trig(Jan1(y)) && Before(after, Jan1(y))
    && (forall x :: Allowed(trig, years, x) && Before(after, x) ==> !Before(x, Jan1(y)))
    && exists c :: trig(c) && Before(after, c) && c.year < y && forall v :: v in years ==> !(c.year <= v < y)
  }

  lemma FirstCandidate(next: Oracle, trig: Triggers, years: seq<int>, t: Instant)
    requires IsBase(next, trig) && IsYearList(years) && years != []
    requires next(t) == None || next(t).value.year in years || next(t).value.year > Last(years)
    ensures IsEarliest(trig, years, t, Search(next, trig, years, t)) && forall y :: !SkipsNewYear(trig, years, t, y)
  {
    if next(t).Some? {
      var c := next(t).value;
      if c.year !in years {
        assert forall v :: v in years ==> v <= Last(years);
      }
    }
  }

  /** From the candidate c in a year that is not allowed, the allowed triggers after t are those from Jan 1 of y on. */
  lemma JumpLosesOnlyNewYear(next: Oracle, trig: Triggers, years: seq<int>, t: Instant, x: Instant)
    requires IsBase(next, trig) && IsYearList(years) && years != []
    requires next(t).Some? && next(t).value.year !in years && FirstAfter(years, next(t).value.year) != 0
    ensures var y := FirstAfter(years, next(t).value.year);
            Allowed(trig, years, x) && Before(t, x) <==> Allowed(trig, years, x) && (x == Jan1(y) || Before(Jan1(y), x))
  {
    var c := next(t).value;
    FirstAfterIsLeast(years, c.year);
    if Allowed(trig, years, x) && Before(t, x) {
      assert !Before(x, c) && x.year >= c.year && x.year > c.year;
    }
  }

  lemma SkipMovesWithTheJump(next: Oracle, trig: Triggers, years: seq<int>, t: Instant, v: int)
    requires IsBase(next, trig) && IsYearList(years) && years != []
    requires next(t).Some? && next(t).value.year !in years && FirstAfter(years, next(t).value.year) != 0
    requires !trig(Jan1(FirstAfter(years, next(t).value.year)))
    ensures SkipsNewYear(trig, years, t, v)
            <==> SkipsNewYear(trig, years, Jan1(FirstAfter(years, next(t).value.year)), v)
  {
    var c, y := next(t).value, FirstAfter(years, next(t).value.year);
    FirstAfterIsLeast(years, c.year);
    forall x {
      JumpLosesOnlyNewYear(next, trig, years, t, x);
    }
    if SkipsNewYear(trig, years, t, v) {
      var d :| trig(d) && Before(t, d) && d.year < v && forall u :: u in years ==> !(d.year <= u < v);
      assert !Before(d, c) && v >= y && v != y && y < d.year;
      assert Before(Jan1(y), d);
    }
  }

  /** The result is the earliest allowed trigger exactly when no New Year trigger is skipped over. */
  lemma {:induction false} EarliestIff(next: Oracle, trig: Triggers, years: seq<int>, t: Instant)
    requires IsBase(next, trig) && IsYearList(years) && years != []
    ensures IsEarliest(trig, years, t, Search(next, trig, years, t)) <==> !exists y :: SkipsNewYear(trig, years, t, y)
    decreases YearsLeft(years, t)
  {
    if next(t) == None || next(t).value.year in years || next(t).value.year > Last(years) {
      FirstCandidate(next, trig, years, t);
    } else {
      var c, y := next(t).value, FirstAfter(years, next(t).value.year);
      FirstAfterIsLeast(years, c.year);
      assert Last(years) in years;
      var r := Search(next, trig, years, Jan1(y));
      assert r == Search(next, trig, years, t);
      EarliestIff(next, trig, years, Jan1(y));
      SearchIsSound(next, trig, years, Jan1(y));
      forall x {
        JumpLosesOnlyNewYear(next, trig, years, t, x);
      }
      if trig(Jan1(y)) {
        assert trig(c) && Before(t, c) && c.year < y && forall v :: v in years ==> !(c.year <= v < y);
        assert SkipsNewYear(trig, years, t, y);
        assert Allowed(trig, years, Jan1(y)) && Before(t, Jan1(y));
      } else {
        forall v {
          SkipMovesWithTheJump(next, trig, years, t, v);
        }
      }
    }
  }

  /** The base schedule "0 0 1 1 *". */
  function NewYears(t: Instant): Option<Instant> { Some(Jan1(t.year + 1)) }

  predicate IsNewYear(x: Instant) { x == Jan1(x.year) }

  lemma NewYearsIsBase()
    ensures IsBase(NewYears, IsNewYear)
  {
    assert forall t, x: Instant :: IsNewYear(x) && Before(t, x) ==> t.year + 1 <= x.year;
  }

  lemma JumpTo(years: seq<int>, t: Instant, y: int)
    requires IsBase(NewYears, IsNewYear) && IsYearList(years) && years != []
    requires t.year + 1 !in years && t.year + 1 <= Last(years) && FirstAfter(years, t.year + 1) == y != 0
    ensures Search(NewYears, IsNewYear, years, t) == Search(NewYears, IsNewYear, years, Jan1(y))
  {
  }

  /** "0 0 1 1 * 2028,2030" asked in 2026: both New Years are jumped onto and thereby missed, and nothing is found. */
  lemma NewYearScheduleFindsNothing()
    ensures IsBase(NewYears, IsNewYear) && IsYearList([2028, 2030])
    ensures Search(NewYears, IsNewYear, [2028, 2030], Instant(2026, 1)) == None
    ensures Allowed(IsNewYear, [2028, 2030], Jan1(2028)) && Before(Instant(2026, 1), Jan1(2028))
  {
    var years := [2028, 2030];
    NewYearsIsBase();
    assert years[1..] == [2030];
    assert FirstAfter([2030], 2027) == 2030 && FirstAfter([2030], 2029) == 2030;
    JumpTo(years, Instant(2026, 1), 2028);
    JumpTo(years, Jan1(2028), 2030);
  }
}
