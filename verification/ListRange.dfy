/** Lists of numbers and ranges ("2026,2028-2030"): the year field and the lunar month field of a schedule. */
module ListRange {
  import opened Base
  import opened Text
  import YearlySchedule

  const YEAR_MIN := 1900
  const YEAR_MAX := 2999

  // ---- what a field means ----

  /** One item: a number, or two numbers around the first hyphen, in order and within bounds. */
  function Item(p: string, min: int, max: int): Option<(int, int)> {
    var bounds :=
      if '-' in p then
        var i := IndexOf(p, '-');
        (Atoi(TrimSpace(p[..i])), Atoi(TrimSpace(p[i + 1..])))
      else (Atoi(p), Atoi(p));
    if bounds.0 == None || bounds.1 == None || bounds.0.value > bounds.1.value
       || bounds.0.value < min || bounds.1.value > max
    then None
    else Some((bounds.0.value, bounds.1.value))
  }

  function Items(s: string): seq<string> {
    var raw := Split(s, ',');
    seq(|raw|, i requires 0 <= i < |raw| => TrimSpace(raw[i]))
  }

  predicate InItem(v: int, p: string, min: int, max: int) {
    Item(p, min, max).Some? && Item(p, min, max).value.0 <= v <= Item(p, min, max).value.1
  }

  predicate InSome(v: int, items: seq<string>, min: int, max: int) {
    exists i :: 0 <= i < |items| && InItem(v, items[i], min, max)
  }

  predicate AllWellFormed(items: seq<string>, min: int, max: int) {
    forall i :: 0 <= i < |items| ==> Item(items[i], min, max).Some?
  }

  ghost predicate Strict(s: seq<int>) { forall i, k :: 0 <= i < k < |s| ==> s[i] < s[k] }

  /** The outcome the documentation promises: an error exactly when an item is malformed, otherwise the
      union of the items in strictly ascending order. */
  ghost predicate Denotes(s: string, min: int, max: int, r: Option<seq<int>>) {
    match r
    case None => !AllWellFormed(Items(s), min, max)
    case Some(out) =>
      && AllWellFormed(Items(s), min, max) && out != []
      && Strict(out)
      && forall v :: v in out <==> InSome(v, Items(s), min, max)
  }

  // ---- insertion sort, in place ----

  ghost predicate NoDup(s: seq<int>) { forall i, k :: 0 <= i < k < |s| ==> s[i] != s[k] }

  /** The first i+1 elements are in order, except that the one at j may be too small for its place. */
  ghost predicate SortedExcept(s: seq<int>, i: int, j: int) {
    forall p, q :: 0 <= p < q <= i && q < |s| && q != j ==> s[p] <= s[q]
  }

  function Swapped(s: seq<int>, j: int): seq<int>
    requires 0 < j < |s|
  {
    s[j - 1 := s[j]][j := s[j - 1]]
  }

  lemma SwapSinks(s: seq<int>, i: int, j: int)
    requires 0 < j <= i < |s| && SortedExcept(s, i, j) && s[j] < s[j - 1]
    ensures SortedExcept(Swapped(s, j), i, j - 1) && multiset(Swapped(s, j)) == multiset(s)
  {
  }

  lemma SinkEnds(s: seq<int>, i: int, j: int)
    requires 0 <= j <= i < |s| && SortedExcept(s, i, j) && (j > 0 ==> s[j - 1] <= s[j])
    ensures SortedExcept(s, i, i + 1)
  {
  }

  method InsertionSort(a: array<int>)
    modifies a
    ensures SortedExcept(a[..], a.Length, -1) && multiset(a[..]) == multiset(old(a[..]))
  {
    var i := 1;
    while i < a.Length
      invariant 1 <= i
      invariant SortedExcept(a[..], i - 1, i)
      invariant multiset(a[..]) == multiset(old(a[..]))
      invariant a.Length <= i ==> SortedExcept(a[..], a.Length, -1)
    {
      Sink(a, i);
      i := i + 1;
    }
  }

  /** The inner loop: the element at i sinks to its place. */
  method Sink(a: array<int>, i: nat)
    requires 0 < i < a.Length && SortedExcept(a[..], i - 1, i)
    modifies a
    ensures SortedExcept(a[..], i, i + 1) && multiset(a[..]) == multiset(old(a[..]))
  {
    var j := i;
    while j > 0 && a[j] < a[j - 1]
      invariant 0 <= j <= i
      invariant SortedExcept(a[..], i, j)
      invariant multiset(a[..]) == multiset(old(a[..]))
    {
      SwapSinks(a[..], i, j);
      ghost var swapped := Swapped(a[..], j);
      a[j], a[j - 1] := a[j - 1], a[j];
      assert a[..] == swapped;
      j := j - 1;
    }
    SinkEnds(a[..], i, j);
  }

  lemma {:induction false} NoDupCount(s: seq<int>, x: int)
    requires NoDup(s)
    ensures multiset(s)[x] <= 1
  {
    if s != [] {
      var n := |s| - 1;
      NoDupCount(s[..n], x);
      assert s == s[..n] + [s[n]];
      assert s[n] !in s[..n];
    }
  }

  lemma TwiceCounted(t: seq<int>, i: nat, k: nat)
    requires i < k < |t| && t[i] == t[k]
    ensures multiset(t)[t[i]] >= 2
  {
    assert t == t[..k] + t[k..] && t[..k][i] == t[i] && t[k..][0] == t[i];
    assert t[i] in multiset(t[..k]) && t[i] in multiset(t[k..]);
  }

  /** A sorted permutation of a list without duplicates is strictly ascending. */
  lemma SortedIsStrict(s: seq<int>, t: seq<int>)
    requires NoDup(s) && multiset(s) == multiset(t) && SortedExcept(t, |t|, -1)
    ensures Strict(t) && forall v :: v in t <==> v in s
  {
    forall i, k | 0 <= i < k < |t| ensures t[i] < t[k] {
      if t[i] == t[k] {
        TwiceCounted(t, i, k);
        NoDupCount(s, t[i]);
      }
    }
    forall v ensures v in t <==> v in s {
      assert v in multiset(t) <==> v in multiset(s);
    }
  }

  method Sorted(s: seq<int>) returns (r: seq<int>)
    requires NoDup(s)
    ensures Strict(r) && |r| == |s| && forall v :: v in r <==> v in s
  {
    var a := new int[|s|](i requires 0 <= i < |s| => s[i]);
    assert a[..] == s;
    InsertionSort(a);
    r := a[..];
    SortedIsStrict(s, r);
  }

  // ---- the two parsers ----

  /** `has` holds of exactly the numbers that the items, all well-formed, stand for. */
  ghost predicate Covers(has: int -> bool, items: seq<string>, min: int, max: int) {
    && AllWellFormed(items, min, max)
    && (forall v :: has(v) <==> InSome(v, items, min, max))
  }

  ghost function Listed(out: seq<int>): int -> bool { v => v in out }

  ghost function Collected(out: set<int>): int -> bool { v => v in out }

  lemma CoversNext(has: int -> bool, next: int -> bool, items: seq<string>, i: nat, min: int, max: int)
    requires i < |items| && Covers(has, items[..i], min, max) && Item(items[i], min, max).Some?
    requires forall v :: next(v) <==> has(v) || InItem(v, items[i], min, max)
    ensures Covers(next, items[..i + 1], min, max)
  {
    InSomeGrows(items, i, min, max);
    var longer := items[..i + 1];
    forall k | 0 <= k < |longer| ensures Item(longer[k], min, max).Some? {
      if k < i { assert items[..i][k] == longer[k]; }
    }
  }

  lemma NotCovered(items: seq<string>, i: nat, min: int, max: int)
    requires i < |items| && Item(items[i], min, max) == None
    ensures !AllWellFormed(items, min, max)
  {
  }

  method ParseYearList(s: string) returns (r: Option<seq<int>>)
    ensures Denotes(s, YEAR_MIN, YEAR_MAX, r)
  {
    var parts := Items(s);
    r := YearsOf(parts);
  }

  /** The bounds of one item. */
  method ReadYears(p: string) returns (r: Option<(int, int)>)
    ensures r == Item(p, 1900, 2999)
  {
    if p == "" {
      return None;
    }
    if '-' in p {
      var at := IndexOf(p, '-');
      var lo, hi := Atoi(TrimSpace(p[..at])), Atoi(TrimSpace(p[at + 1..]));
      if lo == None || hi == None {
        return None;
      }
      if lo.value > hi.value {
        return None;
      }
      if lo.value < YEAR_MIN || hi.value > YEAR_MAX {
        return None;
      }
      return Some((lo.value, hi.value));
    }
    var v := Atoi(p);
    if v == None {
      return None;
    }
    if v.value < YEAR_MIN || v.value > YEAR_MAX {
      return None;
    }
    r := Some((v.value, v.value));
  }

  method YearsOf(parts: seq<string>) returns (r: Option<seq<int>>)
    requires parts != []
    ensures r == None <==> !AllWellFormed(parts, YEAR_MIN, YEAR_MAX)
    ensures r.Some? ==> r.value != [] && Strict(r.value) && Covers(Listed(r.value), parts, YEAR_MIN, YEAR_MAX)
  {
    var seen: set<int>, out: seq<int> := {}, [];
    for i := 0 to |parts|
      invariant Covers(Listed(out), parts[..i], YEAR_MIN, YEAR_MAX)
      invariant NoDup(out) && forall v :: v in seen <==> v in out
      invariant i > 0 ==> out != []
    {
      var item := ReadYears(parts[i]);
      if item == None {
        NotCovered(parts, i, YEAR_MIN, YEAR_MAX);
        return None;
      }
      ghost var before := out;
      for v := item.value.0 to item.value.1 + 1
        invariant NoDup(out) && forall u :: u in seen <==> u in out
        invariant forall u :: u in out <==> u in before || item.value.0 <= u < v
      {
        if v !in seen {
          seen, out := seen + {v}, out + [v];
        }
      }
      assert item.value.0 in out;
      CoversNext(Listed(before), Listed(out), parts, i, YEAR_MIN, YEAR_MAX);
    }
    assert parts[..|parts|] == parts;
    var sorted := Sorted(out);
    r := Some(sorted);
  }

  lemma InSomeGrows(items: seq<string>, i: nat, min: int, max: int)
    requires i < |items|
    ensures forall v ::
              InSome(v, items[..i + 1], min, max) <==> InSome(v, items[..i], min, max) || InItem(v, items[i], min, max)
  {
    forall v
      ensures InSome(v, items[..i + 1], min, max) <==> InSome(v, items[..i], min, max) || InItem(v, items[i], min, max)
    {
      if InSome(v, items[..i], min, max) {
        var k :| 0 <= k < i && InItem(v, items[..i][k], min, max);
        assert items[..i + 1][k] == items[..i][k];
      }
      if InItem(v, items[i], min, max) { assert items[..i + 1][i] == items[i]; }
      if InSome(v, items[..i + 1], min, max) {
        var k :| 0 <= k < i + 1 && InItem(v, items[..i + 1][k], min, max);
        if k < i { assert items[..i][k] == items[..i + 1][k]; }
      }
    }
  }

  /** A parsed year field is what the schedule's search relies on. */
  lemma YearFieldFitsSchedule(s: string, years: seq<int>)
    requires Denotes(s, YEAR_MIN, YEAR_MAX, Some(years))
    ensures YearlySchedule.IsYearList(years) && years != [] && forall y :: y in years ==> 1900 <= y <= 2999
  {
    forall y | y in years ensures 1900 <= y <= 2999 {
      var i :| 0 <= i < |Items(s)| && InItem(y, Items(s)[i], YEAR_MIN, YEAR_MAX);
    }
  }

  /** One item of parseListRange: bounds are checked value by value, results go into a set. */
  method AddItem(p: string, min: int, max: int, out: set<int>) returns (r: Option<set<int>>)
    requires TrimSpace(p) == p
    ensures r.Some? <==> Item(p, min, max).Some?
    ensures r.Some? ==> r.value != {} && forall v :: v in r.value <==> v in out || InItem(v, p, min, max)
  {
    if p == "" {
      return None;
    }
    var acc := out;
    if '-' in p {
      var at := IndexOf(p, '-');
      var lo, hi := Atoi(TrimSpace(p[..at])), Atoi(TrimSpace(p[at + 1..]));
      if lo == None || hi == None || lo.value > hi.value {
        return None;
      }
      for v := lo.value to hi.value + 1
        invariant forall u :: u in acc <==> u in out || lo.value <= u < v
        invariant lo.value < v ==> min <= lo.value && v <= max + 1
      {
        if v < min || v > max {
          return None;
        }
        acc := acc + {v};
      }
      assert lo.value in acc;
    } else {
      var v := Atoi(TrimSpace(p));
      if v == None || v.value < min || v.value > max {
        return None;
      }
      acc := acc + {v.value};
      assert v.value in acc;
    }
    r := Some(acc);
  }

  method ParseListRange(s: string, min: int, max: int) returns (r: Option<seq<int>>)
    ensures Denotes(s, min, max, r)
  {
    var parts := Items(s);
    forall i | 0 <= i < |parts| ensures TrimSpace(parts[i]) == parts[i] {
      TrimmedTwice(Split(s, ',')[i]);
    }
    r := ValuesOf(parts, min, max);
  }

  method ValuesOf(parts: seq<string>, min: int, max: int) returns (r: Option<seq<int>>)
    requires parts != [] && forall i :: 0 <= i < |parts| ==> TrimSpace(parts[i]) == parts[i]
    ensures r == None <==> !AllWellFormed(parts, min, max)
    ensures r.Some? ==> r.value != [] && Strict(r.value) && Covers(Listed(r.value), parts, min, max)
  {
    var out: set<int> := {};
    for i := 0 to |parts|
      invariant Covers(Collected(out), parts[..i], min, max)
      invariant i > 0 ==> out != {}
    {
      var added := AddItem(parts[i], min, max, out);
      if added == None {
        NotCovered(parts, i, min, max);
        return None;
      }
      CoversNext(Collected(out), Collected(added.value), parts, i, min, max);
      out := added.value;
    }
    assert parts[..|parts|] == parts;
    ghost var some := Pick(out);
    var sorted := SortedElements(out);
    assert some in sorted;
    r := Some(sorted);
  }

  /** Ranging over a Go map visits the keys in any order. */
  method SortedElements(s: set<int>) returns (r: seq<int>)
    ensures Strict(r) && forall v :: v in r <==> v in s
  {
    var vals, rest := [], s;
    while rest != {}
      invariant rest <= s && NoDup(vals) && forall v :: v in vals <==> v in s && v !in rest
      decreases rest
    {
      ghost var some := Pick(rest);
      var v :| v in rest;
      rest, vals := rest - {v}, vals + [v];
    }
    r := Sorted(vals);
  }

  // ---- what is rejected ----

  /** An item with a character that is neither a digit, a sign nor white space is malformed. */
  lemma JunkIsRejected(p: string, c: char, min: int, max: int)
    requires c in p && !IsDigit(c) && c != '-' && c != '+' && !IsSpace(c)
    ensures Item(p, min, max) == None
  {
    if '-' in p {
      var i := IndexOf(p, '-');
      assert p == p[..i] + ['-'] + p[i + 1..];
      if c in p[..i] {
        TrimKeeps(p[..i], c);
        NotANumber(TrimSpace(p[..i]), c);
      } else {
        TrimKeeps(p[i + 1..], c);
        NotANumber(TrimSpace(p[i + 1..]), c);
      }
    } else {
      NotANumber(p, c);
    }
  }

  lemma NotANumber(s: string, c: char)
    requires c in s && !IsDigit(c) && c != '-' && c != '+'
    ensures Atoi(s) == None
  {
    var i :| 0 <= i < |s| && s[i] == c;
    AtoiRejects(s, i);
  }

  // ---- printing and parsing ----

  /** A number, or a range from one number to another. */
  datatype Part = One(v: int) | Span(lo: int, hi: int)

  function Low(p: Part): int { if p.One? then p.v else p.lo }

  function High(p: Part): int { if p.One? then p.v else p.hi }

  function Print(p: Part): string { if p.One? then Decimal(p.v) else Decimal(p.lo) + "-" + Decimal(p.hi) }

  function Printed(parts: seq<Part>): seq<string> { seq(|parts|, i requires 0 <= i < |parts| => Print(parts[i])) }

  /** In range and, for a range, in order. */
  predicate Proper(p: Part, min: int, max: int) { min <= Low(p) <= High(p) <= max }

  function Bounds(p: Part, min: int, max: int): Option<(int, int)> {
    if Proper(p, min, max) then Some((Low(p), High(p))) else None
  }

  predicate InSomePart(v: int, parts: seq<Part>) {
    exists i :: 0 <= i < |parts| && Low(parts[i]) <= v <= High(parts[i])
  }

  ghost predicate IsNumeral(s: string) { forall c :: c in s ==> (IsDigit(c) || c == '-') && !IsSpace(c) && c != ',' }

  lemma DigitsOnly(v: int)
    ensures IsNumeral(Decimal(v)) && Trimmed(Decimal(v)) && TrimSpace(Decimal(v)) == Decimal(v)
    ensures if v >= 0 then '-' !in Decimal(v) else Decimal(v)[0] == '-'
  {
    assert forall c :: c in Decimal(v) ==> IsDigit(c) || c == '-';
    NothingToTrim(Decimal(v));
    if v >= 0 { assert forall c :: c in Digits(v) ==> IsDigit(c); }
  }

  lemma PrintedNumber(v: int, min: int, max: int)
    requires 0 <= min && max <= MAX_INT64
    ensures Item(Decimal(v), min, max) == if min <= v <= max then Some((v, v)) else None
  {
    DigitsOnly(v);
    AtoiOfDecimal(v);
    if v < 0 { LeadingHyphen(Decimal(v), min, max); }
  }

  lemma PrintedSpan(lo: int, hi: int, min: int, max: int)
    requires 0 <= min && max <= MAX_INT64
    ensures Item(Decimal(lo) + "-" + Decimal(hi), min, max) == if min <= lo <= hi <= max then Some((lo, hi)) else None
  {
    DigitsOnly(lo);
    DigitsOnly(hi);
    RangeText(Decimal(lo), Decimal(hi));
    if lo < 0 {
      assert (Decimal(lo) + "-" + Decimal(hi))[0] == '-';
      LeadingHyphen(Decimal(lo) + "-" + Decimal(hi), min, max);
    } else {
      AtoiOfDecimal(lo);
      AtoiOfDecimal(hi);
    }
  }

  /** What a printed number or range means: itself if it is proper, nothing otherwise. */
  lemma PrintedItem(p: Part, min: int, max: int)
    requires 0 <= min && max <= MAX_INT64
    ensures Item(Print(p), min, max) == Bounds(p, min, max)
    ensures Trimmed(Print(p)) && ',' !in Print(p)
  {
    DigitsOnly(Low(p));
    DigitsOnly(High(p));
    match p
    case One(v) => PrintedNumber(v, min, max);
    case Span(lo, hi) =>
      PrintedSpan(lo, hi, min, max);
      RangeText(Decimal(lo), Decimal(hi));
  }

  /** A text that begins with a hyphen has nothing in front of it to be a number. */
  lemma LeadingHyphen(text: string, min: int, max: int)
    requires text != "" && text[0] == '-'
    ensures Item(text, min, max) == None
  {
    IndexUnique(text, '-', 0);
    assert text[..0] == "";
  }

  /** A printed range is cut at the hyphen after its first number. */
  lemma RangeText(lo: string, hi: string)
    requires IsNumeral(lo) && IsNumeral(hi)
    ensures var text := lo + "-" + hi;
            && '-' in text && ',' !in text && Trimmed(text)
            && ('-' !in lo ==> IndexOf(text, '-') == |lo| && text[..|lo|] == lo && text[|lo| + 1..] == hi)
  {
    var text := lo + "-" + hi;
    assert forall k :: 0 <= k < |lo| ==> text[k] == lo[k] && text[k] in lo;
    assert text[|lo|] == '-' && '-' in text;
    if '-' !in lo { IndexUnique(text, '-', |lo|); }
    assert forall c :: c in text ==> (c in lo || c == '-' || c in hi) && !IsSpace(c);
    assert text[0] in text && text[|text| - 1] in text;
  }

  /** The items with white space around them. */
  function Padded(items: seq<string>, left: seq<string>, right: seq<string>): seq<string>
    requires |left| == |right| == |items|
  {
    seq(|items|, i requires 0 <= i < |items| => left[i] + items[i] + right[i])
  }

  ghost predicate Spaces(pads: seq<string>) { forall i :: 0 <= i < |pads| ==> AllSpace(pads[i]) }

  lemma PaddingDoesNotMatter(items: seq<string>, left: seq<string>, right: seq<string>)
    requires |left| == |right| == |items| != 0 && Spaces(left) && Spaces(right)
    requires forall i :: 0 <= i < |items| ==> Trimmed(items[i]) && ',' !in items[i]
    ensures Items(Join(Padded(items, left, right), ',')) == items
  {
    var padded := Padded(items, left, right);
    forall i | 0 <= i < |items| ensures ',' !in padded[i] && TrimSpace(padded[i]) == items[i] {
      assert AllSpace(left[i]) && AllSpace(right[i]) && !IsSpace(',');
      TrimSpaceCuts(left[i], items[i], right[i]);
    }
    SplitJoin(padded, ',');
  }

  /** Printing any non-empty list of numbers and ranges, with white space around them, and parsing it: it fails if and
      only if one of them is out of range or reversed, and otherwise gives exactly the numbers they cover, in ascending
      order. */
  lemma PrintThenParse(parts: seq<Part>, left: seq<string>, right: seq<string>, min: int, max: int, r: Option<seq<int>>)
    requires |left| == |right| == |parts| != 0 && Spaces(left) && Spaces(right) && 0 <= min && max <= MAX_INT64
    requires Denotes(Join(Padded(Printed(parts), left, right), ','), min, max, r)
    ensures r.Some? <==> forall i :: 0 <= i < |parts| ==> Proper(parts[i], min, max)
    ensures r.Some? ==> Strict(r.value)
                        && forall v :: v in r.value <==> InSomePart(v, parts)
  {
    var items := Printed(parts);
    forall i | 0 <= i < |parts|
      ensures Item(items[i], min, max) == Bounds(parts[i], min, max)
      ensures Trimmed(items[i]) && ',' !in items[i]
    {
      PrintedItem(parts[i], min, max);
    }
    PaddingDoesNotMatter(items, left, right);
    PrintedMeansItself(parts, items, min, max);
  }

  lemma PrintedMeansItself(parts: seq<Part>, items: seq<string>, min: int, max: int)
    requires |parts| == |items|
    requires forall i :: 0 <= i < |parts| ==>
               Item(items[i], min, max) == Bounds(parts[i], min, max)
    ensures AllWellFormed(items, min, max) <==> forall i :: 0 <= i < |parts| ==> Proper(parts[i], min, max)
    ensures AllWellFormed(items, min, max) ==> forall v :: InSome(v, items, min, max) <==> InSomePart(v, parts)
  {
    forall i | 0 <= i < |parts| ensures Item(items[i], min, max).Some? <==> Proper(parts[i], min, max) {
    }
    if AllWellFormed(items, min, max) {
      forall v ensures InSome(v, items, min, max) <==> InSomePart(v, parts) {
        if InSome(v, items, min, max) {
          var i :| 0 <= i < |items| && InItem(v, items[i], min, max);
          assert Low(parts[i]) <= v <= High(parts[i]);
        }
        if i :| 0 <= i < |parts| && Low(parts[i]) <= v <= High(parts[i]) {
          assert InItem(v, items[i], min, max);
        }
      }
    }
  }

  /** One range on its own: it stands for all the numbers from its first to its last. */
  lemma RangeMeansAllBetween(lo: int, hi: int, min: int, max: int, r: Option<seq<int>>)
    requires 0 <= min && max <= MAX_INT64 && Denotes(Decimal(lo) + "-" + Decimal(hi), min, max, r)
    ensures r.Some? <==> min <= lo <= hi <= max
    ensures r.Some? ==> forall v :: v in r.value <==> lo <= v <= hi
  {
    var parts, text := [Span(lo, hi)], Decimal(lo) + "-" + Decimal(hi);
    assert Printed(parts) == [text] && "" + text + "" == text;
    assert Padded([text], [""], [""]) == [text];
    PrintThenParse(parts, [""], [""], min, max, r);
    assert parts[0] == Span(lo, hi) && Low(parts[0]) == lo && High(parts[0]) == hi;
  }
}
