/** normalizeListBreaks: blank lines put before lists, headings and rules for a stricter Markdown parser. */
module ListBreaks {
  import opened Base
  import opened Text

  /** The three regular expressions, as predicates on lines. None of them matches the empty line. */
  datatype Shapes = Shapes(item: string -> bool, heading: string -> bool, rule: string -> bool)

  ghost predicate Sane(m: Shapes) { !m.item("") && !m.heading("") && !m.rule("") }

  predicate HasPrefix(s: string, p: string) { |p| <= |s| && s[..|p|] == p }

  function FenceMarker(s: string): string {
    if HasPrefix(s, "```") then "```" else if HasPrefix(s, "~~~") then "~~~" else ""
  }

  predicate Blank(line: string) { TrimSpace(line) == "" }

  /** The fence the next line is inside of: "" outside, else its marker. */
  function FenceAfter(fence: string, line: string): string {
    if fence != "" then (if HasPrefix(TrimSpace(line), fence) then "" else fence)
    else FenceMarker(TrimSpace(line))
  }

  predicate NeedsBreak(prev: string, line: string, m: Shapes) {
    !Blank(prev)
    && ((m.item(line) && !m.item(prev)) || (!m.item(line) && m.heading(line))
        || (!m.item(line) && m.item(prev) && m.rule(line)))
  }

  /** Whether a blank line goes in front of `line`. */
  predicate BreakBefore(prev: Option<string>, fence: string, line: string, m: Shapes) {
    fence == "" && FenceMarker(TrimSpace(line)) == "" && prev.Some? && NeedsBreak(prev.value, line, m)
  }

  datatype Out = Out(text: string, added: bool)

  /** The output of one line: a break if needed, then the line. */
  function LineOut(prev: Option<string>, fence: string, line: string, m: Shapes): seq<Out> {
    (if BreakBefore(prev, fence, line, m) then [Out("", true)] else []) + [Out(line, false)]
  }

  /** The output with each line marked as added or original. */
  function Marked(lines: seq<string>, prev: Option<string>, fence: string, m: Shapes): seq<Out> {
    if lines == [] then []
    else
      LineOut(prev, fence, lines[0], m)
      + Marked(lines[1..], Some(lines[0]), FenceAfter(fence, lines[0]), m)
  }

  function Texts(out: seq<Out>): seq<string> { seq(|out|, i requires 0 <= i < |out| => out[i].text) }

  function NormalLines(lines: seq<string>, m: Shapes): seq<string> { Texts(Marked(lines, None, "", m)) }

  lemma NormalLinesShape(lines: seq<string>, prev: Option<string>, fence: string, m: Shapes)
    ensures |Marked(lines, prev, fence, m)| >= |lines|
    ensures forall o :: o in Marked(lines, prev, fence, m) ==>
                          (o.added && o.text == "") || (!o.added && o.text in lines)
  {
  }

  function Normalized(md: string, m: Shapes): string {
    NormalLinesShape(Split(md, '\n'), None, "", m);
    Join(NormalLines(Split(md, '\n'), m), '\n')
  }

  lemma NextLine(lines: seq<string>, i: nat, prev: Option<string>, fence: string, m: Shapes)
    requires i < |lines|
    ensures Texts(Marked(lines[i..], prev, fence, m))
            == (if BreakBefore(prev, fence, lines[i], m) then [""] else []) + [lines[i]]
               + Texts(Marked(lines[i + 1..], Some(lines[i]), FenceAfter(fence, lines[i]), m))
  {
    assert lines[i..][1..] == lines[i + 1..];
  }

  lemma Regroup(a: seq<string>, b: seq<string>, c: seq<string>, d: seq<string>)
    ensures a + (b + c + d) == a + b + c + d
  {
  }

  method NormalizeListBreaks(md: string, m: Shapes) returns (r: string)
    ensures r == Normalized(md, m)
  {
    var lines := Split(md, '\n');
    var out: seq<string>, inFence, fenceMark := [], false, "";
    ghost var fence := "";
    for i := 0 to |lines|
      invariant fence == (if inFence then fenceMark else "") && (inFence ==> fenceMark != "")
      invariant out + Texts(Marked(lines[i..], PrevAt(lines, i), fence, m)) == NormalLines(lines, m)
    {
      var line := lines[i];
      NextLine(lines, i, PrevAt(lines, i), fence, m);
      ghost var before, added := out, BreakBefore(PrevAt(lines, i), fence, line, m);
      fence := FenceAfter(fence, line);
      var trimmed := TrimSpace(line);
      if inFence {
        if HasPrefix(trimmed, fenceMark) {
          inFence := false;
        }
      } else if FenceMarker(trimmed) != "" {
        inFence, fenceMark := true, FenceMarker(trimmed);
      } else if i > 0 && NeedsBreak(lines[i - 1], line, m) {
        out := out + [""];
      }
      assert out == before + if added then [""] else [];
      out := out + [line];
      Regroup(before, if added then [""] else [], [line], Texts(Marked(lines[i + 1..], Some(line), fence, m)));
    }
    assert lines[|lines|..] == [] && out + [] == out;
    NormalLinesShape(lines, None, "", m);
    r := Join(out, '\n');
  }

  // ---- what normalisation does ----

  function Originals(out: seq<Out>): seq<string> {
    if out == [] then [] else (if out[0].added then [] else [out[0].text]) + Originals(out[1..])
  }

  lemma {:induction false} OriginalsAppend(a: seq<Out>, b: seq<Out>)
    ensures Originals(a + b) == Originals(a) + Originals(b)
  {
    if a == [] {
      assert a + b == b;
    } else {
      var first := if a[0].added then [] else [a[0].text];
      OriginalsAppend(a[1..], b);
      assert (a + b)[0] == a[0] && (a + b)[1..] == a[1..] + b;
      assert Originals(a + b) == first + (Originals(a[1..]) + Originals(b));
    }
  }

  lemma LineOutOriginals(prev: Option<string>, fence: string, line: string, m: Shapes)
    ensures Originals(LineOut(prev, fence, line, m)) == [line]
  {
    OriginalsAppend(if BreakBefore(prev, fence, line, m) then [Out("", true)] else [], [Out(line, false)]);
  }

  /** Dropping the added lines, all of them empty, gives back the input exactly. */
  lemma {:induction false} OnlyBlankLinesAreAdded(lines: seq<string>, prev: Option<string>, fence: string, m: Shapes)
    ensures Originals(Marked(lines, prev, fence, m)) == lines
    ensures forall o :: o in Marked(lines, prev, fence, m) && o.added ==> o.text == ""
  {
    if lines != [] {
      OnlyBlankLinesAreAdded(lines[1..], Some(lines[0]), FenceAfter(fence, lines[0]), m);
      OriginalsOfNext(lines, prev, fence, m);
      assert lines == [lines[0]] + lines[1..];
    }
    NormalLinesShape(lines, prev, fence, m);
  }

  lemma OriginalsOfNext(lines: seq<string>, prev: Option<string>, fence: string, m: Shapes)
    requires lines != []
    ensures Originals(Marked(lines, prev, fence, m))
            == [lines[0]] + Originals(Marked(lines[1..], Some(lines[0]), FenceAfter(fence, lines[0]), m))
  {
    LineOutOriginals(prev, fence, lines[0], m);
    OriginalsAppend(LineOut(prev, fence, lines[0], m),
      Marked(lines[1..], Some(lines[0]), FenceAfter(fence, lines[0]), m));
  }

  /** So the document itself can be recovered from its normalised lines. */
  lemma InputIsRecovered(md: string, m: Shapes)
    ensures var kept := Originals(Marked(Split(md, '\n'), None, "", m)); kept != [] && Join(kept, '\n') == md
  {
    OnlyBlankLinesAreAdded(Split(md, '\n'), None, "", m);
    JoinSplit(md, '\n');
  }

  lemma OutTexts(added: bool, line: string, rest: seq<Out>)
    ensures Texts((if added then [Out("", true)] else []) + [Out(line, false)] + rest)
            == (if added then [""] else []) + ([line] + Texts(rest))
  {
  }

  /** Texts of the first line's output, then of the rest. */
  lemma TextsOfNext(lines: seq<string>, prev: Option<string>, fence: string, m: Shapes)
    requires lines != []
    ensures Texts(Marked(lines, prev, fence, m))
            == (if BreakBefore(prev, fence, lines[0], m) then [""] else [])
               + ([lines[0]] + Texts(Marked(lines[1..], Some(lines[0]), FenceAfter(fence, lines[0]), m)))
  {
    OutTexts(BreakBefore(prev, fence, lines[0], m), lines[0],
        Marked(lines[1..], Some(lines[0]), FenceAfter(fence, lines[0]), m));
  }

  lemma {:induction false} SecondPassAddsNothing(lines: seq<string>, prev: Option<string>, fence: string, m: Shapes)
    requires Sane(m)
    ensures var out := Texts(Marked(lines, prev, fence, m)); Texts(Marked(out, prev, fence, m)) == out
  {
    if lines != [] {
      var l, fence' := lines[0], FenceAfter(fence, lines[0]);
      var rest := Texts(Marked(lines[1..], Some(l), fence', m));
      SecondPassAddsNothing(lines[1..], Some(l), fence', m);
      TextsOfNext(lines, prev, fence, m);
      assert ([l] + rest)[0] == l && ([l] + rest)[1..] == rest;
      if BreakBefore(prev, fence, l, m) {
        BlankThenLine(l, rest, prev, m);
      } else {
        assert Texts(Marked(lines, prev, fence, m)) == [l] + rest;
        TextsOfNext([l] + rest, prev, fence, m);
      }
    }
  }

  /** After an inserted blank line the line behind it needs none. */
  lemma BlankThenLine(l: string, rest: seq<string>, prev: Option<string>, m: Shapes)
    requires Sane(m) && BreakBefore(prev, "", l, m)
    requires Texts(Marked(rest, Some(l), FenceAfter("", l), m)) == rest
    ensures Texts(Marked([""] + ([l] + rest), prev, "", m)) == [""] + ([l] + rest)
  {
    var tail := [l] + rest;
    var all := [""] + tail;
    assert all[0] == "" && all[1..] == tail && tail[0] == l && tail[1..] == rest;
    assert !BreakBefore(prev, "", "", m) && FenceAfter("", "") == "";
    assert !BreakBefore(Some(""), "", l, m);
    TextsOfNext(all, prev, "", m);
    TextsOfNext(tail, Some(""), "", m);
  }

  /** Normalising a document twice is normalising it once. */
  lemma NormalizeIsIdempotent(md: string, m: Shapes)
    requires Sane(m)
    ensures Normalized(Normalized(md, m), m) == Normalized(md, m)
  {
    var lines := Split(md, '\n');
    var out := NormalLines(lines, m);
    NormalLinesShape(lines, None, "", m);
    forall i | 0 <= i < |out| ensures '\n' !in out[i] {
      assert Marked(lines, None, "", m)[i] in Marked(lines, None, "", m);
    }
    SplitJoin(out, '\n');
    SecondPassAddsNothing(lines, None, "", m);
  }

  // ---- where the lines end up ----

  /** The fence around line i of a document. */
  function FenceAt(lines: seq<string>, i: nat): string
    requires i <= |lines|
  {
    if i == 0 then "" else FenceAfter(FenceAt(lines, i - 1), lines[i - 1])
  }

  function PrevAt(lines: seq<string>, i: nat): Option<string>
    requires i <= |lines|
  {
    if i == 0 then None else Some(lines[i - 1])
  }

  predicate BreakAt(lines: seq<string>, i: nat, m: Shapes)
    requires i < |lines|
  {
    BreakBefore(PrevAt(lines, i), FenceAt(lines, i), lines[i], m)
  }

  /** The place of line i in the output: one per earlier line, one per break up to its own. */
  function Place(lines: seq<string>, i: nat, m: Shapes): nat
    requires i < |lines|
  {
    (if i == 0 then 0 else Place(lines, i - 1, m) + 1) + if BreakAt(lines, i, m) then 1 else 0
  }

  /** Where breaks go, case by case: outside fences, behind a line that is not blank, before a list, before a heading,
      and before a rule that ends a list. */
  lemma BreakAtIff(lines: seq<string>, i: nat, m: Shapes)
    requires i < |lines| && Sane(m)
    ensures BreakAt(lines, i, m)
            <==> (&& 0 < i && FenceAt(lines, i) == "" && TrimSpace(lines[i - 1]) != ""
                  && !Opens(lines[i], "```") && !Opens(lines[i], "~~~")
                  && (if m.item(lines[i]) then !m.item(lines[i - 1])
                      else m.heading(lines[i]) || (m.rule(lines[i]) && m.item(lines[i - 1]))))
  {
  }

  /** The line begins, after its leading space, with the three characters of `mark`. */
  predicate Opens(line: string, mark: string) {
    var t := TrimSpace(line);
    3 <= |t| && |mark| == 3 && t[0] == mark[0] && t[1] == mark[1] && t[2] == mark[2]
  }

  /** Line k opened a fence, outside any other, and no line from there to line i begins with the same characters. */
  ghost predicate OpenSince(lines: seq<string>, k: int, i: nat, mark: string)
    requires i <= |lines|
  {
    && 0 <= k < i && FenceAt(lines, k) == "" && Opens(lines[k], mark)
    && forall j :: k < j < i ==> !Opens(lines[j], mark)
  }

  lemma OpenSinceNext(lines: seq<string>, k: int, i: nat, mark: string)
    requires 0 < i <= |lines|
    ensures OpenSince(lines, k, i, mark)
            <==> if k == i - 1 then FenceAt(lines, k) == "" && Opens(lines[k], mark)
                 else OpenSince(lines, k, i - 1, mark) && !Opens(lines[i - 1], mark)
  {
    assert k < i - 1 ==> i - 1 < i;
  }

  lemma OpensIff(line: string, mark: string)
    requires mark == "```" || mark == "~~~"
    ensures Opens(line, mark) <==> HasPrefix(TrimSpace(line), mark)
    ensures Opens(line, mark) <==> FenceMarker(TrimSpace(line)) == mark
  {
    var t := TrimSpace(line);
    if 3 <= |t| { assert t[..3] == [t[0], t[1], t[2]] && mark == [mark[0], mark[1], mark[2]]; }
  }

  ghost predicate Opened(lines: seq<string>, i: nat, mark: string)
    requires i <= |lines|
  {
    exists k :: OpenSince(lines, k, i, mark)
  }

  lemma OpenedNext(lines: seq<string>, i: nat, mark: string)
    requires i < |lines|
    ensures Opened(lines, i + 1, mark)
            <==> if Opens(lines[i], mark) then FenceAt(lines, i) == "" else Opened(lines, i, mark)
  {
    OpenSinceNext(lines, i, i + 1, mark);
    if Opened(lines, i + 1, mark) {
      var k :| OpenSince(lines, k, i + 1, mark);
      OpenSinceNext(lines, k, i + 1, mark);
    }
    if Opened(lines, i, mark) {
      var k :| OpenSince(lines, k, i, mark);
      OpenSinceNext(lines, k, i + 1, mark);
    }
  }

  lemma FenceNext(lines: seq<string>, i: nat, mark: string)
    requires i < |lines| && (mark == "```" || mark == "~~~")
    ensures FenceAt(lines, i + 1) == mark
            <==> if Opens(lines[i], mark) then FenceAt(lines, i) == "" else FenceAt(lines, i) == mark
  {
    OpensIff(lines[i], mark);
    FenceIsMark(lines, i);
  }

  lemma FenceOpenStep(lines: seq<string>, i: nat, mark: string)
    requires i < |lines| && (mark == "```" || mark == "~~~")
    requires FenceAt(lines, i) == mark <==> Opened(lines, i, mark)
    ensures FenceAt(lines, i + 1) == mark <==> Opened(lines, i + 1, mark)
  {
    FenceNext(lines, i, mark);
    OpenedNext(lines, i, mark);
    if FenceAt(lines, i) == "" { assert FenceAt(lines, i) != mark; }
  }

  /** A fence is open before line i exactly when an earlier line opened it and it was not closed since. */
  lemma {:induction false} FenceOpenIff(lines: seq<string>, i: nat, mark: string)
    requires i <= |lines| && (mark == "```" || mark == "~~~")
    ensures FenceAt(lines, i) == mark <==> Opened(lines, i, mark)
  {
    if i == 0 {
      assert FenceAt(lines, i) == "" && !Opened(lines, i, mark);
    } else {
      FenceOpenIff(lines, i - 1, mark);
      FenceOpenStep(lines, i - 1, mark);
    }
  }

  lemma {:induction false} FenceIsMark(lines: seq<string>, i: nat)
    requires i <= |lines|
    ensures FenceAt(lines, i) in {"", "```", "~~~"}
  {
    if i > 0 { FenceIsMark(lines, i - 1); }
  }

  lemma CutAt<T>(out: seq<T>, p: nat, head: seq<T>, rest: seq<T>)
    requires p <= |out| && out[p..] == head + rest
    ensures p + |head| <= |out| && out[p + |head|..] == rest
    ensures forall k :: 0 <= k < |head| ==> out[p + k] == head[k]
  {
    forall k | 0 <= k < |head| ensures out[p + k] == head[k] { assert out[p..][k] == head[k]; }
    assert out[p + |head|..] == out[p..][|head|..];
  }

  lemma {:induction false} MarkedSplits(lines: seq<string>, i: nat, m: Shapes)
    requires i < |lines|
    ensures var out := Marked(lines, None, "", m);
            && Place(lines, i, m) < |out|
            && out[Place(lines, i, m) + 1..] == Marked(lines[i + 1..], Some(lines[i]), FenceAt(lines, i + 1), m)
            && out[Place(lines, i, m)] == Out(lines[i], false)
            && (BreakAt(lines, i, m) ==> out[Place(lines, i, m) - 1] == Out("", true))
  {
    var out := Marked(lines, None, "", m);
    var head, rest := LineOut(PrevAt(lines, i), FenceAt(lines, i), lines[i], m),
        Marked(lines[i + 1..], Some(lines[i]), FenceAt(lines, i + 1), m);
    var p := if i == 0 then 0 else Place(lines, i - 1, m) + 1;
    if i > 0 { MarkedSplits(lines, i - 1, m); }
    assert lines[i..][0] == lines[i] && lines[i..][1..] == lines[i + 1..];
    assert lines[0..] == lines && out[0..] == out;
    assert out[p..] == Marked(lines[i..], PrevAt(lines, i), FenceAt(lines, i), m) == head + rest;
    CutAt(out, p, head, rest);
    assert Place(lines, i, m) == p + |head| - 1 && head[|head| - 1] == Out(lines[i], false);
  }

  /** Lines inside a fence, its opening and its closing line included, are kept as they are and next to each other. */
  lemma FencedLinesStayTogether(lines: seq<string>, i: nat, m: Shapes)
    requires i + 1 < |lines| && FenceAt(lines, i + 1) != ""
    ensures var out, p := Marked(lines, None, "", m), Place(lines, i, m);
            p + 1 < |out| && out[p] == Out(lines[i], false) && out[p + 1] == Out(lines[i + 1], false)
  {
    MarkedSplits(lines, i, m);
    MarkedSplits(lines, i + 1, m);
  }
}
