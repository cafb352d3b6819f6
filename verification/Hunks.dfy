/** Grouping a file's diff into hunks. */
module Hunks {
  // Each change with three lines of context, near ones together.

  datatype Kind = Context | Added | Deleted

  /** A stretch of lines a diff found equal, added or deleted. */
  datatype Chunk = Chunk(kind: Kind, texts: seq<string>)

  /** A line with its numbers in the old and the new file, zero where it is in neither. */
  datatype Line = Line(kind: Kind, text: string, oldLine: nat, newLine: nat)

  datatype Hunk = Hunk(oldStart: nat, oldLines: nat, newStart: nat, newLines: nat, lines: seq<Line>)

  datatype Span = Span(start: nat, end: nat)

  const CTX: nat := 3

  // ---- numbering ----

  function OldOf(lines: seq<Line>): seq<string> {
    if lines == [] then []
    else OldOf(lines[..|lines| - 1]) + if lines[|lines| - 1].kind != Added then [lines[|lines| - 1].text] else []
  }

  function NewOf(lines: seq<Line>): seq<string> {
    if lines == [] then []
    else NewOf(lines[..|lines| - 1]) + if lines[|lines| - 1].kind != Deleted then [lines[|lines| - 1].text] else []
  }

  /** Each line carries the number its place in each file gives it. */
  ghost predicate Numbered(lines: seq<Line>) {
    forall i :: 0 <= i < |lines| ==>
      && lines[i].oldLine == (if lines[i].kind == Added then 0 else |OldOf(lines[..i])| + 1)
      && lines[i].newLine == (if lines[i].kind == Deleted then 0 else |NewOf(lines[..i])| + 1)
  }

  function Texts(chunks: seq<Chunk>, old_: bool): seq<string> {
    if chunks == [] then []
    else
      var c := chunks[|chunks| - 1];
      Texts(chunks[..|chunks| - 1], old_) + if c.kind == (if old_ then Added else Deleted) then [] else c.texts
  }

  lemma NumberedMore(lines: seq<Line>, l: Line)
    requires Numbered(lines)
    requires l.oldLine == (if l.kind == Added then 0 else |OldOf(lines)| + 1)
    requires l.newLine == (if l.kind == Deleted then 0 else |NewOf(lines)| + 1)
    ensures Numbered(lines + [l])
    ensures OldOf(lines + [l]) == OldOf(lines) + if l.kind != Added then [l.text] else []
    ensures NewOf(lines + [l]) == NewOf(lines) + if l.kind != Deleted then [l.text] else []
  {
    var more := lines + [l];
    assert more[..|lines|] == lines;
    forall i | 0 <= i < |lines| ensures more[..i] == lines[..i] { }
  }

  /** One chunk's lines, numbered on from those before. */
  method NumberChunk(chunk: Chunk, start: seq<Line>) returns (lines: seq<Line>)
    requires Numbered(start)
    ensures Numbered(lines)
    ensures OldOf(lines) == OldOf(start) + if chunk.kind == Added then [] else chunk.texts
    ensures NewOf(lines) == NewOf(start) + if chunk.kind == Deleted then [] else chunk.texts
  {
    hide Numbered, OldOf, NewOf;
    var oldLine, newLine := |OldOf(start)| + 1, |NewOf(start)| + 1;
    lines := start;
    var texts := chunk.texts;
    for i := 0 to |texts|
      invariant Numbered(lines) && oldLine == |OldOf(lines)| + 1 && newLine == |NewOf(lines)| + 1
      invariant OldOf(lines) == OldOf(start) + if chunk.kind == Added then [] else texts[..i]
      invariant NewOf(lines) == NewOf(start) + if chunk.kind == Deleted then [] else texts[..i]
    {
      assert texts[..i + 1] == texts[..i] + [texts[i]];
      var l := Line(chunk.kind, texts[i], if chunk.kind == Added then 0 else oldLine, if chunk.kind == Deleted then 0 else newLine);
      NumberedMore(lines, l);
      lines := lines + [l];
      if chunk.kind != Added {
        oldLine := oldLine + 1;
      }
      if chunk.kind != Deleted {
        newLine := newLine + 1;
      }
    }
    assert texts[..|texts|] == texts;
  }

  method NumberLines(chunks: seq<Chunk>) returns (lines: seq<Line>)
    ensures Numbered(lines) && OldOf(lines) == Texts(chunks, true) && NewOf(lines) == Texts(chunks, false)
  {
    hide Numbered, OldOf, NewOf;
    lines := [];
    NoLines();
    for i := 0 to |chunks|
      invariant Numbered(lines) && OldOf(lines) == Texts(chunks[..i], true) && NewOf(lines) == Texts(chunks[..i], false)
    {
      assert chunks[..i + 1][..i] == chunks[..i];
      lines := NumberChunk(chunks[i], lines);
    }
    assert chunks[..|chunks|] == chunks;
  }

  lemma NoLines()
    ensures Numbered([]) && OldOf([]) == [] && NewOf([]) == []
  {
  }

  // ---- spans ----

  predicate InSpan(s: Span, i: int) { s.start <= i <= s.end }

  ghost predicate InSome(spans: seq<Span>, i: int) { exists k :: 0 <= k < |spans| && InSpan(spans[k], i) }

  /** Ordered, and a line or more between any two. */
  ghost predicate Apart(spans: seq<Span>) {
    && (forall k :: 0 <= k < |spans| ==> spans[k].start <= spans[k].end)
    && forall k, m :: 0 <= k < m < |spans| ==> spans[k].end + 1 < spans[m].start
  }

  ghost predicate Within(spans: seq<Span>, n: nat) { forall k :: 0 <= k < |spans| ==> spans[k].end < n }

  predicate Changed(lines: seq<Line>, i: int) { 0 <= i < |lines| && lines[i].kind != Context }

  method FindSpans(lines: seq<Line>) returns (spans: seq<Span>)
    ensures Apart(spans) && Within(spans, |lines|) && forall i :: InSome(spans, i) <==> Changed(lines, i)
  {
    spans := [];
    for i := 0 to |lines|
      invariant Apart(spans) && Within(spans, i) && forall x :: InSome(spans, x) <==> Changed(lines, x) && x < i
    {
      if lines[i].kind != Context {
        var n := |spans|;
        if n == 0 || i > spans[n - 1].end + 1 {
          SpanAdded(spans, i);
          spans := spans + [Span(i, i)];
        } else {
          SpanGrown(spans, i);
          spans := spans[n - 1 := spans[n - 1].(end := i)];
        }
      }
    }
  }

  lemma SpanAdded(spans: seq<Span>, i: nat)
    requires Apart(spans) && (spans == [] || i > spans[|spans| - 1].end + 1)
    ensures var more := spans + [Span(i, i)];
            Apart(more) && forall x :: InSome(more, x) <==> InSome(spans, x) || x == i
  {
    var more := spans + [Span(i, i)];
    forall x ensures InSome(more, x) <==> InSome(spans, x) || x == i { SnocIn(spans, Span(i, i), x); }
  }

  lemma SnocIn(spans: seq<Span>, s: Span, x: int)
    ensures InSome(spans + [s], x) <==> InSome(spans, x) || InSpan(s, x)
  {
    var more := spans + [s];
    assert more[|spans|] == s;
    if k :| 0 <= k < |spans| && InSpan(spans[k], x) { assert InSpan(more[k], x); }
  }

  lemma SpanGrown(spans: seq<Span>, i: nat)
    requires Apart(spans) && spans != [] && spans[|spans| - 1].end + 1 == i
    ensures var n := |spans| - 1;
            var more := spans[n := spans[n].(end := i)];
            Apart(more) && forall x :: InSome(more, x) <==> InSome(spans, x) || x == i
  {
    LastGrown(spans, i);
  }

  /** The last span ended later. */
  lemma LastGrown(spans: seq<Span>, end: nat)
    requires Apart(spans) && spans != [] && spans[|spans| - 1].end <= end
    ensures var n := |spans| - 1;
            var more := spans[n := spans[n].(end := end)];
            Apart(more) && forall x :: InSome(more, x) <==> InSome(spans, x) || spans[n].end < x <= end
  {
    var n := |spans| - 1;
    var more := spans[n := spans[n].(end := end)];
    assert spans == spans[..n] + [spans[n]] && more == spans[..n] + [more[n]];
    forall x ensures InSome(more, x) <==> InSome(spans, x) || spans[n].end < x <= end {
      SnocIn(spans[..n], spans[n], x);
      SnocIn(spans[..n], more[n], x);
    }
  }

  // ---- context ----

  function Widened(s: Span, n: nat): Span
    requires s.end < n
  {
    Span(if s.start < CTX then 0 else s.start - CTX, if s.end + CTX < n then s.end + CTX else n - 1)
  }

  ghost predicate NearSome(spans: seq<Span>, n: nat, i: int)
    requires Within(spans, n)
  {
    exists k :: 0 <= k < |spans| && InSpan(Widened(spans[k], n), i)
  }

  method MergeSpans(spans: seq<Span>, n: nat) returns (merged: seq<Span>)
    requires Apart(spans) && Within(spans, n)
    ensures Apart(merged) && Within(merged, n) && forall i :: InSome(merged, i) <==> NearSome(spans, n, i)
  {
    hide InSome, Apart, NearSome;
    merged := [];
    NoneMerged(n);
    for k := 0 to |spans|
      invariant Within(spans[..k], n) && Within(merged, n)
      invariant Merging(spans[..k], n, merged)
    {
      assert spans[..k + 1] == spans[..k] + [spans[k]];
      MergeNext(spans, n, k, merged);
      var s := Widened(spans[k], n);
      if merged != [] && s.start <= merged[|merged| - 1].end + 1 {
        merged := merged[|merged| - 1 := merged[|merged| - 1].(end := s.end)];
      } else {
        merged := merged + [s];
      }
    }
    assert spans[..|spans|] == spans;
  }

  /** The spans merged so far: what the widened ones hold, the last ending where the last of them does. */
  ghost predicate Merging(spans: seq<Span>, n: nat, merged: seq<Span>)
    requires Within(spans, n)
  {
    && Apart(merged) && (forall i :: InSome(merged, i) <==> NearSome(spans, n, i))
    && (merged == [] <==> spans == [])
    && (spans != [] ==> merged[|merged| - 1].end == Widened(spans[|spans| - 1], n).end
                        && merged[|merged| - 1].start <= Widened(spans[|spans| - 1], n).start)
  }

  lemma NoneMerged(n: nat)
    ensures Within([], n) && Merging([], n, [])
  {
  }

  lemma NearMore(spans: seq<Span>, n: nat, s: Span, x: int)
    requires Within(spans, n) && s.end < n
    ensures Within(spans + [s], n)
    ensures NearSome(spans + [s], n, x) <==> NearSome(spans, n, x) || InSpan(Widened(s, n), x)
  {
    var more := spans + [s];
    assert more[|spans|] == s;
    if k :| 0 <= k < |spans| && InSpan(Widened(spans[k], n), x) { assert InSpan(Widened(more[k], n), x); }
  }

  lemma MergeNext(spans: seq<Span>, n: nat, k: nat, merged: seq<Span>)
    requires k < |spans| && Apart(spans) && Within(spans, n) && Within(spans[..k], n) && Merging(spans[..k], n, merged)
    requires Within(merged, n)
    ensures Within(spans[..k] + [spans[k]], n)
    ensures var s := Widened(spans[k], n);
            var m := |merged| - 1;
            if merged != [] && s.start <= merged[m].end + 1 then
              Merging(spans[..k] + [spans[k]], n, merged[m := merged[m].(end := s.end)])
            else Merging(spans[..k] + [spans[k]], n, merged + [s])
  {
    hide InSome, NearSome;
    var s := Widened(spans[k], n);
    var m := |merged| - 1;
    forall x ensures NearSome(spans[..k] + [spans[k]], n, x) <==> NearSome(spans[..k], n, x) || InSpan(s, x) {
      NearMore(spans[..k], n, spans[k], x);
    }
    if merged != [] {
      assert spans[..k][k - 1] == spans[k - 1] && spans[k - 1].end + 1 < spans[k].start;
      if s.start <= merged[m].end + 1 {
        LastGrown(merged, s.end);
        forall x | InSpan(s, x) && x <= merged[m].end ensures InSome(merged, x) { LastHolds(merged, x); }
      } else {
        forall x ensures InSome(merged + [s], x) <==> InSome(merged, x) || InSpan(s, x) { SnocIn(merged, s, x); }
      }
    } else {
      forall x ensures InSome(merged + [s], x) <==> InSome(merged, x) || InSpan(s, x) { SnocIn(merged, s, x); }
    }
  }

  lemma LastHolds(spans: seq<Span>, x: int)
    requires spans != [] && InSpan(spans[|spans| - 1], x)
    ensures InSome(spans, x)
  {
  }

  // ---- hunks ----

  /** Within three lines of a change. */
  ghost predicate Near(lines: seq<Line>, i: int) {
    0 <= i < |lines| && exists j :: Changed(lines, j) && j - 3 <= i <= j + 3
  }

  /** The spans of a diff's hunks: ordered, apart, and holding exactly the lines near a change. */
  ghost predicate Grouped(lines: seq<Line>, spans: seq<Span>) {
    Apart(spans) && Within(spans, |lines|) && forall i :: InSome(spans, i) <==> Near(lines, i)
  }

  lemma NearIs(lines: seq<Line>, spans: seq<Span>, i: int)
    requires Apart(spans) && Within(spans, |lines|) && forall x :: InSome(spans, x) <==> Changed(lines, x)
    ensures NearSome(spans, |lines|, i) <==> Near(lines, i)
  {
    if NearSome(spans, |lines|, i) {
      var k :| 0 <= k < |spans| && InSpan(Widened(spans[k], |lines|), i);
      var j := if i < spans[k].start then spans[k].start else if i > spans[k].end then spans[k].end else i;
      assert InSpan(spans[k], j) && InSome(spans, j) && Changed(lines, j);
    }
    if Near(lines, i) {
      var j :| Changed(lines, j) && j - 3 <= i <= j + 3;
      assert InSome(spans, j);
      var k :| 0 <= k < |spans| && InSpan(spans[k], j);
      assert InSpan(Widened(spans[k], |lines|), i);
    }
  }

  function FirstOld(lines: seq<Line>): nat {
    if lines == [] then 0 else if lines[0].oldLine > 0 then lines[0].oldLine else FirstOld(lines[1..])
  }

  function FirstNew(lines: seq<Line>): nat {
    if lines == [] then 0 else if lines[0].newLine > 0 then lines[0].newLine else FirstNew(lines[1..])
  }

  function HunkOf(lines: seq<Line>): Hunk {
    Hunk(FirstOld(lines), |OldOf(lines)|, FirstNew(lines), |NewOf(lines)|, lines)
  }

  function HunksOf(lines: seq<Line>, spans: seq<Span>): seq<Hunk>
    requires forall k :: 0 <= k < |spans| ==> spans[k].start <= spans[k].end < |lines|
  {
    seq(|spans|, k requires 0 <= k < |spans| => HunkOf(lines[spans[k].start..spans[k].end + 1]))
  }

  /** A line has an old number exactly when the old file has it, and a new one when the new has. */
  ghost predicate Counted(lines: seq<Line>) {
    forall l :: l in lines ==> (l.oldLine > 0 <==> l.kind != Added) && (l.newLine > 0 <==> l.kind != Deleted)
  }

  lemma NumberedCounts(lines: seq<Line>, a: nat, b: nat)
    requires Numbered(lines) && a <= b <= |lines|
    ensures Counted(lines[a..b])
  {
    forall l | l in lines[a..b] ensures (l.oldLine > 0 <==> l.kind != Added) && (l.newLine > 0 <==> l.kind != Deleted) {
      var i :| 0 <= i < |lines[a..b]| && lines[a..b][i] == l;
      assert lines[a + i] == l;
    }
  }

  lemma {:induction false} FirstSnoc(lines: seq<Line>, l: Line)
    ensures FirstOld(lines + [l]) == if FirstOld(lines) > 0 then FirstOld(lines) else l.oldLine
    ensures FirstNew(lines + [l]) == if FirstNew(lines) > 0 then FirstNew(lines) else l.newLine
  {
    if lines == [] {
      assert lines + [l] == [l] && [l][1..] == [];
    } else {
      assert (lines + [l])[1..] == lines[1..] + [l];
      FirstSnoc(lines[1..], l);
    }
  }

  lemma OldNewSnoc(lines: seq<Line>, l: Line)
    ensures |OldOf(lines + [l])| == |OldOf(lines)| + if l.kind != Added then 1 else 0
    ensures |NewOf(lines + [l])| == |NewOf(lines)| + if l.kind != Deleted then 1 else 0
  {
    assert (lines + [l])[..|lines|] == lines;
  }

  method BuildHunk(segment: seq<Line>) returns (h: Hunk)
    requires Counted(segment)
    ensures h == HunkOf(segment)
  {
    hide OldOf, NewOf, FirstOld, FirstNew;
    var oldStart: nat, newStart: nat, oldCount: nat, newCount: nat := 0, 0, 0, 0;
    NoCounts();
    for i := 0 to |segment|
      invariant oldStart == FirstOld(segment[..i]) && newStart == FirstNew(segment[..i])
      invariant oldCount == |OldOf(segment[..i])| && newCount == |NewOf(segment[..i])|
    {
      var l := segment[i];
      assert segment[..i + 1] == segment[..i] + [l] && l in segment;
      FirstSnoc(segment[..i], l);
      OldNewSnoc(segment[..i], l);
      if l.oldLine > 0 {
        if oldStart == 0 {
          oldStart := l.oldLine;
        }
        oldCount := oldCount + 1;
      }
      if l.newLine > 0 {
        if newStart == 0 {
          newStart := l.newLine;
        }
        newCount := newCount + 1;
      }
    }
    assert segment[..|segment|] == segment;
    h := Hunk(oldStart, oldCount, newStart, newCount, segment);
  }

  lemma NoCounts()
    ensures FirstOld([]) == 0 && FirstNew([]) == 0 && OldOf([]) == [] && NewOf([]) == []
  {
  }

  /** The hunks of a diff: one for each stretch of lines within three of a change. */
  method BuildDiffHunks(chunks: seq<Chunk>) returns (hunks: seq<Hunk>, ghost lines: seq<Line>, ghost spans: seq<Span>)
    ensures Numbered(lines) && OldOf(lines) == Texts(chunks, true) && NewOf(lines) == Texts(chunks, false)
    ensures Grouped(lines, spans) && hunks == HunksOf(lines, spans)
  {
    hide Numbered, OldOf, NewOf, InSome, Near, NearSome, HunkOf, Texts;
    var all := NumberLines(chunks);
    lines := all;
    var changed := FindSpans(all);
    var merged := MergeSpans(changed, |all|);
    forall i ensures InSome(merged, i) <==> Near(all, i) { NearIs(all, changed, i); }
    spans := merged;
    hunks := [];
    for k := 0 to |merged|
      invariant |hunks| == k && forall m :: 0 <= m < k ==> hunks[m] == HunkOf(all[merged[m].start..merged[m].end + 1])
    {
      NumberedCounts(all, merged[k].start, merged[k].end + 1);
      var h := BuildHunk(all[merged[k].start..merged[k].end + 1]);
      hunks := hunks + [h];
    }
  }
}
