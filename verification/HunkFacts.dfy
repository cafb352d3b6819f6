/** A diff's hunks rebuild the new file. */
module HunkFacts {
  // And say where they belong in both.

  import opened Hunks

  // ---- where a hunk is ----

  lemma {:induction false} OldConcat(a: seq<Line>, b: seq<Line>)
    ensures OldOf(a + b) == OldOf(a) + OldOf(b) && NewOf(a + b) == NewOf(a) + NewOf(b)
  {
    if b == [] {
      assert a + b == a;
    } else {
      OldConcat(a, b[..|b| - 1]);
      assert (a + b)[..|a + b| - 1] == a + b[..|b| - 1] && (a + b)[|a + b| - 1] == b[|b| - 1];
    }
  }

  lemma OldSplit(lines: seq<Line>, a: nat, b: nat)
    requires a <= b <= |lines|
    ensures OldOf(lines[..b]) == OldOf(lines[..a]) + OldOf(lines[a..b])
    ensures NewOf(lines[..b]) == NewOf(lines[..a]) + NewOf(lines[a..b])
  {
    assert lines[..b] == lines[..a] + lines[a..b];
    OldConcat(lines[..a], lines[a..b]);
  }

  /** The old lines of a stretch start at its first old number, one past those before it; so for the new. */
  lemma {:induction false} FirstIs(lines: seq<Line>, a: nat, b: nat)
    requires Numbered(lines) && a <= b <= |lines|
    ensures FirstOld(lines[a..b]) == if OldOf(lines[a..b]) == [] then 0 else |OldOf(lines[..a])| + 1
    ensures FirstNew(lines[a..b]) == if NewOf(lines[a..b]) == [] then 0 else |NewOf(lines[..a])| + 1
    decreases b - a
  {
    hide OldOf, NewOf, FirstOld, FirstNew;
    if a < b {
      FirstIs(lines, a + 1, b);
      assert lines[a..b] == [lines[a]] + lines[a + 1..b];
      assert lines[..a + 1] == lines[..a] + [lines[a]];
      OldConcat([lines[a]], lines[a + 1..b]);
      OneLine(lines[a]);
      OldNewSnoc(lines[..a], lines[a]);
      FirstCons(lines[a], lines[a + 1..b]);
    } else {
      assert lines[a..b] == [];
      NoCounts();
    }
  }

  lemma FirstCons(l: Line, rest: seq<Line>)
    ensures FirstOld([l] + rest) == if l.oldLine > 0 then l.oldLine else FirstOld(rest)
    ensures FirstNew([l] + rest) == if l.newLine > 0 then l.newLine else FirstNew(rest)
  {
    assert ([l] + rest)[1..] == rest;
  }

  lemma OneLine(l: Line)
    ensures OldOf([l]) == (if l.kind != Added then [l.text] else []) && NewOf([l]) == if l.kind != Deleted then [l.text] else []
  {
    assert [l][..0] == [];
  }

  /** A hunk's line carries the numbers the hunk's start and the lines before it in the hunk give it. */
  ghost predicate LineFits(h: Hunk, k: nat, l: Line) {
    && k < |h.lines| && h.lines[k] == l
    && l.oldLine == (if l.kind == Added then 0 else h.oldStart + |OldOf(h.lines[..k])|)
    && l.newLine == (if l.kind == Deleted then 0 else h.newStart + |NewOf(h.lines[..k])|)
  }

  lemma SpansFit(lines: seq<Line>, spans: seq<Span>)
    requires Grouped(lines, spans)
    ensures forall k :: 0 <= k < |spans| ==> spans[k].start <= spans[k].end < |lines|
  {
  }

  /**
   Each hunk's starts and counts are those of its lines: it begins in each file one past the
   lines before it, unless it has none there, and the numbers of its lines run on from there.
   */
  lemma HunkNumbers(lines: seq<Line>, s: Span, i: nat)
    requires Numbered(lines) && s.start <= i <= s.end < |lines|
    ensures var h := HunkOf(lines[s.start..s.end + 1]);
            && h.oldStart == (if h.oldLines == 0 then 0 else |OldOf(lines[..s.start])| + 1)
            && h.newStart == (if h.newLines == 0 then 0 else |NewOf(lines[..s.start])| + 1)
            && h.oldLines == |OldOf(h.lines)| && h.newLines == |NewOf(h.lines)|
            && LineFits(h, i - s.start, lines[i])
  {
    hide OldOf, NewOf, FirstOld, FirstNew;
    var a, b := s.start, s.end + 1;
    FirstIs(lines, a, b);
    OldSplit(lines, a, i);
    var seg := lines[a..b];
    assert seg[..i - a] == lines[a..i] && seg[i - a] == lines[i];
    SegmentFirst(seg, i - a);
  }

  /** A stretch with a line of a file has that file's lines. */
  lemma SegmentFirst(seg: seq<Line>, i: nat)
    requires i < |seg|
    ensures seg[i].kind != Added ==> OldOf(seg) != []
    ensures seg[i].kind != Deleted ==> NewOf(seg) != []
  {
    hide OldOf, NewOf;
    assert seg == seg[..i] + ([seg[i]] + seg[i + 1..]);
    OldConcat(seg[..i], [seg[i]] + seg[i + 1..]);
    OldConcat([seg[i]], seg[i + 1..]);
    OneLine(seg[i]);
  }

  /** Hunks come in order and apart, hold every changed line, and each line they hold is within three of a change. */
  lemma HunksCover(lines: seq<Line>, spans: seq<Span>, i: nat)
    requires Grouped(lines, spans) && i < |lines|
    ensures Changed(lines, i) ==> InSome(spans, i)
    ensures InSome(spans, i) ==> exists j :: Changed(lines, j) && j - 3 <= i <= j + 3
    ensures forall k, m :: 0 <= k < |spans| && 0 <= m < |spans| && InSpan(spans[k], i) && InSpan(spans[m], i) ==> k == m
  {
    if Changed(lines, i) { assert Near(lines, i); }
    if InSome(spans, i) { assert Near(lines, i); }
    forall k, m | 0 <= k < |spans| && 0 <= m < |spans| && InSpan(spans[k], i) && InSpan(spans[m], i) ensures k == m { }
  }

  // ---- applying hunks ----

  function Slice(xs: seq<string>, a: nat, b: nat): seq<string> { if a <= b <= |xs| then xs[a..b] else [] }

  /** The old file patched: what is between hunks copied, each hunk's old lines replaced by its new ones. */
  function Patched(old_: seq<string>, hunks: seq<Hunk>, done: nat): seq<string> {
    if hunks == [] then Slice(old_, done, |old_|)
    else
      var h := hunks[0];
      var at := if h.oldLines == 0 || h.oldStart == 0 then done else h.oldStart - 1;
      Slice(old_, done, at) + NewOf(h.lines) + Patched(old_, hunks[1..], at + h.oldLines)
  }

  predicate Same(lines: seq<Line>) { forall l :: l in lines ==> l.kind == Context }

  lemma {:induction false} SameFiles(lines: seq<Line>)
    requires Same(lines)
    ensures OldOf(lines) == NewOf(lines)
  {
    if lines != [] {
      assert lines[|lines| - 1] in lines;
      SameFiles(lines[..|lines| - 1]);
    }
  }

  /** Where the stretch before a hunk starts. */
  function GapStart(spans: seq<Span>, k: nat): nat
    requires k <= |spans|
  {
    if k == 0 then 0 else spans[k - 1].end + 1
  }

  function GapEnd(lines: seq<Line>, spans: seq<Span>, k: nat): nat
    requires k <= |spans|
  {
    if k == |spans| then |lines| else spans[k].start
  }

  /** A hunk that does not start the file starts with context. */
  lemma StartsQuiet(lines: seq<Line>, spans: seq<Span>, k: nat)
    requires Grouped(lines, spans) && k < |spans|
    ensures spans[k].start > 0 ==> lines[spans[k].start].kind == Context
    ensures k > 0 ==> spans[k].start > 0
  {
    var i := spans[k].start - 1;
    forall m | 0 <= m < |spans| ensures !InSpan(spans[m], i) {
      assert m < k ==> spans[m].end + 1 < spans[k].start;
      assert m > k ==> spans[k].end + 1 < spans[m].start;
    }
    assert i >= 0 && Changed(lines, i + 1) ==> Near(lines, i);
    assert k > 0 ==> spans[k - 1].end + 1 < spans[k].start;
  }

  lemma GapIs(lines: seq<Line>, spans: seq<Span>, k: nat)
    requires Grouped(lines, spans) && k <= |spans|
    ensures GapStart(spans, k) <= GapEnd(lines, spans, k) <= |lines| && Same(lines[GapStart(spans, k)..GapEnd(lines, spans, k)])
    ensures k < |spans| && lines[spans[k].start].kind != Context ==> GapStart(spans, k) == GapEnd(lines, spans, k)
  {
    var a, b := GapStart(spans, k), GapEnd(lines, spans, k);
    assert 0 < k < |spans| ==> spans[k - 1].end + 1 < spans[k].start;
    if k < |spans| { StartsQuiet(lines, spans, k); }
    forall i | a <= i < b ensures !InSome(spans, i) {
      forall m | 0 <= m < |spans| ensures !InSpan(spans[m], i) {
        assert m < k - 1 ==> spans[m].end + 1 < spans[k - 1].start;
        assert m > k && k < |spans| ==> spans[k].end + 1 < spans[m].start;
      }
    }
    forall l | l in lines[a..b] ensures l.kind == Context {
      var i :| 0 <= i < |lines[a..b]| && lines[a..b][i] == l;
      HunksCover(lines, spans, a + i);
    }
  }

  lemma {:induction false} NoOldAllAdded(lines: seq<Line>)
    requires lines != [] && OldOf(lines) == []
    ensures lines[0].kind == Added
  {
    assert lines == [lines[0]] + lines[1..];
    OldConcat([lines[0]], lines[1..]);
    OneLine(lines[0]);
  }

  lemma PatchGap(lines: seq<Line>, a: nat, b: nat)
    requires a <= b <= |lines|
    ensures |OldOf(lines[..a])| <= |OldOf(lines[..b])| <= |OldOf(lines)|
    ensures Slice(OldOf(lines), |OldOf(lines[..a])|, |OldOf(lines[..b])|) == OldOf(lines[a..b])
  {
    OldSplit(lines, a, b);
    OldSplit(lines, b, |lines|);
    assert lines[..|lines|] == lines;
  }

  /** Where a hunk is applied: just past the old lines before it. */
  lemma HunkAt(lines: seq<Line>, spans: seq<Span>, k: nat)
    requires Numbered(lines) && Grouped(lines, spans) && k < |spans|
    ensures var h := HunksOf(lines, spans)[k];
            && h.lines == lines[spans[k].start..spans[k].end + 1] && h.oldLines == |OldOf(h.lines)|
            && (if h.oldLines == 0 || h.oldStart == 0 then |OldOf(lines[..GapStart(spans, k)])| else h.oldStart - 1)
               == |OldOf(lines[..spans[k].start])|
  {
    hide OldOf, NewOf, FirstOld, FirstNew, Numbered, Near, InSome;
    var a, b := spans[k].start, spans[k].end + 1;
    FirstIs(lines, a, b);
    GapIs(lines, spans, k);
    if OldOf(lines[a..b]) == [] {
      NoOldAllAdded(lines[a..b]);
      assert lines[a..b][0] == lines[a];
    }
  }

  lemma {:induction false} PatchFrom(lines: seq<Line>, spans: seq<Span>, k: nat)
    requires Numbered(lines) && Grouped(lines, spans) && k <= |spans|
    ensures var a := GapStart(spans, k);
            a <= |lines| && Patched(OldOf(lines), HunksOf(lines, spans)[k..], |OldOf(lines[..a])|) == NewOf(lines[a..])
    decreases |spans| - k
  {
    hide OldOf, NewOf, Numbered, Grouped, HunkOf, Slice;
    SpansFit(lines, spans);
    var a, b := GapStart(spans, k), GapEnd(lines, spans, k);
    GapIs(lines, spans, k);
    SameFiles(lines[a..b]);
    PatchGap(lines, a, b);
    assert lines[..|lines|] == lines;
    var hunks := HunksOf(lines, spans);
    if k < |spans| {
      var c := spans[k].end + 1;
      SpanEnds(lines, spans, k);
      PatchFrom(lines, spans, k + 1);
      HunkAt(lines, spans, k);
      OldSplit(lines, b, c);
      assert hunks[k..][0] == hunks[k] && hunks[k..][1..] == hunks[k + 1..];
      assert lines[a..] == lines[a..b] + (lines[b..c] + lines[c..]);
      OldConcat(lines[a..b], lines[b..c] + lines[c..]);
      OldConcat(lines[b..c], lines[c..]);
      assert NewOf(lines[a..]) == NewOf(lines[a..b]) + NewOf(lines[b..c]) + NewOf(lines[c..]);
    } else {
      assert hunks[k..] == [] && lines[a..b] == lines[a..];
    }
  }

  lemma SpanEnds(lines: seq<Line>, spans: seq<Span>, k: nat)
    requires Grouped(lines, spans) && k < |spans|
    ensures spans[k].start < spans[k].end + 1 <= |lines|
  {
  }

  /** The hunks alone turn the old file into the new one. */
  lemma HunksRebuild(lines: seq<Line>, spans: seq<Span>)
    requires Numbered(lines) && Grouped(lines, spans)
    ensures Patched(OldOf(lines), HunksOf(lines, spans), 0) == NewOf(lines)
  {
    PatchFrom(lines, spans, 0);
    assert lines[..0] == [] && lines[0..] == lines && HunksOf(lines, spans)[0..] == HunksOf(lines, spans);
  }
}
