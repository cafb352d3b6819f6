/** Reading failed hits again. */
module Refetch {
  // A bounded number a run and round robin, so that each has its turn.

  import opened Order

  type Id = string

  const MAX_FAILED: nat := 100

  /** What one read of a failed hit comes to. */
  datatype Answer = Gone | MovedOut | Shown | Failing | Fatal

  /** The failed ids in the order a run takes them: those after the last one read, then the rest. */
  function Rotated(failed: set<Id>, after: Id): seq<Id> {
    Sorted(set x | x in failed && Less(after, x)) + Sorted(set x | x in failed && !Less(after, x))
  }

  function Min(a: nat, b: nat): nat { if a < b then a else b }

  /** How far a run gets: to the first read that stops it, or the bound. */
  function Reach(ids: seq<Id>, answer: Id -> Answer): (n: nat)
    ensures n <= |ids| && forall i :: 0 <= i < n ==> answer(ids[i]) != Fatal
    ensures n < |ids| ==> answer(ids[n]) == Fatal
  {
    if ids == [] || answer(ids[0]) == Fatal then 0 else 1 + Reach(ids[1..], answer)
  }

  function Dropped(ids: seq<Id>, answer: Id -> Answer): set<Id> { set x | x in ids && (answer(x) == Gone || answer(x) == MovedOut) }

  function Hits(ids: seq<Id>, answer: Id -> Answer): seq<Id> {
    if ids == [] then []
    else Hits(ids[..|ids| - 1], answer) + if answer(ids[|ids| - 1]) == Shown then [ids[|ids| - 1]] else []
  }

  /** The ids a run reads. */
  function Turn(failed: set<Id>, after: Id): seq<Id> {
    var ids := Rotated(failed, after);
    ids[..Min(|ids|, MAX_FAILED)]
  }

  /** What one run makes of the failed ids and the last one read, and whether nothing stopped it. */
  function Refetched(failed: set<Id>, after: Id, found: set<Id>, answer: Id -> Answer): (set<Id>, Id, bool) {
    var turn := Turn(failed - found, after);
    var n := Reach(turn, answer);
    (failed - Dropped(turn[..n], answer), if n < |turn| then turn[n] else if n > 0 then turn[n - 1] else after, n == |turn|)
  }

  class State {
    var failed: set<Id>
    var failedAfter: Id

    constructor (failed: set<Id>, failedAfter: Id)
      ensures this.failed == failed && this.failedAfter == failedAfter
    {
      this.failed, this.failedAfter := failed, failedAfter;
    }

    /** One run: found are the ids its search returned. */
    method Refetch(found: set<Id>, answer: Id -> Answer) returns (hits: seq<Id>, ok: bool)
      modifies this
      ensures (failed, failedAfter, ok) == Refetched(old(failed), old(failedAfter), found, answer)
      ensures var turn := Turn(old(failed) - found, old(failedAfter)); hits == Hits(turn[..Reach(turn, answer)], answer)
    {
      hide Turn, Dropped, Hits;
      var turn := Turn(failed - found, failedAfter);
      hits, ok := [], true;
      Nothing(answer);
      assert turn[..0] == [];
      for i := 0 to |turn|
        invariant i <= Reach(turn, answer)
        invariant failed == old(failed) - Dropped(turn[..i], answer) && hits == Hits(turn[..i], answer)
        invariant failedAfter == if i > 0 then turn[i - 1] else old(failedAfter)
      {
        var id := turn[i];
        ReachNext(turn, answer, i);
        OneMore(turn, answer, i);
        failedAfter := id;
        match answer(id) {
          case Gone => failed := failed - {id};
          case MovedOut => failed := failed - {id};
          case Failing =>
          case Fatal => return hits, false;
          case Shown => hits := hits + [id];
        }
      }
      assert turn[..|turn|] == turn;
    }
  }

  lemma Nothing(answer: Id -> Answer)
    ensures Dropped([], answer) == {} && Hits([], answer) == []
  {
  }

  lemma ReachNext(ids: seq<Id>, answer: Id -> Answer, i: nat)
    requires i < |ids| && i <= Reach(ids, answer)
    ensures if answer(ids[i]) == Fatal then Reach(ids, answer) == i else Reach(ids, answer) > i
  {
  }

  lemma OneMore(ids: seq<Id>, answer: Id -> Answer, i: nat)
    requires i < |ids|
    ensures Dropped(ids[..i + 1], answer)
            == Dropped(ids[..i], answer) + if answer(ids[i]) == Gone || answer(ids[i]) == MovedOut then {ids[i]} else {}
    ensures Hits(ids[..i + 1], answer) == Hits(ids[..i], answer) + if answer(ids[i]) == Shown then [ids[i]] else []
  {
    assert ids[..i + 1][..i] == ids[..i];
    assert forall x :: x in ids[..i + 1] <==> x in ids[..i] || x == ids[i];
  }

  // ---- turns, in a circle ----

  lemma OrderFacts()
    ensures forall a: Id, b: Id, c: Id :: Less(a, b) && Less(b, c) ==> Less(a, c)
    ensures forall a: Id, b: Id :: a == b || Less(a, b) || Less(b, a)
    ensures forall a: Id, b: Id :: Less(a, b) ==> !Less(b, a)
  {
    forall a: Id, b: Id, c: Id | Less(a, b) && Less(b, c) ensures Less(a, c) { LessTransitive(a, b, c); }
    forall a: Id, b: Id ensures a == b || Less(a, b) || Less(b, a) { LessTotal(a, b); }
    forall a: Id, b: Id | Less(a, b) ensures !Less(b, a) { LessAsymmetric(a, b); }
  }

  /** Going round from a, y comes no later than x. */
  predicate By(a: Id, y: Id, x: Id) {
    if Less(a, x) then Less(a, y) && !Less(x, y) else Less(a, y) || !Less(x, y)
  }

  /** Going on from l, which came before x, what comes by x came by it before, and not by l. */
  lemma Onwards(a: Id, l: Id, x: Id, y: Id)
    requires !By(a, x, l)
    ensures By(l, y, x) ==> By(a, y, x) && !By(a, y, l)
    ensures By(a, y, l) ==> By(a, y, x)
  {
    hide Less;
    OrderFacts();
  }

  /** What is left to read up to and including one id. */
  function Ahead(failed: set<Id>, after: Id, x: Id): set<Id> { set y | y in failed && By(after, y, x) }

  lemma RotatedIs(failed: set<Id>, after: Id)
    ensures var r := Rotated(failed, after);
            && Elems(r) == failed && Distinct(r) && |r| == |failed|
            && forall i, j :: 0 <= i < |r| && 0 <= j < |r| ==> (By(after, r[j], r[i]) <==> j <= i)
  {
    hide Less, Sorted;
    var hi, lo := set x | x in failed && Less(after, x), set x | x in failed && !Less(after, x);
    var a, b := Sorted(hi), Sorted(lo);
    ElemsAppend(a, b);
    assert hi + lo == failed && hi * lo == {};
    OrderFacts();
    forall i | 0 <= i < |a| ensures Less(after, a[i]) { assert a[i] in Elems(a); }
    forall i | 0 <= i < |b| ensures !Less(after, b[i]) { assert b[i] in Elems(b); }
    var r := a + b;
    forall i, j | 0 <= i < |r| && 0 <= j < |r| ensures By(after, r[j], r[i]) <==> j <= i {
      RotatedOrder(after, a, b, i, j);
    }
    forall i, j | 0 <= i < j < |r| ensures r[i] != r[j] {
      assert !By(after, r[j], r[i]) && By(after, r[i], r[i]);
    }
  }

  lemma RotatedOrder(after: Id, a: seq<Id>, b: seq<Id>, i: nat, j: nat)
    requires Ascending(a) && Ascending(b) && i < |a + b| && j < |a + b|
    requires (forall k :: 0 <= k < |a| ==> Less(after, a[k])) && forall k :: 0 <= k < |b| ==> !Less(after, b[k])
    ensures By(after, (a + b)[j], (a + b)[i]) <==> j <= i
  {
    hide Less;
    OrderFacts();
    var x, y := (a + b)[i], (a + b)[j];
    if i < |a| && j < |a| {
      assert i < j ==> Less(x, y);
      assert j < i ==> Less(y, x);
    } else if i >= |a| && j >= |a| {
      assert i < j ==> Less(x, y);
      assert j < i ==> Less(y, x);
    }
  }

  /** The ids a full run reads are those by its last one. */
  lemma TurnIs(failed: set<Id>, after: Id)
    requires |failed| > MAX_FAILED
    ensures var turn := Turn(failed, after);
            && |turn| == MAX_FAILED && Elems(turn) == Ahead(failed, after, turn[MAX_FAILED - 1]) && |Elems(turn)| == MAX_FAILED
  {
    hide Rotated, By, Less;
    RotatedIs(failed, after);
    var r := Rotated(failed, after);
    var turn := Turn(failed, after);
    var l := turn[MAX_FAILED - 1];
    forall x ensures x in Elems(turn) <==> x in Ahead(failed, after, l) {
      if x in Elems(turn) {
        var i :| 0 <= i < |turn| && turn[i] == x;
        assert r[i] == x && x in Elems(r) && By(after, r[i], r[MAX_FAILED - 1]);
      }
      if x in Ahead(failed, after, l) {
        assert x in Elems(r);
        var i :| 0 <= i < |r| && r[i] == x;
        assert By(after, r[i], r[MAX_FAILED - 1]);
        assert turn[i] == x;
      }
    }
    forall i, j | 0 <= i < j < |turn| ensures turn[i] != turn[j] { assert r[i] != r[j]; }
    DistinctCount(turn);
  }

  lemma Snoc(xs: seq<Id>, x: Id)
    requires x !in xs
    ensures Elems(xs + [x]) == Elems(xs) + {x} && |Elems(xs + [x])| == |Elems(xs)| + 1
  {
    ElemsAppend(xs, [x]);
    assert Elems([x]) == {x};
  }

  lemma {:induction false} DistinctCount(xs: seq<Id>)
    requires forall i, j :: 0 <= i < j < |xs| ==> xs[i] != xs[j]
    ensures |Elems(xs)| == |xs|
  {
    if xs == [] {
      assert Elems(xs) == {};
    } else {
      hide Elems;
      var n := |xs| - 1;
      DistinctCount(xs[..n]);
      Snoc(xs[..n], xs[n]);
      assert xs == xs[..n] + [xs[n]];
    }
  }

  /** A run over some of the failed ids that does not read one brings it closer by the whole bound, whatever is dropped. */
  lemma Closer(failed: set<Id>, pool: set<Id>, after: Id, left: set<Id>, x: Id)
    requires pool <= failed && x in pool && x !in Elems(Turn(pool, after)) && left <= failed
    ensures |pool| > MAX_FAILED && |Turn(pool, after)| == MAX_FAILED
    ensures |Ahead(left, Turn(pool, after)[MAX_FAILED - 1], x)| + MAX_FAILED <= |Ahead(failed, after, x)|
  {
    hide By, Less, Rotated;
    NotRead(pool, after, x);
    TurnIs(pool, after);
    var turn := Turn(pool, after);
    var l := turn[MAX_FAILED - 1];
    assert !By(after, x, l);
    var now, was := Ahead(left, l, x), Ahead(failed, after, x);
    forall y | y in failed ensures (By(l, y, x) ==> By(after, y, x) && !By(after, y, l)) && (By(after, y, l) ==> By(after, y, x)) {
      Onwards(after, l, x, y);
    }
    assert now + Elems(turn) <= was && now !! Elems(turn);
    Cards(now, Elems(turn), was);
  }

  lemma Cards(a: set<Id>, b: set<Id>, c: set<Id>)
    requires a + b <= c && a !! b
    ensures |a| + |b| <= |c|
  {
    assert |a + b| == |a| + |b|;
    Subset(a + b, c);
  }

  lemma {:induction false} Subset(a: set<Id>, b: set<Id>)
    requires a <= b
    ensures |a| <= |b|
  {
    if a != {} {
      var x :| x in a;
      Subset(a - {x}, b - {x});
    }
  }

  lemma NotRead(failed: set<Id>, after: Id, x: Id)
    requires x in failed && x !in Elems(Turn(failed, after))
    ensures |failed| > MAX_FAILED
  {
    hide Less, Rotated;
    RotatedIs(failed, after);
    var r := Rotated(failed, after);
    assert x in Elems(r) && r[..|r|] == r;
    assert |failed| <= MAX_FAILED ==> Turn(failed, after) == r;
  }

  // ---- what a run reads, and what it makes of the answers ----

  /** Ids read in a circle from the last one read before, none left out on the way. */
  ghost predicate ReadInTurn(pool: set<Id>, after: Id, taken: seq<Id>) {
    && (forall x :: x in taken ==> x in pool) && Distinct(taken)
    && (forall i, j :: 0 <= i < j < |taken| ==> !By(after, taken[j], taken[i]))
    && (forall y, i :: y in pool && 0 <= i < |taken| && By(after, y, taken[i]) ==> y in taken)
  }

  /** What a run leaves, given what it read: the ids gone or moved are dropped, and the next run goes on from the last. */
  ghost predicate LeftBy(failed: set<Id>, after: Id, taken: seq<Id>, answer: Id -> Answer, left: set<Id>, last: Id) {
    && (forall x :: x in left <==> x in failed && !(x in taken && (answer(x).Gone? || answer(x).MovedOut?)))
    && last == if taken == [] then after else taken[|taken| - 1]
  }

  /** The hits are the ids shown, as they were read. */
  ghost predicate HitsOf(after: Id, taken: seq<Id>, answer: Id -> Answer, hits: seq<Id>) {
    && (forall x :: x in hits <==> x in taken && answer(x).Shown?)
    && (forall i, j :: 0 <= i < j < |hits| ==> !By(after, hits[j], hits[i]))
  }

  lemma TakenInTurn(pool: set<Id>, after: Id, n: nat)
    requires n <= |Rotated(pool, after)|
    ensures ReadInTurn(pool, after, Rotated(pool, after)[..n])
  {
    hide Rotated, By;
    RotatedIs(pool, after);
    var r := Rotated(pool, after);
    forall x | x in r[..n] ensures x in pool { assert x in Elems(r); }
    forall y, i | y in pool && 0 <= i < n && By(after, y, r[i]) ensures y in r[..n] {
      assert y in Elems(r);
      var j :| 0 <= j < |r| && r[j] == y;
      assert r[..n][j] == y;
    }
    assert forall i :: 0 <= i < n ==> r[..n][i] == r[i];
  }

  lemma {:induction false} HitsAre(after: Id, xs: seq<Id>, answer: Id -> Answer)
    requires forall i, j :: 0 <= i < j < |xs| ==> !By(after, xs[j], xs[i])
    ensures HitsOf(after, xs, answer, Hits(xs, answer))
  {
    hide By;
    if xs != [] {
      var n := |xs| - 1;
      HitsAre(after, xs[..n], answer);
      assert forall x :: x in xs <==> x in xs[..n] || x == xs[n];
      var hs := Hits(xs[..n], answer);
      forall i | 0 <= i < |hs| ensures !By(after, xs[n], hs[i]) {
        assert hs[i] in xs[..n];
        var k :| 0 <= k < n && xs[k] == hs[i];
      }
    }
  }

  /** The ids read: up to and including one that stops the run. */
  function TakenOf(turn: seq<Id>, answer: Id -> Answer): seq<Id> {
    var n := Reach(turn, answer);
    if n < |turn| then turn[..n + 1] else turn
  }

  lemma TakenIs(turn: seq<Id>, answer: Id -> Answer)
    ensures var n, taken := Reach(turn, answer), TakenOf(turn, answer);
            && n <= |turn| && (n < |turn| ==> taken == turn[..n] + [turn[n]] && answer(turn[n]).Fatal?)
            && (n == |turn| ==> taken == turn && turn[..n] == turn) && |taken| == (if n < |turn| then n + 1 else n)
  {
    hide Reach;
  }

  lemma TakenAnswers(turn: seq<Id>, answer: Id -> Answer)
    ensures var n, taken := Reach(turn, answer), TakenOf(turn, answer);
            if n == |turn| then taken == turn && forall x :: x in taken ==> !answer(x).Fatal?
            else taken != [] && forall i :: 0 <= i < |taken| ==> (answer(taken[i]).Fatal? <==> i == |taken| - 1)
  {
  }

  lemma LeftFatal(failed: set<Id>, after: Id, xs: seq<Id>, x: Id, answer: Id -> Answer)
    requires answer(x).Fatal?
    ensures LeftBy(failed, after, xs + [x], answer, failed - Dropped(xs, answer), x)
  {
  }

  lemma LeftAll(failed: set<Id>, after: Id, xs: seq<Id>, answer: Id -> Answer)
    ensures LeftBy(failed, after, xs, answer, failed - Dropped(xs, answer), if xs == [] then after else xs[|xs| - 1])
  {
  }

  lemma TakenLeft(failed: set<Id>, after: Id, turn: seq<Id>, answer: Id -> Answer)
    ensures var n := Reach(turn, answer);
            LeftBy(failed, after, TakenOf(turn, answer), answer, failed - Dropped(turn[..n], answer),
                   if n < |turn| then turn[n] else if n > 0 then turn[n - 1] else after)
  {
    hide LeftBy, Dropped, Reach, TakenOf;
    TakenIs(turn, answer);
    var n := Reach(turn, answer);
    if n < |turn| {
      LeftFatal(failed, after, turn[..n], turn[n], answer);
    } else {
      LeftAll(failed, after, turn, answer);
    }
  }

  lemma TakenHits(after: Id, turn: seq<Id>, answer: Id -> Answer)
    requires forall i, j :: 0 <= i < j < |turn| ==> !By(after, turn[j], turn[i])
    ensures HitsOf(after, TakenOf(turn, answer), answer, Hits(turn[..Reach(turn, answer)], answer))
  {
    hide By, HitsOf, Hits, Reach, TakenOf;
    TakenIs(turn, answer);
    var n := Reach(turn, answer);
    assert forall i :: 0 <= i < n ==> turn[..n][i] == turn[i];
    HitsAre(after, turn[..n], answer);
    if n < |turn| { MoreRead(after, turn[..n], turn[n], answer, Hits(turn[..n], answer)); }
  }

  /**
   A run reads the failed ids its search did not find, in a circle from the last one read, a
   hundred at most and none after one that stops it; it gives back the ids shown and drops those
   gone or moved, and no other.
   */
  lemma RunReads(failed: set<Id>, after: Id, found: set<Id>, answer: Id -> Answer) returns (taken: seq<Id>)
    ensures var (left, last, ok) := Refetched(failed, after, found, answer);
            && ReadInTurn(failed - found, after, taken) && LeftBy(failed, after, taken, answer, left, last)
            && (if ok then (forall x :: x in taken ==> !answer(x).Fatal?) && |taken| == Min(|failed - found|, 100)
                else taken != [] && |taken| <= 100 && (forall i :: 0 <= i < |taken| ==> (answer(taken[i]).Fatal? <==> i == |taken| - 1)))
    ensures var turn := Turn(failed - found, after); HitsOf(after, taken, answer, Hits(turn[..Reach(turn, answer)], answer))
  {
    hide Rotated, By, HitsOf, ReadInTurn, LeftBy, Dropped, Hits, TakenOf, Reach;
    var pool := failed - found;
    RotatedIs(pool, after);
    var r, turn := Rotated(pool, after), Turn(pool, after);
    taken := TakenOf(turn, answer);
    TakenIs(turn, answer);
    TakenInTurn(pool, after, |taken|);
    assert taken == r[..|taken|];
    forall i, j | 0 <= i < j < |turn| ensures !By(after, turn[j], turn[i]) { assert By(after, r[j], r[i]) <==> j <= i; }
    TakenAnswers(turn, answer);
    TakenLeft(failed, after, turn, answer);
    TakenHits(after, turn, answer);
  }

  lemma MoreRead(after: Id, xs: seq<Id>, x: Id, answer: Id -> Answer, hits: seq<Id>)
    requires HitsOf(after, xs, answer, hits) && answer(x).Fatal?
    ensures HitsOf(after, xs + [x], answer, hits)
  {
    hide By;
  }

  // ---- fairness ----

  /**
   The failed ids at each run, the last read before it, and the ids its search finds: each run
   reads its turn of the others, and what it read or found may be dropped.
   */
  ghost predicate Runs(failed: seq<set<Id>>, after: seq<Id>, found: seq<set<Id>>) {
    && |failed| == |after| == |found|
    && forall k :: 0 <= k < |failed| - 1 ==>
         var turn := Turn(failed[k] - found[k], after[k]);
         && failed[k] - Elems(turn) - found[k] <= failed[k + 1] <= failed[k]
         && after[k + 1] == if turn == [] then after[k] else turn[|turn| - 1]
  }

  /** Runs that nothing stops, one after the other; a hit read or found and then synced is dropped between two. */
  ghost predicate Chained(failed: seq<set<Id>>, after: seq<Id>, found: seq<set<Id>>, answers: seq<Id -> Answer>) {
    && |failed| == |after| == |found| == |answers|
    && forall k :: 0 <= k < |failed| - 1 ==>
         var r := Refetched(failed[k], after[k], found[k], answers[k]);
         && r.2 && after[k + 1] == r.1
         && r.0 - Elems(Turn(failed[k] - found[k], after[k])) - found[k] <= failed[k + 1] <= r.0
  }

  lemma FullReach(turn: seq<Id>)
    ensures turn[..|turn|] == turn
  {
  }

  lemma ChainedRuns(failed: seq<set<Id>>, after: seq<Id>, found: seq<set<Id>>, answers: seq<Id -> Answer>)
    requires Chained(failed, after, found, answers)
    ensures Runs(failed, after, found)
  {
    hide Turn;
    forall k | 0 <= k < |failed| - 1
      ensures var turn := Turn(failed[k] - found[k], after[k]);
              && failed[k] - Elems(turn) - found[k] <= failed[k + 1] <= failed[k]
              && after[k + 1] == if turn == [] then after[k] else turn[|turn| - 1]
    {
      FullReach(Turn(failed[k] - found[k], after[k]));
    }
  }

  /** The k-th run reads an id, or its search finds it. */
  ghost predicate Met(failed: seq<set<Id>>, after: seq<Id>, found: seq<set<Id>>, x: Id, k: int) {
    0 <= k < |failed| && |failed| == |after| == |found| && (x in found[k] || x in Turn(failed[k] - found[k], after[k]))
  }

  /** An id comes up within as many runs as the bound divides what is ahead of it. */
  lemma {:induction false} ReadWithin(failed: seq<set<Id>>, after: seq<Id>, found: seq<set<Id>>, x: Id, runs: nat)
    requires Runs(failed, after, found) && |failed| >= runs && failed != [] && x in failed[0]
    requires runs * MAX_FAILED >= |Ahead(failed[0], after[0], x)|
    ensures exists k :: k < runs && Met(failed, after, found, x, k)
    decreases runs
  {
    hide Turn;
    AheadSelf(failed[0], after[0], x);
    if x in found[0] || x in Turn(failed[0] - found[0], after[0]) {
      assert Met(failed, after, found, x, 0);
    } else {
      var pool := failed[0] - found[0];
      assert x !in Elems(Turn(pool, after[0]));
      Closer(failed[0], pool, after[0], failed[0], x);
      AheadSelf(failed[0], Turn(pool, after[0])[MAX_FAILED - 1], x);
      assert runs >= 2;
      Closer(failed[0], pool, after[0], failed[1], x);
      assert x in failed[1];
      ReadWithin(failed[1..], after[1..], found[1..], x, runs - 1);
      var k :| k < runs - 1 && Met(failed[1..], after[1..], found[1..], x, k);
      assert Met(failed, after, found, x, k + 1);
    }
  }

  lemma AheadSelf(failed: set<Id>, after: Id, x: Id)
    requires x in failed
    ensures |Ahead(failed, after, x)| >= 1
  {
    hide Less;
    OrderFacts();
    assert x in Ahead(failed, after, x);
  }

  /** The fewest runs that read n ids. */
  function RunsFor(n: nat): nat { (n + MAX_FAILED - 1) / MAX_FAILED }

  /**
   Every failed id is read again, or found by a search, within the fewest runs that could read
   them all, from wherever the last run stopped and whatever was answered.
   */
  lemma EachReadInTurn(failed: seq<set<Id>>, after: seq<Id>, found: seq<set<Id>>, answers: seq<Id -> Answer>, x: Id)
    requires Chained(failed, after, found, answers) && failed != [] && |failed| >= RunsFor(|failed[0]|) && x in failed[0]
    ensures exists k :: k < RunsFor(|failed[0]|) && Met(failed, after, found, x, k)
  {
    ChainedRuns(failed, after, found, answers);
    Subset(Ahead(failed[0], after[0], x), failed[0]);
    ReadWithin(failed, after, found, x, RunsFor(|failed[0]|));
  }
}
