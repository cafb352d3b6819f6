/** Where Jira's order puts each value of a list: by the turn of its block, and by place within one. */
module Turns {
  import opened Imports
  import opened Ordering

  function IndexIn(ids: seq<string>, id: string): (i: nat)
    requires id in ids
    ensures i < |ids| && ids[i] == id
  {
    if ids[0] == id then 0 else IndexIn(ids[1..], id) + 1
  }

  /** The turn of the x-th value's block; that of the head, before any mapped value, is -1. */
  function Turn(vs: seq<ValueDoc>, ids: seq<string>, x: nat): (t: int)
    requires x < |vs|
    ensures -1 <= t < |ids|
  {
    if vs[x].id in ids then IndexIn(ids, vs[x].id) else if x == 0 then -1 else Turn(vs, ids, x - 1)
  }

  /** Jira's order puts the x-th value before the y-th. */
  predicate Before(vs: seq<ValueDoc>, ids: seq<string>, x: nat, y: nat)
    requires x < |vs| && y < |vs|
  {
    Turn(vs, ids, x) < Turn(vs, ids, y) || (Turn(vs, ids, x) == Turn(vs, ids, y) && x < y)
  }

  lemma IndexOfEach(ids: seq<string>, i: nat)
    requires DistinctIds(ids) && i < |ids|
    ensures IndexIn(ids, ids[i]) == i
  {
  }

  // ---- blocks are stretches of the list ----

  /** Where the local-only values from a place on end. */
  function HeadEnd(vs: seq<ValueDoc>, ids: seq<string>, from: nat): (e: nat)
    requires from <= |vs|
    ensures from <= e <= |vs|
    decreases |vs| - from
  {
    if from == |vs| || IsMapped(vs[from], ids) then from else HeadEnd(vs, ids, from + 1)
  }

  lemma {:induction false} HeadIs(vs: seq<ValueDoc>, ids: seq<string>, from: nat)
    requires from <= |vs|
    ensures Head(vs[from..], ids) == vs[from..HeadEnd(vs, ids, from)]
    ensures forall x :: from <= x < HeadEnd(vs, ids, from) ==> !IsMapped(vs[x], ids)
    decreases |vs| - from
  {
    if from < |vs| && !IsMapped(vs[from], ids) {
      assert vs[from..][0] == vs[from] && vs[from..][1..] == vs[from + 1..];
      HeadIs(vs, ids, from + 1);
      assert vs[from..HeadEnd(vs, ids, from)] == [vs[from]] + vs[from + 1..HeadEnd(vs, ids, from)];
    }
  }

  /** The values of a stretch share the turn of the one before it. */
  lemma {:induction false} TurnsOn(vs: seq<ValueDoc>, ids: seq<string>, from: nat, x: nat)
    requires from <= |vs| && from <= x < HeadEnd(vs, ids, from)
    ensures Turn(vs, ids, x) == if from == 0 then -1 else Turn(vs, ids, from - 1)
    decreases x - from
  {
    HeadIs(vs, ids, from);
    assert !IsMapped(vs[x], ids);
    if x > from { TurnsOn(vs, ids, from, x - 1); }
  }

  lemma {:induction false} BlockAt(vs: seq<ValueDoc>, ids: seq<string>, id: string, from: nat) returns (k: nat)
    requires from <= |vs| && Has(vs[from..], id)
    ensures from <= k < |vs| && vs[k].id == id && Block(vs[from..], ids, id) == vs[k..HeadEnd(vs, ids, k + 1)]
    decreases |vs| - from
  {
    assert vs[from..][0] == vs[from] && vs[from..][1..] == vs[from + 1..];
    if vs[from].id == id {
      k := from;
      HeadIs(vs, ids, k + 1);
      assert vs[k..HeadEnd(vs, ids, k + 1)] == [vs[k]] + vs[k + 1..HeadEnd(vs, ids, k + 1)];
    } else {
      HasFirst(vs[from..], id);
      k := BlockAt(vs, ids, id, from + 1);
    }
  }

  // ---- ordering sorts ----

  /** s lists values of vs by their turns. */
  ghost predicate SortedBy(vs: seq<ValueDoc>, ids: seq<string>, s: seq<ValueDoc>) {
    && (forall v :: v in s ==> v in vs)
    && forall p, q, x, y :: 0 <= p < q < |s| && 0 <= x < |vs| && 0 <= y < |vs| && s[p] == vs[x] && s[q] == vs[y] ==>
         Before(vs, ids, x, y)
  }

  ghost predicate TurnsFrom(vs: seq<ValueDoc>, ids: seq<string>, s: seq<ValueDoc>, lo: int, hi: int) {
    forall v, x :: v in s && 0 <= x < |vs| && vs[x] == v ==> lo <= Turn(vs, ids, x) < hi
  }

  lemma StretchSorted(vs: seq<ValueDoc>, ids: seq<string>, a: nat, b: nat, t: int)
    requires DistinctValues(vs) && a <= b <= |vs| && forall x :: a <= x < b ==> Turn(vs, ids, x) == t
    ensures SortedBy(vs, ids, vs[a..b]) && TurnsFrom(vs, ids, vs[a..b], t, t + 1)
  {
    var s := vs[a..b];
    forall p, x | 0 <= p < |s| && 0 <= x < |vs| && s[p] == vs[x] ensures x == a + p { assert vs[a + p] == s[p]; }
    forall v, x | v in s && 0 <= x < |vs| && vs[x] == v ensures t <= Turn(vs, ids, x) < t + 1 {
      var p :| 0 <= p < |s| && s[p] == v;
    }
  }

  lemma SortedConcat(vs: seq<ValueDoc>, ids: seq<string>, s: seq<ValueDoc>, r: seq<ValueDoc>, lo: int, mid: int, hi: int)
    requires SortedBy(vs, ids, s) && SortedBy(vs, ids, r)
    requires TurnsFrom(vs, ids, s, lo, mid) && TurnsFrom(vs, ids, r, mid, hi) && lo <= mid <= hi
    ensures SortedBy(vs, ids, s + r) && TurnsFrom(vs, ids, s + r, lo, hi)
  {
    hide Before, Turn;
    var all := s + r;
    forall p, q, x, y | 0 <= p < q < |all| && 0 <= x < |vs| && 0 <= y < |vs| && all[p] == vs[x] && all[q] == vs[y]
      ensures Before(vs, ids, x, y)
    {
      if q < |s| {
        assert s[p] == vs[x] && s[q] == vs[y];
      } else if p >= |s| {
        assert r[p - |s|] == vs[x] && r[q - |s|] == vs[y];
      } else {
        assert s[p] in s && r[q - |s|] in r;
        Apart(vs, ids, x, y, mid);
      }
    }
  }

  lemma Apart(vs: seq<ValueDoc>, ids: seq<string>, x: nat, y: nat, mid: int)
    requires x < |vs| && y < |vs| && Turn(vs, ids, x) < mid <= Turn(vs, ids, y)
    ensures Before(vs, ids, x, y)
  {
  }

  lemma BlockSorted(vs: seq<ValueDoc>, ids: seq<string>, r: nat)
    requires DistinctValues(vs) && HasAll(vs, ids) && DistinctIds(ids) && r < |ids|
    ensures var b := Block(vs, ids, ids[r]); SortedBy(vs, ids, b) && TurnsFrom(vs, ids, b, r, r + 1)
  {
    hide SortedBy, TurnsFrom, Block, DistinctValues;
    assert vs[0..] == vs && ids[r] in ids;
    var k := BlockAt(vs, ids, ids[r], 0);
    IndexOfEach(ids, r);
    forall x | k <= x < HeadEnd(vs, ids, k + 1) ensures Turn(vs, ids, x) == r {
      if x > k { TurnsOn(vs, ids, k + 1, x); }
    }
    StretchSorted(vs, ids, k, HeadEnd(vs, ids, k + 1), r);
  }

  lemma {:induction false} BlocksSorted(vs: seq<ValueDoc>, ids: seq<string>, r: nat)
    requires DistinctValues(vs) && HasAll(vs, ids) && DistinctIds(ids) && r <= |ids|
    ensures var bs := Blocks(vs, ids, ids[r..]); SortedBy(vs, ids, bs) && TurnsFrom(vs, ids, bs, r, |ids|)
    decreases |ids| - r
  {
    hide HasAll, DistinctIds, DistinctValues;
    if r < |ids| {
      hide SortedBy, TurnsFrom, Block;
      BlockSorted(vs, ids, r);
      BlocksSorted(vs, ids, r + 1);
      assert ids[r..][0] == ids[r] && ids[r..][1..] == ids[r + 1..];
      SortedConcat(vs, ids, Block(vs, ids, ids[r]), Blocks(vs, ids, ids[r + 1..]), r, r + 1, |ids|);
    }
  }

  /** Ordering lists the values by their turns, and by place within one. */
  lemma JiraOrderSorts(vs: seq<ValueDoc>, ids: seq<string>)
    requires DistinctValues(vs) && HasAll(vs, ids) && DistinctIds(ids)
    ensures SortedBy(vs, ids, JiraOrder(vs, ids))
  {
    hide SortedBy, TurnsFrom, HasAll, DistinctIds, DistinctValues, Blocks;
    assert vs[0..] == vs && ids[0..] == ids;
    HeadIs(vs, ids, 0);
    forall x | 0 <= x < HeadEnd(vs, ids, 0) ensures Turn(vs, ids, x) == -1 { TurnsOn(vs, ids, 0, x); }
    StretchSorted(vs, ids, 0, HeadEnd(vs, ids, 0), -1);
    BlocksSorted(vs, ids, 0);
    SortedConcat(vs, ids, Head(vs, ids), Blocks(vs, ids, ids), -1, 0, |ids|);
  }

  // ---- which of a list's values come in a given order ----

  /** The ids named come in the order of their turns. */
  ghost predicate Rising(vs: seq<ValueDoc>, ids: seq<string>, s: seq<string>) {
    forall a, b, x, y :: 0 <= a < b < |s| && 0 <= x < |vs| && 0 <= y < |vs| && vs[x].id == s[a] && vs[y].id == s[b] ==>
      Before(vs, ids, x, y)
  }

  lemma {:induction false} MappedPlaces(l: seq<ValueDoc>, s: seq<string>, a: nat, b: nat) returns (p: nat, q: nat)
    requires a < b < |MappedIds(l, s)|
    ensures p < q < |l| && l[p].id == MappedIds(l, s)[a] && l[q].id == MappedIds(l, s)[b]
  {
    var d := if IsMapped(l[0], s) then 1 else 0;
    assert MappedIds(l, s) == (if d == 1 then [l[0].id] else []) + MappedIds(l[1..], s);
    if a >= d {
      p, q := MappedPlaces(l[1..], s, a - d, b - d);
      p, q := p + 1, q + 1;
    } else {
      p := 0;
      q := MappedPlace(l[1..], s, b - d);
      q := q + 1;
    }
  }

  lemma {:induction false} MappedPlace(l: seq<ValueDoc>, s: seq<string>, a: nat) returns (p: nat)
    requires a < |MappedIds(l, s)|
    ensures p < |l| && l[p].id == MappedIds(l, s)[a]
  {
    var d := if IsMapped(l[0], s) then 1 else 0;
    assert MappedIds(l, s) == (if d == 1 then [l[0].id] else []) + MappedIds(l[1..], s);
    if a >= d {
      p := MappedPlace(l[1..], s, a - d);
      p := p + 1;
    } else {
      p := 0;
    }
  }

  /** Of a list by turns, the values named come rising. */
  lemma MappedRising(vs: seq<ValueDoc>, ids: seq<string>, l: seq<ValueDoc>, s: seq<string>)
    requires DistinctValues(vs) && SortedBy(vs, ids, l)
    ensures Rising(vs, ids, MappedIds(l, s))
  {
    hide Before, Turn;
    var m := MappedIds(l, s);
    forall a, b, x, y | 0 <= a < b < |m| && 0 <= x < |vs| && 0 <= y < |vs| && vs[x].id == m[a] && vs[y].id == m[b]
      ensures Before(vs, ids, x, y)
    {
      var p, q := MappedPlaces(l, s, a, b);
      assert l[p] in l && l[q] in l;
      var x2 :| 0 <= x2 < |vs| && vs[x2] == l[p];
      var y2 :| 0 <= y2 < |vs| && vs[y2] == l[q];
      assert x2 == x && y2 == y;
    }
  }

  lemma NotBeforeSelf(vs: seq<ValueDoc>, ids: seq<string>, x: nat)
    requires x < |vs|
    ensures !Before(vs, ids, x, x)
  {
  }

  lemma RisingDistinct(vs: seq<ValueDoc>, ids: seq<string>, s: seq<string>)
    requires Rising(vs, ids, s) && HasAll(vs, s)
    ensures DistinctIds(s)
  {
    forall a, b | 0 <= a < b < |s| ensures s[a] != s[b] {
      assert s[a] in s;
      var x :| 0 <= x < |vs| && vs[x].id == s[a];
      NotBeforeSelf(vs, ids, x);
    }
  }

  lemma RisingTail(vs: seq<ValueDoc>, ids: seq<string>, s: seq<string>)
    requires s != [] && Rising(vs, ids, s) && HasAll(vs, s)
    ensures Rising(vs, ids, s[1..]) && HasAll(vs, s[1..]) && s[0] !in s[1..]
  {
    RisingDistinct(vs, ids, s);
    forall id | id in s[1..] ensures Has(vs, id) { assert id in s; }
    forall a, b, x, y | 0 <= a < b < |s[1..]| && 0 <= x < |vs| && 0 <= y < |vs| && vs[x].id == s[1..][a] && vs[y].id == s[1..][b]
      ensures Before(vs, ids, x, y)
    {
      assert s[a + 1] == s[1..][a] && s[b + 1] == s[1..][b];
    }
    forall i | 0 <= i < |s[1..]| ensures s[1..][i] != s[0] { assert s[1..][i] == s[i + 1]; }
  }

  lemma FirstFirst(vs: seq<ValueDoc>, ids: seq<string>, s: seq<string>, r: seq<string>)
    requires Rising(vs, ids, s) && Rising(vs, ids, r) && HasAll(vs, s) && s != [] && r != [] && s[0] in r && r[0] in s
    ensures s[0] == r[0]
  {
    assert s[0] in s;
    var x :| 0 <= x < |vs| && vs[x].id == s[0];
    assert Has(vs, r[0]);
    var y :| 0 <= y < |vs| && vs[y].id == r[0];
    var i :| 0 <= i < |s| && s[i] == r[0];
    var j :| 0 <= j < |r| && r[j] == s[0];
    if i > 0 && j > 0 {
      assert Before(vs, ids, x, y) && Before(vs, ids, y, x);
    }
  }

  lemma SomeIn(r: seq<string>)
    requires r != []
    ensures exists id :: id in r
  {
    assert r[0] in r;
  }

  /** There is one rising list of given values. */
  lemma {:induction false} OneRising(vs: seq<ValueDoc>, ids: seq<string>, s: seq<string>, r: seq<string>)
    requires Rising(vs, ids, s) && Rising(vs, ids, r) && HasAll(vs, s) && HasAll(vs, r)
    requires forall id :: id in s <==> id in r
    ensures s == r
  {
    if s == [] {
      if r != [] { SomeIn(r); }
    } else {
      assert s[0] in s && s[0] in r;
      assert r != [] && r[0] in r;
      FirstFirst(vs, ids, s, r);
      RisingTail(vs, ids, s);
      RisingTail(vs, ids, r);
      assert s == [s[0]] + s[1..] && r == [r[0]] + r[1..];
      forall id ensures id in s[1..] <==> id in r[1..] { assert id in s <==> id == s[0] || id in s[1..]; }
      OneRising(vs, ids, s[1..], r[1..]);
    }
  }
}
