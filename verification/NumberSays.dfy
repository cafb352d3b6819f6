/** The number each entry of a list gets, told from the numbers kept around it. */
module NumberSays {
  import opened Order
  import opened Ordinals

  /** The number an entry has at the end. */
  function NumberOf(keys: seq<string>, current: map<string, int>, i: nat): int
    requires Distinct(keys) && i < |keys|
  {
    AssignedIncreases(keys, current);
    Assigned(keys, current)[keys[i]]
  }

  lemma NumberIs(keys: seq<string>, current: map<string, int>, i: nat)
    requires Distinct(keys) && i < |keys|
    ensures NumberOf(keys, current, i) == Numbers(keys, current)[i]
  {
    hide Numbers;
    PutAt(map[], keys, Numbers(keys, current), i);
  }

  /** A number kept, at a place of the list. */
  ghost predicate Kept(keys: seq<string>, current: map<string, int>, i: int) {
    0 <= i < |keys| && !Renumbers(keys, current) && i in Anchors(keys, current)
  }

  lemma KeptAnchor(keys: seq<string>, current: map<string, int>, i: int)
    requires Kept(keys, current, i)
    ensures exists a :: 0 <= a < |Anchors(keys, current)| && Anchors(keys, current)[a] == i
    ensures keys[i] in current && Anchors(keys, current) != [] && InOrder(keys, current, Anchors(keys, current))
    ensures Fits(keys, current, Anchors(keys, current))
  {
    hide Anchors;
    var a :| 0 <= a < |Anchors(keys, current)| && Anchors(keys, current)[a] == i;
  }

  /** Given fresh numbers, the list is numbered by tens. */
  lemma FreshByTens(keys: seq<string>, current: map<string, int>, i: nat)
    requires Distinct(keys) && i < |keys| && Renumbers(keys, current)
    ensures NumberOf(keys, current, i) == 10 * (i + 1)
  {
    hide Anchors;
    NumberIs(keys, current, i);
  }

  /** An entry that keeps its number. */
  lemma KeptStays(keys: seq<string>, current: map<string, int>, i: nat)
    requires Distinct(keys) && Kept(keys, current, i)
    ensures keys[i] in current && NumberOf(keys, current, i) == current[keys[i]]
  {
    hide Anchors, NumberAt;
    var anchors := Anchors(keys, current);
    KeptAnchor(keys, current, i);
    var a :| 0 <= a < |anchors| && anchors[a] == i;
    NumberIs(keys, current, i);
    AnchorKept(keys, current, anchors, a);
  }

  /** Before the first kept the numbers count down by one, and stay positive. */
  lemma BeforeCountsDown(keys: seq<string>, current: map<string, int>, i: nat, first: nat)
    requires Distinct(keys) && Kept(keys, current, first) && i < first && forall k :: Kept(keys, current, k) ==> first <= k
    ensures NumberOf(keys, current, i) == current[keys[first]] - (first - i) && NumberOf(keys, current, i) >= 1
  {
    hide Anchors;
    var anchors := Anchors(keys, current);
    KeptAnchor(keys, current, first);
    OrderRises(keys, current, anchors);
    assert Kept(keys, current, anchors[0]);
    var a :| 0 <= a < |anchors| && anchors[a] == first;
    assert anchors[0] == first;
    UptoBefore(anchors, i);
    NumberIs(keys, current, i);
  }

  /** After the last kept they go on by tens. */
  lemma AfterGoesOnByTens(keys: seq<string>, current: map<string, int>, i: nat, last: nat)
    requires Distinct(keys) && Kept(keys, current, last) && last < i < |keys| && forall k :: Kept(keys, current, k) ==> k <= last
    ensures NumberOf(keys, current, i) == current[keys[last]] + 10 * (i - last)
  {
    hide Anchors;
    var anchors := Anchors(keys, current);
    KeptAnchor(keys, current, last);
    OrderRises(keys, current, anchors);
    var m := |anchors| - 1;
    assert Kept(keys, current, anchors[m]);
    var a :| 0 <= a < |anchors| && anchors[a] == last;
    assert anchors[m] == last;
    UptoWithin(anchors, m, i);
    NumberIs(keys, current, i);
  }

  lemma UptoWithin(anchors: seq<nat>, a: nat, i: nat)
    requires Rising(anchors) && a < |anchors| && anchors[a] <= i && (a + 1 < |anchors| ==> i < anchors[a + 1])
    ensures Upto(anchors, i) == a + 1
  {
    assert a < Upto(anchors, i);
  }

  /** Between two kept they are spread by one step, the largest that leaves the second its number. */
  lemma BetweenSpreadsEvenly(keys: seq<string>, current: map<string, int>, i: nat, lo: nat, hi: nat)
    returns (step: int)
    requires Distinct(keys) && Kept(keys, current, lo) && Kept(keys, current, hi) && lo < i < hi
    requires forall k :: Kept(keys, current, k) ==> k <= lo || hi <= k
    ensures step >= 1 && NumberOf(keys, current, i) == current[keys[lo]] + (i - lo) * step
    ensures (hi - lo) * step <= current[keys[hi]] - current[keys[lo]] < (hi - lo) * (step + 1)
  {
    hide Anchors, NumberAt;
    var anchors := Anchors(keys, current);
    KeptAnchor(keys, current, lo);
    KeptAnchor(keys, current, hi);
    OrderRises(keys, current, anchors);
    var a :| 0 <= a < |anchors| && anchors[a] == lo;
    var b :| 0 <= b < |anchors| && anchors[b] == hi;
    assert Kept(keys, current, anchors[a + 1]);
    assert b == a + 1;
    UptoWithin(anchors, a, i);
    NumberIs(keys, current, i);
    GapNumber(keys, current, anchors, a, i);
    assert GapOpen(keys, current, anchors, a);
    StepOf(current[keys[hi]] - current[keys[lo]], hi - lo);
    step := (current[keys[hi]] - current[keys[lo]]) / (hi - lo);
  }

  lemma GapNumber(keys: seq<string>, current: map<string, int>, anchors: seq<nat>, a: nat, i: nat)
    requires InOrder(keys, current, anchors) && a + 1 < |anchors| && i < |keys| && Upto(anchors, i) == a + 1 && anchors[a] < anchors[a + 1]
    ensures var gap := At(keys, current, anchors[a + 1]) - At(keys, current, anchors[a]);
            NumberAt(keys, current, anchors, i) == At(keys, current, anchors[a]) + (i - anchors[a]) * (gap / (anchors[a + 1] - anchors[a]))
  {
  }

  lemma StepOf(gap: int, n: int)
    requires n > 0 && gap >= n
    ensures gap / n >= 1 && n * (gap / n) <= gap < n * (gap / n + 1)
  {
    var q, r := gap / n, gap % n;
    assert gap == n * q + r;
    assert n * (q + 1) == n * q + n;
    Quotient(gap, n);
  }
}
