/** Numbering a list. */
module Ordinals {
  // Entries keeping their relative order keep their numbers.

  import opened Order

  const STEP := 10

  // ---- the longest run already in order ----

  /** A scan of the entries before i: the longest run an entry there leaves for i, and that entry. */
  function Scan(vals: seq<int>, i: nat, j: nat): (r: (nat, int))
    requires j <= i < |vals|
    ensures r.0 >= 1 && -1 <= r.1 < j
    decreases i, j
  {
    if j == 0 then (1, -1)
    else
      var r := Scan(vals, i, j - 1);
      if vals[j - 1] < vals[i] && Length(vals, j - 1) + 1 > r.0 then (Length(vals, j - 1) + 1, j - 1) else r
  }

  /** The length of the longest run ending at an entry. */
  function Length(vals: seq<int>, i: nat): (n: nat)
    requires i < |vals|
    decreases i, i + 1
  {
    Scan(vals, i, i).0
  }

  /** The scan finds a longest run to extend, or none. */
  lemma {:induction false} ScanFinds(vals: seq<int>, i: nat, j: nat)
    requires j <= i < |vals|
    ensures var r := Scan(vals, i, j);
            && (if r.1 < 0 then r.0 == 1 else vals[r.1] < vals[i] && r.0 == Length(vals, r.1) + 1)
            && forall k :: 0 <= k < j && vals[k] < vals[i] ==> r.0 > Length(vals, k)
  {
    if j > 0 { ScanFinds(vals, i, j - 1); }
  }

  function Chain(vals: seq<int>, i: nat): (c: seq<nat>)
    requires i < |vals|
    ensures |c| == Length(vals, i) && IsRun(vals, c) && c[|c| - 1] == i
  {
    ScanFinds(vals, i, i);
    var from := Scan(vals, i, i).1;
    if from < 0 then [i] else Chain(vals, from) + [i]
  }

  /** The first entry among the first n that ends a longest run. */
  function BestAt(vals: seq<int>, n: nat): (at: nat)
    requires 0 < n <= |vals|
    ensures at < n && forall k :: 0 <= k < n ==> Length(vals, k) <= Length(vals, at)
  {
    if n == 1 then 0
    else
      var at := BestAt(vals, n - 1);
      if Length(vals, n - 1) > Length(vals, at) then n - 1 else at
  }

  function Longest(vals: seq<int>): (s: seq<nat>)
    ensures IsRun(vals, s)
  {
    if vals == [] then [] else Chain(vals, BestAt(vals, |vals|))
  }

  predicate IsRun(vals: seq<int>, s: seq<nat>) {
    && (forall a :: 0 <= a < |s| ==> s[a] < |vals|)
    && (forall a, b :: 0 <= a < b < |s| ==> s[a] < s[b] && vals[s[a]] < vals[s[b]])
  }

  lemma {:induction false} RunFits(vals: seq<int>, s: seq<nat>)
    requires IsRun(vals, s) && s != []
    ensures |s| <= Length(vals, s[|s| - 1])
  {
    var n := |s| - 1;
    if n > 0 {
      RunFits(vals, s[..n]);
      ScanFinds(vals, s[n], s[n]);
      assert s[n - 1] < s[n] && vals[s[n - 1]] < vals[s[n]];
    }
  }

  lemma LongestIsLongest(vals: seq<int>, s: seq<nat>)
    requires IsRun(vals, s)
    ensures |s| <= |Longest(vals)|
  {
    if s != [] {
      RunFits(vals, s);
      assert s[|s| - 1] < |vals|;
    }
  }

  // ---- anchors: the run in terms of the list numbered ----

  /** The places of the entries that have a number. */
  function Present(keys: seq<string>, current: map<string, int>): (ps: seq<nat>)
    ensures forall a :: 0 <= a < |ps| ==> ps[a] < |keys| && keys[ps[a]] in current
    ensures forall a, b :: 0 <= a < b < |ps| ==> ps[a] < ps[b]
    ensures forall i :: 0 <= i < |keys| && keys[i] in current ==> i in ps
  {
    if keys == [] then []
    else
      var n := |keys| - 1;
      Present(keys[..n], current) + if keys[n] in current then [n] else []
  }

  function ValuesAt(keys: seq<string>, current: map<string, int>, ps: seq<nat>): (vals: seq<int>)
    requires forall a :: 0 <= a < |ps| ==> ps[a] < |keys| && keys[ps[a]] in current
    ensures |vals| == |ps| && forall a :: 0 <= a < |ps| ==> vals[a] == current[keys[ps[a]]]
  {
    seq(|ps|, a requires 0 <= a < |ps| => current[keys[ps[a]]])
  }

  function PlacesOf(ps: seq<nat>, s: seq<nat>): (r: seq<nat>)
    requires forall a :: 0 <= a < |s| ==> s[a] < |ps|
    ensures |r| == |s| && forall a :: 0 <= a < |s| ==> r[a] == ps[s[a]]
  {
    seq(|s|, a requires 0 <= a < |s| => ps[s[a]])
  }

  /** Entries whose numbers already increase in the order wanted. */
  predicate InOrder(keys: seq<string>, current: map<string, int>, s: seq<nat>) {
    && (forall a :: 0 <= a < |s| ==> s[a] < |keys| && keys[s[a]] in current)
    && (forall a, b :: 0 <= a < b < |s| ==> s[a] < s[b] && current[keys[s[a]]] < current[keys[s[b]]])
  }

  function Anchors(keys: seq<string>, current: map<string, int>): (s: seq<nat>)
    ensures InOrder(keys, current, s)
  {
    hide Longest;
    var ps := Present(keys, current);
    PlacesOf(ps, Longest(ValuesAt(keys, current, ps)))
  }

  /** The anchors' numbers increase in the order wanted, and no set of entries that do is larger. */
  lemma AnchorsLongest(keys: seq<string>, current: map<string, int>, s: seq<nat>)
    requires InOrder(keys, current, s)
    ensures |s| <= |Anchors(keys, current)|
  {
    hide Longest;
    var ps := Present(keys, current);
    var vals := ValuesAt(keys, current, ps);
    forall a | 0 <= a < |s| ensures exists x: nat :: x < |ps| && ps[x] == s[a] {
      assert s[a] in ps;
    }
    var t := seq(|s|, a requires 0 <= a < |s| => PlaceIn(ps, s[a]));
    assert IsRun(vals, t);
    LongestIsLongest(vals, t);
  }

  ghost function PlaceIn(ps: seq<nat>, at: nat): (x: nat)
    requires exists x: nat :: x < |ps| && ps[x] == at
    ensures x < |ps| && ps[x] == at
  {
    var x: nat :| x < |ps| && ps[x] == at; x
  }

  // ---- the numbers ----

  /** How many anchors come no later than a place. */
  function Upto(anchors: seq<nat>, i: nat): (n: nat)
    ensures n <= |anchors|
    ensures Rising(anchors) ==> forall a :: 0 <= a < |anchors| ==> (a < n <==> anchors[a] <= i)
  {
    if anchors == [] then 0
    else
      var m := |anchors| - 1;
      if anchors[m] <= i then |anchors| else Upto(anchors[..m], i)
  }

  predicate Rising(xs: seq<nat>) { forall a, b :: 0 <= a < b < |xs| ==> xs[a] < xs[b] }

  function At(keys: seq<string>, current: map<string, int>, i: nat): int
    requires i < |keys| && keys[i] in current
  {
    current[keys[i]]
  }

  predicate GapOpen(keys: seq<string>, current: map<string, int>, anchors: seq<nat>, a: nat)
    requires InOrder(keys, current, anchors) && a + 1 < |anchors|
  {
    At(keys, current, anchors[a + 1]) - At(keys, current, anchors[a]) >= anchors[a + 1] - anchors[a]
  }

  /** Whether there are numbers left for every gap the anchors leave. */
  predicate Fits(keys: seq<string>, current: map<string, int>, anchors: seq<nat>)
    requires InOrder(keys, current, anchors)
  {
    && anchors != []
    && (anchors[0] == 0 || At(keys, current, anchors[0]) - anchors[0] >= 1)
    && forall a :: 0 <= a < |anchors| - 1 ==> GapOpen(keys, current, anchors, a)
  }

  function Along(base: int, step: int, k: int): int { base + k * step }

  function Even(lo: int, hi: int, n: nat): int { (hi - lo) / (n + 1) }

  /** The number of one entry, given the anchors: counted down before them, evenly between, by tens after. */
  function NumberAt(keys: seq<string>, current: map<string, int>, anchors: seq<nat>, i: nat): int
    requires InOrder(keys, current, anchors) && anchors != [] && i < |keys|
  {
    var u := Upto(anchors, i);
    if u == 0 then At(keys, current, anchors[0]) - anchors[0] + i
    else
      var lo := anchors[u - 1];
      var base := At(keys, current, lo);
      if u == |anchors| then base + (i - lo) * STEP
      else Along(base, Even(base, At(keys, current, anchors[u]), anchors[u] - lo - 1), i - lo)
  }

  function FromAnchors(keys: seq<string>, current: map<string, int>, anchors: seq<nat>): (ns: seq<int>)
    requires InOrder(keys, current, anchors) && anchors != []
    ensures |ns| == |keys| && forall i :: 0 <= i < |keys| ==> ns[i] == NumberAt(keys, current, anchors, i)
  {
    seq(|keys|, i requires 0 <= i < |keys| => NumberAt(keys, current, anchors, i))
  }

  function Numbers(keys: seq<string>, current: map<string, int>): (ns: seq<int>)
    ensures |ns| == |keys|
  {
    var anchors := Anchors(keys, current);
    if Fits(keys, current, anchors) then FromAnchors(keys, current, anchors) else Tens(|keys|)
  }

  function Tens(n: nat): seq<int> { seq(n, i => (i + 1) * STEP) }

  /** A map with the entries of one list set to the numbers of another. */
  function Put(out: map<string, int>, keys: seq<string>, ns: seq<int>): map<string, int>
    requires |keys| == |ns|
  {
    if keys == [] then out else var n := |keys| - 1; Put(out, keys[..n], ns[..n])[keys[n] := ns[n]]
  }

  function Assigned(keys: seq<string>, current: map<string, int>): map<string, int> {
    Put(map[], keys, Numbers(keys, current))
  }

  // ---- what the numbers keep ----

  ghost predicate Increasing(ns: seq<int>) { forall i, j :: 0 <= i < j < |ns| ==> ns[i] < ns[j] }

  lemma {:induction false} StepsIncrease(ns: seq<int>, i: nat, j: nat)
    requires forall k :: 0 <= k < |ns| - 1 ==> ns[k] < ns[k + 1]
    requires i < j < |ns|
    ensures ns[j] - ns[i] >= j - i
  {
    if i < j - 1 { StepsIncrease(ns, i, j - 1); }
  }

  /** Dividing a gap evenly leaves a positive step that does not reach its end. */
  lemma EvenFits(gap: int, n: nat, k: nat)
    requires n > 0 && gap >= n && k <= n
    ensures gap / n >= 1 && k * (gap / n) <= gap
    ensures k < n ==> k * (gap / n) + (gap / n) <= gap && (k + 1) * (gap / n) == k * (gap / n) + gap / n
  {
    Quotient(gap, n);
    Multiples(k, n, gap / n);
    if k < n { Multiples(k + 1, n, gap / n); }
  }

  lemma Quotient(gap: int, n: nat)
    requires n > 0 && gap >= n
    ensures gap / n >= 1 && n * (gap / n) <= gap
  {
    assert gap == n * (gap / n) + gap % n;
  }

  lemma Multiples(k: nat, n: nat, s: int)
    requires k <= n && s >= 0
    ensures k * s <= n * s && (k + 1) * s == k * s + s
  {
    assert (n - k) * s >= 0;
  }

  lemma UptoNext(anchors: seq<nat>, i: nat)
    requires Rising(anchors)
    ensures var u, v := Upto(anchors, i), Upto(anchors, i + 1);
            && (v == u || (v == u + 1 && anchors[u] == i + 1))
            && (u > 0 ==> anchors[u - 1] <= i) && (v == u < |anchors| ==> i + 1 < anchors[u])
  {
    var u, v := Upto(anchors, i), Upto(anchors, i + 1);
    assert u > 0 ==> anchors[u - 1] <= i;
    assert v < |anchors| ==> i + 1 < anchors[v];
    assert v > 0 ==> anchors[v - 1] <= i + 1;
    assert u < |anchors| ==> i < anchors[u];
    assert u + 1 < |anchors| ==> anchors[u] < anchors[u + 1];
    assert v > 0 ==> v - 1 <= u;
  }

  lemma NumberNext(keys: seq<string>, current: map<string, int>, anchors: seq<nat>, i: nat)
    requires InOrder(keys, current, anchors) && Fits(keys, current, anchors) && i + 1 < |keys|
    ensures NumberAt(keys, current, anchors, i) < NumberAt(keys, current, anchors, i + 1)
  {
    hide Upto, Along, Even;
    var u, v := Upto(anchors, i), Upto(anchors, i + 1);
    UptoNext(anchors, i);
    if v == u + 1 { AnchorKept(keys, current, anchors, u); }
    if 0 < u < |anchors| {
      assert anchors[u - 1] < anchors[u];
      GapFits(keys, current, anchors, u - 1, i - anchors[u - 1]);
    }
  }

  /** Inside a gap the numbers rise evenly and stay below its end. */
  lemma GapFits(keys: seq<string>, current: map<string, int>, anchors: seq<nat>, a: nat, k: nat)
    requires InOrder(keys, current, anchors) && Fits(keys, current, anchors) && a + 1 < |anchors|
    requires k < anchors[a + 1] - anchors[a]
    ensures var lo, hi := At(keys, current, anchors[a]), At(keys, current, anchors[a + 1]);
            var step := Even(lo, hi, anchors[a + 1] - anchors[a] - 1);
            && Along(lo, step, k) < Along(lo, step, k + 1) && Along(lo, step, 0) == lo && Along(lo, step, k) < hi
  {
    assert GapOpen(keys, current, anchors, a);
    EvenFits(At(keys, current, anchors[a + 1]) - At(keys, current, anchors[a]), anchors[a + 1] - anchors[a], k);
  }

  lemma AnchorKept(keys: seq<string>, current: map<string, int>, anchors: seq<nat>, a: nat)
    requires InOrder(keys, current, anchors) && a < |anchors|
    ensures Upto(anchors, anchors[a]) == a + 1
    ensures NumberAt(keys, current, anchors, anchors[a]) == At(keys, current, anchors[a])
  {
    hide InOrder, Even;
    OrderRises(keys, current, anchors);
    UptoOwn(anchors, a);
  }

  lemma UptoOwn(anchors: seq<nat>, a: nat)
    requires Rising(anchors) && a < |anchors|
    ensures Upto(anchors, anchors[a]) == a + 1
  {
    var u := Upto(anchors, anchors[a]);
    assert a < u;
    assert a + 1 < |anchors| ==> anchors[a + 1] > anchors[a];
  }

  lemma OrderRises(keys: seq<string>, current: map<string, int>, s: seq<nat>)
    requires InOrder(keys, current, s)
    ensures Rising(s) && forall a :: 0 <= a < |s| ==> s[a] < |keys| && keys[s[a]] in current
  {
  }

  lemma FittingIncrease(keys: seq<string>, current: map<string, int>, anchors: seq<nat>)
    requires InOrder(keys, current, anchors) && Fits(keys, current, anchors)
    ensures Increasing(FromAnchors(keys, current, anchors))
  {
    hide InOrder, NumberAt;
    var ns := FromAnchors(keys, current, anchors);
    forall k | 0 <= k < |ns| - 1 ensures ns[k] < ns[k + 1] { NumberNext(keys, current, anchors, k); }
    forall i, j | 0 <= i < j < |ns| ensures ns[i] < ns[j] { StepsIncrease(ns, i, j); }
  }

  lemma NumbersIncrease(keys: seq<string>, current: map<string, int>)
    ensures Increasing(Numbers(keys, current))
  {
    hide InOrder, FromAnchors, Anchors;
    if Fits(keys, current, Anchors(keys, current)) { FittingIncrease(keys, current, Anchors(keys, current)); }
  }

  lemma {:induction false} PutAt(out: map<string, int>, keys: seq<string>, ns: seq<int>, i: nat)
    requires |keys| == |ns| && Distinct(keys) && i < |keys|
    ensures keys[i] in Put(out, keys, ns) && Put(out, keys, ns)[keys[i]] == ns[i]
  {
    var n := |keys| - 1;
    if i < n { PutAt(out, keys[..n], ns[..n], i); }
  }

  lemma {:induction false} PutKeys(out: map<string, int>, keys: seq<string>, ns: seq<int>)
    requires |keys| == |ns|
    ensures Put(out, keys, ns).Keys == out.Keys + Elems(keys)
    ensures forall k :: k in out && k !in keys ==> Put(out, keys, ns)[k] == out[k]
  {
    if keys != [] {
      var n := |keys| - 1;
      PutKeys(out, keys[..n], ns[..n]);
      ElemsAppend(keys[..n], [keys[n]]);
      assert keys == keys[..n] + [keys[n]];
    }
  }

  /** Every entry gets a number, and the numbers increase in the order wanted. */
  lemma AssignedIncreases(keys: seq<string>, current: map<string, int>)
    requires Distinct(keys)
    ensures var out := Assigned(keys, current);
            && out.Keys == Elems(keys)
            && forall i, j :: 0 <= i < j < |keys| ==> out[keys[i]] < out[keys[j]]
  {
    var out, ns := Assigned(keys, current), Numbers(keys, current);
    PutKeys(map[], keys, ns);
    NumbersIncrease(keys, current);
    forall i, j | 0 <= i < j < |keys| ensures out[keys[i]] < out[keys[j]] {
      PutAt(map[], keys, ns, i);
      PutAt(map[], keys, ns, j);
    }
  }

  /** Numbers, increasing and with the anchors' own, for every entry; those before the first anchor positive. */
  ghost predicate Keeps(keys: seq<string>, current: map<string, int>, anchors: seq<nat>, ns: seq<int>)
    requires InOrder(keys, current, anchors)
  {
    && |ns| == |keys| && Increasing(ns)
    && (forall a :: 0 <= a < |anchors| ==> ns[anchors[a]] == At(keys, current, anchors[a]))
    && (anchors != [] && anchors[0] > 0 ==> ns[0] >= 1)
  }

  /** Some numbering of the whole list keeps the anchors' numbers exactly when every gap has room. */
  lemma FitsIffKept(keys: seq<string>, current: map<string, int>, anchors: seq<nat>)
    requires InOrder(keys, current, anchors) && anchors != []
    ensures Fits(keys, current, anchors) <==> exists ns :: Keeps(keys, current, anchors, ns)
  {
    hide InOrder, Fits, Keeps, FromAnchors;
    if Fits(keys, current, anchors) { FitsKeeps(keys, current, anchors); }
    if ns :| Keeps(keys, current, anchors, ns) { KeepsFits(keys, current, anchors, ns); }
  }

  /** The list is given fresh numbers: nothing is numbered, or the chosen anchors cannot keep theirs. */
  predicate Renumbers(keys: seq<string>, current: map<string, int>) {
    !Fits(keys, current, Anchors(keys, current))
  }

  /**
   The chosen anchors keep their numbers exactly when any numbering could keep them, and else
   the list is numbered by tens.
   */
  lemma ChosenKeptIffTheyCan(keys: seq<string>, current: map<string, int>)
    ensures var anchors := Anchors(keys, current);
            anchors != [] ==> (Keeps(keys, current, anchors, Numbers(keys, current)) <==> exists ns :: Keeps(keys, current, anchors, ns))
    ensures Renumbers(keys, current) ==> Numbers(keys, current) == Tens(|keys|)
    ensures Renumbers(keys, current) <==>
              Anchors(keys, current) == [] || !exists ns :: Keeps(keys, current, Anchors(keys, current), ns)
  {
    hide InOrder, Fits, Keeps, FromAnchors, Anchors;
    var anchors := Anchors(keys, current);
    if anchors != [] {
      FitsIffKept(keys, current, anchors);
      if Fits(keys, current, anchors) { FitsKeeps(keys, current, anchors); }
    } else {
      NoneFits(keys, current);
    }
  }

  lemma NoneFits(keys: seq<string>, current: map<string, int>)
    requires InOrder(keys, current, [])
    ensures !Fits(keys, current, [])
  {
  }

  lemma KeepsFits(keys: seq<string>, current: map<string, int>, anchors: seq<nat>, ns: seq<int>)
    requires InOrder(keys, current, anchors) && anchors != [] && Keeps(keys, current, anchors, ns)
    ensures Fits(keys, current, anchors)
  {
    if anchors[0] > 0 { StepsIncrease(ns, 0, anchors[0]); }
    forall a | 0 <= a < |anchors| - 1
      ensures GapOpen(keys, current, anchors, a)
    {
      StepsIncrease(ns, anchors[a], anchors[a + 1]);
    }
  }

  lemma FitsKeeps(keys: seq<string>, current: map<string, int>, anchors: seq<nat>)
    requires InOrder(keys, current, anchors) && Fits(keys, current, anchors)
    ensures Keeps(keys, current, anchors, FromAnchors(keys, current, anchors))
  {
    hide NumberAt, InOrder;
    FittingIncrease(keys, current, anchors);
    OrderRises(keys, current, anchors);
    forall a | 0 <= a < |anchors| ensures FromAnchors(keys, current, anchors)[anchors[a]] == At(keys, current, anchors[a]) {
      AnchorKept(keys, current, anchors, a);
    }
    if anchors[0] > 0 { FirstPositive(keys, current, anchors); }
  }

  lemma UptoBefore(anchors: seq<nat>, i: nat)
    requires Rising(anchors) && anchors != [] && i < anchors[0]
    ensures Upto(anchors, i) == 0
  {
    assert anchors[0] > i;
  }

  lemma FirstPositive(keys: seq<string>, current: map<string, int>, anchors: seq<nat>)
    requires InOrder(keys, current, anchors) && Fits(keys, current, anchors) && anchors[0] > 0
    ensures NumberAt(keys, current, anchors, 0) >= 1
  {
    OrderRises(keys, current, anchors);
    UptoBefore(anchors, 0);
  }

  // ---- which of the longest runs is chosen ----

  /** t comes before s read from the end: at the last place where they differ t has the earlier entry. */
  ghost predicate EndsBefore(t: seq<nat>, s: seq<nat>) { |t| == |s| && exists a :: DiffersLast(t, s, a) }

  ghost predicate DiffersLast(t: seq<nat>, s: seq<nat>, a: int)
    requires |t| == |s|
  {
    0 <= a < |t| && t[a] < s[a] && forall b :: a < b < |t| ==> t[b] == s[b]
  }

  /** The scan stops at the first entry that leaves the longest run. */
  lemma {:induction false} ScanFirst(vals: seq<int>, i: nat, j: nat)
    requires j <= i < |vals|
    ensures var r := Scan(vals, i, j); forall k :: 0 <= k < r.1 && vals[k] < vals[i] ==> Length(vals, k) + 1 < r.0
  {
    if j > 0 {
      ScanFirst(vals, i, j - 1);
      ScanFinds(vals, i, j - 1);
    }
  }

  lemma EndsBeforeMore(t: seq<nat>, s: seq<nat>, i: nat)
    requires EndsBefore(t, s)
    ensures EndsBefore(t + [i], s + [i])
  {
    var a :| DiffersLast(t, s, a);
    assert DiffersLast(t + [i], s + [i], a);
  }

  /** The chain to an entry steps through the first entry that leaves it a longest run. */
  lemma ChainSteps(vals: seq<int>, i: nat, s: seq<nat>)
    requires i < |vals| && IsRun(vals, s) && |s| == Length(vals, i) && s[|s| - 1] == i
    ensures var from := Scan(vals, i, i).1;
            if |s| == 1 then Chain(vals, i) == [i]
            else var j := s[|s| - 2]; 0 <= from <= j < i && Length(vals, j) == |s| - 1 && Chain(vals, i) == Chain(vals, from) + [i]
  {
    hide Scan, Length, Chain;
    ScanFinds(vals, i, i);
    ScanFirst(vals, i, i);
    LengthIs(vals, i);
    ChainIs(vals, i);
    var from, n := Scan(vals, i, i).1, |s| - 1;
    if from >= 0 { LengthPositive(vals, from); }
    if n > 0 {
      assert s[n - 1] < i && vals[s[n - 1]] < vals[i];
      RunFits(vals, s[..n]);
    }
  }

  /** Of the longest runs that end at an entry, the chain ends before any other. */
  lemma {:induction false} ChainFirst(vals: seq<int>, i: nat, s: seq<nat>)
    requires i < |vals| && IsRun(vals, s) && |s| == Length(vals, i) && s[|s| - 1] == i
    ensures s == Chain(vals, i) || EndsBefore(Chain(vals, i), s)
  {
    hide Scan, Length, Chain, EndsBefore;
    var n := |s| - 1;
    ChainSteps(vals, i, s);
    assert s == s[..n] + [i];
    if n > 0 {
      var from, j := Scan(vals, i, i).1, s[n - 1];
      if from < j {
        EarlierEnd(Chain(vals, from) + [i], s);
      } else {
        ChainFirst(vals, j, s[..n]);
        if s[..n] != Chain(vals, j) { EndsBeforeMore(Chain(vals, j), s[..n], i); }
      }
    }
  }

  lemma EarlierEnd(t: seq<nat>, s: seq<nat>)
    requires |t| == |s| >= 2 && t[|t| - 1] == s[|s| - 1] && t[|t| - 2] < s[|s| - 2]
    ensures EndsBefore(t, s)
  {
    assert DiffersLast(t, s, |t| - 2);
  }

  lemma ChainIs(vals: seq<int>, i: nat)
    requires i < |vals|
    ensures var from := Scan(vals, i, i).1; Chain(vals, i) == if from < 0 then [i] else Chain(vals, from) + [i]
  {
  }

  lemma LengthIs(vals: seq<int>, i: nat)
    requires i < |vals|
    ensures Length(vals, i) == Scan(vals, i, i).0
  {
  }

  lemma LengthPositive(vals: seq<int>, i: nat)
    requires i < |vals|
    ensures Length(vals, i) >= 1
  {
  }

  lemma {:induction false} BestFirst(vals: seq<int>, n: nat)
    requires 0 < n <= |vals|
    ensures forall k :: 0 <= k < BestAt(vals, n) ==> Length(vals, k) < Length(vals, BestAt(vals, n))
  {
    hide Length;
    if n > 1 { BestFirst(vals, n - 1); }
  }

  lemma BestIsLast(vals: seq<int>, s: seq<nat>)
    requires IsRun(vals, s) && s != [] && vals != [] && |s| == Length(vals, BestAt(vals, |vals|))
    ensures var last := s[|s| - 1];
            BestAt(vals, |vals|) <= last < |vals| && Length(vals, last) == |s|
  {
    hide Length;
    RunFits(vals, s);
    BestFirst(vals, |vals|);
  }

  /** The run found ends before every other as long. */
  lemma LongestFirst(vals: seq<int>, s: seq<nat>)
    requires IsRun(vals, s) && |s| == |Longest(vals)|
    ensures s == Longest(vals) || EndsBefore(Longest(vals), s)
  {
    hide Length, BestAt, IsRun, Chain, Scan;
    if s != [] {
      SomeValue(vals, s);
      BestIsLast(vals, s);
      var n, best := |s| - 1, BestAt(vals, |vals|);
      if best < s[n] {
        assert DiffersLast(Chain(vals, best), s, n);
      } else {
        ChainFirst(vals, best, s);
      }
    }
  }

  lemma SomeValue(vals: seq<int>, s: seq<nat>)
    requires IsRun(vals, s) && s != []
    ensures vals != []
  {
    assert s[0] < |vals|;
  }

  /** No set of entries already in order is larger. */
  ghost predicate LongestRun(keys: seq<string>, current: map<string, int>, s: seq<nat>) {
    InOrder(keys, current, s) && forall t :: InOrder(keys, current, t) ==> |t| <= |s|
  }

  lemma AnchorsAreLongest(keys: seq<string>, current: map<string, int>)
    ensures LongestRun(keys, current, Anchors(keys, current))
  {
    hide Anchors, InOrder;
    forall t | InOrder(keys, current, t) ensures |t| <= |Anchors(keys, current)| { AnchorsLongest(keys, current, t); }
  }

  lemma PlacesEndBefore(ps: seq<nat>, t: seq<nat>, s: seq<nat>)
    requires Rising(ps) && EndsBefore(t, s) && (forall a :: 0 <= a < |t| ==> t[a] < |ps|) && (forall a :: 0 <= a < |s| ==> s[a] < |ps|)
    ensures EndsBefore(PlacesOf(ps, t), PlacesOf(ps, s))
  {
    var a :| DiffersLast(t, s, a);
    assert DiffersLast(PlacesOf(ps, t), PlacesOf(ps, s), a);
  }

  /** The places of a run, as places among the entries that have a number. */
  lemma RunOf(keys: seq<string>, current: map<string, int>, s: seq<nat>) returns (t: seq<nat>)
    requires InOrder(keys, current, s)
    ensures var ps := Present(keys, current); IsRun(ValuesAt(keys, current, ps), t) && PlacesOf(ps, t) == s
  {
    var ps := Present(keys, current);
    forall a | 0 <= a < |s| ensures exists x: nat :: x < |ps| && ps[x] == s[a] { assert s[a] in ps; }
    t := seq(|s|, a requires 0 <= a < |s| => PlaceIn(ps, s[a]));
    RunAmong(keys, current, s, ps, t);
  }

  lemma RunAmong(keys: seq<string>, current: map<string, int>, s: seq<nat>, ps: seq<nat>, t: seq<nat>)
    requires InOrder(keys, current, s) && ps == Present(keys, current)
    requires |t| == |s| && forall a :: 0 <= a < |s| ==> t[a] < |ps| && ps[t[a]] == s[a]
    ensures IsRun(ValuesAt(keys, current, ps), t)
  {
    hide Present;
    var vals := ValuesAt(keys, current, ps);
    forall a, b | 0 <= a < b < |t| ensures t[a] < t[b] && vals[t[a]] < vals[t[b]] {
      assert ps[t[a]] < ps[t[b]] && vals[t[a]] == current[keys[s[a]]] && vals[t[b]] == current[keys[s[b]]];
    }
  }

  /** The anchors chosen are the longest run that ends before every other. */
  lemma ChosenEndsFirst(keys: seq<string>, current: map<string, int>, s: seq<nat>)
    requires LongestRun(keys, current, s)
    ensures s == Anchors(keys, current) || EndsBefore(Anchors(keys, current), s)
  {
    hide Longest, LongestRun, EndsBefore;
    AnchorsAreLongest(keys, current);
    assert |s| == |Anchors(keys, current)| by { SameLength(keys, current, s, Anchors(keys, current)); }
    var ps := Present(keys, current);
    var vals := ValuesAt(keys, current, ps);
    assert InOrder(keys, current, s) by { RunIsInOrder(keys, current, s); }
    var t := RunOf(keys, current, s);
    LongestFirst(vals, t);
    if t != Longest(vals) { PlacesEndBefore(ps, Longest(vals), t); }
  }

  lemma RunIsInOrder(keys: seq<string>, current: map<string, int>, s: seq<nat>)
    requires LongestRun(keys, current, s)
    ensures InOrder(keys, current, s)
  {
  }

  lemma SameLength(keys: seq<string>, current: map<string, int>, s: seq<nat>, t: seq<nat>)
    requires LongestRun(keys, current, s) && LongestRun(keys, current, t)
    ensures |s| == |t|
  {
    hide InOrder;
  }

  lemma DiffersOneWay(t: seq<nat>, s: seq<nat>, a: int, b: int)
    requires |t| == |s| && DiffersLast(t, s, a)
    ensures !DiffersLast(s, t, b)
  {
  }

  lemma EndsBeforeOnce(t: seq<nat>, s: seq<nat>)
    requires EndsBefore(t, s)
    ensures t != s && !EndsBefore(s, t)
  {
    var a :| DiffersLast(t, s, a);
    forall b ensures !DiffersLast(s, t, b) { DiffersOneWay(t, s, a, b); }
  }

  // ---- when a list is renumbered ----

  /** A longest run whose numbers some numbering of the whole list keeps. */
  ghost predicate Keepable(keys: seq<string>, current: map<string, int>, s: seq<nat>) {
    LongestRun(keys, current, s) && s != [] && exists ns :: Keeps(keys, current, s, ns)
  }

  /** A longest run every gap of which has room. */
  ghost predicate Roomy(keys: seq<string>, current: map<string, int>, s: seq<nat>) {
    LongestRun(keys, current, s) && Fits(keys, current, s)
  }

  /** The longest run that ends before every other has a gap without room. */
  ghost predicate FirstStuck(keys: seq<string>, current: map<string, int>) {
    exists t :: LongestRun(keys, current, t) && !Roomy(keys, current, t) && EndsFirst(keys, current, t)
  }

  ghost predicate EndsFirst(keys: seq<string>, current: map<string, int>, t: seq<nat>) {
    forall s :: LongestRun(keys, current, s) ==> s == t || EndsBefore(t, s)
  }

  lemma RoomyIffKeepable(keys: seq<string>, current: map<string, int>, s: seq<nat>)
    ensures Roomy(keys, current, s) <==> Keepable(keys, current, s)
  {
    hide Keeps, InOrder;
    if LongestRun(keys, current, s) && s != [] { FitsIffKept(keys, current, s); }
  }

  lemma AnchorsEndFirst(keys: seq<string>, current: map<string, int>)
    ensures EndsFirst(keys, current, Anchors(keys, current))
  {
    hide Anchors, LongestRun, EndsBefore;
    forall s | LongestRun(keys, current, s) ensures s == Anchors(keys, current) || EndsBefore(Anchors(keys, current), s) {
      ChosenEndsFirst(keys, current, s);
    }
  }

  lemma FirstIsAnchors(keys: seq<string>, current: map<string, int>, t: seq<nat>)
    requires LongestRun(keys, current, t) && EndsFirst(keys, current, t)
    ensures t == Anchors(keys, current)
  {
    hide Anchors, LongestRun, EndsBefore;
    AnchorsAreLongest(keys, current);
    AnchorsEndFirst(keys, current);
    if t != Anchors(keys, current) { EndsBeforeOnce(Anchors(keys, current), t); }
  }

  /** A list is renumbered exactly when the longest run that ends first has a gap without room. */
  lemma RenumberedIffFirstStuck(keys: seq<string>, current: map<string, int>)
    ensures Renumbers(keys, current) <==> FirstStuck(keys, current)
  {
    hide Fits, Anchors, LongestRun, EndsFirst;
    AnchorsAreLongest(keys, current);
    AnchorsEndFirst(keys, current);
    if FirstStuck(keys, current) {
      var t :| LongestRun(keys, current, t) && !Roomy(keys, current, t) && EndsFirst(keys, current, t);
      FirstIsAnchors(keys, current, t);
    }
  }

  /**
   Renumbering only when no number fits is not what the code does. It renumbers although a longest
   run could keep its numbers exactly when the one that ends first has no room and another has.
   */
  lemma RenumberedThoughOneFits(keys: seq<string>, current: map<string, int>)
    ensures Renumbers(keys, current) && (exists s :: Keepable(keys, current, s)) <==>
              FirstStuck(keys, current) && exists s :: Roomy(keys, current, s)
  {
    hide Renumbers, FirstStuck, Roomy, Keepable;
    RenumberedIffFirstStuck(keys, current);
    forall s ensures Roomy(keys, current, s) <==> Keepable(keys, current, s) { RoomyIffKeepable(keys, current, s); }
  }

  /** With one longest run the promise is exact: the list is renumbered exactly when no number fits. */
  lemma RenumberedExactlyWhenOneRun(keys: seq<string>, current: map<string, int>)
    requires forall s, t :: LongestRun(keys, current, s) && LongestRun(keys, current, t) ==> s == t
    ensures Renumbers(keys, current) <==> !exists s :: Keepable(keys, current, s)
  {
    hide Renumbers, Anchors, LongestRun;
    AnchorsAreLongest(keys, current);
    ChosenKeptIffTheyCan(keys, current);
    if !Renumbers(keys, current) { assert Keepable(keys, current, Anchors(keys, current)); }
  }

  /** There is one when the numbered entries are already in order. */
  lemma NumberedInOrderIsOneRun(keys: seq<string>, current: map<string, int>, s: seq<nat>)
    requires forall i, j :: 0 <= i < j < |keys| && keys[i] in current && keys[j] in current ==> current[keys[i]] < current[keys[j]]
    requires LongestRun(keys, current, s)
    ensures s == Present(keys, current)
  {
    var ps := Present(keys, current);
    assert InOrder(keys, current, ps);
    var t := RunOf(keys, current, s);
    RisingLength(t, |ps|);
    RisingWhole(t, |ps|);
  }

  // ---- numbering again ----

  lemma {:induction false} RisingWhole(xs: seq<nat>, n: nat)
    requires Rising(xs) && |xs| == n && forall a :: 0 <= a < |xs| ==> xs[a] < n
    ensures forall a :: 0 <= a < |xs| ==> xs[a] == a
  {
    forall a | 0 <= a < n ensures xs[a] >= a { RisingAtLeast(xs, a); }
    forall a | 0 <= a < n ensures xs[a] <= a { RisingAtMost(xs, n, n - 1 - a); }
  }

  lemma {:induction false} RisingAtLeast(xs: seq<nat>, a: nat)
    requires Rising(xs) && a < |xs|
    ensures xs[a] >= a
  {
    if a > 0 { RisingAtLeast(xs, a - 1); }
  }

  lemma {:induction false} RisingAtMost(xs: seq<nat>, n: nat, b: nat)
    requires Rising(xs) && |xs| == n && b < n && forall a :: 0 <= a < |xs| ==> xs[a] < n
    ensures xs[n - 1 - b] <= n - 1 - b
  {
    if b > 0 { RisingAtMost(xs, n, b - 1); }
  }

  /** Numbering a list again, from the numbers just given, changes nothing. */
  lemma AssignedAgain(keys: seq<string>, current: map<string, int>)
    requires Distinct(keys)
    ensures Assigned(keys, Assigned(keys, current)) == Assigned(keys, current)
  {
    hide Numbers;
    var out := Assigned(keys, current);
    AssignedIncreases(keys, current);
    forall k | k in keys ensures k in out { assert k in Elems(keys); }
    NumberedStays(keys, out);
    PutKeys(map[], keys, Numbers(keys, current));
    PutKeys(map[], keys, Numbers(keys, out));
    forall k | k in Elems(keys) ensures Assigned(keys, out)[k] == out[k] {
      var i :| 0 <= i < |keys| && keys[i] == k;
      PutAt(map[], keys, Numbers(keys, out), i);
    }
  }

  lemma AllInOrder(keys: seq<string>, current: map<string, int>, all: seq<nat>)
    requires forall k :: k in keys ==> k in current
    requires forall i, j :: 0 <= i < j < |keys| ==> current[keys[i]] < current[keys[j]]
    requires |all| == |keys| && forall i :: 0 <= i < |all| ==> all[i] == i
    ensures InOrder(keys, current, all)
  {
  }

  lemma AllAnchors(keys: seq<string>, current: map<string, int>)
    requires forall k :: k in keys ==> k in current
    requires forall i, j :: 0 <= i < j < |keys| ==> current[keys[i]] < current[keys[j]]
    ensures var anchors := Anchors(keys, current);
            |anchors| == |keys| && forall a :: 0 <= a < |anchors| ==> anchors[a] == a
  {
    hide Anchors, InOrder;
    var all := seq(|keys|, i => i);
    AllInOrder(keys, current, all);
    AnchorsLongest(keys, current, all);
    var anchors := Anchors(keys, current);
    OrderRises(keys, current, anchors);
    RisingLength(anchors, |keys|);
    RisingWhole(anchors, |keys|);
  }

  /** A list whose numbers already increase keeps every one. */
  lemma NumberedStays(keys: seq<string>, current: map<string, int>)
    requires forall k :: k in keys ==> k in current
    requires forall i, j :: 0 <= i < j < |keys| ==> current[keys[i]] < current[keys[j]]
    ensures forall i :: 0 <= i < |keys| ==> Numbers(keys, current)[i] == current[keys[i]]
  {
    hide Anchors, NumberAt, Upto;
    AllAnchors(keys, current);
    var anchors := Anchors(keys, current);
    if keys != [] {
      assert Fits(keys, current, anchors);
      forall i | 0 <= i < |keys| ensures Numbers(keys, current)[i] == current[keys[i]] { AnchorKept(keys, current, anchors, i); }
    }
  }

  lemma {:induction false} RisingLength(xs: seq<nat>, n: nat)
    requires Rising(xs) && forall a :: 0 <= a < |xs| ==> xs[a] < n
    ensures |xs| <= n
  {
    if xs != [] { RisingAtLeast(xs, |xs| - 1); }
  }

  // ---- a list renumbered although a number fits ----

  const FOUR := ["a", "b", "n", "c"]
  const THREE: map<string, int> := map["a" := 5, "b" := 3, "c" := 6]

  lemma FourKept()
    ensures InOrder(FOUR, THREE, [1, 3]) && Keeps(FOUR, THREE, [1, 3], [2, 3, 4, 6])
  {
    assert FOUR[0] == "a" && FOUR[1] == "b" && FOUR[2] == "n" && FOUR[3] == "c";
  }

  lemma FourStuck()
    ensures InOrder(FOUR, THREE, [0, 3]) && !Fits(FOUR, THREE, [0, 3])
  {
    assert FOUR[0] == "a" && FOUR[1] == "b" && FOUR[2] == "n" && FOUR[3] == "c";
    assert !GapOpen(FOUR, THREE, [0, 3], 0);
  }

  /**
   An input at which it happens: a and c, the run that ends first, leave no room for two; b and c
   could keep theirs with 2 for a and 4 for n, as FourKept says.
   */
  lemma ListRenumberedThoughOneFits()
    ensures Numbers(FOUR, THREE) == [10, 20, 30, 40] && Keepable(FOUR, THREE, [1, 3])
  {
    hide Anchors, LongestRun, Renumbers, FromAnchors, Keeps, InOrder, Fits, GapOpen;
    FourKept();
    FourStuck();
    RunsOfFour([1, 3]);
    AnchorsOfFour();
    ChosenKeptIffTheyCan(FOUR, THREE);
    FourRenumbered();
  }

  lemma FourRenumbered()
    requires Anchors(FOUR, THREE) == [0, 3] && InOrder(FOUR, THREE, [0, 3]) && !Fits(FOUR, THREE, [0, 3])
    ensures Renumbers(FOUR, THREE)
  {
    hide Anchors, Fits, InOrder;
  }

  lemma NumberedOfFour(x: nat)
    requires x < |FOUR| && FOUR[x] in THREE
    ensures x == 0 || x == 1 || x == 3
    ensures THREE[FOUR[x]] == if x == 0 then 5 else if x == 1 then 3 else 6
  {
    assert FOUR[0] == "a" && FOUR[1] == "b" && FOUR[2] == "n" && FOUR[3] == "c";
  }

  lemma ShortRun(t: seq<nat>)
    requires InOrder(FOUR, THREE, t)
    ensures |t| <= 2
  {
    forall a | 0 <= a < |t| ensures (t[a] == 0 || t[a] == 1 || t[a] == 3) && (t[a] == 0 && a + 1 < |t| ==> t[a + 1] == 3) {
      NumberedOfFour(t[a]);
      if a + 1 < |t| { NumberedOfFour(t[a + 1]); }
    }
    RisingSteps(t);
  }

  /** Steps that rise, the first of them past two places, leave two entries below four places. */
  lemma RisingSteps(t: seq<nat>)
    requires Rising(t) && forall a :: 0 <= a < |t| ==> (t[a] == 0 || t[a] == 1 || t[a] == 3) && (t[a] == 0 && a + 1 < |t| ==> t[a + 1] == 3)
    ensures |t| <= 2
  {
    var x, y, z := Pick(t, 0), Pick(t, 1), Pick(t, 2);
  }

  ghost function Pick(t: seq<nat>, a: nat): int { if a < |t| then t[a] else -1 }

  lemma RunsOfFour(s: seq<nat>)
    requires InOrder(FOUR, THREE, s) && |s| == 2
    ensures LongestRun(FOUR, THREE, s)
  {
    forall t | InOrder(FOUR, THREE, t) ensures |t| <= 2 { ShortRun(t); }
  }

  lemma AnchorsOfFour()
    ensures Anchors(FOUR, THREE) == [0, 3]
  {
    hide Anchors, LongestRun;
    var s := Anchors(FOUR, THREE);
    AnchorsAreLongest(FOUR, THREE);
    assert FOUR[0] == "a" && FOUR[1] == "b" && FOUR[2] == "n" && FOUR[3] == "c";
    RunsOfFour([0, 3]);
    ChosenEndsFirst(FOUR, THREE, [0, 3]);
    SameLength(FOUR, THREE, s, [0, 3]);
    assert s[0] < s[1];
  }
}
