/** The loops behind a numbering: the quadratic search for the anchors, and filling the gaps they leave. */
module OrdinalsLoops {
  import opened Order
  import opened Ordinals

  // ---- the anchors ----

  method Positions(keys: seq<string>, current: map<string, int>) returns (ps: seq<nat>)
    ensures ps == Present(keys, current)
  {
    ps := [];
    for i := 0 to |keys|
      invariant ps == Present(keys[..i], current)
    {
      assert keys[..i + 1][..i] == keys[..i];
      if keys[i] in current {
        ps := ps + [i];
      }
    }
    assert keys[..|keys|] == keys;
  }

  ghost predicate Places(keys: seq<string>, current: map<string, int>, ps: seq<nat>) {
    forall a :: 0 <= a < |ps| ==> ps[a] < |keys| && keys[ps[a]] in current
  }

  lemma ScanNext(vals: seq<int>, i: nat, j: nat)
    requires j < i < |vals|
    ensures Scan(vals, i, 0) == (1, -1)
    ensures var r := Scan(vals, i, j);
            Scan(vals, i, j + 1)
            == if vals[j] < vals[i] && Length(vals, j) + 1 > r.0 then (Length(vals, j) + 1, j) else r
  {
  }

  /** The longest run an entry ends, from those the entries before it end, and the entry before it there. */
  method LongestBefore(keys: seq<string>, current: map<string, int>, ps: seq<nat>, best: seq<nat>, i: nat)
    returns (length: nat, from: int)
    requires Places(keys, current, ps) && i < |ps| && |best| >= i
    requires forall k :: 0 <= k < i ==> best[k] == Length(ValuesAt(keys, current, ps), k)
    ensures (length, from) == Scan(ValuesAt(keys, current, ps), i, i)
  {
    hide Scan, Length;
    ghost var vals := ValuesAt(keys, current, ps);
    length, from := 1, -1;
    if i > 0 { ScanNext(vals, i, 0); } else { ScanNone(vals, i); }
    for j := 0 to i
      invariant (length, from) == Scan(vals, i, j)
    {
      ScanNext(vals, i, j);
      if current[keys[ps[j]]] < current[keys[ps[i]]] && best[j] + 1 > length {
        length, from := best[j] + 1, j;
      }
    }
  }

  lemma ScanNone(vals: seq<int>, i: nat)
    requires i < |vals|
    ensures Scan(vals, i, 0) == (1, -1)
  {
  }

  lemma BestNext(vals: seq<int>, i: nat)
    requires i < |vals|
    ensures Length(vals, i) == Scan(vals, i, i).0 && Length(vals, i) >= 1
    ensures BestAt(vals, i + 1) == if i > 0 && Length(vals, i) <= Length(vals, BestAt(vals, i)) then BestAt(vals, i) else i
  {
  }

  /** For each entry, the one before it in the longest run ending there; and where the longest of all ends. */
  method RunTable(keys: seq<string>, current: map<string, int>, ps: seq<nat>)
    returns (from: array<int>, bestAt: nat)
    requires ps != [] && Places(keys, current, ps)
    ensures fresh(from) && from.Length == |ps|
    ensures var vals := ValuesAt(keys, current, ps);
            bestAt == BestAt(vals, |vals|) && forall k :: 0 <= k < |ps| ==> from[k] == Scan(vals, k, k).1
  {
    hide Length, Scan, BestAt, ValuesAt;
    ghost var vals := ValuesAt(keys, current, ps);
    var best: array<nat> := new nat[|ps|];
    from := new int[|ps|];
    var bestLen: nat := 0;
    bestAt := 0;
    for i := 0 to |ps|
      invariant fresh(from) && from.Length == |ps|
      invariant forall k :: 0 <= k < i ==> best[k] == Length(vals, k)
      invariant forall k :: 0 <= k < i ==> from[k] == Scan(vals, k, k).1
      invariant if i == 0 then bestAt == bestLen == 0 else bestAt == BestAt(vals, i) && bestLen == Length(vals, bestAt)
    {
      BestNext(vals, i);
      best[i], from[i] := LongestBefore(keys, current, ps, best[..], i);
      if best[i] > bestLen {
        bestLen, bestAt := best[i], i;
      }
    }
  }

  function Reversed<T>(s: seq<T>): (r: seq<T>) { if s == [] then [] else Reversed(s[1..]) + [s[0]] }

  function Insert(ys: seq<nat>, x: nat): seq<nat> {
    if ys == [] || x <= ys[0] then [x] + ys else [ys[0]] + Insert(ys[1..], x)
  }

  function SortInts(xs: seq<nat>): seq<nat> {
    if xs == [] then [] else Insert(SortInts(xs[..|xs| - 1]), xs[|xs| - 1])
  }

  lemma {:induction false} SortReversed(s: seq<nat>)
    requires Rising(s)
    ensures SortInts(Reversed(s)) == s
  {
    if s != [] {
      SortReversed(s[1..]);
      assert Reversed(s)[..|Reversed(s)| - 1] == Reversed(s[1..]);
      assert s == [s[0]] + s[1..];
    }
  }

  /** Follows the links back from where a run ends. */
  method WalkBack(ps: seq<nat>, links: seq<int>, bestAt: nat, ghost vals: seq<int>) returns (places: seq<nat>)
    requires |vals| == |ps| == |links| && bestAt < |ps|
    requires forall k :: 0 <= k < |ps| ==> links[k] == Scan(vals, k, k).1
    ensures places == Reversed(PlacesOf(ps, Chain(vals, bestAt)))
  {
    hide PlacesOf, Reversed, Chain;
    ghost var run := Chain(vals, bestAt);
    ghost var rest: seq<nat> := [];
    places := [];
    NoPlaces(ps);
    var at: int := bestAt;
    assert run == run + rest;
    while at >= 0
      invariant -1 <= at < |ps|
      invariant run == (if at < 0 then [] else Chain(vals, at)) + rest
      invariant forall a :: 0 <= a < |rest| ==> rest[a] < |ps|
      invariant places == Reversed(PlacesOf(ps, rest))
      decreases at
    {
      ChainLast(vals, at, rest);
      MorePlaces(ps, at, rest);
      rest := [at] + rest;
      places := places + [ps[at]];
      at := links[at];
    }
    assert run == rest;
  }

  method KeptAnchors(keys: seq<string>, current: map<string, int>) returns (anchors: seq<nat>)
    ensures anchors == Anchors(keys, current)
  {
    var ps := Positions(keys, current);
    if ps == [] {
      NoAnchors(keys, current);
      return [];
    }
    PresentPlaces(keys, current);
    var from, bestAt := RunTable(keys, current, ps);
    ghost var vals := ValuesAt(keys, current, ps);
    hide PlacesOf, Reversed, Chain, Scan, Present, Anchors, InOrder, SortInts;
    var places := WalkBack(ps, from[..], bestAt, vals);
    RunIs(keys, current, bestAt);
    OrderRises(keys, current, Anchors(keys, current));
    SortReversed(Anchors(keys, current));
    anchors := SortInts(places);
  }

  lemma PresentPlaces(keys: seq<string>, current: map<string, int>)
    ensures Places(keys, current, Present(keys, current))
  {
  }

  lemma RunIs(keys: seq<string>, current: map<string, int>, bestAt: nat)
    requires Present(keys, current) != []
    requires var vals := ValuesAt(keys, current, Present(keys, current)); bestAt == BestAt(vals, |vals|)
    ensures var ps := Present(keys, current);
            Anchors(keys, current) == PlacesOf(ps, Chain(ValuesAt(keys, current, ps), bestAt))
  {
  }

  lemma NoAnchors(keys: seq<string>, current: map<string, int>)
    requires Present(keys, current) == []
    ensures Anchors(keys, current) == []
  {
  }

  lemma ChainLast(vals: seq<int>, at: nat, rest: seq<nat>)
    requires at < |vals|
    ensures var from := Scan(vals, at, at).1;
            Chain(vals, at) + rest == (if from < 0 then [] else Chain(vals, from)) + ([at] + rest)
  {
  }

  lemma NoPlaces(ps: seq<nat>)
    ensures Reversed(PlacesOf(ps, [])) == []
  {
  }

  lemma MorePlaces(ps: seq<nat>, at: nat, rest: seq<nat>)
    requires at < |ps| && forall a :: 0 <= a < |rest| ==> rest[a] < |ps|
    ensures Reversed(PlacesOf(ps, [at] + rest)) == Reversed(PlacesOf(ps, rest)) + [ps[at]]
  {
    assert PlacesOf(ps, [at] + rest)[1..] == PlacesOf(ps, rest);
  }

  // ---- the gaps ----

  function CountDown(n: nat, hi: int): (ns: seq<int>) { seq(n, i => hi - n + i) }

  function Spread(n: nat, lo: int, hi: int): (ns: seq<int>) { seq(n, i => Along(lo, Even(lo, hi, n), i + 1)) }

  /** Sets the entries of a list, one after the other. */
  method PutAll(keys: seq<string>, ns: seq<int>, start: map<string, int>) returns (out: map<string, int>)
    requires |keys| == |ns|
    ensures out == Put(start, keys, ns)
  {
    out := start;
    for i := 0 to |keys|
      invariant out == Put(start, keys[..i], ns[..i])
    {
      assert keys[..i + 1][..i] == keys[..i] && ns[..i + 1][..i] == ns[..i];
      out := out[keys[i] := ns[i]];
    }
    assert keys[..|keys|] == keys && ns[..|ns|] == ns;
  }

  method FillBefore(keys: seq<string>, hi: int, start: map<string, int>) returns (ok: bool, out: map<string, int>)
    ensures ok == (keys == [] || hi - |keys| >= 1)
    ensures out == if ok then Put(start, keys, CountDown(|keys|, hi)) else start
  {
    if keys == [] {
      return true, start;
    }
    if hi - |keys| < 1 {
      return false, start;
    }
    out := PutAll(keys, CountDown(|keys|, hi), start);
    ok := true;
  }

  method FillBetween(keys: seq<string>, lo: int, hi: int, start: map<string, int>) returns (ok: bool, out: map<string, int>)
    ensures ok == (keys == [] || hi - lo - 1 >= |keys|)
    ensures out == if ok then Put(start, keys, Spread(|keys|, lo, hi)) else start
  {
    if keys == [] {
      return true, start;
    }
    if hi - lo - 1 < |keys| {
      return false, start;
    }
    out := PutAll(keys, Spread(|keys|, lo, hi), start);
    ok := true;
  }

  method Renumber(keys: seq<string>) returns (out: map<string, int>)
    ensures out == Put(map[], keys, Tens(|keys|))
  {
    out := PutAll(keys, Tens(|keys|), map[]);
  }

  // ---- which entries are numbered so far ----

  /** Every entry numbered so far has its number, and nothing else is in the map. */
  ghost predicate Filled(out: map<string, int>, keys: seq<string>, ns: seq<int>)
    requires |keys| == |ns|
  {
    out.Keys <= Elems(keys) && forall i :: 0 <= i < |keys| && keys[i] in out ==> out[keys[i]] == ns[i]
  }

  lemma PutFilled(out: map<string, int>, keys: seq<string>, ns: seq<int>, lo: nat, part: seq<string>, nums: seq<int>)
    requires |keys| == |ns| && Distinct(keys) && Filled(out, keys, ns)
    requires |part| == |nums| && lo + |part| <= |keys| && part == keys[lo..lo + |part|] && nums == ns[lo..lo + |part|]
    ensures Filled(Put(out, part, nums), keys, ns) && Put(out, part, nums).Keys == out.Keys + Elems(part)
  {
    hide Put, Elems;
    PutKeys(out, part, nums);
    var after := Put(out, part, nums);
    forall i | 0 <= i < |keys| && keys[i] in after ensures after[keys[i]] == ns[i] {
      SliceAt(keys, lo, part, i);
      if lo <= i < lo + |part| { PutAt(out, part, nums, i - lo); }
    }
    SliceElems(keys, lo, part);
  }

  lemma SliceAt(keys: seq<string>, lo: nat, part: seq<string>, i: nat)
    requires Distinct(keys) && lo + |part| <= |keys| && part == keys[lo..lo + |part|] && i < |keys|
    ensures Distinct(part)
    ensures if lo <= i < lo + |part| then part[i - lo] == keys[i] else keys[i] !in part && keys[i] !in Elems(part)
  {
  }

  lemma SliceElems(keys: seq<string>, lo: nat, part: seq<string>)
    requires lo + |part| <= |keys| && part == keys[lo..lo + |part|]
    ensures Elems(part) <= Elems(keys)
  {
  }

  lemma FilledAll(out: map<string, int>, keys: seq<string>, ns: seq<int>)
    requires |keys| == |ns| && Distinct(keys) && Filled(out, keys, ns) && Elems(keys) <= out.Keys
    ensures out == Put(map[], keys, ns)
  {
    PutKeys(map[], keys, ns);
    forall k | k in out ensures out[k] == Put(map[], keys, ns)[k] {
      var i :| 0 <= i < |keys| && keys[i] == k;
      PutAt(map[], keys, ns, i);
    }
  }

  // ---- the whole numbering ----

  lemma BeforeIs(keys: seq<string>, current: map<string, int>, anchors: seq<nat>)
    requires InOrder(keys, current, anchors) && anchors != []
    ensures CountDown(anchors[0], At(keys, current, anchors[0])) == FromAnchors(keys, current, anchors)[..anchors[0]]
  {
    OrderRises(keys, current, anchors);
    forall i: nat | i < anchors[0] ensures Upto(anchors, i) == 0 { UptoBefore(anchors, i); }
  }

  lemma BetweenIs(keys: seq<string>, current: map<string, int>, anchors: seq<nat>, a: nat)
    requires InOrder(keys, current, anchors) && a + 1 < |anchors|
    ensures anchors[a] < anchors[a + 1]
    ensures Spread(anchors[a + 1] - anchors[a] - 1, At(keys, current, anchors[a]), At(keys, current, anchors[a + 1]))
            == FromAnchors(keys, current, anchors)[anchors[a] + 1..anchors[a + 1]]
  {
    hide Even, Along, FromAnchors;
    OrderRises(keys, current, anchors);
    var lo, hi := anchors[a], anchors[a + 1];
    var spread := Spread(hi - lo - 1, At(keys, current, lo), At(keys, current, hi));
    forall i | lo < i < hi ensures spread[i - lo - 1] == FromAnchors(keys, current, anchors)[i] {
      UptoInside(anchors, a, i);
    }
  }

  lemma UptoInside(anchors: seq<nat>, a: nat, i: nat)
    requires Rising(anchors) && a < |anchors| && anchors[a] <= i && (a + 1 < |anchors| ==> i < anchors[a + 1])
    ensures Upto(anchors, i) == a + 1
  {
    assert a < Upto(anchors, i);
    assert a + 1 < |anchors| ==> a + 1 >= Upto(anchors, i);
  }

  function Onward(n: nat, from: int): (ns: seq<int>) { seq(n, i => from + (i + 1) * STEP) }

  lemma AfterIs(keys: seq<string>, current: map<string, int>, anchors: seq<nat>)
    requires InOrder(keys, current, anchors) && anchors != []
    ensures var last := anchors[|anchors| - 1];
            Onward(|keys| - last - 1, At(keys, current, last)) == FromAnchors(keys, current, anchors)[last + 1..]
  {
    hide FromAnchors;
    OrderRises(keys, current, anchors);
    var last := anchors[|anchors| - 1];
    forall i | last < i < |keys|
      ensures Onward(|keys| - last - 1, At(keys, current, last))[i - last - 1] == FromAnchors(keys, current, anchors)[i]
    {
      UptoInside(anchors, |anchors| - 1, i);
    }
  }

  /** The anchors and the entries before a place have the numbers the anchors call for. */
  ghost predicate Numbered(keys: seq<string>, current: map<string, int>, anchors: seq<nat>, out: map<string, int>, upto: nat)
    requires InOrder(keys, current, anchors) && anchors != [] && upto <= |keys|
  {
    && Filled(out, keys, FromAnchors(keys, current, anchors))
    && (forall a :: 0 <= a < |anchors| ==> keys[anchors[a]] in out)
    && forall i :: 0 <= i < upto ==> keys[i] in out
  }

  /** A stretch of the list numbered, up to the entry after it if that one is an anchor. */
  lemma StretchNumbered(keys: seq<string>, current: map<string, int>, anchors: seq<nat>, out: map<string, int>, lo: nat, hi: nat, ns: seq<int>)
    requires InOrder(keys, current, anchors) && anchors != [] && Distinct(keys) && lo <= hi <= |keys|
    requires Numbered(keys, current, anchors, out, lo) && ns == FromAnchors(keys, current, anchors)[lo..hi]
    ensures var after := Put(out, keys[lo..hi], ns);
            && Numbered(keys, current, anchors, after, hi)
            && (hi in anchors ==> Numbered(keys, current, anchors, after, hi + 1))
  {
    hide FromAnchors, Put, Filled, InOrder;
    PutFilled(out, keys, FromAnchors(keys, current, anchors), lo, keys[lo..hi], ns);
    var after := Put(out, keys[lo..hi], ns);
    forall i | 0 <= i < hi ensures keys[i] in after {
      if i >= lo { assert keys[lo..hi][i - lo] == keys[i]; }
    }
  }

  method SetAnchors(keys: seq<string>, current: map<string, int>, anchors: seq<nat>) returns (out: map<string, int>)
    requires Distinct(keys) && InOrder(keys, current, anchors) && anchors != []
    ensures Numbered(keys, current, anchors, out, 0)
  {
    ghost var ns := FromAnchors(keys, current, anchors);
    hide FromAnchors, Filled, NumberAt, Upto, InOrder;
    OrderRises(keys, current, anchors);
    out := map[];
    NoneFilled(keys, ns);
    for a := 0 to |anchors|
      invariant Filled(out, keys, ns)
      invariant forall b :: 0 <= b < a ==> keys[anchors[b]] in out
    {
      AnchorKept(keys, current, anchors, a);
      SetOne(out, keys, ns, anchors[a]);
      out := out[keys[anchors[a]] := current[keys[anchors[a]]]];
    }
  }

  lemma NoneFilled(keys: seq<string>, ns: seq<int>)
    requires |keys| == |ns|
    ensures Filled(map[], keys, ns)
  {
  }

  lemma SetOne(out: map<string, int>, keys: seq<string>, ns: seq<int>, i: nat)
    requires |keys| == |ns| && Distinct(keys) && Filled(out, keys, ns) && i < |keys|
    ensures Filled(out[keys[i] := ns[i]], keys, ns)
  {
    assert keys[i] in Elems(keys);
  }

  lemma PutNone(out: map<string, int>)
    ensures Put(out, [], []) == out
  {
  }

  method FillFirst(keys: seq<string>, current: map<string, int>, anchors: seq<nat>, start: map<string, int>)
    returns (ok: bool, out: map<string, int>)
    requires Distinct(keys) && InOrder(keys, current, anchors) && anchors != []
    requires Numbered(keys, current, anchors, start, 0)
    ensures ok == (anchors[0] == 0 || At(keys, current, anchors[0]) - anchors[0] >= 1)
    ensures ok ==> Numbered(keys, current, anchors, out, anchors[0] + 1)
  {
    hide FromAnchors, Numbered, Put;
    var first := anchors[0];
    BeforeIs(keys, current, anchors);
    StretchNumbered(keys, current, anchors, start, 0, first, CountDown(first, current[keys[first]]));
    PutNone(start);
    assert first in anchors && keys[0..first] == keys[..first] && CountDown(0, current[keys[first]]) == [] && keys[0..0] == [];
    ok, out := true, start;
    if first > 0 {
      ok, out := FillBefore(keys[..first], current[keys[first]], start);
    }
  }

  method FillGap(keys: seq<string>, current: map<string, int>, anchors: seq<nat>, a: nat, start: map<string, int>)
    returns (ok: bool, out: map<string, int>)
    requires Distinct(keys) && InOrder(keys, current, anchors) && a + 1 < |anchors|
    requires Numbered(keys, current, anchors, start, anchors[a] + 1)
    ensures ok == GapOpen(keys, current, anchors, a)
    ensures ok ==> Numbered(keys, current, anchors, out, anchors[a + 1] + 1)
  {
    hide FromAnchors, Numbered, Put;
    var lo, hi := anchors[a], anchors[a + 1];
    BetweenIs(keys, current, anchors, a);
    assert hi in anchors && keys[hi..hi] == [] && Spread(0, current[keys[lo]], current[keys[hi]]) == [];
    PutNone(start);
    StretchNumbered(keys, current, anchors, start, lo + 1, hi, Spread(hi - lo - 1, current[keys[lo]], current[keys[hi]]));
    ok, out := true, start;
    if hi != lo + 1 {
      ok, out := FillBetween(keys[lo + 1..hi], current[keys[lo]], current[keys[hi]], start);
    }
  }

  method FillGaps(keys: seq<string>, current: map<string, int>, anchors: seq<nat>, start: map<string, int>)
    returns (ok: bool, out: map<string, int>)
    requires Distinct(keys) && InOrder(keys, current, anchors) && anchors != []
    requires Numbered(keys, current, anchors, start, 0)
    ensures ok == Fits(keys, current, anchors)
    ensures ok ==> Numbered(keys, current, anchors, out, anchors[|anchors| - 1] + 1)
  {
    hide FromAnchors, Numbered, InOrder;
    OrderRises(keys, current, anchors);
    ok, out := FillFirst(keys, current, anchors, start);
    if !ok {
      return;
    }
    for a := 0 to |anchors| - 1
      invariant ok && Numbered(keys, current, anchors, out, anchors[a] + 1)
      invariant forall b :: 0 <= b < a ==> GapOpen(keys, current, anchors, b)
    {
      ok, out := FillGap(keys, current, anchors, a, out);
      if !ok {
        return;
      }
    }
  }

  /** Entries after the last anchor, a step apart. */
  method FillAfter(keys: seq<string>, current: map<string, int>, anchors: seq<nat>, start: map<string, int>)
    returns (out: map<string, int>)
    requires Distinct(keys) && InOrder(keys, current, anchors) && anchors != []
    requires Numbered(keys, current, anchors, start, anchors[|anchors| - 1] + 1)
    ensures Numbered(keys, current, anchors, out, |keys|)
  {
    hide FromAnchors, Numbered, Put, InOrder;
    OrderRises(keys, current, anchors);
    var last := anchors[|anchors| - 1];
    var ns := Onward(|keys| - last - 1, current[keys[last]]);
    AfterIs(keys, current, anchors);
    assert keys[last + 1..|keys|] == keys[last + 1..] && ns == FromAnchors(keys, current, anchors)[last + 1..|keys|];
    StretchNumbered(keys, current, anchors, start, last + 1, |keys|, ns);
    out := PutAll(keys[last + 1..], ns, start);
  }

  method AssignOrdinals(keys: seq<string>, current: map<string, int>) returns (out: map<string, int>)
    requires Distinct(keys)
    ensures out == Assigned(keys, current)
  {
    hide FromAnchors, Numbered, Put, Fits, Assigned, Tens;
    AssignedCases(keys, current);
    var anchors := KeptAnchors(keys, current);
    if anchors == [] {
      out := Renumber(keys);
      return;
    }
    out := SetAnchors(keys, current, anchors);
    var ok;
    ok, out := FillGaps(keys, current, anchors, out);
    if !ok {
      out := Renumber(keys);
      return;
    }
    out := FillAfter(keys, current, anchors, out);
    AllNumbered(keys, current, anchors, out);
  }

  lemma AssignedCases(keys: seq<string>, current: map<string, int>)
    ensures var anchors := Anchors(keys, current);
            Assigned(keys, current) == Put(map[], keys, if anchors == [] || !Fits(keys, current, anchors) then Tens(|keys|)
                                                        else FromAnchors(keys, current, anchors))
  {
    hide Put, Anchors, InOrder, NumberAt, FromAnchors, Tens;
  }

  lemma AllNumbered(keys: seq<string>, current: map<string, int>, anchors: seq<nat>, out: map<string, int>)
    requires Distinct(keys) && InOrder(keys, current, anchors) && anchors != [] && Numbered(keys, current, anchors, out, |keys|)
    ensures out == Put(map[], keys, FromAnchors(keys, current, anchors))
  {
    FilledAll(out, keys, FromAnchors(keys, current, anchors));
  }
}
