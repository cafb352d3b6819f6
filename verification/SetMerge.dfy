/** The three-way merge of list-valued keys, item by item. */
module SetMerge {
  import opened Order

  /** A base item stays if both sides have it, any other if one does. */
  predicate Survives(b: set<string>, l: set<string>, r: set<string>, x: string) {
    if x in b then x in l && x in r else x in l || x in r
  }

  function Merged(b: set<string>, l: set<string>, r: set<string>): set<string> {
    set x | x in b + l + r && Survives(b, l, r, x)
  }

  /** The merged set with what it adds to and removes from each side, in canonical order. */
  datatype SetPlan = SetPlan(merged: set<string>, lAdd: seq<string>, lRem: seq<string>, rAdd: seq<string>, rRem: seq<string>)

  function MergeSetSpec(b: set<string>, l: set<string>, r: set<string>): SetPlan {
    var m := Merged(b, l, r);
    SetPlan(m, Sorted(m - l), Sorted(l - m), Sorted(m - r), Sorted(r - m))
  }

  /** The keys that belong to s, in order. */
  function Pick(keys: seq<string>, s: set<string>): seq<string> {
    if keys == [] then []
    else Pick(keys[..|keys| - 1], s) + (if keys[|keys| - 1] in s then [keys[|keys| - 1]] else [])
  }

  lemma PickNext(keys: seq<string>, i: nat, s: set<string>)
    requires i < |keys|
    ensures Pick(keys[..i + 1], s) == Pick(keys[..i], s) + (if keys[i] in s then [keys[i]] else [])
  {
    assert keys[..i + 1][..i] == keys[..i];
  }

  lemma {:induction false} PickAscending(keys: seq<string>, s: set<string>)
    requires Ascending(keys)
    ensures Ascending(Pick(keys, s)) && Elems(Pick(keys, s)) == s * Elems(keys)
  {
    if keys != [] {
      var front, k := keys[..|keys| - 1], keys[|keys| - 1];
      assert keys == front + [k];
      PickAscending(front, s);
      ElemsAppend(front, [k]);
      ElemsAppend(Pick(front, s), [k]);
      assert Elems([k]) == {k};
      assert s * Elems(keys) == s * Elems(front) + (if k in s then {k} else {});
      forall y | y in Pick(front, s) ensures Less(y, k) {
        assert y in Elems(Pick(front, s));
        var j :| 0 <= j < |front| && keys[j] == y;
      }
    }
  }

  lemma PickAll(keys: seq<string>, s: set<string>)
    requires Ascending(keys) && s <= Elems(keys)
    ensures Pick(keys, s) == Sorted(s)
  {
    PickAscending(keys, s);
    assert s * Elems(keys) == s;
    AscendingUnique(Pick(keys, s), Sorted(s));
  }

  method MergeSet(b: set<string>, l: set<string>, r: set<string>) returns (p: SetPlan)
    ensures p == MergeSetSpec(b, l, r)
  {
    var keys := Sorted(b + l + r);
    var keep, lAdd, lRem, rAdd, rRem := [], [], [], [], [];
    ghost var m := Merged(b, l, r);
    for i := 0 to |keys|
      invariant keep == Pick(keys[..i], m)
      invariant lAdd == Pick(keys[..i], m - l)
      invariant lRem == Pick(keys[..i], l - m)
      invariant rAdd == Pick(keys[..i], m - r)
      invariant rRem == Pick(keys[..i], r - m)
    {
      var k := keys[i];
      assert k in Elems(keys);
      PickNext(keys, i, m);
      PickNext(keys, i, m - l);
      PickNext(keys, i, l - m);
      PickNext(keys, i, m - r);
      PickNext(keys, i, r - m);
      var kept := k in l || k in r;
      if k in b {
        kept := k in l && k in r;
      }
      assert kept == (k in m);
      keep := keep + (if kept then [k] else []);
      lAdd := lAdd + (if kept && k !in l then [k] else []);
      lRem := lRem + (if !kept && k in l then [k] else []);
      rAdd := rAdd + (if kept && k !in r then [k] else []);
      rRem := rRem + (if !kept && k in r then [k] else []);
    }
    assert keys[..|keys|] == keys;
    PickAll(keys, m);
    PickAll(keys, m - l);
    PickAll(keys, l - m);
    PickAll(keys, m - r);
    PickAll(keys, r - m);
    p := SetPlan(Elems(keep), lAdd, lRem, rAdd, rRem);
  }

  /** What a side holds once a list of items is added and another removed. */
  function Changed(s: set<string>, add: seq<string>, remove: seq<string>): set<string> {
    (s + Elems(add)) - Elems(remove)
  }

  lemma ChangedReaches(s: set<string>, m: set<string>)
    ensures Changed(s, Sorted(m - s), Sorted(s - m)) == m
  {
    var add, remove := m - s, s - m;
    assert Elems(Sorted(add)) == add && Elems(Sorted(remove)) == remove;
    assert (s + add) - remove == m;
  }

  /**
   Each side's diff, applied to that side, reaches the one merged set.
   */
  lemma MergeSetMeetsBothSides(b: set<string>, l: set<string>, r: set<string>)
    ensures var p := MergeSetSpec(b, l, r);
            && Changed(l, p.lAdd, p.lRem) == p.merged == Changed(r, p.rAdd, p.rRem)
  {
    ChangedReaches(l, Merged(b, l, r));
    ChangedReaches(r, Merged(b, l, r));
  }

  lemma MergeSetKeepsEdits(b: set<string>, l: set<string>, r: set<string>)
    ensures var m := Merged(b, l, r);
            && (l - b) + (r - b) <= m          // what a side added
            && m !! (b - l) + (b - r)          // what a side removed
            && b * l * r <= m <= l + r         // the rest stays, and nothing else comes
  {
    var m := Merged(b, l, r);
    assert forall x :: x in m <==> (x in b + l + r && Survives(b, l, r, x));
  }

  lemma MergeSetSymmetric(b: set<string>, l: set<string>, r: set<string>)
    ensures var p, q := MergeSetSpec(b, l, r), MergeSetSpec(b, r, l);
            q == SetPlan(p.merged, p.rAdd, p.rRem, p.lAdd, p.lRem)
  {
    assert Merged(b, l, r) == Merged(b, r, l);
  }

  /** Against the old base, the merged set on one or both sides is already merged. */
  lemma MergeSetSettled(b: set<string>, l: set<string>, r: set<string>)
    ensures var m := Merged(b, l, r);
            Merged(b, m, m) == Merged(b, l, m) == Merged(b, m, r) == Merged(m, m, m) == m
  {
  }
}
