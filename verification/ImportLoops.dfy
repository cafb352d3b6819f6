/** An import over a store's entities. */
module ImportLoops {
  // What to write, and what the writes leave.

  import opened Order
  import opened Ordinals
  import opened OrdinalsLoops
  import opened Imports
  import opened ImportFacts
  import opened Reimport

  datatype Entry = Entry(id: string, key: EntityKey, attrs: Attrs)

  function AsMap(entries: seq<Entry>): Entities {
    if entries == [] then map[] else AsMap(entries[..|entries| - 1])[entries[|entries| - 1].key := entries[|entries| - 1].attrs]
  }

  /** One entry a key. */
  ghost predicate OnePerKey(entries: seq<Entry>) { forall i, j :: 0 <= i < j < |entries| ==> entries[i].key != entries[j].key }

  lemma {:induction false} AsMapAt(entries: seq<Entry>, i: nat)
    requires OnePerKey(entries) && i < |entries|
    ensures entries[i].key in AsMap(entries) && AsMap(entries)[entries[i].key] == entries[i].attrs
  {
    if i < |entries| - 1 { AsMapAt(entries[..|entries| - 1], i); }
  }

  lemma {:induction false} AsMapKeys(entries: seq<Entry>)
    ensures forall k :: k in AsMap(entries) <==> exists i :: 0 <= i < |entries| && entries[i].key == k
  {
    if entries != [] {
      var n := |entries| - 1;
      AsMapKeys(entries[..n]);
      forall k | k in AsMap(entries) ensures exists i :: 0 <= i < |entries| && entries[i].key == k {
        if k == entries[n].key { } else { assert k in AsMap(entries[..n]); var i :| 0 <= i < |entries[..n]| && entries[..n][i].key == k; assert entries[i].key == k; }
      }
      forall i | 0 <= i < |entries| ensures entries[i].key in AsMap(entries) {
        if i < n { assert entries[..n][i].key == entries[i].key; }
      }
    }
  }

  // ---- applying changes to the list ----

  /** A create is of an entity that is not there. */
  ghost predicate CreatesNew(current: seq<Entry>, changes: seq<Change>) {
    forall i :: 0 <= i < |changes| && changes[i].Create? ==>
      changes[i].key !in AsMap(current) && forall j :: 0 <= j < i && changes[j].Create? ==> changes[j].key != changes[i].key
  }

  /** Where each key's entry is. */
  ghost predicate Indexed(out: seq<Entry>, index: map<EntityKey, int>) {
    && (forall k :: k in index ==> 0 <= index[k] < |out| && out[index[k]].key == k)
    && (forall i :: 0 <= i < |out| ==> out[i].key in index && index[out[i].key] == i)
  }

  ghost function Live(out: seq<Entry>, index: map<EntityKey, int>, archived: set<int>): Entities
    requires Indexed(out, index)
  {
    map k | k in index && index[k] !in archived :: out[index[k]].attrs
  }

  lemma LiveCreated(out: seq<Entry>, index: map<EntityKey, int>, archived: set<int>, e: Entry)
    requires Indexed(out, index) && e.key !in index && forall i :: i in archived ==> 0 <= i < |out|
    ensures Indexed(out + [e], index[e.key := |out|])
    ensures Live(out + [e], index[e.key := |out|], archived) == Live(out, index, archived)[e.key := e.attrs]
  {
    var index' := index[e.key := |out|];
    forall i | 0 <= i < |out + [e]| ensures (out + [e])[i].key in index' && index'[(out + [e])[i].key] == i {
      if i < |out| { assert out[i].key in index; }
    }
  }

  lemma LiveUpdated(out: seq<Entry>, index: map<EntityKey, int>, archived: set<int>, at: nat, attrs: Attrs)
    requires Indexed(out, index) && at < |out|
    ensures var more := out[at := out[at].(attrs := attrs)];
            var live := Live(out, index, archived);
            && Indexed(more, index)
            && Live(more, index, archived) == if at in archived then live else live[out[at].key := attrs]
  {
    var more := out[at := out[at].(attrs := attrs)];
    forall i | 0 <= i < |more| ensures more[i].key == out[i].key { }
  }

  lemma LiveArchived(out: seq<Entry>, index: map<EntityKey, int>, archived: set<int>, k: EntityKey)
    requires Indexed(out, index) && k in index
    ensures Live(out, index, archived + {index[k]}) == Live(out, index, archived) - {k}
  {
    forall j | j in index && j != k ensures index[j] != index[k] { }
  }

  lemma IndexedAt(out: seq<Entry>, index: map<EntityKey, int>, k: EntityKey)
    requires Indexed(out, index)
    ensures k in index ==> 0 <= index[k] < |out| && out[index[k]].key == k
  {
  }

  lemma LiveHas(out: seq<Entry>, index: map<EntityKey, int>, archived: set<int>, k: EntityKey)
    requires Indexed(out, index)
    ensures k in Live(out, index, archived) <==> k in index && index[k] !in archived
    ensures k in Live(out, index, archived) ==> Live(out, index, archived)[k] == out[index[k]].attrs
    ensures k !in Live(out, index, archived) ==> Live(out, index, archived) - {k} == Live(out, index, archived)
  {
  }

  lemma LiveFirst(current: seq<Entry>, index: map<EntityKey, int>)
    requires OnePerKey(current) && Indexed(current, index)
    ensures Live(current, index, {}) == AsMap(current) && index.Keys == AsMap(current).Keys
  {
    AsMapKeys(current);
    forall k | k in index ensures AsMap(current)[k] == current[index[k]].attrs { AsMapAt(current, index[k]); }
  }

  method IndexOf(current: seq<Entry>) returns (index: map<EntityKey, int>)
    requires OnePerKey(current)
    ensures Indexed(current, index)
  {
    index := map[];
    for i := 0 to |current|
      invariant forall k :: k in index ==> 0 <= index[k] < i && current[index[k]].key == k
      invariant forall j :: 0 <= j < i ==> current[j].key in index && index[current[j].key] == j
    {
      index := index[current[i].key := i];
    }
  }

  method ApplyStep(out: seq<Entry>, index: map<EntityKey, int>, archived: set<int>, ch: Change)
    returns (out': seq<Entry>, index': map<EntityKey, int>, archived': set<int>)
    requires Indexed(out, index) && forall a :: a in archived ==> 0 <= a < |out|
    requires ch.Create? ==> ch.key !in index
    ensures Indexed(out', index') && forall a :: a in archived' ==> 0 <= a < |out'|
    ensures Live(out', index', archived') == ApplyOne(Live(out, index, archived), ch)
    ensures index'.Keys == if ch.Create? then index.Keys + {ch.key} else index.Keys
  {
    hide Live, Indexed;
    LiveHas(out, index, archived, ch.key);
    IndexedAt(out, index, ch.key);
    out', index', archived' := out, index, archived;
    match ch {
      case Create(k, attrs) =>
        LiveCreated(out, index, archived, Entry("", k, attrs));
        index' := index[k := |out|];
        out' := out + [Entry("", k, attrs)];
      case Update(k, attrs, remove) =>
        if k in index {
          var e := out[index[k]];
          LiveUpdated(out, index, archived, index[k], e.attrs + attrs - remove);
          out' := out[index[k] := e.(attrs := e.attrs + attrs - remove)];
        }
      case Archive(k) =>
        if k in index {
          LiveArchived(out, index, archived, k);
          archived' := archived + {index[k]};
        }
    }
  }

  method ApplyChanges(current: seq<Entry>, changes: seq<Change>) returns (kept: seq<Entry>)
    requires OnePerKey(current) && CreatesNew(current, changes)
    ensures OnePerKey(kept) && AsMap(kept) == Apply(AsMap(current), changes)
  {
    hide AsMap, Live, ApplyOne, Indexed;
    var index := IndexOf(current);
    LiveFirst(current, index);
    var out, archived: set<int> := current, {};
    for i := 0 to |changes|
      invariant Indexed(out, index) && forall a :: a in archived ==> 0 <= a < |out|
      invariant Live(out, index, archived) == Apply(AsMap(current), changes[..i])
      invariant forall k :: k in index ==> k in AsMap(current) || exists j :: 0 <= j < i && changes[j].Create? && changes[j].key == k
    {
      assert changes[..i + 1][..i] == changes[..i];
      out, index, archived := ApplyStep(out, index, archived, changes[i]);
    }
    assert changes[..|changes|] == changes;
    kept := Filter(out, index, archived);
  }

  /** The entries not archived, in their order. */
  method Filter(out: seq<Entry>, ghost index: map<EntityKey, int>, archived: set<int>) returns (kept: seq<Entry>)
    requires Indexed(out, index)
    ensures OnePerKey(kept) && AsMap(kept) == Live(out, index, archived)
  {
    kept := [];
    for i := 0 to |out|
      invariant OnePerKey(kept) && forall k :: k in AsMap(kept) <==> k in index && index[k] < i && index[k] !in archived
      invariant forall k :: k in AsMap(kept) ==> AsMap(kept)[k] == out[index[k]].attrs
    {
      if i !in archived {
        AsMapKeys(kept);
        assert (kept + [out[i]])[..|kept|] == kept;
        kept := kept + [out[i]];
      }
    }
  }

  // ---- the changes an import makes ----

  method TypeChanges(d: Document, c: Entities) returns (changes: seq<Change>)
    requires ValidDocument(d)
    ensures changes == Diffs(c, TypeWants(d, TypeNumbers(d, c)))
  {
    hide Diff, TypeWant, ValidDocument, Assigned;
    assert Distinct(TypeKeys(d)) by { TypesDistinct(d); }
    var ordinals := AssignOrdinals(TypeKeys(d), CurrentOrdinals(c, TypeShape, TypeKeys(d)));
    changes := [];
    for i := 0 to |d|
      invariant changes == Diffs(c, TypeWants(d[..i], ordinals))
    {
      assert d[..i + 1][..i] == d[..i];
      var ws := TypeWants(d[..i], ordinals);
      assert (ws + [TypeWant(d[i], ordinals)])[..|ws|] == ws;
      changes := changes + Diff(c, TypeWant(d[i], ordinals));
    }
    assert d[..|d|] == d;
  }

  lemma TypesDistinct(d: Document)
    requires ValidDocument(d)
    ensures Distinct(TypeKeys(d)) && forall t :: t in d ==> Distinct(FieldKeys(t))
  {
  }

  method FieldChanges(t: TypeDoc, c: Entities) returns (changes: seq<Change>)
    requires Distinct(FieldKeys(t))
    ensures changes == Diffs(c, FieldWants(t, t.fields, FieldNumbers(t, c), c))
  {
    hide Diff, FieldWant, Assigned;
    var ordinals := AssignOrdinals(FieldKeys(t), CurrentOrdinals(c, FieldShape, FieldKeys(t)));
    var fs := t.fields;
    changes := [];
    for i := 0 to |fs|
      invariant changes == Diffs(c, FieldWants(t, fs[..i], ordinals, c))
    {
      assert fs[..i + 1][..i] == fs[..i];
      var ws := FieldWants(t, fs[..i], ordinals, c);
      assert (ws + [FieldWant(t, fs[i], ordinals, c)])[..|ws|] == ws;
      changes := changes + Diff(c, FieldWant(t, fs[i], ordinals, c));
    }
    assert fs[..|fs|] == fs;
  }

  lemma {:induction false} DiffsConcat(c: Entities, a: seq<Want>, b: seq<Want>)
    ensures Diffs(c, a + b) == Diffs(c, a) + Diffs(c, b)
  {
    hide Diff;
    if b == [] {
      assert a + b == a;
    } else {
      DiffsConcat(c, a, b[..|b| - 1]);
      assert (a + b)[..|a + b| - 1] == a + b[..|b| - 1];
    }
  }

  /** What an import has to write over the entries as they stand. */
  method ReconcileEntries(d: Document, current: seq<Entry>, prune: bool) returns (changes: seq<Change>)
    requires ValidDocument(d) && OnePerKey(current)
    ensures changes == Reconcile(d, AsMap(current), prune)
  {
    hide Diffs, TypeWants, FieldWants, ValidDocument, FieldNumbers, TypeNumbers, FieldKeys, TypeKeys, Prunes;
    TypesDistinct(d);
    var c := AsMap(current);
    changes := TypeChanges(d, c);
    ghost var types := TypeWants(d, TypeNumbers(d, c));
    assert types + AllFieldWants(d[..0], c) == types;
    for i := 0 to |d|
      invariant changes == Diffs(c, types + AllFieldWants(d[..i], c))
    {
      assert d[..i + 1][..i] == d[..i];
      var more := FieldChanges(d[i], c);
      DiffsConcat(c, types + AllFieldWants(d[..i], c), FieldWants(d[i], d[i].fields, FieldNumbers(d[i], c), c));
      assert types + AllFieldWants(d[..i + 1], c)
          == (types + AllFieldWants(d[..i], c)) + FieldWants(d[i], d[i].fields, FieldNumbers(d[i], c), c);
      changes := changes + more;
    }
    assert d[..|d|] == d;
    if prune {
      changes := changes + Prunes(c, KeysOf(Wants(d, c)));
    }
  }

  /** The changes an import makes can be applied to the entries it was made over. */
  lemma CreatesAreNew(d: Document, current: seq<Entry>, prune: bool)
    requires ValidDocument(d)
    ensures CreatesNew(current, Reconcile(d, AsMap(current), prune))
  {
    hide Wants, AsMap;
    var c := AsMap(current);
    WantsDistinct(d, c);
    DiffCreates(c, Wants(d, c));
  }

  lemma {:induction false} DiffCreates(c: Entities, ws: seq<Want>)
    requires DistinctWants(ws)
    ensures forall i :: 0 <= i < |Diffs(c, ws)| && Diffs(c, ws)[i].Create? ==>
              && Diffs(c, ws)[i].key !in c && Diffs(c, ws)[i].key in KeysOf(ws)
              && forall j :: 0 <= j < i && Diffs(c, ws)[j].Create? ==> Diffs(c, ws)[j].key != Diffs(c, ws)[i].key
  {
    if ws != [] {
      var n := |ws| - 1;
      DiffCreates(c, ws[..n]);
      assert ws[n].key !in KeysOf(ws[..n]);
      assert KeysOf(ws) == KeysOf(ws[..n]) + {ws[n].key} by { assert forall w :: w in ws <==> w in ws[..n] || w == ws[n]; }
    }
  }
}
