/** The second import of a document: what the first left is what it wants. */
module Reimport {
  import Documents
  import opened Order
  import opened Ordinals
  import opened Imports
  import opened ImportFacts
  import opened Numbering

  // ---- each entity is wanted once ----

  lemma TypeWantsDistinct(d: Document, ordinals: map<string, int>)
    requires Distinct(TypeKeys(d))
    ensures DistinctWants(TypeWants(d, ordinals))
    ensures forall w :: w in TypeWants(d, ordinals) ==> w.key.shape == TypeShape
  {
    hide TypeAttributes;
    TypeWantsAre(d, ordinals);
    var ws := TypeWants(d, ordinals);
    forall i, j | 0 <= i < j < |ws| ensures ws[i].key != ws[j].key { assert TypeKeys(d)[i] != TypeKeys(d)[j]; }
  }

  lemma FieldWantsDistinct(t: TypeDoc, ordinals: map<string, int>, c: Entities)
    requires '/' !in t.key && Distinct(FieldKeys(t))
    ensures DistinctWants(FieldWants(t, t.fields, ordinals, c))
    ensures forall w :: w in FieldWants(t, t.fields, ordinals, c) ==> w.key.shape == FieldShape && TypeName(w.key.name) == t.key
  {
    hide FieldAttributes, Join, TypeName;
    FieldWantsAre(t, t.fields, ordinals, c);
    var ws := FieldWants(t, t.fields, ordinals, c);
    forall i, j | 0 <= i < j < |ws| ensures ws[i].key != ws[j].key { assert FieldKeys(t)[i] != FieldKeys(t)[j]; }
    forall w | w in ws ensures w.key.shape == FieldShape && TypeName(w.key.name) == t.key {
      var i :| 0 <= i < |ws| && ws[i] == w;
      TypeNameJoin(t.key, t.fields[i].key);
    }
  }

  lemma DistinctConcat(a: seq<Want>, b: seq<Want>)
    requires DistinctWants(a) && DistinctWants(b)
    requires forall v, w :: v in a && w in b ==> v.key != w.key
    ensures DistinctWants(a + b)
  {
  }

  lemma {:induction false} AllFieldWantsDistinct(d: Document, c: Entities)
    requires ValidDocument(d)
    ensures DistinctWants(AllFieldWants(d, c))
    ensures forall w :: w in AllFieldWants(d, c) ==> w.key.shape == FieldShape && TypeName(w.key.name) in TypeKeys(d)
  {
    hide FieldNumbers, TypeName, FieldKeys, FieldWants;
    if d != [] {
      var n := |d| - 1;
      var t := d[n];
      FrontValid(d);
      AllFieldWantsDistinct(d[..n], c);
      FieldWantsDistinct(t, FieldNumbers(t, c), c);
      DistinctConcat(AllFieldWants(d[..n], c), FieldWants(t, t.fields, FieldNumbers(t, c), c));
    }
  }

  lemma FrontValid(d: Document)
    requires ValidDocument(d) && d != []
    ensures ValidDocument(d[..|d| - 1]) && d[|d| - 1] in d && d[|d| - 1].key !in TypeKeys(d[..|d| - 1])
    ensures d[|d| - 1].key in TypeKeys(d) && forall k :: k in TypeKeys(d[..|d| - 1]) ==> k in TypeKeys(d)
  {
    hide FieldKeys, ValueIds;
    var n := |d| - 1;
    assert TypeKeys(d)[..n] == TypeKeys(d[..n]) && TypeKeys(d)[n] == d[n].key;
    forall k | k in TypeKeys(d[..n]) ensures k in TypeKeys(d) && k != d[n].key {
      var i :| 0 <= i < n && TypeKeys(d[..n])[i] == k;
      assert TypeKeys(d)[i] == k;
    }
    forall i, j | 0 <= i < j < n ensures TypeKeys(d[..n])[i] != TypeKeys(d[..n])[j] {
      assert TypeKeys(d)[i] != TypeKeys(d)[j];
    }
  }

  lemma WantsDistinct(d: Document, c: Entities)
    requires ValidDocument(d)
    ensures DistinctWants(Wants(d, c))
  {
    hide TypeNumbers, TypeName, AllFieldWants, TypeWants;
    TypeWantsDistinct(d, TypeNumbers(d, c));
    AllFieldWantsDistinct(d, c);
    DistinctConcat(TypeWants(d, TypeNumbers(d, c)), AllFieldWants(d, c));
  }

  // ---- an import, entity by entity ----

  function Imported(d: Document, c: Entities, prune: bool): Entities { Apply(c, Reconcile(d, c, prune)) }

  lemma KeysIn(ws: seq<Want>, w: Want)
    requires w in ws
    ensures w.key in KeysOf(ws)
  {
  }

  lemma ImportedIs(d: Document, c: Entities, prune: bool)
    requires ValidDocument(d)
    ensures var met := Met(c, Wants(d, c));
            Imported(d, c, prune) == if prune then map k | k in met && k in KeysOf(Wants(d, c)) :: met[k] else met
  {
    hide Wants, Diffs, Prunes, Apply, Met;
    var ws := Wants(d, c);
    WantsDistinct(d, c);
    DiffsApplied(c, ws);
    if prune {
      ApplyConcat(c, Diffs(c, ws), Prunes(c, KeysOf(ws)));
      MetKeys(c, ws);
      PrunesApplied(c, Met(c, ws), KeysOf(ws));
    } else {
      assert Diffs(c, ws) + [] == Diffs(c, ws);
    }
  }

  lemma MetKeys(c: Entities, ws: seq<Want>)
    requires DistinctWants(ws)
    ensures Met(c, ws).Keys == c.Keys + KeysOf(ws)
  {
    hide Met, Result;
    forall k ensures k in Met(c, ws) <==> k in c || k in KeysOf(ws) {
      MetAt(c, ws, k);
      if k in KeysOf(ws) { var w :| w in ws && w.key == k; }
    }
  }

  /**
   After an import: an entity the document states has every stated value, no owned attribute
   it does not state, and whatever else it had; any other is as it was, or gone under a prune.
   */
  lemma ImportedAt(d: Document, c: Entities, prune: bool, k: EntityKey, a: Attr)
    requires ValidDocument(d)
    ensures var after := Imported(d, c, prune);
            && (k !in KeysOf(Wants(d, c)) ==>
                  if prune then k !in after else (k in after <==> k in c) && (k in c ==> after[k] == c[k]))
            && forall w :: w in Wants(d, c) && w.key == k ==>
                 && k in after
                 && (if a in w.attrs then a in after[k] && after[k][a] == w.attrs[a]
                     else if Owned(k.shape, a) then a !in after[k]
                     else (a in after[k] <==> a in AttrsAt(c, k)) && (a in after[k] ==> after[k][a] == c[k][a]))
  {
    hide Wants, Met, Result, Apply, Reconcile;
    var ws := Wants(d, c);
    WantsDistinct(d, c);
    ImportedIs(d, c, prune);
    MetAt(c, ws, k);
    forall w | w in ws && w.key == k
      ensures k in Imported(d, c, prune) && Imported(d, c, prune)[k] == Result(c, w)
      ensures if a in w.attrs then a in Result(c, w) && Result(c, w)[a] == w.attrs[a]
              else if Owned(k.shape, a) then a !in Result(c, w)
              else (a in Result(c, w) <==> a in AttrsAt(c, k)) && (a in Result(c, w) ==> Result(c, w)[a] == c[k][a])
    {
      KeysIn(ws, w);
      ResultAt(c, w, a);
    }
  }

  /** What an import leaves of every entity the document states. */
  ghost predicate MeetsAll(c: Entities, after: Entities, ws: seq<Want>) {
    forall w :: w in ws ==> w.key in after && after[w.key] == Result(c, w)
  }

  lemma ImportedMeets(d: Document, c: Entities, prune: bool)
    requires ValidDocument(d)
    ensures MeetsAll(c, Imported(d, c, prune), Wants(d, c))
    ensures prune ==> Imported(d, c, prune).Keys == KeysOf(Wants(d, c))
  {
    hide Wants, Met, Result, Apply, Reconcile;
    var ws := Wants(d, c);
    WantsDistinct(d, c);
    ImportedIs(d, c, prune);
    MetKeys(c, ws);
    forall w | w in ws ensures w.key in Imported(d, c, prune) && Imported(d, c, prune)[w.key] == Result(c, w) {
      KeysIn(ws, w);
      MetAt(c, ws, w.key);
    }
  }

  // ---- the numbers a second import finds ----

  /** A field's values number themselves the same again. */
  lemma ValuesAgain(t: TypeDoc, f: FieldDoc, ordinals: map<string, int>, c: Entities)
    requires Distinct(ValueIds(f))
    ensures var w := FieldWant(t, f, ordinals, c);
            FieldAttributes(f, NumberOf(ordinals, w.key.name), Result(c, w)) == w.attrs
  {
    hide FieldAttributes, Assigned, Result, Join;
    var w := FieldWant(t, f, ordinals, c);
    var have := AttrsAt(c, w.key);
    var given := Assigned(ValueIds(f), ValueOrdinals(have));
    FieldOrdinal(f, NumberOf(ordinals, w.key.name), have);
    AssignedKeys(ValueIds(f), ValueOrdinals(have));
    forall id ensures ValueOf(id) in Result(c, w) <==> id in given
      ensures id in given ==> Result(c, w)[ValueOf(id)] == w.attrs[ValueOf(id)]
    {
      ResultAt(c, w, ValueOf(id));
    }
    assert ValueOrdinals(Result(c, w)) == given;
    AssignedAgain(ValueIds(f), ValueOrdinals(have));
    SameFieldAttributes(f, NumberOf(ordinals, w.key.name), have, Result(c, w));
  }

  ghost predicate Carries(c: Entities, shape: Shape, keys: seq<string>, ordinals: map<string, int>) {
    forall k :: k in keys ==>
      EntityKey(shape, k) in c && OrdinalOf(c[EntityKey(shape, k)]) == Documents.Some(NumberOf(ordinals, k))
  }

  /** A list of entities that carry the numbers just assigned number themselves the same again. */
  lemma OrdinalsAgain(c: Entities, after: Entities, shape: Shape, keys: seq<string>)
    requires Distinct(keys)
    requires Carries(after, shape, keys, Assigned(keys, CurrentOrdinals(c, shape, keys)))
    ensures Assigned(keys, CurrentOrdinals(after, shape, keys)) == Assigned(keys, CurrentOrdinals(c, shape, keys))
  {
    hide Assigned, OrdinalOf;
    var given := Assigned(keys, CurrentOrdinals(c, shape, keys));
    AssignedKeys(keys, CurrentOrdinals(c, shape, keys));
    assert CurrentOrdinals(after, shape, keys) == given;
    AssignedAgain(keys, CurrentOrdinals(c, shape, keys));
  }

  lemma TypeNumbersAgain(d: Document, c: Entities, after: Entities)
    requires ValidDocument(d) && MeetsAll(c, after, Wants(d, c))
    ensures TypeNumbers(d, after) == TypeNumbers(d, c)
  {
    hide Assigned, CurrentOrdinals, AllFieldWants, TypeWants, Result, FieldKeys, ValueIds, TypeAttributes;
    var ordinals := TypeNumbers(d, c);
    TypeWantsAre(d, ordinals);
    forall k | k in TypeKeys(d)
      ensures EntityKey(TypeShape, k) in after && OrdinalOf(after[EntityKey(TypeShape, k)]) == Documents.Some(NumberOf(ordinals, k))
    {
      var i :| 0 <= i < |d| && TypeKeys(d)[i] == k;
      var w := TypeWant(d[i], ordinals);
      TypeOrdinal(d[i], NumberOf(ordinals, k));
      assert w == TypeWants(d, ordinals)[i] && w in Wants(d, c);
      ResultAt(c, w, Ordinal);
    }
    OrdinalsAgain(c, after, TypeShape, TypeKeys(d));
  }

  lemma FieldWanted(d: Document, c: Entities, t: TypeDoc, f: FieldDoc)
    requires t in d && f in t.fields
    ensures FieldWant(t, f, FieldNumbers(t, c), c) in Wants(d, c)
  {
    hide FieldNumbers, FieldWant, AllFieldWants;
    AllFieldWantsAre(d, c);
    assert FieldWant(t, f, FieldNumbers(t, c), c) in AllFieldWants(d, c);
  }

  lemma FieldNumbersAgain(d: Document, c: Entities, after: Entities, t: TypeDoc)
    requires ValidDocument(d) && MeetsAll(c, after, Wants(d, c)) && t in d
    ensures FieldNumbers(t, after) == FieldNumbers(t, c)
  {
    hide Assigned, CurrentOrdinals, Wants, Result, ValueIds, FieldAttributes, Join;
    var ordinals := FieldNumbers(t, c);
    forall k | k in FieldKeys(t)
      ensures EntityKey(FieldShape, k) in after && OrdinalOf(after[EntityKey(FieldShape, k)]) == Documents.Some(NumberOf(ordinals, k))
    {
      var i :| 0 <= i < |t.fields| && FieldKeys(t)[i] == k;
      var w := FieldWant(t, t.fields[i], ordinals, c);
      FieldWanted(d, c, t, t.fields[i]);
      FieldOrdinal(t.fields[i], NumberOf(ordinals, k), AttrsAt(c, w.key));
      ResultAt(c, w, Ordinal);
    }
    OrdinalsAgain(c, after, FieldShape, FieldKeys(t));
  }

  // ---- the second import ----

  lemma {:induction false} FieldWantsAgain(d: Document, c: Entities, after: Entities, n: nat)
    requires ValidDocument(d) && MeetsAll(c, after, Wants(d, c)) && n <= |d|
    ensures AllFieldWants(d[..n], after) == AllFieldWants(d[..n], c)
  {
    hide Wants, MeetsAll, FieldNumbers, FieldWant;
    if n > 0 {
      var t := d[n - 1];
      assert t in d && d[..n][..n - 1] == d[..n - 1];
      FieldWantsAgain(d, c, after, n - 1);
      FieldNumbersAgain(d, c, after, t);
      var ordinals := FieldNumbers(t, c);
      FieldWantsAre(t, t.fields, ordinals, c);
      FieldWantsAre(t, t.fields, ordinals, after);
      forall i | 0 <= i < |t.fields| ensures FieldWant(t, t.fields[i], ordinals, after) == FieldWant(t, t.fields[i], ordinals, c) {
        FieldWantAgain(d, c, after, t, t.fields[i]);
      }
      assert FieldWants(t, t.fields, ordinals, after) == FieldWants(t, t.fields, ordinals, c);
    }
  }

  lemma FieldWantAgain(d: Document, c: Entities, after: Entities, t: TypeDoc, f: FieldDoc)
    requires ValidDocument(d) && MeetsAll(c, after, Wants(d, c)) && t in d && f in t.fields
    ensures FieldWant(t, f, FieldNumbers(t, c), after) == FieldWant(t, f, FieldNumbers(t, c), c)
  {
    hide Wants, Result, FieldAttributes, FieldNumbers, Join, ValueIds;
    FieldWanted(d, c, t, f);
    ValuesAgain(t, f, FieldNumbers(t, c), c);
  }

  lemma {:induction false} NothingToDo(c: Entities, after: Entities, ws: seq<Want>)
    requires MeetsAll(c, after, ws)
    ensures Diffs(after, ws) == []
  {
    if ws != [] {
      hide Result;
      var n := |ws| - 1;
      assert ws[n] in ws;
      NothingToDo(c, after, ws[..n]);
      ResultSettled(c, ws[n]);
    }
  }

  /** An import is idempotent: run again on what it left, it has nothing to write. */
  lemma ImportAgain(d: Document, c: Entities, prune: bool)
    requires ValidDocument(d)
    ensures Reconcile(d, Imported(d, c, prune), prune) == []
  {
    hide Diffs, TypeWants, AllFieldWants, MeetsAll, TypeNumbers, Imported, Prunes;
    var after := Imported(d, c, prune);
    ImportedMeets(d, c, prune);
    TypeNumbersAgain(d, c, after);
    FieldWantsAgain(d, c, after, |d|);
    assert d[..|d|] == d;
    assert Wants(d, after) == Wants(d, c);
    NothingToDo(c, after, Wants(d, c));
    if prune { NothingToPrune(after, KeysOf(Wants(d, c))); }
  }

  lemma NothingToPrune(c: Entities, matched: set<EntityKey>)
    requires c.Keys == matched
    ensures Prunes(c, matched) == []
  {
    assert Orphans(c, matched, FieldShape) == {} && Orphans(c, matched, TypeShape) == {};
  }
}
