/** What one want comes to, what applying an import's changes comes to, and which wants there are. */
module ImportFacts {
  import opened Order
  import opened Ordinals
  import opened Imports

  // ---- what one want comes to ----

  /** The attributes of a wanted entity once its change is applied. */
  function Result(c: Entities, w: Want): Attrs {
    if w.key in c then c[w.key] + ToSet(c[w.key], w.attrs) - ToRemove(w.key.shape, c[w.key], w.attrs) else w.attrs
  }

  /** A stated attribute has the stated value, an owned one not stated is gone, any other is as it was. */
  lemma ResultAt(c: Entities, w: Want, a: Attr)
    ensures a in w.attrs ==> a in Result(c, w) && Result(c, w)[a] == w.attrs[a]
    ensures a !in w.attrs && Owned(w.key.shape, a) ==> a !in Result(c, w)
    ensures a !in w.attrs && !Owned(w.key.shape, a) && w.key in c ==>
              (a in Result(c, w) <==> a in c[w.key]) && (a in c[w.key] ==> Result(c, w)[a] == c[w.key][a])
    ensures a !in w.attrs && w.key !in c ==> a !in Result(c, w)
  {
  }

  lemma ResultSettled(c: Entities, w: Want)
    ensures ToSet(Result(c, w), w.attrs) == map[] && ToRemove(w.key.shape, Result(c, w), w.attrs) == {}
  {
    forall a | a in w.attrs ensures a in Result(c, w) && Result(c, w)[a] == w.attrs[a] { ResultAt(c, w, a); }
    forall a | a in Result(c, w) && Owned(w.key.shape, a) ensures a in w.attrs { ResultAt(c, w, a); }
  }

  // ---- what applying changes comes to ----

  lemma {:induction false} ApplyConcat(c: Entities, a: seq<Change>, b: seq<Change>)
    ensures Apply(c, a + b) == Apply(Apply(c, a), b)
  {
    if b == [] {
      assert a + b == a;
    } else {
      ApplyConcat(c, a, b[..|b| - 1]);
      assert (a + b)[..|a + b| - 1] == a + b[..|b| - 1];
    }
  }

  lemma ApplySingle(c: Entities, ch: Change)
    ensures Apply(c, [ch]) == ApplyOne(c, ch)
  {
    assert [ch][..0] == [];
    assert Apply(c, []) == c;
  }

  lemma DiffApplied(c: Entities, now: Entities, w: Want)
    requires (w.key in now <==> w.key in c) && (w.key in c ==> now[w.key] == c[w.key])
    ensures Apply(now, Diff(c, w)) == now[w.key := Result(c, w)]
  {
    if Diff(c, w) == [] {
      assert Result(c, w) == c[w.key];
    } else {
      ApplySingle(now, Diff(c, w)[0]);
    }
  }

  ghost predicate DistinctWants(ws: seq<Want>) { forall i, j :: 0 <= i < j < |ws| ==> ws[i].key != ws[j].key }

  /** The entities after the wants are met. */
  function Met(c: Entities, ws: seq<Want>): Entities {
    if ws == [] then c else Met(c, ws[..|ws| - 1])[ws[|ws| - 1].key := Result(c, ws[|ws| - 1])]
  }

  lemma {:induction false} MetAt(c: Entities, ws: seq<Want>, k: EntityKey)
    requires DistinctWants(ws)
    ensures k !in KeysOf(ws) ==> (k in Met(c, ws) <==> k in c) && (k in c ==> Met(c, ws)[k] == c[k])
    ensures forall w :: w in ws && w.key == k ==> k in Met(c, ws) && Met(c, ws)[k] == Result(c, w)
  {
    if ws != [] {
      var n := |ws| - 1;
      MetAt(c, ws[..n], k);
      assert forall w :: w in ws <==> w in ws[..n] || w == ws[n];
      assert ws[n].key in KeysOf(ws);
      forall w | w in ws[..n] ensures w.key != ws[n].key && w.key in KeysOf(ws) { assert w in ws; }
      assert k !in KeysOf(ws) ==> k !in KeysOf(ws[..n]);
    }
  }

  lemma {:induction false} DiffsApplied(c: Entities, ws: seq<Want>)
    requires DistinctWants(ws)
    ensures Apply(c, Diffs(c, ws)) == Met(c, ws)
  {
    hide Diff, Result;
    if ws != [] {
      var n := |ws| - 1;
      DiffsApplied(c, ws[..n]);
      ApplyConcat(c, Diffs(c, ws[..n]), Diff(c, ws[n]));
      MetAt(c, ws[..n], ws[n].key);
      assert ws[n].key !in KeysOf(ws[..n]);
      DiffApplied(c, Met(c, ws[..n]), ws[n]);
    } else {
      assert Apply(c, []) == c;
    }
  }

  function Named(shape: Shape, names: set<string>): set<EntityKey> { set n | n in names :: EntityKey(shape, n) }

  lemma {:induction false} ArchivesApplied(c: Entities, shape: Shape, names: seq<string>)
    ensures Apply(c, Archives(shape, names)) == c - Named(shape, Elems(names))
  {
    if names == [] {
      assert c - Named(shape, Elems(names)) == c;
    } else {
      var n := |names| - 1;
      ArchivesApplied(c, shape, names[..n]);
      assert Archives(shape, names)[..n] == Archives(shape, names[..n]);
      ElemsAppend(names[..n], [names[n]]);
      assert names == names[..n] + [names[n]] && Elems([names[n]]) == {names[n]};
      assert Named(shape, Elems(names)) == Named(shape, Elems(names[..n])) + {EntityKey(shape, names[n])};
      MinusMore(c, Named(shape, Elems(names[..n])), EntityKey(shape, names[n]));
    }
  }

  lemma MinusMore(c: Entities, ks: set<EntityKey>, k: EntityKey)
    ensures c - (ks + {k}) == c - ks - {k}
  {
  }

  /** A prune leaves exactly the entities matched. */
  lemma PrunesApplied(c: Entities, now: Entities, matched: set<EntityKey>)
    requires now.Keys == c.Keys + matched
    ensures Apply(now, Prunes(c, matched)) == map k | k in now && k in matched :: now[k]
  {
    hide Archives, Sorted, Orphans, Named, Apply;
    var fields, types := Orphans(c, matched, FieldShape), Orphans(c, matched, TypeShape);
    ApplyConcat(now, Archives(FieldShape, Sorted(fields)), Archives(TypeShape, Sorted(types)));
    ArchivesApplied(now, FieldShape, Sorted(fields));
    ArchivesApplied(now - Named(FieldShape, fields), TypeShape, Sorted(types));
    forall k | k in now
      ensures k in matched <==> k !in Named(FieldShape, fields) && k !in Named(TypeShape, types)
    {
      OrphanIs(c, matched, k);
    }
  }

  lemma OrphanIs(c: Entities, matched: set<EntityKey>, k: EntityKey)
    ensures k in Named(k.shape, Orphans(c, matched, k.shape)) <==> k in c && k !in matched
    ensures forall s :: s != k.shape ==> k !in Named(s, Orphans(c, matched, s))
  {
    if k in c && k !in matched { assert k.name in Orphans(c, matched, k.shape); }
    assert k == EntityKey(k.shape, k.name);
  }

  // ---- the wants ----

  lemma {:induction false} TypeWantsAre(d: Document, ordinals: map<string, int>)
    ensures |TypeWants(d, ordinals)| == |d|
    ensures forall i :: 0 <= i < |d| ==> TypeWants(d, ordinals)[i] == TypeWant(d[i], ordinals)
  {
    hide TypeWant;
    if d != [] { TypeWantsAre(d[..|d| - 1], ordinals); }
  }

  lemma {:induction false} FieldWantsAre(t: TypeDoc, fields: seq<FieldDoc>, ordinals: map<string, int>, c: Entities)
    ensures |FieldWants(t, fields, ordinals, c)| == |fields|
    ensures forall i :: 0 <= i < |fields| ==> FieldWants(t, fields, ordinals, c)[i] == FieldWant(t, fields[i], ordinals, c)
  {
    hide FieldWant;
    if fields != [] { FieldWantsAre(t, fields[..|fields| - 1], ordinals, c); }
  }

  /** The type a field's key names: what comes before its first slash. */
  function TypeName(name: string): string {
    if name == "" || name[0] == '/' then "" else [name[0]] + TypeName(name[1..])
  }

  lemma {:induction false} TypeNameJoin(t: string, f: string)
    requires '/' !in t
    ensures TypeName(Join(t, f)) == t
  {
    if t != "" {
      assert Join(t, f)[1..] == Join(t[1..], f);
      assert t == [t[0]] + t[1..];
      TypeNameJoin(t[1..], f);
    }
  }

  /** A document's type, or one of a type's fields, is among its wants. */
  lemma {:induction false} AllFieldWantsAre(d: Document, c: Entities)
    ensures forall w :: w in AllFieldWants(d, c) <==>
              exists t, f :: t in d && f in t.fields && w == FieldWant(t, f, FieldNumbers(t, c), c)
  {
    hide FieldWant, FieldNumbers;
    if d != [] {
      var t := d[|d| - 1];
      AllFieldWantsAre(d[..|d| - 1], c);
      FieldWantsAre(t, t.fields, FieldNumbers(t, c), c);
      assert forall x :: x in d <==> x in d[..|d| - 1] || x == t;
      forall w ensures w in FieldWants(t, t.fields, FieldNumbers(t, c), c) <==> exists f :: f in t.fields && w == FieldWant(t, f, FieldNumbers(t, c), c) {
        if f :| f in t.fields && w == FieldWant(t, f, FieldNumbers(t, c), c) {
          var i :| 0 <= i < |t.fields| && t.fields[i] == f;
          assert FieldWants(t, t.fields, FieldNumbers(t, c), c)[i] == w;
        }
      }
    }
  }
}
