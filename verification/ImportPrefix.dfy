/** A half-applied import still reads: at every point each field entity has its type's. */
module ImportPrefix {
  import opened Order
  import opened Imports
  import opened ImportFacts
  import opened Reimport

  /** Every field's type is there. */
  ghost predicate Readable(ks: set<EntityKey>) {
    forall k :: k in ks && k.shape == FieldShape ==> EntityKey(TypeShape, TypeName(k.name)) in ks
  }

  /** A prefix of the changes is the changes for a prefix of what is wanted. */
  lemma {:induction false} DiffsPrefix(c: Entities, ws: seq<Want>, n: nat) returns (m: nat)
    requires n <= |Diffs(c, ws)|
    ensures m <= |ws| && Diffs(c, ws)[..n] == Diffs(c, ws[..m])
  {
    hide Diff;
    if ws == [] {
      m := 0;
    } else {
      var front := ws[..|ws| - 1];
      if n <= |Diffs(c, front)| {
        m := DiffsPrefix(c, front, n);
        assert front[..m] == ws[..m];
      } else {
        m := |ws|;
        OneChange(c, ws[|ws| - 1]);
        assert ws[..m] == ws && Diffs(c, ws)[..n] == Diffs(c, ws);
      }
    }
  }

  lemma OneChange(c: Entities, w: Want)
    ensures |Diff(c, w)| <= 1
  {
  }

  lemma KeysConcat(a: seq<Want>, b: seq<Want>)
    ensures KeysOf(a + b) == KeysOf(a) + KeysOf(b)
  {
    forall k ensures k in KeysOf(a + b) <==> k in KeysOf(a) + KeysOf(b) {
      if k in KeysOf(a) { var w :| w in a && w.key == k; assert w in a + b; }
      if k in KeysOf(b) { var w :| w in b && w.key == k; assert w in a + b; }
    }
  }

  lemma TypesWanted(d: Document, c: Entities, t: string)
    requires t in TypeKeys(d)
    ensures EntityKey(TypeShape, t) in KeysOf(TypeWants(d, TypeNumbers(d, c)))
  {
    hide TypeAttributes, TypeNumbers;
    var ordinals := TypeNumbers(d, c);
    TypeWantsAre(d, ordinals);
    var i :| 0 <= i < |d| && TypeKeys(d)[i] == t;
    assert TypeWants(d, ordinals)[i].key == EntityKey(TypeShape, t) && TypeWants(d, ordinals)[i] in TypeWants(d, ordinals);
  }

  /** The entities of a prefix of the wants, types first, beside entities that read. */
  lemma WantsReadable(d: Document, c: Entities, m: nat)
    requires ValidDocument(d) && Readable(c.Keys) && m <= |Wants(d, c)|
    ensures Readable(c.Keys + KeysOf(Wants(d, c)[..m]))
  {
    hide TypeNumbers, TypeWants, AllFieldWants, TypeKeys, TypeName;
    var types, fields := TypeWants(d, TypeNumbers(d, c)), AllFieldWants(d, c);
    DistinctTypes(d);
    TypeWantsDistinct(d, TypeNumbers(d, c));
    AllFieldWantsDistinct(d, c);
    var ws := Wants(d, c)[..m];
    if m <= |types| {
      assert ws == types[..m];
    } else {
      assert ws == types + fields[..m - |types|];
      KeysConcat(types, fields[..m - |types|]);
      forall k | k in KeysOf(fields[..m - |types|]) ensures EntityKey(TypeShape, TypeName(k.name)) in KeysOf(types) {
        var w :| w in fields[..m - |types|] && w.key == k;
        assert w in fields;
        TypesWanted(d, c, TypeName(k.name));
      }
    }
  }

  lemma DistinctTypes(d: Document)
    requires ValidDocument(d)
    ensures Distinct(TypeKeys(d))
  {
  }

  lemma DiffsReadable(d: Document, c: Entities, n: nat)
    requires ValidDocument(d) && Readable(c.Keys) && n <= |Diffs(c, Wants(d, c))|
    ensures Readable(Apply(c, Diffs(c, Wants(d, c))[..n]).Keys)
  {
    hide Wants, Diffs, Readable, Apply, Met;
    WantsDistinct(d, c);
    var ws := Wants(d, c);
    var m := DiffsPrefix(c, ws, n);
    DiffsApplied(c, ws[..m]);
    MetKeys(c, ws[..m]);
    WantsReadable(d, c, m);
  }

  /** Pruned in part: some fields nothing matches gone, and types only after all of those. */
  lemma PrunesReadable(now: Entities, c: Entities, matched: set<EntityKey>, n: nat)
    requires Readable(now.Keys) && Readable(matched) && now.Keys == c.Keys + matched && n <= |Prunes(c, matched)|
    ensures Readable(Apply(now, Prunes(c, matched)[..n]).Keys)
  {
    hide Sorted, Orphans, Apply;
    var fields, types := Sorted(Orphans(c, matched, FieldShape)), Sorted(Orphans(c, matched, TypeShape));
    if n <= |fields| {
      assert Prunes(c, matched)[..n] == Archives(FieldShape, fields[..n]);
      ArchivesApplied(now, FieldShape, fields[..n]);
    } else {
      var some := types[..n - |fields|];
      assert Prunes(c, matched)[..n] == Archives(FieldShape, fields) + Archives(TypeShape, some);
      ApplyConcat(now, Archives(FieldShape, fields), Archives(TypeShape, some));
      ArchivesApplied(now, FieldShape, fields);
      ArchivesApplied(now - Named(FieldShape, Elems(fields)), TypeShape, some);
      forall k | k in now ensures k in Named(k.shape, Orphans(c, matched, k.shape)) <==> k !in matched {
        OrphanIs(c, matched, k);
      }
      FewerNamed(types, n - |fields|);
    }
  }

  lemma FewerNamed(names: seq<string>, n: nat)
    requires n <= |names|
    ensures Named(TypeShape, Elems(names[..n])) <= Named(TypeShape, Elems(names))
  {
  }

  /**
   Stopped after any number of its changes, an import leaves entities that read, if they read
   before: each field of a type that is there.
   */
  lemma HalfAppliedReads(d: Document, c: Entities, prune: bool, n: nat)
    requires ValidDocument(d) && Readable(c.Keys) && n <= |Reconcile(d, c, prune)|
    ensures Readable(Apply(c, Reconcile(d, c, prune)[..n]).Keys)
  {
    hide Wants, Diffs, Readable, Apply, Met, Prunes;
    var ws := Wants(d, c);
    var diffs, prunes := Diffs(c, ws), Prunes(c, KeysOf(ws));
    if n <= |diffs| {
      assert Reconcile(d, c, prune)[..n] == diffs[..n];
      DiffsReadable(d, c, n);
    } else {
      assert Reconcile(d, c, prune)[..n] == diffs + prunes[..n - |diffs|];
      ApplyConcat(c, diffs, prunes[..n - |diffs|]);
      DiffsReadable(d, c, |diffs|);
      assert diffs[..|diffs|] == diffs && ws[..|ws|] == ws;
      WantsDistinct(d, c);
      DiffsApplied(c, ws);
      MetKeys(c, ws);
      MatchedReadable(d, c);
      PrunesReadable(Met(c, ws), c, KeysOf(ws), n - |diffs|);
    }
  }

  /** Every field a document states is of a type it states. */
  lemma MatchedReadable(d: Document, c: Entities)
    requires ValidDocument(d)
    ensures Readable(KeysOf(Wants(d, c)))
  {
    hide TypeNumbers, TypeWants, AllFieldWants, TypeKeys, TypeName;
    DistinctTypes(d);
    TypeWantsDistinct(d, TypeNumbers(d, c));
    AllFieldWantsDistinct(d, c);
    var types, fields := TypeWants(d, TypeNumbers(d, c)), AllFieldWants(d, c);
    KeysConcat(types, fields);
    forall k | k in KeysOf(fields) ensures EntityKey(TypeShape, TypeName(k.name)) in KeysOf(types) {
      var w :| w in fields && w.key == k;
      TypesWanted(d, c, TypeName(k.name));
    }
  }
}
