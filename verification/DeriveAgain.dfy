/** Derive is a fixpoint. */
module DeriveAgain {
  import opened Documents
  import opened Imports
  import opened Matching
  import opened MatchFacts
  import opened MatchPass
  import opened MatchAgain
  import opened Derivation
  import opened DeriveValueFacts
  import opened DeriveFacts

  /**
   At every level no two local entities share a key; nor do two values an alias, in a field that
   an ordered Jira field may be matched to.
   */
  ghost predicate DocumentOk(n: Naming, d: Document, o: Ordered) {
    DistinctKeys(TypeLevel(n), d) && forall t :: t in d ==> FieldsOk(n, t.fields, o)
  }

  /** At every level Jira's ids are distinct and none is empty, and the ordered fields are those given. */
  ghost predicate ProjectOk(n: Naming, p: Project, o: Ordered) {
    && DistinctIds(TypeLevel(n), p.types)
    && forall it, order: seq<Pair> :: it in p.types ==> WantsOk(n, WantsOf(p, order, it), o)
  }

  // ---- field passes change fields alone ----

  /** The same types, their fields aside. */
  ghost predicate SameTypes(a: seq<TypeDoc>, b: seq<TypeDoc>) {
    |a| == |b| && forall i :: 0 <= i < |a| ==> b[i] == a[i].(fields := b[i].fields)
  }

  lemma {:induction false} PassesSame(n: Naming, p: Project, order: seq<Pair>, ts: seq<TypeDoc>, its: seq<IssueType>)
    ensures SameTypes(ts, FieldPasses(n, p, order, ts, its))
  {
    if its != [] { PassesSame(n, p, order, ts, its[..|its| - 1]); }
  }

  lemma SameKeys(n: Naming, a: seq<TypeDoc>, b: seq<TypeDoc>)
    requires SameTypes(a, b) && DistinctKeys(TypeLevel(n), a)
    ensures DistinctKeys(TypeLevel(n), b)
  {
    var l := TypeLevel(n);
    forall i | 0 <= i < |b| ensures l.key(b[i]) == l.key(a[i]) { }
  }

  lemma SameHolds(n: Naming, a: seq<TypeDoc>, b: seq<TypeDoc>, it: IssueType, i: nat)
    requires SameTypes(a, b) && i < |a|
    ensures TypeLevel(n).key(a[i]) == TypeLevel(n).key(b[i])
    ensures HasAlias(TypeLevel(n), a[i], it) == HasAlias(TypeLevel(n), b[i], it)
    ensures Excludes(TypeLevel(n), a[i], it, {}) == Excludes(TypeLevel(n), b[i], it, {})
    ensures Fixed(TypeLevel(n), a[i], it) ==> Fixed(TypeLevel(n), b[i], it)
  {
    if Fixed(TypeLevel(n), a[i], it) {
      assert TypeLevel(n).touch([], a[i], it) == a[i];
      TypeFixed(n, b[i], it);
    }
  }

  lemma SameSettled(n: Naming, a: seq<TypeDoc>, b: seq<TypeDoc>, it: IssueType)
    requires SameTypes(a, b) && Settled(TypeLevel(n), a, it)
    ensures Settled(TypeLevel(n), b, it)
  {
    hide HasAlias, Excludes, Fixed, SameTypes, FirstAliased;
    var l := TypeLevel(n);
    SameLength(a, b);
    SameFirst(n, a, b, it);
    forall i: nat | i < |a|
      ensures l.key(a[i]) == l.key(b[i])
      ensures HasAlias(l, a[i], it) == HasAlias(l, b[i], it) && Excludes(l, a[i], it, {}) == Excludes(l, b[i], it, {})
      ensures Fixed(l, a[i], it) ==> Fixed(l, b[i], it)
    {
      SameHolds(n, a, b, it, i);
    }
    if i :| HeldBy(l, a, it, i) && Fixed(l, a[i], it) {
      assert HeldBy(l, b, it, i);
    } else {
      var i :| Excluder(l, a, it, {}, i);
      assert Excluder(l, b, it, {}, i);
    }
  }

  lemma SameLength(a: seq<TypeDoc>, b: seq<TypeDoc>)
    requires SameTypes(a, b)
    ensures |a| == |b|
  {
  }

  lemma {:induction false} SameFirst(n: Naming, a: seq<TypeDoc>, b: seq<TypeDoc>, it: IssueType)
    requires SameTypes(a, b)
    ensures FirstAliased(TypeLevel(n), a, it) == FirstAliased(TypeLevel(n), b, it)
  {
    if a != [] {
      SameFirst(n, a[..|a| - 1], b[..|b| - 1], it);
      SameHolds(n, a, b, it, |a| - 1);
    }
  }

  lemma {:induction false} SameOrder(n: Naming, a: seq<TypeDoc>, b: seq<TypeDoc>, its: seq<IssueType>)
    requires SameTypes(a, b)
    ensures OrderOf(TypeLevel(n), a, its) == OrderOf(TypeLevel(n), b, its)
  {
    hide FirstAliased;
    if its != [] {
      SameOrder(n, a, b, its[..|its| - 1]);
      SameFirst(n, a, b, its[|its| - 1]);
    }
  }

  // ---- the field passes again ----

  /** An issue type's pass over its type's fields changes nothing. */
  ghost predicate FieldsFixed(n: Naming, p: Project, order: seq<Pair>, ts: seq<TypeDoc>, it: IssueType) {
    forall i :: 0 <= i < |ts| && MappedKey(order, it.id) == Some(ts[i].key) ==>
      DeriveFields(n, ts[i].fields, WantsOf(p, order, it)) == ts[i].fields
  }

  /** No two issue types have one local type. */
  ghost predicate OneEach(order: seq<Pair>, its: seq<IssueType>) {
    forall i, k :: 0 <= i < k < |its| && MappedKey(order, its[i].id).Some? ==>
      MappedKey(order, its[i].id) != MappedKey(order, its[k].id)
  }

  lemma TypeAt(n: Naming, ts: seq<TypeDoc>, k: string, i: nat)
    requires DistinctKeys(TypeLevel(n), ts) && i < |ts| && ts[i].key == k
    ensures HasKey(TypeLevel(n), ts, k) && IndexOf(TypeLevel(n), ts, k) == i
  {
    var l := TypeLevel(n);
    assert l.key(ts[i]) == k;
    var j := IndexOf(l, ts, k);
    assert l.key(ts[j]) == l.key(ts[i]);
  }

  lemma PassFixes(n: Naming, p: Project, order: seq<Pair>, now: seq<TypeDoc>, it: IssueType, o: Ordered)
    requires DocumentOk(n, now, o) && WantsOk(n, WantsOf(p, order, it), o)
    ensures var after := FieldPass(n, p, order, now, it);
            FieldsFixed(n, p, order, after, it) && SameTypes(now, after) && forall t :: t in after ==> FieldsOk(n, t.fields, o)
  {
    hide FieldsOk, WantsOk, WantsOf, DeriveFields;
    var after := FieldPass(n, p, order, now, it);
    var k := MappedKey(order, it.id);
    if k.Some? && HasKey(TypeLevel(n), now, k.value) {
      var i := IndexOf(TypeLevel(n), now, k.value);
      FieldsAgain(n, now[i].fields, WantsOf(p, order, it), o);
      forall j | 0 <= j < |after| && after[j].key == k.value ensures j == i { TypeAt(n, now, k.value, j); }
    } else if k.Some? {
      forall j | 0 <= j < |now| ensures now[j].key != k.value { assert TypeLevel(n).key(now[j]) == now[j].key; }
    }
  }

  /** A pass over another type's fields leaves one type's fixed. */
  lemma PassSpares(n: Naming, p: Project, order: seq<Pair>, now: seq<TypeDoc>, it: IssueType, other: IssueType)
    requires FieldsFixed(n, p, order, now, other)
    requires MappedKey(order, other.id).Some? ==> MappedKey(order, other.id) != MappedKey(order, it.id)
    ensures FieldsFixed(n, p, order, FieldPass(n, p, order, now, it), other)
  {
    hide DeriveFields, WantsOf;
    var after := FieldPass(n, p, order, now, it);
    forall i | 0 <= i < |after| && MappedKey(order, other.id) == Some(after[i].key)
      ensures DeriveFields(n, after[i].fields, WantsOf(p, order, other)) == after[i].fields
    {
      var k := MappedKey(order, it.id);
      if k.Some? && HasKey(TypeLevel(n), now, k.value) {
        var j := IndexOf(TypeLevel(n), now, k.value);
        assert TypeLevel(n).key(now[j]) == now[j].key;
        assert i != j;
      }
      assert after[i] == now[i];
    }
  }

  lemma {:induction false} PassesFix(n: Naming, p: Project, order: seq<Pair>, ts: seq<TypeDoc>, its: seq<IssueType>, o: Ordered)
    requires DocumentOk(n, ts, o) && OneEach(order, its) && forall it :: it in its ==> WantsOk(n, WantsOf(p, order, it), o)
    ensures DocumentOk(n, FieldPasses(n, p, order, ts, its), o)
    ensures forall it :: it in its ==> FieldsFixed(n, p, order, FieldPasses(n, p, order, ts, its), it)
  {
    hide FieldsOk, WantsOk, WantsOf, DeriveFields, FieldsFixed, FieldPass;
    if its != [] {
      var front, last := its[..|its| - 1], its[|its| - 1];
      assert last in its;
      PassesFix(n, p, order, ts, front, o);
      var now := FieldPasses(n, p, order, ts, front);
      var after := FieldPass(n, p, order, now, last);
      PassFixes(n, p, order, now, last, o);
      SameKeys(n, now, after);
      forall it | it in its ensures FieldsFixed(n, p, order, after, it) {
        if it in front {
          var i :| 0 <= i < |front| && front[i] == it;
          assert its[i] == it;
          PassSpares(n, p, order, now, last, it);
        }
      }
    }
  }

  lemma FixedStays(n: Naming, p: Project, order: seq<Pair>, ts: seq<TypeDoc>, it: IssueType)
    requires FieldsFixed(n, p, order, ts, it)
    ensures FieldPass(n, p, order, ts, it) == ts
  {
    hide DeriveFields, WantsOf;
    var k := MappedKey(order, it.id);
    if k.Some? && HasKey(TypeLevel(n), ts, k.value) {
      var i := IndexOf(TypeLevel(n), ts, k.value);
      assert TypeLevel(n).key(ts[i]) == ts[i].key;
      assert ts[i].(fields := ts[i].fields) == ts[i];
    }
  }

  lemma {:induction false} PassesStay(n: Naming, p: Project, order: seq<Pair>, ts: seq<TypeDoc>, its: seq<IssueType>)
    requires forall it :: it in its ==> FieldsFixed(n, p, order, ts, it)
    ensures FieldPasses(n, p, order, ts, its) == ts
  {
    hide FieldsFixed, FieldPass;
    if its != [] {
      assert its[|its| - 1] in its;
      PassesStay(n, p, order, ts, its[..|its| - 1]);
      FixedStays(n, p, order, ts, its[|its| - 1]);
    }
  }

  // ---- the types mapped ----

  lemma {:induction false} MappedIs(order: seq<Pair>, id: string)
    ensures MappedKey(order, id).Some? ==> exists a :: 0 <= a < |order| && order[a] == Pair(id, MappedKey(order, id).value)
  {
    if order != [] && order[|order| - 1].id != id {
      MappedIs(order[..|order| - 1], id);
      if MappedKey(order, id).Some? {
        var a :| 0 <= a < |order| - 1 && order[..|order| - 1][a] == Pair(id, MappedKey(order, id).value);
        assert order[a] == Pair(id, MappedKey(order, id).value);
      }
    }
  }

  lemma MappedOneEach(n: Naming, ts: seq<TypeDoc>, its: seq<IssueType>)
    requires DistinctKeys(TypeLevel(n), ts) && DistinctIds(TypeLevel(n), its)
    ensures OneEach(OrderOf(TypeLevel(n), ts, its), its)
  {
    var l := TypeLevel(n);
    var order := OrderOf(l, ts, its);
    OrderDistinct(l, ts, its);
    forall i, k | 0 <= i < k < |its| && MappedKey(order, its[i].id).Some?
      ensures MappedKey(order, its[i].id) != MappedKey(order, its[k].id)
    {
      MappedIs(order, its[i].id);
      MappedIs(order, its[k].id);
      assert l.id(its[i]) != l.id(its[k]);
      var a :| 0 <= a < |order| && order[a] == Pair(its[i].id, MappedKey(order, its[i].id).value);
      if MappedKey(order, its[k].id).Some? {
        var b :| 0 <= b < |order| && order[b] == Pair(its[k].id, MappedKey(order, its[k].id).value);
        assert a != b;
      }
    }
  }

  // ---- binding ----

  lemma {:induction false} NothingMapped<E, J>(l: Level<E, J>, start: seq<E>, js: seq<J>)
    requires PassOver(l, start, js).order == []
    ensures PassOver(l, start, js).es == start
  {
    hide MatchOf, Insert;
    if js != [] { NothingMapped(l, start, js[..|js| - 1]); }
  }

  lemma {:induction false} NoPasses(n: Naming, p: Project, ts: seq<TypeDoc>, its: seq<IssueType>)
    ensures FieldPasses(n, p, [], ts, its) == ts
  {
    hide DeriveFields;
    if its != [] { NoPasses(n, p, ts, its[..|its| - 1]); }
  }

  /** A type mapped binds the document to the project. */
  lemma MappedBinds(n: Naming, p: Project, ts: seq<TypeDoc>)
    requires OrderOf(TypeLevel(n), ts, p.types) != []
    ensures !BoundElsewhere(ts, p)
  {
    var l := TypeLevel(n);
    OrderHeld(l, ts, p.types, 0);
    var it, i :| it in p.types && Holder(l, ts, it, i) && OrderOf(l, ts, p.types)[0] == Pair(l.id(it), l.key(ts[i]));
    assert ts[i] in ts && AliasOf(ts[i].aliases) == Some(it.id) && it.id != "";
  }

  // ---- the fixpoint ----

  lemma TypePass(n: Naming, d: Document, p: Project, o: Ordered)
    requires DocumentOk(n, d, o) && ProjectOk(n, p, o)
    ensures var l := TypeLevel(n);
            var pass := PassOver(l, d, p.types);
            && DistinctKeys(l, pass.es)
            && (forall it :: it in p.types ==> Settled(l, pass.es, it)) && pass.order == OrderOf(l, pass.es, p.types)
  {
    hide Settled, Lawful;
    TypeLawful(n);
    assert Startable(TypeLevel(n), Always(), true, Always(), d, p.types);
    PassSettles(TypeLevel(n), Always(), Always(), d, p.types);
    PassOrder(TypeLevel(n), Always(), true, Always(), d, p.types);
  }

  /** A type a pass touches or makes keeps its fields fine. */
  lemma {:induction false} TypePassFields(n: Naming, d: Document, its: seq<IssueType>, o: Ordered)
    requires forall t :: t in d ==> FieldsOk(n, t.fields, o)
    ensures forall t :: t in PassOver(TypeLevel(n), d, its).es ==> FieldsOk(n, t.fields, o)
  {
    if its != [] {
      hide MatchOf, FieldsOk;
      TypePassFields(n, d, its[..|its| - 1], o);
      NoFieldsOk(n, o);
    }
  }

  lemma NoFieldsOk(n: Naming, o: Ordered)
    ensures FieldsOk(n, [], o)
  {
  }

  /** What a derivation leaves: settled types, each mapped one with settled fields. */
  lemma DerivedIs(n: Naming, d: Document, p: Project, o: Ordered)
    requires DocumentOk(n, d, o) && ProjectOk(n, p, o) && Derive(n, d, p).Ok?
    ensures var l := TypeLevel(n);
            var after := Derive(n, d, p).doc;
            var order := PassOver(l, d, p.types).order;
            && DocumentOk(n, after, o) && (forall it :: it in p.types ==> Settled(l, after, it))
            && OrderOf(l, after, p.types) == order
            && forall it :: it in p.types ==> FieldsFixed(n, p, order, after, it)
  {
    hide Settled, FieldsOk, WantsOk, WantsOf, DistinctKeys, FieldsFixed, PassOver, FieldPasses, SameTypes, MatchFacts.DistinctIds;
    var l := TypeLevel(n);
    var pass := PassOver(l, d, p.types);
    TypePass(n, d, p, o);
    TypePassFields(n, d, p.types, o);
    MappedOneEach(n, pass.es, p.types);
    PassesFix(n, p, pass.order, pass.es, p.types, o);
    PassesSame(n, p, pass.order, pass.es, p.types);
    var after := Derive(n, d, p).doc;
    forall it | it in p.types ensures Settled(l, after, it) { SameSettled(n, pass.es, after, it); }
    SameOrder(n, pass.es, after, p.types);
  }

  /** Derive is a fixpoint: deriving again from the document derived gives that document. */
  lemma DeriveAgain(n: Naming, d: Document, p: Project, o: Ordered)
    requires DocumentOk(n, d, o) && ProjectOk(n, p, o) && Derive(n, d, p).Ok?
    ensures Derive(n, Derive(n, d, p).doc, p) == Derive(n, d, p)
  {
    hide Settled, FieldsOk, DistinctKeys, FieldsFixed, PassOver, FieldPasses, OrderOf, BoundElsewhere;
    var l := TypeLevel(n);
    var pass := PassOver(l, d, p.types);
    var after := Derive(n, d, p).doc;
    DerivedIs(n, d, p, o);
    PassAgain(l, after, p.types);
    PassesStay(n, p, pass.order, after, p.types);
    if pass.order == [] {
      NothingMapped(l, d, p.types);
      NoPasses(n, p, d, p.types);
    } else {
      MappedBinds(n, p, after);
    }
  }
}
