/** Derive and import together. */
module DeriveImport {
  // Importing what a derivation gives, deriving again from it and importing again writes nothing.

  import opened Order
  import opened Documents
  import opened Imports
  import opened Matching
  import opened MatchFacts
  import opened MatchPass
  import opened MatchAgain
  import opened Derivation
  import opened DeriveValueFacts
  import opened DeriveFacts
  import opened Reimport
  import O = Ordering
  import A = DeriveAgain

  /** No name's slug has a slash. */
  ghost predicate PlainSlugs(n: Naming) { forall s :: '/' !in n.slug(s) }

  ghost predicate PlainTypes(ts: seq<TypeDoc>) { forall t :: t in ts ==> '/' !in t.key }

  function Plain(): TypeDoc -> bool { (t: TypeDoc) => '/' !in t.key }

  lemma {:induction false} PlainDecimal(n: nat)
    ensures '/' !in Decimal(n)
  {
    if n >= 10 { PlainDecimal(n / 10); }
  }

  lemma PlainKey(n: Naming, name: string, jiraId: string, prefix: string, used: set<string>)
    requires PlainSlugs(n) && '/' !in prefix
    ensures '/' !in KeyFor(n, name, jiraId, prefix, used)
  {
    var base := BaseKey(n, name, jiraId, prefix);
    assert '/' !in base by { assert '/' !in n.slug(name) && '/' !in n.slug(jiraId) && '/' !in "jira-"; }
    if base in used {
      FirstFreeIs(base, 2, used);
      var m: nat :| m >= 2 && FirstFree(base, 2, used) == Suffixed(base, m);
      PlainDecimal(m);
    }
  }

  lemma PlainLawful(n: Naming)
    requires PlainSlugs(n)
    ensures Lawful(TypeLevel(n), Plain(), true, Always())
  {
    hide KeyFor, Fixed;
    var l := TypeLevel(n);
    TypeLawful(n);
    forall es: seq<TypeDoc>, t: TypeDoc, it: IssueType | Plain()(t) ensures TouchLawful(l, Plain(), true, es, t, it) {
      assert Always<TypeDoc>()(t) && Always<IssueType>()(it);
      TouchedPlain(n, es, t, it);
    }
    forall es: seq<TypeDoc>, it: IssueType ensures MakeLawful(l, Plain(), true, es, it) {
      assert Always<IssueType>()(it);
      assert MakeLawful(l, Always(), true, es, it);
      PlainKey(n, it.name, it.id, "t-", set t | t in es :: t.key);
      assert l.make(es, it) == NewType(n, es, it);
    }
  }

  lemma TouchedPlain(n: Naming, es: seq<TypeDoc>, t: TypeDoc, it: IssueType)
    requires Plain()(t)
    ensures TouchLawful(TypeLevel(n), Plain(), true, es, t, it)
  {
    hide Fixed;
    assert TypeLevel(n).touch(es, t, it) == TouchType(t, it);
    TypeFixed(n, TouchType(t, it), it);
  }

  /** A derived document's type keys have no slash, if the document's and slugs have none. */
  lemma DerivedPlain(n: Naming, d: Document, p: Project, o: Ordered)
    requires A.DocumentOk(n, d, o) && A.ProjectOk(n, p, o) && Derive(n, d, p).Ok? && PlainSlugs(n) && PlainTypes(d)
    ensures PlainTypes(Derive(n, d, p).doc)
  {
    hide Lawful, FieldsOk, WantsOk, WantsOf, PassOver, FieldPasses, BoundElsewhere, Settled;
    var l := TypeLevel(n);
    var pass := PassOver(l, d, p.types);
    PlainLawful(n);
    forall t | t in d ensures Plain()(t) { assert '/' !in t.key; }
    PassSettles(l, Plain(), Always(), d, p.types);
    A.PassesSame(n, p, pass.order, pass.es, p.types);
    var after := Derive(n, d, p).doc;
    forall t | t in after ensures '/' !in t.key {
      var i :| 0 <= i < |after| && after[i] == t;
      assert Plain()(pass.es[i]);
    }
  }

  lemma JoinApart(k: string, a: string, b: string)
    requires a != b
    ensures Join(k, a) != Join(k, b)
  {
    assert Join(k, a)[|k| + 1..] == a && Join(k, b)[|k| + 1..] == b;
  }

  lemma FieldsValid(n: Naming, t: TypeDoc, o: Ordered)
    requires FieldsOk(n, t.fields, o)
    ensures Distinct(FieldKeys(t)) && forall f :: f in t.fields ==> Distinct(ValueIds(f))
  {
    hide Join, Concerned;
    var fs := t.fields;
    forall i, j | 0 <= i < j < |fs| ensures FieldKeys(t)[i] != FieldKeys(t)[j] {
      assert FieldLevel(n).key(fs[i]) != FieldLevel(n).key(fs[j]);
      JoinApart(t.key, fs[i].key, fs[j].key);
    }
    forall f | f in fs ensures Distinct(ValueIds(f)) { assert O.DistinctValues(f.values); }
  }

  /** What a derivation gives can be imported. */
  lemma DerivedValid(n: Naming, d: Document, p: Project, o: Ordered)
    requires A.DocumentOk(n, d, o) && A.ProjectOk(n, p, o) && Derive(n, d, p).Ok? && PlainSlugs(n) && PlainTypes(d)
    ensures ValidDocument(Derive(n, d, p).doc)
  {
    hide FieldsOk, WantsOk, WantsOf, PassOver, FieldPasses, BoundElsewhere, Derive, FieldKeys, ValueIds, Settled, A.FieldsFixed, OrderOf;
    A.DerivedIs(n, d, p, o);
    DerivedPlain(n, d, p, o);
    var after := Derive(n, d, p).doc;
    forall i, j | 0 <= i < j < |after| ensures TypeKeys(after)[i] != TypeKeys(after)[j] {
      assert TypeLevel(n).key(after[i]) != TypeLevel(n).key(after[j]);
    }
    forall t | t in after ensures '/' !in t.key && Distinct(FieldKeys(t)) && forall f :: f in t.fields ==> Distinct(ValueIds(f)) {
      FieldsValid(n, t, o);
    }
  }

  /** Once a derived document is imported, deriving from it again and importing the outcome writes nothing. */
  lemma DeriveImportAgain(n: Naming, d: Document, p: Project, o: Ordered, c: Entities, prune: bool)
    requires A.DocumentOk(n, d, o) && A.ProjectOk(n, p, o) && Derive(n, d, p).Ok? && PlainSlugs(n) && PlainTypes(d)
    ensures var once := Derive(n, d, p).doc;
            var again := Derive(n, once, p);
            again.Ok? && Reconcile(again.doc, Imported(once, c, prune), prune) == []
  {
    hide Derive, Reconcile, Imported, ValidDocument, A.DocumentOk, A.ProjectOk;
    A.DeriveAgain(n, d, p, o);
    DerivedValid(n, d, p, o);
    ImportAgain(Derive(n, d, p).doc, c, prune);
  }
}
