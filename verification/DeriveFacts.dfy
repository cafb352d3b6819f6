/** Deriving one type's fields again, from the fields just derived, changes nothing in them. */
module DeriveFacts {
  import opened Documents
  import opened Order
  import opened Imports
  import opened Matching
  import opened MatchFacts
  import opened MatchPass
  import opened MatchAgain
  import opened Derivation
  import opened DeriveValueFacts
  import opened ValuesStand
  import O = Ordering

  // ---- target types, kept as a sorted list ----

  ghost predicate SortedStrings(xs: seq<string>) { forall i, j :: 0 <= i < j < |xs| ==> !Less(xs[j], xs[i]) }

  lemma {:induction false} InsertSortedIs(xs: seq<string>, x: string)
    ensures forall y :: y in InsertSorted(xs, x) <==> y == x || y in xs
    ensures SortedStrings(xs) ==> SortedStrings(InsertSorted(xs, x))
  {
    if xs != [] && Less(xs[0], x) {
      var r := InsertSorted(xs[1..], x);
      InsertSortedIs(xs[1..], x);
      assert xs == [xs[0]] + xs[1..];
      if SortedStrings(xs) {
        forall j | 0 <= j < |r| ensures !Less(r[j], xs[0]) {
          assert r[j] in r;
          if r[j] == x { LessAsymmetric(xs[0], x); } else { var k :| 0 <= k < |xs[1..]| && xs[1..][k] == r[j]; assert xs[k + 1] == r[j]; }
        }
      }
    } else if xs != [] && SortedStrings(xs) {
      forall j | 0 <= j < |xs| ensures !Less(xs[j], x) {
        if Less(xs[j], x) { LessTotal(xs[0], x); NotBelow(xs[0], x, xs[j]); }
      }
    }
  }

  /** What sorts before a string no greater than the first sorts before the first. */
  lemma NotBelow(first: string, x: string, y: string)
    requires !Less(first, x) && Less(y, x)
    ensures Less(y, first)
  {
    LessTotal(first, x);
    if first != x { LessTransitive(y, x, first); }
  }

  lemma {:induction false} SortStringsIs(xs: seq<string>)
    ensures SortedStrings(SortStrings(xs)) && forall y :: y in SortStrings(xs) <==> y in xs
  {
    if xs != [] {
      SortStringsIs(xs[..|xs| - 1]);
      InsertSortedIs(SortStrings(xs[..|xs| - 1]), xs[|xs| - 1]);
      assert xs == xs[..|xs| - 1] + [xs[|xs| - 1]];
    }
  }

  lemma {:induction false} InsertLast(xs: seq<string>, x: string)
    requires forall j :: 0 <= j < |xs| ==> !Less(x, xs[j])
    requires SortedStrings(xs + [x])
    ensures InsertSorted(xs, x) == xs + [x]
  {
    if xs != [] {
      if Less(xs[0], x) {
        assert (xs + [x])[1..] == xs[1..] + [x];
        InsertLast(xs[1..], x);
      } else {
        LessTotal(xs[0], x);
        AllSame(xs, x);
      }
    }
  }

  /** A sorted list that ends in its first element holds nothing else. */
  lemma AllSame(xs: seq<string>, x: string)
    requires xs != [] && xs[0] == x && SortedStrings(xs + [x])
    ensures [x] + xs == xs + [x]
  {
    forall j | 0 <= j < |xs| ensures xs[j] == x {
      var all := xs + [x];
      assert all[j] == xs[j] && all[|xs|] == x && all[0] == x;
      LessTotal(xs[j], x);
      if j > 0 { assert !Less(all[j], all[0]); }
      assert !Less(all[|xs|], all[j]);
    }
  }

  lemma {:induction false} SortSorted(xs: seq<string>)
    requires SortedStrings(xs)
    ensures SortStrings(xs) == xs
  {
    if xs != [] {
      var n := |xs| - 1;
      SortSorted(xs[..n]);
      assert xs[..n] + [xs[n]] == xs;
      InsertLast(xs[..n], xs[n]);
    }
  }

  lemma {:induction false} WithTargetsAre(ts: seq<string>, more: seq<string>)
    ensures forall x :: x in WithTargets(ts, more) <==> x in ts || x in more
    ensures (forall x :: x in more ==> x in ts) ==> WithTargets(ts, more) == ts
  {
    if more != [] {
      WithTargetsAre(ts, more[..|more| - 1]);
      assert more == more[..|more| - 1] + [more[|more| - 1]];
    }
  }

  lemma TargetsAgain(ts: seq<string>, more: seq<string>)
    ensures var s := SortStrings(WithTargets(ts, more)); SortStrings(WithTargets(s, more)) == s
  {
    var s := SortStrings(WithTargets(ts, more));
    WithTargetsAre(ts, more);
    SortStringsIs(WithTargets(ts, more));
    WithTargetsAre(s, more);
    SortSorted(s);
  }

  // ---- fields ----

  /** The ordered Jira fields: their ids, and the kinds of local field they may adopt. */
  datatype Ordered = Ordered(refs: set<string>, kinds: set<string>)

  /** An ordered Jira field may be matched to the field: by its alias, or, without one, by its kind. */
  predicate Concerned(o: Ordered, f: FieldDoc) {
    match AliasOf(f.aliases)
    case Some(ref) => ref in o.refs
    case None => f.kind in o.kinds
  }

  /** Values with distinct ids, and, in a field an ordered one may be matched to, distinct aliases. */
  function GoodField(o: Ordered): FieldDoc -> bool { (f: FieldDoc) => GoodValues(f.values, Concerned(o, f)) }

  predicate Fair(o: Ordered, w: JiraField) {
    FairValues(w) && (w.ordered ==> w.ref in o.refs) && (w.ref in o.refs ==> w.kind in o.kinds)
  }

  function FairField(o: Ordered): JiraField -> bool { (w: JiraField) => Fair(o, w) }

  /** A field after a Jira field stays the same after it. */
  lemma SettledField(n: Naming, fs: seq<FieldDoc>, f: FieldDoc, w: JiraField, strict: bool)
    requires GoodValues(f.values, strict) && FairFor(w, strict) && f.name == (if w.name != "" then w.name else f.name)
    ensures var t := SettleField(n, fs, f, w);
            t.key == f.key && t.kind == f.kind && GoodValues(t.values, strict) && AliasOf(t.aliases) == Some(w.ref) && Fixed(FieldLevel(n), t, w)
  {
    hide DeriveValues, SortStrings, WithTargets, TakenKeys, KeyFor;
    var t := SettleField(n, fs, f, w);
    ValuesSettle(n, f.values, w, strict);
    TargetsAgain(f.targetTypes, w.targets);
    forall es: seq<FieldDoc> ensures TouchField(n, es, t, w) == t {
      assert t.aliases[SYSTEM := w.ref] == t.aliases;
      assert t.inverse != "" || w.inverse == "";
    }
    FixedIs(n, t, w);
  }

  lemma FixedIs(n: Naming, t: FieldDoc, w: JiraField)
    requires forall es: seq<FieldDoc> :: TouchField(n, es, t, w) == t
    ensures Fixed(FieldLevel(n), t, w)
  {
    forall es: seq<FieldDoc> ensures FieldLevel(n).touch(es, t, w) == t {
      assert TouchField(n, es, t, w) == t;
    }
  }

  lemma FieldLawful(n: Naming, o: Ordered)
    ensures Lawful(FieldLevel(n), GoodField(o), true, FairField(o))
  {
    hide SettleField, KeyFor, GoodValues, Fair, Fixed, Concerned;
    var l := FieldLevel(n);
    forall es: seq<FieldDoc>, f: FieldDoc, w: JiraField | GoodField(o)(f) && l.eligible(f) && FairField(o)(w) && Reaches(l, f, w)
      ensures TouchLawful(l, GoodField(o), true, es, f, w)
    {
      TouchedLawful(n, o, es, f, w);
    }
    forall es: seq<FieldDoc>, w: JiraField | FairField(o)(w) ensures MakeLawful(l, GoodField(o), true, es, w) {
      NewLawful(n, es, w, o);
    }
  }

  lemma TouchedLawful(n: Naming, o: Ordered, es: seq<FieldDoc>, f: FieldDoc, w: JiraField)
    requires GoodField(o)(f) && FieldLevel(n).eligible(f) && Fair(o, w) && Reaches(FieldLevel(n), f, w)
    ensures TouchLawful(FieldLevel(n), GoodField(o), true, es, f, w)
  {
    hide SettleField, KeyFor, GoodValues, Fixed;
    var l := FieldLevel(n);
    var g := f.(name := if w.name != "" then w.name else f.name);
    LessStrict(f.values, Concerned(o, f), w.ref in o.refs);
    SettledField(n, es, g, w, w.ref in o.refs);
    assert l.touch(es, f, w) == SettleField(n, es, g, w);
  }

  lemma LessStrict(vs: seq<ValueDoc>, strict: bool, less: bool)
    requires GoodValues(vs, strict) && (less ==> strict)
    ensures GoodValues(vs, less)
  {
  }

  lemma NewLawful(n: Naming, es: seq<FieldDoc>, w: JiraField, o: Ordered)
    requires Fair(o, w)
    ensures MakeLawful(FieldLevel(n), GoodField(o), true, es, w)
  {
    hide SettleField, Fixed;
    var l := FieldLevel(n);
    var key := KeyFor(n, if w.key != "" then w.key else w.name, w.ref, "f-", TakenKeys(es));
    var f := FieldDoc(key, w.name, w.kind, "", false, "", false, [], map[], []);
    SettledField(n, es, f, w, w.ref in o.refs);
    assert l.make(es, w) == SettleField(n, es, f, w);
    forall i | 0 <= i < |es| ensures l.key(es[i]) != key { assert es[i].key in TakenKeys(es); }
  }

  /** A type's fields: no two share a key, and every value list is good. */
  ghost predicate FieldsOk(n: Naming, fs: seq<FieldDoc>, o: Ordered) {
    DistinctKeys(FieldLevel(n), fs) && forall f :: f in fs ==> GoodValues(f.values, Concerned(o, f))
  }

  ghost predicate WantsOk(n: Naming, ws: seq<JiraField>, o: Ordered) {
    DistinctIds(FieldLevel(n), ws) && forall w :: w in ws ==> Fair(o, w)
  }

  lemma FieldStartable(n: Naming, fs: seq<FieldDoc>, ws: seq<JiraField>, o: Ordered)
    requires FieldsOk(n, fs, o) && WantsOk(n, ws, o)
    ensures Startable(FieldLevel(n), GoodField(o), true, FairField(o), fs, ws)
  {
    hide Lawful, DistinctKeys, MatchFacts.DistinctIds, GoodValues, Fair, Concerned;
    FieldLawful(n, o);
    forall f | f in fs ensures GoodField(o)(f) { assert GoodValues(f.values, Concerned(o, f)); }
    forall w | w in ws ensures FairField(o)(w) { assert Fair(o, w); }
  }

  /** Deriving a type's fields again changes nothing. */
  lemma FieldsAgain(n: Naming, fs: seq<FieldDoc>, ws: seq<JiraField>, o: Ordered)
    requires FieldsOk(n, fs, o) && WantsOk(n, ws, o)
    ensures FieldsOk(n, DeriveFields(n, fs, ws), o)
    ensures DeriveFields(n, DeriveFields(n, fs, ws), ws) == DeriveFields(n, fs, ws)
  {
    hide Startable, Settled, PassOver, DistinctKeys, GoodValues, Concerned;
    FieldStartable(n, fs, ws, o);
    PassSettles(FieldLevel(n), GoodField(o), FairField(o), fs, ws);
    PassRepeats(FieldLevel(n), GoodField(o), FairField(o), fs, ws);
    var es := DeriveFields(n, fs, ws);
    forall f | f in es ensures GoodValues(f.values, Concerned(o, f)) { assert GoodField(o)(f); }
  }

  // ---- types ----

  lemma TypeLawful(n: Naming)
    ensures Lawful(TypeLevel(n), Always(), true, Always())
  {
    var l := TypeLevel(n);
    forall es: seq<TypeDoc>, t: TypeDoc, it: IssueType ensures TouchLawful(l, Always(), true, es, t, it) {
      assert l.touch(es, t, it) == TouchType(t, it);
      TypeFixed(n, TouchType(t, it), it);
    }
    forall es: seq<TypeDoc>, it: IssueType ensures MakeLawful(l, Always(), true, es, it) {
      var m := NewType(n, es, it);
      assert l.make(es, it) == m && m.key !in set t | t in es :: t.key;
      forall i | 0 <= i < |es| ensures l.key(es[i]) != m.key { assert es[i] in es; }
      TypeFixed(n, m, it);
    }
  }

  lemma TypeFixed(n: Naming, t: TypeDoc, it: IssueType)
    requires t.name == it.name && SYSTEM in t.aliases && t.aliases[SYSTEM] == it.id
    requires it.description != "" ==> t.description == it.description
    ensures Fixed(TypeLevel(n), t, it)
  {
    assert t.aliases[SYSTEM := it.id] == t.aliases;
  }
}
