/** The fields derived for one type, told from its fields and what Jira maps onto them. */
module FieldSays {
  import opened Documents
  import opened Imports
  import opened Matching
  import opened MatchFacts
  import opened MatchPass
  import opened MatchAgain
  import opened MatchOutcome
  import opened Derivation
  import opened DeriveValueFacts
  import opened DeriveFacts
  import opened ValueSays
  import O = Ordering

  /** A field with the alias; built-in fields are never Jira's. */
  ghost predicate FieldMapped(f: FieldDoc, ref: string) { f.key !in BUILTINS && Mapped(f.aliases, ref) }

  ghost predicate NoFieldMapped(fs: seq<FieldDoc>, ref: string) { forall f :: f in fs ==> !FieldMapped(f, ref) }

  /** A field of Jira's name whose alias is empty keeps Jira's out. */
  ghost predicate KeepsOut(n: Naming, fs: seq<FieldDoc>, w: JiraField) {
    exists f :: f in fs && FieldMapped(f, "") && Calls(n, f.key, f.name, w.name, w.key)
  }

  ghost predicate FieldLeftOut(n: Naming, fs: seq<FieldDoc>, w: JiraField) { NoFieldMapped(fs, w.ref) && KeepsOut(n, fs, w) }

  /** One that Jira's field could be given to: its name, its kind, no alias. */
  ghost predicate FieldFree(n: Naming, f: FieldDoc, w: JiraField) {
    f.key !in BUILTINS && Unmapped(f.aliases) && f.kind == w.kind && Calls(n, f.key, f.name, w.name, w.key)
  }

  /** The one Jira's field is matched to: the first with its ref; with none, a free one. */
  ghost predicate FieldMatched(n: Naming, fs: seq<FieldDoc>, w: JiraField, i: int) {
    && 0 <= i < |fs|
    && if FieldMapped(fs[i], w.ref) then NoFieldMapped(fs[..i], w.ref) else NoFieldMapped(fs, w.ref) && FieldFree(n, fs[i], w)
  }

  /** Jira's field put onto a local one: nothing taken away, the name and the alias Jira's. */
  ghost predicate PutOn(n: Naming, s: FieldDoc, f: FieldDoc, w: JiraField) {
    && f.key == s.key && f.kind == s.kind && f.description == s.description
    && f.name == (if w.name == "" then s.name else w.name) && f.aliases == s.aliases["jira" := w.ref]
    && (f.freeform <==> s.freeform || w.freeform) && (f.link <==> s.link || w.link)
    && (if s.inverse != "" || w.inverse == "" then f.inverse == s.inverse else Keyed(n, w.inverse, w.ref, "f-", f.inverse))
    && SortedStrings(f.targetTypes) && (forall x :: x in f.targetTypes <==> x in s.targetTypes || x in w.targets)
    && if w.kind in {"enum", "ordinal-enum", "multi-enum"} && !w.freeform then ValuesMet(n, w.status, s.values, f.values, w.values)
       else f.values == s.values
  }

  ghost predicate NewOf(n: Naming, f: FieldDoc, w: JiraField) {
    && Keyed(n, if w.key == "" then w.name else w.key, w.ref, "f-", f.key) && f.key !in BUILTINS
    && PutOn(n, FieldDoc(f.key, w.name, w.kind, "", false, "", false, [], map[], []), f, w)
  }

  ghost predicate FieldFollows(n: Naming, fs: seq<FieldDoc>, now: seq<FieldDoc>, f: FieldDoc, w: JiraField) {
    || (exists i :: FieldMatched(n, fs, w, i) && PutOn(n, fs[i], f, w))
    || (&& NoFieldMapped(fs, w.ref) && (forall u :: u in fs ==> u.key != f.key) && NewOf(n, f, w)
        && forall u :: u in now ==> !FieldFree(n, u, w))
  }

  ghost predicate FieldMet(n: Naming, fs: seq<FieldDoc>, now: seq<FieldDoc>, w: JiraField) {
    if FieldLeftOut(n, fs, w) then NoFieldMapped(now, w.ref)
    else exists f :: f in now && FieldMapped(f, w.ref) && FieldFollows(n, fs, now, f, w)
  }

  /** Every field Jira has has its local one or is left out, and every local one is Jira's or as it was. */
  ghost predicate FieldsMet(n: Naming, fs: seq<FieldDoc>, now: seq<FieldDoc>, ws: seq<JiraField>) {
    && (forall w :: w in ws ==> FieldMet(n, fs, now, w))
    && (forall f :: f in now ==> f in fs || exists w :: w in ws && FieldMapped(f, w.ref) && FieldFollows(n, fs, now, f, w))
  }

  // ---- in the terms of a pass ----

  lemma FieldTerms(n: Naming, f: FieldDoc, w: JiraField)
    requires w.ref != ""
    ensures var l := FieldLevel(n);
            && HasAlias(l, f, w) == FieldMapped(f, w.ref)
            && Excludes(l, f, w, {}) == (FieldMapped(f, "") && Calls(n, f.key, f.name, w.name, w.key))
            && Adoptable(l, f, w, {}) == FieldFree(n, f, w)
  {
    hide Calls, SameName;
    CallsIs(n, f.key, f.name, w.name, w.key);
  }

  lemma FieldNone(n: Naming, fs: seq<FieldDoc>, w: JiraField)
    requires w.ref != ""
    ensures NoneHas(FieldLevel(n), fs, w) == NoFieldMapped(fs, w.ref)
    ensures Barred(FieldLevel(n), fs, w) == KeepsOut(n, fs, w)
  {
    hide HasAlias, Excludes, Adoptable, FieldMapped, Calls;
    var l := FieldLevel(n);
    forall f: FieldDoc ensures HasAlias(l, f, w) == FieldMapped(f, w.ref)
                       ensures Excludes(l, f, w, {}) == (FieldMapped(f, "") && Calls(n, f.key, f.name, w.name, w.key))
    {
      FieldTerms(n, f, w);
    }
  }

  lemma FieldAt(n: Naming, fs: seq<FieldDoc>, s: FieldDoc, w: JiraField) returns (i: nat)
    requires DistinctKeys(FieldLevel(n), fs) && w.ref != "" && s in fs && Matched(FieldLevel(n), fs, s, w)
    ensures i < |fs| && fs[i] == s && FieldMatched(n, fs, w, i)
  {
    hide HasAlias, Excludes, Adoptable, FirstAliased, NoneHas, Barred, FieldMapped, FieldFree, DistinctKeys;
    var l := FieldLevel(n);
    FieldTerms(n, s, w);
    FieldNone(n, fs, w);
    if HasAlias(l, s, w) && FirstAliased(l, fs, w) == Some(l.key(s)) {
      i := FirstIs(l, fs, w, s);
      forall f | f in fs[..i] ensures !FieldMapped(f, w.ref) {
        var r :| 0 <= r < i && fs[r] == f;
        FieldTerms(n, f, w);
      }
    } else {
      i :| 0 <= i < |fs| && fs[i] == s;
    }
  }

  /** Settling puts Jira's field on. */
  lemma SettlePutsOn(n: Naming, es: seq<FieldDoc>, s: FieldDoc, w: JiraField)
    requires O.DistinctValues(s.values) && FairValues(w)
    ensures PutOn(n, s, SettleField(n, es, s.(name := if w.name != "" then w.name else s.name), w), w)
  {
    hide DeriveValues, SortStrings, WithTargets, SortedStrings, ValuesMet, TakenKeys, KeyFor, Keyed, O.DistinctValues, FairValues;
    WithTargetsAre(s.targetTypes, w.targets);
    SortStringsIs(WithTargets(s.targetTypes, w.targets));
    ValuesDerived(n, s.values, w);
    KeyIsFirst(n, w.inverse, w.ref, "f-", TakenKeys(es) + {s.key});
  }

  lemma FieldTook(n: Naming, fs: seq<FieldDoc>, now: seq<FieldDoc>, f: FieldDoc, w: JiraField)
    requires DistinctKeys(FieldLevel(n), fs) && (forall s :: s in fs ==> O.DistinctValues(s.values)) && FairValues(w)
    requires w.ref != "" && TookOver(FieldLevel(n), fs, f, w)
    ensures FieldFollows(n, fs, now, f, w)
  {
    hide Matched, FieldMatched, PutOn, SettleField, DistinctKeys, O.DistinctValues, FairValues;
    var l := FieldLevel(n);
    var es: seq<FieldDoc>, s :| s in fs && l.key(s) == l.key(f) && Matched(l, fs, s, w) && f == l.touch(es, s, w);
    var i := FieldAt(n, fs, s, w);
    SettlePutsOn(n, es, s, w);
    assert f == TouchField(n, es, s, w);
  }

  lemma FieldMade(n: Naming, fs: seq<FieldDoc>, now: seq<FieldDoc>, claimed: set<string>, f: FieldDoc, w: JiraField)
    requires FairValues(w) && w.ref != "" && MadeNew(FieldLevel(n), fs, claimed, f, w)
    requires forall u :: u in now && Unmapped(u.aliases) ==> u in fs && u.key !in claimed
    ensures FieldFollows(n, fs, now, f, w)
  {
    hide HasAlias, Adoptable, NoneHas, Barred, FieldFree, NoFieldMapped, NewOf, SettleField, FairValues;
    var l := FieldLevel(n);
    FieldNone(n, fs, w);
    var es: seq<FieldDoc> :| f == l.make(es, w);
    assert f == NewField(n, es, w);
    NewIs(n, es, w);
    forall u | u in now ensures !FieldFree(n, u, w) {
      FieldTerms(n, u, w);
      FreeUnmapped(n, u, w);
      assert l.key(u) == u.key;
    }
    forall u | u in fs ensures u.key != f.key { var a :| 0 <= a < |fs| && fs[a] == u; assert l.key(fs[a]) == u.key; }
  }

  lemma FreeUnmapped(n: Naming, f: FieldDoc, w: JiraField)
    ensures FieldFree(n, f, w) ==> Unmapped(f.aliases)
  {
  }

  lemma NewIs(n: Naming, es: seq<FieldDoc>, w: JiraField)
    requires FairValues(w)
    ensures NewOf(n, NewField(n, es, w), w)
  {
    hide PutOn, KeyFor, Keyed, DeriveValues, FairValues;
    var name := if w.key != "" then w.key else w.name;
    var key := KeyFor(n, name, w.ref, "f-", TakenKeys(es));
    KeyIsFirst(n, name, w.ref, "f-", TakenKeys(es));
    var s := FieldDoc(key, w.name, w.kind, "", false, "", false, [], map[], []);
    SettlePutsOn(n, es, s, w);
    assert s.(name := if w.name != "" then w.name else s.name) == s;
  }

  lemma FieldCame(n: Naming, fs: seq<FieldDoc>, now: seq<FieldDoc>, claimed: set<string>, f: FieldDoc, w: JiraField)
    requires DistinctKeys(FieldLevel(n), fs) && (forall s :: s in fs ==> O.DistinctValues(s.values)) && FairValues(w)
    requires w.ref != "" && Came(FieldLevel(n), fs, claimed, f, w)
    requires forall u :: u in now && Unmapped(u.aliases) ==> u in fs && u.key !in claimed
    ensures FieldFollows(n, fs, now, f, w)
  {
    hide TookOver, MadeNew, FieldFollows, DistinctKeys, Unmapped, O.DistinctValues, FairValues;
    if TookOver(FieldLevel(n), fs, f, w) { FieldTook(n, fs, now, f, w); } else { FieldMade(n, fs, now, claimed, f, w); }
  }

  // ---- the pass over a type's fields ----

  function Valued(): FieldDoc -> bool { (f: FieldDoc) => O.DistinctValues(f.values) }

  function Given(): JiraField -> bool { (w: JiraField) => FairValues(w) }

  /** No two fields share a key, nor two values of a field an id. */
  ghost predicate FieldsKeyed(fs: seq<FieldDoc>) {
    && (forall i, k :: 0 <= i < k < |fs| ==> fs[i].key != fs[k].key)
    && (forall f :: f in fs ==> O.DistinctValues(f.values))
  }

  /** Jira's refs, and the ids of each one's values, are distinct, and none is empty. */
  ghost predicate WantsKeyed(ws: seq<JiraField>) {
    && (forall i :: 0 <= i < |ws| ==> ws[i].ref != "" && FairValues(ws[i]))
    && (forall i, k :: 0 <= i < k < |ws| ==> ws[i].ref != ws[k].ref)
  }

  lemma FieldTouchLoose(n: Naming, es: seq<FieldDoc>, f: FieldDoc, w: JiraField)
    requires O.DistinctValues(f.values) && FairValues(w) && f.key !in BUILTINS
    ensures TouchLawful(FieldLevel(n), Valued(), false, es, f, w)
  {
    hide SortStrings, WithTargets, KeyFor, TakenKeys, DeriveValues, FairValues, O.DistinctValues;
    DerivedMembers(n, f.values, w);
    assert FieldLevel(n).touch(es, f, w) == TouchField(n, es, f, w);
  }

  lemma FieldMakeLoose(n: Naming, es: seq<FieldDoc>, w: JiraField)
    requires FairValues(w)
    ensures MakeLawful(FieldLevel(n), Valued(), false, es, w)
  {
    hide SortStrings, WithTargets, KeyFor, DeriveValues, FairValues;
    var l := FieldLevel(n);
    DerivedMembers(n, [], w);
    var m := NewField(n, es, w);
    assert l.make(es, w) == m;
    forall i | 0 <= i < |es| ensures l.key(es[i]) != m.key { assert es[i].key in TakenKeys(es); }
  }

  lemma FieldStart(n: Naming, fs: seq<FieldDoc>, ws: seq<JiraField>)
    requires FieldsKeyed(fs) && WantsKeyed(ws)
    ensures Startable(FieldLevel(n), Valued(), false, Given(), fs, ws)
  {
    hide TouchLawful, MakeLawful, FairValues, O.DistinctValues;
    var l := FieldLevel(n);
    forall es: seq<FieldDoc>, f: FieldDoc, w: JiraField | Valued()(f) && l.eligible(f) && Given()(w) && Reaches(l, f, w)
      ensures TouchLawful(l, Valued(), false, es, f, w)
    {
      FieldTouchLoose(n, es, f, w);
    }
    forall es: seq<FieldDoc>, w: JiraField | Given()(w) ensures MakeLawful(l, Valued(), false, es, w) { FieldMakeLoose(n, es, w); }
  }

  lemma UnmappedFields(n: Naming, fs: seq<FieldDoc>, p: Pass<FieldDoc>, ws: seq<JiraField>)
    requires forall e :: e in p.es ==> if FieldLevel(n).key(e) in p.claimed
               then exists w :: w in ws && Came(FieldLevel(n), fs, p.claimed, e, w) else e in fs
    ensures forall u :: u in p.es && Unmapped(u.aliases) ==> u in fs && u.key !in p.claimed
  {
    hide Came;
    forall u | u in p.es && Unmapped(u.aliases) ensures u in fs && u.key !in p.claimed {
      assert FieldLevel(n).key(u) == u.key;
      if u.key in p.claimed {
        var w :| w in ws && Came(FieldLevel(n), fs, p.claimed, u, w);
        AliasOfCame(FieldLevel(n), fs, p.claimed, u, w);
      }
    }
  }

  lemma FieldOutcome(n: Naming, fs: seq<FieldDoc>, p: Pass<FieldDoc>, w: JiraField)
    requires FieldsKeyed(fs) && FairValues(w) && w.ref != "" && Outcome(FieldLevel(n), fs, p, w) && DistinctKeys(FieldLevel(n), fs)
    requires forall u :: u in p.es && Unmapped(u.aliases) ==> u in fs && u.key !in p.claimed
    ensures FieldMet(n, fs, p.es, w)
  {
    hide HasAlias, Came, Barred, Unmapped, FieldFollows, FirstAliased, NoneHas, NoFieldMapped, KeepsOut, FieldMapped,
         FairValues, O.DistinctValues, DistinctKeys;
    var l := FieldLevel(n);
    FieldNone(n, fs, w);
    FieldNone(n, p.es, w);
    if !LeftOut(l, fs, w) {
      var i :| HeldBy(l, p.es, w, i) && Came(l, fs, p.claimed, p.es[i], w);
      FieldTerms(n, p.es[i], w);
      FieldCame(n, fs, p.es, p.claimed, p.es[i], w);
      assert p.es[i] in p.es;
    }
  }

  lemma KeptEligible(n: Naming, good: FieldDoc -> bool, fs: seq<FieldDoc>, p: Pass<FieldDoc>, ws: seq<JiraField>, f: FieldDoc)
    requires PassInv(FieldLevel(n), good, false, fs, p, ws) && f in p.es && f.key in p.claimed
    ensures f.key !in BUILTINS
  {
    hide SameFirst, Taken;
    assert Accounted(FieldLevel(n), fs, p, ws, f);
  }

  /** Jira's fields in the list derived for a type. */
  lemma FieldsDerived(n: Naming, fs: seq<FieldDoc>, ws: seq<JiraField>)
    requires FieldsKeyed(fs) && WantsKeyed(ws)
    ensures FieldsMet(n, fs, DeriveFields(n, fs, ws), ws)
  {
    hide PassOver, Came, Outcome, Unmapped, FieldFollows, FieldMet, PassInv, Lawful, FairValues, O.DistinctValues;
    var l := FieldLevel(n);
    var p := PassOver(l, fs, ws);
    FieldStart(n, fs, ws);
    PassOutcome(l, Valued(), Given(), fs, ws);
    PassKeeps(l, Valued(), false, Given(), fs, ws);
    UnmappedFields(n, fs, p, ws);
    forall w | w in ws ensures FieldMet(n, fs, p.es, w) { FieldOutcome(n, fs, p, w); }
    forall f | f in p.es && f !in fs ensures exists w :: w in ws && FieldMapped(f, w.ref) && FieldFollows(n, fs, p.es, f, w) {
      var w :| w in ws && Came(l, fs, p.claimed, f, w);
      FieldCame(n, fs, p.es, p.claimed, f, w);
      AliasOfCame(l, fs, p.claimed, f, w);
      KeptEligible(n, Valued(), fs, p, ws, f);
    }
  }
}
