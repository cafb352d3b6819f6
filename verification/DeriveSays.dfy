/** The document derived, told from the document and the project alone. */
module DeriveSays {
  import opened Documents
  import opened Imports
  import opened Matching
  import opened MatchFacts
  import opened MatchPass
  import opened MatchAgain
  import opened MatchOutcome
  import opened Derivation
  import opened DeriveValueFacts
  import opened DeriveFacts
  import opened ValueSays
  import opened FieldSays
  import A = DeriveAgain

  // ---- types ----

  ghost predicate NoTypeMapped(d: seq<TypeDoc>, id: string) { forall t :: t in d ==> !Mapped(t.aliases, id) }

  ghost predicate TypeKeepsOut(n: Naming, d: seq<TypeDoc>, it: IssueType) {
    exists t :: t in d && Mapped(t.aliases, "") && Calls(n, t.key, t.name, it.name, "")
  }

  ghost predicate TypeLeftOut(n: Naming, d: seq<TypeDoc>, it: IssueType) { NoTypeMapped(d, it.id) && TypeKeepsOut(n, d, it) }

  /** The local type of an issue type: the first with its id. */
  ghost predicate TypeFirst(d: seq<TypeDoc>, id: string, i: int) { 0 <= i < |d| && Mapped(d[i].aliases, id) && NoTypeMapped(d[..i], id) }

  ghost predicate TypeFree(n: Naming, t: TypeDoc, it: IssueType) { Unmapped(t.aliases) && Calls(n, t.key, t.name, it.name, "") }

  /** The one an issue type is matched to: the first with its id; with none, a free one. */
  ghost predicate TypeMatched(n: Naming, d: seq<TypeDoc>, it: IssueType, i: int) {
    TypeFirst(d, it.id, i) || (0 <= i < |d| && NoTypeMapped(d, it.id) && TypeFree(n, d[i], it))
  }

  /** A local type with Jira's name, and its description if there is one; or a new one, for want of any that could be. */
  ghost predicate TypeFollows(n: Naming, d: seq<TypeDoc>, now: seq<TypeDoc>, t: TypeDoc, it: IssueType) {
    || (exists i :: TypeMatched(n, d, it, i) && t == TypeDoc(
          d[i].key, it.name, if it.description == "" then d[i].description else it.description, d[i].show,
          d[i].aliases["jira" := it.id], t.fields))
    || (&& NoTypeMapped(d, it.id) && (forall u :: u in d ==> u.key != t.key) && Keyed(n, it.name, it.id, "t-", t.key)
        && (forall u :: u in now ==> !TypeFree(n, u, it))
        && t == TypeDoc(t.key, it.name, it.description, None, map["jira" := it.id], t.fields))
  }

  lemma TypeTerms(n: Naming, t: TypeDoc, it: IssueType)
    requires it.id != ""
    ensures var l := TypeLevel(n);
            && HasAlias(l, t, it) == Mapped(t.aliases, it.id)
            && Excludes(l, t, it, {}) == (Mapped(t.aliases, "") && Calls(n, t.key, t.name, it.name, ""))
            && Adoptable(l, t, it, {}) == TypeFree(n, t, it)
  {
    hide Calls, SameName;
    CallsIs(n, t.key, t.name, it.name, "");
  }

  lemma TypeNone(n: Naming, d: seq<TypeDoc>, it: IssueType)
    requires it.id != ""
    ensures NoneHas(TypeLevel(n), d, it) == NoTypeMapped(d, it.id)
    ensures Barred(TypeLevel(n), d, it) == TypeKeepsOut(n, d, it)
  {
    hide HasAlias, Excludes, Adoptable, Mapped, Calls;
    var l := TypeLevel(n);
    forall t: TypeDoc ensures HasAlias(l, t, it) == Mapped(t.aliases, it.id)
                      ensures Excludes(l, t, it, {}) == (Mapped(t.aliases, "") && Calls(n, t.key, t.name, it.name, ""))
    {
      TypeTerms(n, t, it);
    }
  }

  /** The first with an issue type's id is the one its alias finds. */
  lemma FirstType(n: Naming, d: seq<TypeDoc>, it: IssueType, s: TypeDoc) returns (i: nat)
    requires DistinctKeys(TypeLevel(n), d) && it.id != "" && s in d && FirstAliased(TypeLevel(n), d, it) == Some(s.key)
    ensures i < |d| && d[i] == s && TypeFirst(d, it.id, i)
  {
    hide HasAlias, FirstAliased, Mapped, DistinctKeys;
    var l := TypeLevel(n);
    assert l.key(s) == s.key;
    i := FirstIs(l, d, it, s);
    TypeTerms(n, s, it);
    forall t | t in d[..i] ensures !Mapped(t.aliases, it.id) {
      var r :| 0 <= r < i && d[r] == t;
      TypeTerms(n, t, it);
    }
  }

  lemma NoneBefore(d: seq<TypeDoc>, id: string, i: int)
    requires TypeFirst(d, id, i)
    ensures forall r :: 0 <= r < i ==> !Mapped(d[r].aliases, id)
  {
    forall r | 0 <= r < i ensures !Mapped(d[r].aliases, id) { assert d[..i][r] == d[r]; }
  }

  /** And the other way round. */
  lemma FirstFound(n: Naming, d: seq<TypeDoc>, it: IssueType, i: nat)
    requires it.id != "" && TypeFirst(d, it.id, i)
    ensures FirstAliased(TypeLevel(n), d, it) == Some(d[i].key)
  {
    hide HasAlias, FirstAliased, Mapped;
    var l := TypeLevel(n);
    AliasedFirst(l, d, it);
    TypeTerms(n, d[i], it);
    assert HasAlias(l, d[i], it);
    var k :| FirstWith<TypeDoc>(d, (t: TypeDoc) => HasAlias(l, t, it), k) && l.key(d[k]) == FirstAliased(l, d, it).value;
    TypeTerms(n, d[k], it);
    NoneBefore(d, it.id, i);
    assert k == i;
  }

  lemma TypeTook(n: Naming, d: seq<TypeDoc>, now: seq<TypeDoc>, t: TypeDoc, it: IssueType)
    requires DistinctKeys(TypeLevel(n), d) && it.id != "" && TookOver(TypeLevel(n), d, t, it)
    ensures TypeFollows(n, d, now, t, it)
  {
    hide HasAlias, Excludes, Adoptable, FirstAliased, NoneHas, Barred, TypeFree, NoTypeMapped, TypeFirst, DistinctKeys;
    var l := TypeLevel(n);
    var es: seq<TypeDoc>, s :| s in d && l.key(s) == l.key(t) && Matched(l, d, s, it) && t == l.touch(es, s, it);
    assert t == TouchType(s, it) && l.key(s) == s.key;
    TypeTerms(n, s, it);
    TypeNone(n, d, it);
    if HasAlias(l, s, it) && FirstAliased(l, d, it) == Some(l.key(s)) {
      var i := FirstType(n, d, it, s);
      assert TypeMatched(n, d, it, i);
    } else {
      var i :| 0 <= i < |d| && d[i] == s;
      assert TypeMatched(n, d, it, i);
    }
  }

  lemma TypeMade(n: Naming, d: seq<TypeDoc>, now: seq<TypeDoc>, claimed: set<string>, t: TypeDoc, it: IssueType)
    requires it.id != "" && MadeNew(TypeLevel(n), d, claimed, t, it)
    requires forall u :: u in now && Unmapped(u.aliases) ==> u in d && u.key !in claimed
    ensures TypeFollows(n, d, now, t, it)
  {
    hide HasAlias, Adoptable, NoneHas, Barred, KeyFor, Keyed, Calls, Unmapped, NoTypeMapped;
    var l := TypeLevel(n);
    TypeNone(n, d, it);
    var es: seq<TypeDoc> :| t == l.make(es, it);
    assert t == NewType(n, es, it);
    KeyIsFirst(n, it.name, it.id, "t-", set x | x in es :: x.key);
    forall u | u in now ensures !TypeFree(n, u, it) {
      TypeTerms(n, u, it);
      assert l.key(u) == u.key;
    }
    forall u | u in d ensures u.key != t.key { var a :| 0 <= a < |d| && d[a] == u; assert l.key(d[a]) == u.key; }
  }

  lemma TypeCame(n: Naming, d: seq<TypeDoc>, now: seq<TypeDoc>, claimed: set<string>, t: TypeDoc, it: IssueType)
    requires DistinctKeys(TypeLevel(n), d) && it.id != "" && Came(TypeLevel(n), d, claimed, t, it)
    requires forall u :: u in now && Unmapped(u.aliases) ==> u in d && u.key !in claimed
    ensures TypeFollows(n, d, now, t, it) && Mapped(t.aliases, it.id)
  {
    hide TookOver, MadeNew, TypeFollows, DistinctKeys, Unmapped;
    if TookOver(TypeLevel(n), d, t, it) { TypeTook(n, d, now, t, it); } else { TypeMade(n, d, now, claimed, t, it); }
  }

  // ---- a type's fields before ----

  /** The fields of the type of a key; none, if there is no such type. */
  function FieldsOf(d: seq<TypeDoc>, key: string): seq<FieldDoc> {
    if d == [] then [] else if d[0].key == key then d[0].fields else FieldsOf(d[1..], key)
  }

  lemma {:induction false} FieldsOfIs(d: seq<TypeDoc>, key: string)
    ensures if exists t :: t in d && t.key == key then exists t :: t in d && t.key == key && FieldsOf(d, key) == t.fields
            else FieldsOf(d, key) == []
  {
    if d != [] {
      assert d == [d[0]] + d[1..];
      FieldsOfIs(d[1..], key);
    }
  }

  lemma FieldsOfType(n: Naming, d: seq<TypeDoc>, t: TypeDoc)
    requires DistinctKeys(TypeLevel(n), d) && t in d
    ensures FieldsOf(d, t.key) == t.fields
  {
    hide FieldsOf, DistinctKeys;
    FieldsOfIs(d, t.key);
    OneKey(TypeLevel(n), d, t);
    assert TypeLevel(n).key(t) == t.key;
    var u :| u in d && u.key == t.key && FieldsOf(d, t.key) == u.fields;
    assert TypeLevel(n).key(u) == u.key;
  }

  /** The pass over the types leaves every type's fields as they were. */
  lemma FieldsBefore(n: Naming, d: seq<TypeDoc>, claimed: set<string>, t: TypeDoc, it: IssueType)
    requires DistinctKeys(TypeLevel(n), d) && Came(TypeLevel(n), d, claimed, t, it)
    ensures FieldsOf(d, t.key) == t.fields
  {
    hide Matched, NoneHas, Barred, Adoptable, FieldsOf, KeyFor, DistinctKeys;
    var l := TypeLevel(n);
    if TookOver(l, d, t, it) {
      var es: seq<TypeDoc>, s :| s in d && l.key(s) == l.key(t) && Matched(l, d, s, it) && t == l.touch(es, s, it);
      FieldsOfType(n, d, s);
      assert t == TouchType(s, it) && l.key(s) == s.key;
    } else {
      var es: seq<TypeDoc> :| t == l.make(es, it);
      assert t == NewType(n, es, it);
      FieldsOfIs(d, t.key);
      forall u | u in d ensures u.key != t.key { var a :| 0 <= a < |d| && d[a] == u; assert l.key(d[a]) == u.key; }
    }
  }

  // ---- the types and their order ----

  ghost predicate DocumentKeyed(d: Document) {
    (forall i, k :: 0 <= i < k < |d| ==> d[i].key != d[k].key) && forall t :: t in d ==> FieldsKeyed(t.fields)
  }

  /** Ids are distinct, refs are within an issue type, and none is empty or the parents'. */
  ghost predicate ProjectKeyed(p: Project) {
    && (forall i :: 0 <= i < |p.types| ==> p.types[i].id != "")
    && (forall i, k :: 0 <= i < k < |p.types| ==> p.types[i].id != p.types[k].id)
    && (forall it :: it in p.types ==> WantsKeyed(it.before + it.after) && forall w :: w in it.before + it.after ==> w.ref != "parent")
  }

  ghost predicate TypeMet(n: Naming, d: seq<TypeDoc>, now: seq<TypeDoc>, it: IssueType) {
    if TypeLeftOut(n, d, it) then NoTypeMapped(now, it.id)
    else exists i :: TypeFirst(now, it.id, i) && TypeFollows(n, d, now, now[i], it)
  }

  ghost predicate TypesMet(n: Naming, d: seq<TypeDoc>, now: seq<TypeDoc>, its: seq<IssueType>) {
    && (forall it :: it in its ==> TypeMet(n, d, now, it))
    && (forall t :: t in now ==> t in d || exists it :: it in its && Mapped(t.aliases, it.id) && TypeFollows(n, d, now, t, it))
  }

  lemma TypeStart(n: Naming, d: Document, p: Project)
    requires DocumentKeyed(d) && ProjectKeyed(p)
    ensures Startable(TypeLevel(n), Always(), false, Always(), d, p.types)
    ensures forall it :: it in p.types ==> it.id != ""
  {
    hide Lawful, FieldsKeyed, WantsKeyed;
    TypeLawful(n);
    assert Startable(TypeLevel(n), Always(), true, Always(), d, p.types);
    StartLoosely(TypeLevel(n), Always(), Always(), d, p.types);
  }

  lemma UnmappedTypes(n: Naming, d: seq<TypeDoc>, p: Pass<TypeDoc>, its: seq<IssueType>)
    requires forall e :: e in p.es ==> if TypeLevel(n).key(e) in p.claimed
               then exists it :: it in its && Came(TypeLevel(n), d, p.claimed, e, it) else e in d
    ensures forall u :: u in p.es && Unmapped(u.aliases) ==> u in d && u.key !in p.claimed
  {
    hide Came;
    forall u | u in p.es && Unmapped(u.aliases) ensures u in d && u.key !in p.claimed {
      assert TypeLevel(n).key(u) == u.key;
      if u.key in p.claimed {
        var it :| it in its && Came(TypeLevel(n), d, p.claimed, u, it);
        AliasOfCame(TypeLevel(n), d, p.claimed, u, it);
      }
    }
  }

  lemma TypeOutcome(n: Naming, d: seq<TypeDoc>, p: Pass<TypeDoc>, it: IssueType)
    requires DistinctKeys(TypeLevel(n), d) && DistinctKeys(TypeLevel(n), p.es) && it.id != "" && Outcome(TypeLevel(n), d, p, it)
    requires forall u :: u in p.es && Unmapped(u.aliases) ==> u in d && u.key !in p.claimed
    ensures TypeMet(n, d, p.es, it)
  {
    hide HasAlias, Came, Barred, Unmapped, TypeFollows, FirstAliased, NoneHas, NoTypeMapped, TypeKeepsOut, Mapped, DistinctKeys;
    var l := TypeLevel(n);
    TypeNone(n, d, it);
    TypeNone(n, p.es, it);
    if !LeftOut(l, d, it) {
      var i :| HeldBy(l, p.es, it, i) && Came(l, d, p.claimed, p.es[i], it);
      assert l.key(p.es[i]) == p.es[i].key;
      var k := FirstType(n, p.es, it, p.es[i]);
      TypeCame(n, d, p.es, p.claimed, p.es[k], it);
    }
  }

  /** The types after the pass over them. */
  lemma TypesDerived(n: Naming, d: Document, p: Project)
    requires DocumentKeyed(d) && ProjectKeyed(p)
    ensures var ts := PassOver(TypeLevel(n), d, p.types).es;
            && TypesMet(n, d, ts, p.types) && DistinctKeys(TypeLevel(n), ts)
            && forall t :: t in ts ==> FieldsOf(d, t.key) == t.fields
  {
    hide PassOver, Came, Outcome, Unmapped, TypeFollows, TypeMet, Lawful, Taken, SameFirst, FieldsKeyed, WantsKeyed, FieldsOf;
    var l := TypeLevel(n);
    var q := PassOver(l, d, p.types);
    TypeStart(n, d, p);
    PassOutcome(l, Always(), Always(), d, p.types);
    PassKeeps(l, Always(), false, Always(), d, p.types);
    UnmappedTypes(n, d, q, p.types);
    forall it | it in p.types ensures TypeMet(n, d, q.es, it) { TypeOutcome(n, d, q, it); }
    forall t | t in q.es && t !in d ensures exists it :: it in p.types && Mapped(t.aliases, it.id) && TypeFollows(n, d, q.es, t, it) {
      var it :| it in p.types && Came(l, d, q.claimed, t, it);
      TypeCame(n, d, q.es, q.claimed, t, it);
    }
    forall t | t in q.es ensures FieldsOf(d, t.key) == t.fields {
      if l.key(t) in q.claimed {
        var it :| it in p.types && Came(l, d, q.claimed, t, it);
        FieldsBefore(n, d, q.claimed, t, it);
      } else {
        FieldsOfType(n, d, t);
      }
    }
  }

  lemma MappedMore(order: seq<Pair>, x: Pair, id: string)
    ensures MappedKey(order + [x], id) == if x.id == id then Some(x.key) else MappedKey(order, id)
    ensures order + [] == order
  {
    assert (order + [x])[..|order|] == order;
  }

  lemma MappedLast(n: Naming, ts: seq<TypeDoc>, its: seq<IssueType>, id: string)
    requires its != []
    ensures var front, r := OrderOf(TypeLevel(n), ts, its[..|its| - 1]), FirstAliased(TypeLevel(n), ts, its[|its| - 1]);
            MappedKey(OrderOf(TypeLevel(n), ts, its), id) == if r.Some? && its[|its| - 1].id == id then r else MappedKey(front, id)
  {
    hide FirstAliased, MappedKey;
    var l, it := TypeLevel(n), its[|its| - 1];
    var front, r := OrderOf(l, ts, its[..|its| - 1]), FirstAliased(l, ts, it);
    MappedMore(front, Pair(it.id, r.GetOr("")), id);
    assert l.id(it) == it.id;
  }

  lemma {:induction false} MappedNone(n: Naming, ts: seq<TypeDoc>, its: seq<IssueType>, id: string)
    requires forall it :: it in its ==> it.id != id
    ensures MappedKey(OrderOf(TypeLevel(n), ts, its), id) == None
  {
    hide FirstAliased;
    if its != [] {
      assert its[|its| - 1] in its;
      MappedLast(n, ts, its, id);
      MappedNone(n, ts, its[..|its| - 1], id);
    }
  }

  /** An issue type's local type is the one its alias finds. */
  lemma {:induction false} MappedFirst(n: Naming, ts: seq<TypeDoc>, its: seq<IssueType>, it: IssueType)
    requires (forall i, k :: 0 <= i < k < |its| ==> its[i].id != its[k].id) && it in its
    ensures MappedKey(OrderOf(TypeLevel(n), ts, its), it.id) == FirstAliased(TypeLevel(n), ts, it)
  {
    hide FirstAliased;
    var front, last := its[..|its| - 1], its[|its| - 1];
    var a :| 0 <= a < |its| && its[a] == it;
    MappedLast(n, ts, its, it.id);
    if a == |its| - 1 {
      MappedNone(n, ts, front, it.id);
    } else {
      assert front[a] == it;
      MappedFirst(n, ts, front, it);
    }
  }

  // ---- the parents' types ----

  /** The key of a type whose issue type is one level up. */
  ghost predicate OneUp(p: Project, now: seq<TypeDoc>, it: IssueType, key: string) {
    exists up, k :: up in p.types && up.level == it.level + 1 && TypeFirst(now, up.id, k) && now[k].key == key
  }

  ghost predicate AllUp(p: Project, now: seq<TypeDoc>, it: IssueType, above: seq<string>) {
    above != [] && forall key :: key in above <==> OneUp(p, now, it, key)
  }

  lemma {:induction false} AboveIs(its: seq<IssueType>, order: seq<Pair>, level: int, key: string)
    ensures key in Above(its, order, level) <==> exists up :: up in its && up.level == level + 1 && MappedKey(order, up.id) == Some(key)
  {
    hide MappedKey;
    if its != [] {
      assert its == its[..|its| - 1] + [its[|its| - 1]];
      AboveIs(its[..|its| - 1], order, level, key);
    }
  }

  lemma UpIs(n: Naming, p: Project, order: seq<Pair>, now: seq<TypeDoc>, it: IssueType, key: string)
    requires DistinctKeys(TypeLevel(n), now)
    requires forall up :: up in p.types ==> up.id != "" && MappedKey(order, up.id) == FirstAliased(TypeLevel(n), now, up)
    ensures key in Above(p.types, order, it.level) <==> OneUp(p, now, it, key)
  {
    hide MappedKey, FirstAliased, NoTypeMapped, DistinctKeys, Above;
    AboveIs(p.types, order, it.level, key);
    if key in Above(p.types, order, it.level) {
      var up :| up in p.types && up.level == it.level + 1 && MappedKey(order, up.id) == Some(key);
      var k := AliasType(n, now, up, key);
    }
    if OneUp(p, now, it, key) {
      var up, k :| up in p.types && up.level == it.level + 1 && TypeFirst(now, up.id, k) && now[k].key == key;
      FirstFound(n, now, up, k);
    }
  }

  lemma AliasType(n: Naming, now: seq<TypeDoc>, it: IssueType, key: string) returns (i: nat)
    requires DistinctKeys(TypeLevel(n), now) && it.id != "" && FirstAliased(TypeLevel(n), now, it) == Some(key)
    ensures i < |now| && now[i].key == key && TypeFirst(now, it.id, i)
  {
    hide HasAlias, FirstAliased, TypeFirst, DistinctKeys;
    var l := TypeLevel(n);
    AliasedIs(l, now, it);
    var k :| 0 <= k < |now| && HasAlias(l, now[k], it) && l.key(now[k]) == key;
    i := FirstType(n, now, it, now[k]);
  }

  /** What is asked of a type's fields: Jira's, and among them the parents', if there is a type one level up. */
  ghost predicate Asked(p: Project, now: seq<TypeDoc>, it: IssueType, ws: seq<JiraField>) {
    || (ws == it.before + it.after && forall key :: !OneUp(p, now, it, key))
    || exists above: seq<string> :: AllUp(p, now, it, above)
         && ws == it.before
              + [JiraField("parent", "parent", p.parentName, "relation", false, "children", false, above, [], false, false)] + it.after
  }

  lemma WantsAsked(n: Naming, p: Project, order: seq<Pair>, now: seq<TypeDoc>, it: IssueType)
    requires DistinctKeys(TypeLevel(n), now)
    requires forall up :: up in p.types ==> up.id != "" && MappedKey(order, up.id) == FirstAliased(TypeLevel(n), now, up)
    ensures Asked(p, now, it, WantsOf(p, order, it))
  {
    hide MappedKey, FirstAliased, OneUp, DistinctKeys, Above;
    var above := Above(p.types, order, it.level);
    forall key ensures key in above <==> OneUp(p, now, it, key) { UpIs(n, p, order, now, it, key); }
    if above == [] {
      forall key ensures !OneUp(p, now, it, key) { assert key !in above; }
      assert it.before + [] + it.after == it.before + it.after;
    }
  }

  lemma AskedKeyed(p: Project, now: seq<TypeDoc>, it: IssueType, ws: seq<JiraField>)
    requires ProjectKeyed(p) && it in p.types && Asked(p, now, it, ws)
    ensures WantsKeyed(ws)
  {
    hide OneUp;
    assert WantsKeyed(it.before + it.after);
    if ws != it.before + it.after {
      var above: seq<string> :| AllUp(p, now, it, above)
         && ws == it.before
              + [JiraField("parent", "parent", p.parentName, "relation", false, "children", false, above, [], false, false)] + it.after;
      OneBetween(it.before, it.after, JiraField("parent", "parent", p.parentName, "relation", false, "children", false, above, [], false, false));
    }
  }

  lemma OneBetween(a: seq<JiraField>, b: seq<JiraField>, w: JiraField)
    requires WantsKeyed(a + b) && w.ref != "" && FairValues(w) && forall x :: x in a + b ==> x.ref != w.ref
    ensures WantsKeyed(a + [w] + b)
  {
    hide FairValues;
    var all, ws := a + b, a + [w] + b;
    forall i | 0 <= i < |ws| ensures ws[i].ref != "" && FairValues(ws[i]) && (i != |a| ==> ws[i].ref != w.ref) {
      if i < |a| { assert ws[i] == all[i]; } else if i > |a| { assert ws[i] == all[i - 1]; }
    }
    forall i, k | 0 <= i < k < |ws| ensures ws[i].ref != ws[k].ref {
      if i != |a| && k != |a| { assert ws[i] == all[if i < |a| then i else i - 1] && ws[k] == all[if k < |a| then k else k - 1]; }
    }
  }

  // ---- the passes over the fields ----

  lemma FieldPassAt(n: Naming, p: Project, order: seq<Pair>, now: seq<TypeDoc>, it: IssueType, i: nat)
    requires DistinctKeys(TypeLevel(n), now) && i < |now|
    ensures var r := FieldPass(n, p, order, now, it);
            |r| == |now| && r[i] == if MappedKey(order, it.id) == Some(now[i].key)
                                    then now[i].(fields := DeriveFields(n, now[i].fields, WantsOf(p, order, it))) else now[i]
  {
    hide MappedKey, WantsOf, DeriveFields, DistinctKeys;
    var k := MappedKey(order, it.id);
    if k == Some(now[i].key) {
      A.TypeAt(n, now, k.value, i);
    } else if k.Some? && HasKey(TypeLevel(n), now, k.value) {
      var j := IndexOf(TypeLevel(n), now, k.value);
      assert TypeLevel(n).key(now[j]) == now[j].key;
    }
  }

  /** The fields of a type are those derived for its issue type; a type of none is as it was. */
  lemma {:induction false} FieldsAt(n: Naming, p: Project, order: seq<Pair>, ts: seq<TypeDoc>, its: seq<IssueType>, i: nat)
    requires DistinctKeys(TypeLevel(n), ts) && A.OneEach(order, its) && i < |ts|
    ensures var r := FieldPasses(n, p, order, ts, its);
            && |r| == |ts|
            && (forall it :: it in its && MappedKey(order, it.id) == Some(ts[i].key) ==>
                  r[i].fields == DeriveFields(n, ts[i].fields, WantsOf(p, order, it)))
            && ((forall it :: it in its ==> MappedKey(order, it.id) != Some(ts[i].key)) ==> r[i] == ts[i])
  {
    hide MappedKey, WantsOf, DeriveFields, DistinctKeys, FieldPass;
    if its != [] {
      var front, last := its[..|its| - 1], its[|its| - 1];
      FieldsAt(n, p, order, ts, front, i);
      var now := FieldPasses(n, p, order, ts, front);
      A.PassesSame(n, p, order, ts, front);
      A.SameKeys(n, ts, now);
      FieldPassAt(n, p, order, now, last, i);
      assert now[i].key == ts[i].key;
      forall it | it in front && MappedKey(order, it.id).Some? ensures MappedKey(order, it.id) != MappedKey(order, last.id) {
        var a :| 0 <= a < |front| && front[a] == it;
        assert its[a] == it;
      }
      assert its == front + [last];
    }
  }

  // ---- the same types with other fields ----

  lemma SameMapped(a: seq<TypeDoc>, b: seq<TypeDoc>, id: string)
    requires A.SameTypes(a, b)
    ensures NoTypeMapped(a, id) <==> NoTypeMapped(b, id)
    ensures forall i :: TypeFirst(a, id, i) <==> TypeFirst(b, id, i)
  {
    MappedOther(a, b, id);
    MappedOther(b, a, id);
    forall i | 0 <= i <= |a| ensures NoTypeMapped(a[..i], id) <==> NoTypeMapped(b[..i], id) {
      MappedOther(a[..i], b[..i], id);
      MappedOther(b[..i], a[..i], id);
    }
  }

  lemma MappedOther(a: seq<TypeDoc>, b: seq<TypeDoc>, id: string)
    requires |a| == |b| && forall i :: 0 <= i < |a| ==> a[i].aliases == b[i].aliases
    ensures NoTypeMapped(a, id) ==> NoTypeMapped(b, id)
  {
    if NoTypeMapped(a, id) {
      forall t | t in b ensures !Mapped(t.aliases, id) {
        var i :| 0 <= i < |b| && b[i] == t;
        assert a[i] in a;
      }
    }
  }

  lemma FollowsStay(n: Naming, d: seq<TypeDoc>, a: seq<TypeDoc>, b: seq<TypeDoc>, it: IssueType, i: nat)
    requires A.SameTypes(a, b) && i < |a| && TypeFollows(n, d, a, a[i], it)
    ensures TypeFollows(n, d, b, b[i], it) && b[i].aliases == a[i].aliases
  {
    hide TypeMatched, NoTypeMapped, Keyed, Calls;
    assert b[i] == a[i].(fields := b[i].fields);
    if forall u :: u in a ==> !TypeFree(n, u, it) {
      forall u | u in b ensures !TypeFree(n, u, it) {
        var k :| 0 <= k < |b| && b[k] == u;
        assert a[k] in a && b[k] == a[k].(fields := b[k].fields);
      }
    }
  }

  // ---- the document ----

  /** The fields of an issue type's local type are what is asked put onto those the type had. */
  ghost predicate FieldsSay(n: Naming, d: seq<TypeDoc>, p: Project, now: seq<TypeDoc>, it: IssueType, t: TypeDoc) {
    exists ws :: Asked(p, now, it, ws) && FieldsMet(n, FieldsOf(d, t.key), t.fields, ws)
  }

  /** What the document derived says of an issue type. */
  ghost predicate Derives(n: Naming, d: seq<TypeDoc>, p: Project, now: seq<TypeDoc>, it: IssueType) {
    if TypeLeftOut(n, d, it) then NoTypeMapped(now, it.id)
    else exists i :: TypeFirst(now, it.id, i) && TypeFollows(n, d, now, now[i], it) && FieldsSay(n, d, p, now, it, now[i])
  }

  lemma KeyedFields(d: Document, key: string)
    requires DocumentKeyed(d)
    ensures FieldsKeyed(FieldsOf(d, key))
  {
    hide FieldsOf;
    FieldsOfIs(d, key);
  }

  lemma FieldsSaid(n: Naming, d: Document, p: Project, order: seq<Pair>, ts: seq<TypeDoc>, now: seq<TypeDoc>, it: IssueType, i: nat)
    requires DocumentKeyed(d) && ProjectKeyed(p) && it in p.types && i < |now| && TypeFirst(now, it.id, i)
    requires DistinctKeys(TypeLevel(n), ts) && A.SameTypes(ts, now) && A.OneEach(order, p.types)
    requires now == FieldPasses(n, p, order, ts, p.types) && FieldsOf(d, ts[i].key) == ts[i].fields
    requires forall up :: up in p.types ==> up.id != "" && MappedKey(order, up.id) == FirstAliased(TypeLevel(n), now, up)
    ensures FieldsSay(n, d, p, now, it, now[i])
  {
    hide DocumentKeyed, ProjectKeyed, FirstAliased, FieldsMet, FieldsKeyed, WantsKeyed, DistinctKeys, WantsOf,
         DeriveFields, FieldPasses, FieldsOf, Asked, TypeFirst;
    var ws := WantsOf(p, order, it);
    A.SameKeys(n, ts, now);
    FirstFound(n, now, it, i);
    assert now[i].key == ts[i].key;
    FieldsAt(n, p, order, ts, p.types, i);
    WantsAsked(n, p, order, now, it);
    AskedKeyed(p, now, it, ws);
    KeyedFields(d, now[i].key);
    FieldsDerived(n, ts[i].fields, ws);
  }

  /** What the parts of a derivation make of one another. */
  lemma DerivedParts(n: Naming, d: Document, p: Project)
    requires DocumentKeyed(d) && ProjectKeyed(p) && Derive(n, d, p).Ok?
    ensures var q := PassOver(TypeLevel(n), d, p.types);
            var now := Derive(n, d, p).doc;
            && now == FieldPasses(n, p, q.order, q.es, p.types) && A.SameTypes(q.es, now) && A.OneEach(q.order, p.types)
            && forall up :: up in p.types ==> up.id != "" && MappedKey(q.order, up.id) == FirstAliased(TypeLevel(n), now, up)
  {
    hide DocumentKeyed, PassOver, FirstAliased, OrderOf, WantsKeyed, DistinctKeys, FieldPasses, Startable,
         A.OneEach, A.SameTypes, MappedKey, BoundElsewhere;
    var l := TypeLevel(n);
    var q := PassOver(l, d, p.types);
    var now := Derive(n, d, p).doc;
    TypeStart(n, d, p);
    TypesDerived(n, d, p);
    PassOrder(l, Always(), false, Always(), d, p.types);
    A.PassesSame(n, p, q.order, q.es, p.types);
    StartIds(n, d, p.types);
    A.MappedOneEach(n, q.es, p.types);
    forall up | up in p.types ensures MappedKey(q.order, up.id) == FirstAliased(l, now, up) {
      MappedFirst(n, q.es, p.types, up);
      A.SameFirst(n, q.es, now, up);
    }
  }

  lemma StartIds(n: Naming, d: seq<TypeDoc>, its: seq<IssueType>)
    requires Startable(TypeLevel(n), Always(), false, Always(), d, its)
    ensures MatchFacts.DistinctIds(TypeLevel(n), its)
  {
    hide Lawful;
  }

  /** Every issue type has its local type, with Jira's name and what Jira has of fields, or is left out. */
  lemma DeriveSays(n: Naming, d: Document, p: Project, it: IssueType)
    requires DocumentKeyed(d) && ProjectKeyed(p) && Derive(n, d, p).Ok? && it in p.types
    ensures Derives(n, d, p, Derive(n, d, p).doc, it)
  {
    hide DocumentKeyed, ProjectKeyed, PassOver, FirstAliased, DistinctKeys, FieldPasses, A.OneEach, A.SameTypes,
         MappedKey, Derive, TypeFollows, NoTypeMapped, TypeKeepsOut, FieldsSay, FieldsOf;
    var q := PassOver(TypeLevel(n), d, p.types);
    var now := Derive(n, d, p).doc;
    TypesDerived(n, d, p);
    DerivedParts(n, d, p);
    SameMapped(q.es, now, it.id);
    assert TypeMet(n, d, q.es, it);
    if !TypeLeftOut(n, d, it) {
      var i :| TypeFirst(q.es, it.id, i) && TypeFollows(n, d, q.es, q.es[i], it);
      FirstIndex(q.es, now, it.id, i);
      FollowsStay(n, d, q.es, now, it, i);
      FieldsSaid(n, d, p, q.order, q.es, now, it, i);
    }
  }

  lemma FirstIndex(a: seq<TypeDoc>, b: seq<TypeDoc>, id: string, i: int)
    requires TypeFirst(a, id, i) && A.SameTypes(a, b)
    ensures 0 <= i < |a| == |b| && a[i] in a
  {
  }

  lemma OneFirst(d: seq<TypeDoc>, id: string, i: int, k: int)
    requires TypeFirst(d, id, i) && TypeFirst(d, id, k)
    ensures i == k
  {
    NoneBefore(d, id, i);
    NoneBefore(d, id, k);
  }

  /** The one a derivation maps for an issue type follows Jira's. */
  lemma FirstFollows(n: Naming, d: Document, p: Project, it: IssueType, i: int)
    requires DocumentKeyed(d) && ProjectKeyed(p) && Derive(n, d, p).Ok? && it in p.types && TypeFirst(Derive(n, d, p).doc, it.id, i)
    ensures var now := Derive(n, d, p).doc; TypeFollows(n, d, now, now[i], it) && FieldsSay(n, d, p, now, it, now[i])
  {
    hide DocumentKeyed, ProjectKeyed, Derive, TypeFollows, TypeKeepsOut, FieldsSay;
    var now := Derive(n, d, p).doc;
    DeriveSays(n, d, p, it);
    assert now[i] in now;
    var k :| TypeFirst(now, it.id, k) && TypeFollows(n, d, now, now[k], it) && FieldsSay(n, d, p, now, it, now[k]);
    OneFirst(now, it.id, i, k);
  }

  /** A type that is no issue type's is as it was, its fields with it. */
  lemma OthersStay(n: Naming, d: Document, p: Project, i: nat)
    requires DocumentKeyed(d) && ProjectKeyed(p) && Derive(n, d, p).Ok? && i < |Derive(n, d, p).doc|
    ensures var now := Derive(n, d, p).doc;
            now[i] in d || exists it :: it in p.types && Mapped(now[i].aliases, it.id) && TypeFollows(n, d, now, now[i], it)
  {
    hide DocumentKeyed, ProjectKeyed, PassOver, FirstAliased, DistinctKeys, FieldPasses, A.OneEach, A.SameTypes,
         MappedKey, Derive, TypeFollows, NoTypeMapped, FieldsOf, FieldsSay, TypeMet, Mapped;
    var l := TypeLevel(n);
    var q := PassOver(l, d, p.types);
    var now := Derive(n, d, p).doc;
    TypesDerived(n, d, p);
    DerivedParts(n, d, p);
    SameKeyAt(q.es, now, i);
    FieldsAt(n, p, q.order, q.es, p.types, i);
    if q.es[i] !in d {
      assert q.es[i] in q.es;
      var it :| it in p.types && Mapped(q.es[i].aliases, it.id) && TypeFollows(n, d, q.es, q.es[i], it);
      FollowsStay(n, d, q.es, now, it, i);
    } else if it :| it in p.types && MappedKey(q.order, it.id) == Some(q.es[i].key) {
      A.SameKeys(n, q.es, now);
      var k := AliasType(n, now, it, now[i].key);
      KeyAt(n, now, i, k);
      FirstFollows(n, d, p, it, i);
    }
  }

  lemma SameKeyAt(a: seq<TypeDoc>, b: seq<TypeDoc>, i: nat)
    requires A.SameTypes(a, b) && i < |b|
    ensures |a| == |b| && a[i].key == b[i].key
  {
  }

  lemma KeyAt(n: Naming, d: seq<TypeDoc>, i: nat, k: nat)
    requires DistinctKeys(TypeLevel(n), d) && i < |d| && k < |d| && d[i].key == d[k].key
    ensures i == k
  {
    assert TypeLevel(n).key(d[i]) == TypeLevel(n).key(d[k]);
  }

  /** A type one level below another's has a parents' field that targets it, unless one of the name keeps it out. */
  lemma ParentGiven(n: Naming, d: Document, p: Project, it: IssueType, up: IssueType, i: int, k: int)
    requires DocumentKeyed(d) && ProjectKeyed(p) && Derive(n, d, p).Ok? && it in p.types && up in p.types && up.level == it.level + 1
    requires TypeFirst(Derive(n, d, p).doc, it.id, i) && TypeFirst(Derive(n, d, p).doc, up.id, k)
    ensures var now := Derive(n, d, p).doc;
            || (exists f :: f in now[i].fields && FieldMapped(f, "parent") && now[k].key in f.targetTypes)
            || (exists f :: f in FieldsOf(d, now[i].key) && FieldMapped(f, "") && Calls(n, f.key, f.name, p.parentName, "parent"))
  {
    hide DocumentKeyed, ProjectKeyed, Derive, TypeFollows, NoTypeMapped, NoFieldMapped, FieldMapped, Calls, FieldsOf, Keyed;
    var now := Derive(n, d, p).doc;
    FirstFollows(n, d, p, it, i);
    var ws :| Asked(p, now, it, ws) && FieldsMet(n, FieldsOf(d, now[i].key), now[i].fields, ws);
    assert OneUp(p, now, it, now[k].key);
    var above: seq<string> :| AllUp(p, now, it, above)
         && ws == it.before
              + [JiraField("parent", "parent", p.parentName, "relation", false, "children", false, above, [], false, false)] + it.after;
    var w := JiraField("parent", "parent", p.parentName, "relation", false, "children", false, above, [], false, false);
    assert ws[|it.before|] == w;
    assert FieldMet(n, FieldsOf(d, now[i].key), now[i].fields, w);
    if !FieldLeftOut(n, FieldsOf(d, now[i].key), w) {
      var f :| f in now[i].fields && FieldMapped(f, "parent") && FieldFollows(n, FieldsOf(d, now[i].key), now[i].fields, f, w);
      FollowsTargets(n, FieldsOf(d, now[i].key), now[i].fields, f, w, now[k].key);
    }
  }

  lemma FollowsTargets(n: Naming, fs: seq<FieldDoc>, now: seq<FieldDoc>, f: FieldDoc, w: JiraField, x: string)
    requires FieldFollows(n, fs, now, f, w) && x in w.targets
    ensures x in f.targetTypes
  {
    hide FieldMatched, NoFieldMapped, FieldFree, Keyed, ValuesMet, SortedStrings;
  }

  /** A type with none one level up has no parents' field but one it had, as it was. */
  lemma NoParentGained(n: Naming, d: Document, p: Project, it: IssueType, i: int, f: FieldDoc)
    requires DocumentKeyed(d) && ProjectKeyed(p) && Derive(n, d, p).Ok? && it in p.types && TypeFirst(Derive(n, d, p).doc, it.id, i)
    requires forall up, k :: up in p.types && up.level == it.level + 1 ==> !TypeFirst(Derive(n, d, p).doc, up.id, k)
    requires f in Derive(n, d, p).doc[i].fields && FieldMapped(f, "parent")
    ensures f in FieldsOf(d, Derive(n, d, p).doc[i].key)
  {
    hide DocumentKeyed, Derive, TypeFollows, NoTypeMapped, FieldFollows, FieldMet, WantsKeyed, FieldsOf;
    var now := Derive(n, d, p).doc;
    FirstFollows(n, d, p, it, i);
    var ws :| Asked(p, now, it, ws) && FieldsMet(n, FieldsOf(d, now[i].key), now[i].fields, ws);
    NoneAsked(p, now, it, ws);
    assert forall w: JiraField :: w in ws ==> !FieldMapped(f, w.ref);
  }

  lemma NoneAsked(p: Project, now: seq<TypeDoc>, it: IssueType, ws: seq<JiraField>)
    requires Asked(p, now, it, ws) && forall up, k :: up in p.types && up.level == it.level + 1 ==> !TypeFirst(now, up.id, k)
    ensures ws == it.before + it.after
  {
    hide TypeFirst;
    forall key ensures !OneUp(p, now, it, key) { }
    forall above: seq<string> ensures !AllUp(p, now, it, above) { if above != [] { assert above[0] in above; } }
  }
}
