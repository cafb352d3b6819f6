/** The values derived for one field, told from its values and Jira's. */
module ValueSays {
  import opened Documents
  import opened Imports
  import opened Matching
  import opened MatchFacts
  import opened MatchPass
  import opened MatchAgain
  import opened MatchOutcome
  import opened Derivation
  import opened DeriveValueFacts
  import O = Ordering

  ghost predicate Mapped(aliases: map<string, string>, id: string) { "jira" in aliases && aliases["jira"] == id }

  ghost predicate Unmapped(aliases: map<string, string>) { "jira" !in aliases }

  /** One of the two names folds to Jira's, and not to nothing; or the key is the fixed table's. */
  ghost predicate Calls(n: Naming, key: string, name: string, jiraName: string, tableKey: string) {
    key == tableKey || exists own :: own in {key, name} && n.norm(own) == n.norm(jiraName) != ""
  }

  lemma CallsIs(n: Naming, key: string, name: string, jiraName: string, tableKey: string)
    ensures Calls(n, key, name, jiraName, tableKey) <==> SameName(n, key, name, jiraName, tableKey)
  {
    assert key in {key, name} && name in {key, name};
  }

  // ---- new keys ----

  /** The m-th key tried for a name: what it folds to, or else the id; then that with 2, 3 and so on. */
  function Candidate(n: Naming, name: string, jiraId: string, prefix: string, m: nat): string {
    var stem := if n.slug(name) == "" then "jira-" + n.slug(jiraId) else n.slug(name);
    var base := if prefix == "" || 'a' <= stem[0] <= 'z' then stem else prefix + stem;
    if m <= 1 then base else base + "-" + Decimal(m)
  }

  ghost predicate Keyed(n: Naming, name: string, jiraId: string, prefix: string, key: string) {
    exists m: nat :: m >= 1 && key == Candidate(n, name, jiraId, prefix, m)
  }

  lemma {:induction false} FreeIsFirst(base: string, from: nat, used: set<string>)
    ensures exists m: nat ::
              m >= from && FirstFree(base, from, used) == Suffixed(base, m) && forall k: nat :: from <= k < m ==> Suffixed(base, k) in used
    decreases |used|
  {
    var key := Suffixed(base, from);
    if key in used {
      FreeIsFirst(base, from + 1, used - {key});
      var m: nat :| m >= from + 1 && FirstFree(base, from + 1, used - {key}) == Suffixed(base, m)
                    && forall k: nat :: from + 1 <= k < m ==> Suffixed(base, k) in used - {key};
      assert FirstFree(base, from, used) == Suffixed(base, m);
      forall k: nat | from <= k < m ensures Suffixed(base, k) in used { if k > from { assert Suffixed(base, k) in used - {key}; } }
    } else {
      assert FirstFree(base, from, used) == Suffixed(base, from);
    }
  }

  /** A new key is the first one tried that nothing uses. */
  lemma KeyIsFirst(n: Naming, name: string, jiraId: string, prefix: string, used: set<string>)
    ensures exists m: nat ::
              && m >= 1 && KeyFor(n, name, jiraId, prefix, used) == Candidate(n, name, jiraId, prefix, m)
              && forall k: nat :: 1 <= k < m ==> Candidate(n, name, jiraId, prefix, k) in used
    ensures Keyed(n, name, jiraId, prefix, KeyFor(n, name, jiraId, prefix, used))
  {
    hide Decimal, FirstFree;
    var base := BaseKey(n, name, jiraId, prefix);
    assert Candidate(n, name, jiraId, prefix, 1) == base;
    if base in used {
      FreeIsFirst(base, 2, used);
      var m: nat :| m >= 2 && FirstFree(base, 2, used) == Suffixed(base, m) && forall k: nat :: 2 <= k < m ==> Suffixed(base, k) in used;
      assert KeyFor(n, name, jiraId, prefix, used) == Candidate(n, name, jiraId, prefix, m);
      forall k: nat | 1 <= k < m ensures Candidate(n, name, jiraId, prefix, k) in used {
        if k >= 2 { assert Suffixed(base, k) in used && Candidate(n, name, jiraId, prefix, k) == Suffixed(base, k); }
      }
    } else {
      assert KeyFor(n, name, jiraId, prefix, used) == Candidate(n, name, jiraId, prefix, 1);
    }
  }

  // ---- values ----

  ghost predicate NoValueMapped(vs: seq<ValueDoc>, id: string) { forall v :: v in vs ==> !Mapped(v.aliases, id) }

  ghost predicate ValueLeftOut(n: Naming, vs: seq<ValueDoc>, j: JiraValue) {
    NoValueMapped(vs, j.id) && exists v :: v in vs && Mapped(v.aliases, "") && Calls(n, v.id, v.name, j.name, "")
  }

  /** The one Jira's value is matched to: the first with its id; with none, one of its name that has no alias. */
  ghost predicate ValueMatched(n: Naming, vs: seq<ValueDoc>, j: JiraValue, i: int) {
    && 0 <= i < |vs|
    && if Mapped(vs[i].aliases, j.id) then NoValueMapped(vs[..i], j.id)
       else NoValueMapped(vs, j.id) && Unmapped(vs[i].aliases) && Calls(n, vs[i].id, vs[i].name, j.name, "")
  }

  /** A status's category: its own if the group has it, else the group's first. */
  function Categorized(group: string, category: string): string {
    match group
    case "done" => if category == "canceled" then "canceled" else "completed"
    case "indeterminate" => "started"
    case _ => if category == "backlog" then "backlog" else "unstarted"
  }

  function CategoryOf(status: bool, group: string, category: string): string { if status then Categorized(group, category) else category }

  /** A local value Jira's, and with Jira's name; or a new one, for want of any that could be. */
  ghost predicate ValueFollows(n: Naming, status: bool, vs: seq<ValueDoc>, now: seq<ValueDoc>, v: ValueDoc, j: JiraValue) {
    || (exists i :: ValueMatched(n, vs, j, i) && v == ValueDoc(
          vs[i].id, j.name, CategoryOf(status, j.group, vs[i].category), vs[i].description, vs[i].color, vs[i].aliases["jira" := j.id]))
    || (&& NoValueMapped(vs, j.id) && (forall u :: u in vs ==> u.id != v.id) && Keyed(n, j.name, j.id, "", v.id)
        && (forall u :: u in now && Unmapped(u.aliases) ==> !Calls(n, u.id, u.name, j.name, ""))
        && v == ValueDoc(v.id, j.name, CategoryOf(status, j.group, ""), "", "", map["jira" := j.id]))
  }

  ghost predicate ValueMet(n: Naming, status: bool, vs: seq<ValueDoc>, now: seq<ValueDoc>, j: JiraValue) {
    if ValueLeftOut(n, vs, j) then NoValueMapped(now, j.id)
    else exists v :: v in now && ValueFollows(n, status, vs, now, v, j)
  }

  /** Every Jira value has its local one or is left out, and every local one is Jira's or as it was. */
  ghost predicate ValuesMet(n: Naming, status: bool, vs: seq<ValueDoc>, now: seq<ValueDoc>, js: seq<JiraValue>) {
    && (forall j :: j in js ==> ValueMet(n, status, vs, now, j))
    && (forall v :: v in now ==> v in vs || exists j :: j in js && ValueFollows(n, status, vs, now, v, j))
  }

  lemma ValueTerms(n: Naming, status: bool, v: ValueDoc, j: JiraValue)
    requires j.id != ""
    ensures var l := ValueLevel(n, status);
            && HasAlias(l, v, j) == Mapped(v.aliases, j.id)
            && Excludes(l, v, j, {}) == (Mapped(v.aliases, "") && Calls(n, v.id, v.name, j.name, ""))
            && Adoptable(l, v, j, {}) == (Unmapped(v.aliases) && Calls(n, v.id, v.name, j.name, ""))
  {
    hide Calls, SameName;
    CallsIs(n, v.id, v.name, j.name, "");
  }

  lemma ValueNone(n: Naming, status: bool, vs: seq<ValueDoc>, j: JiraValue)
    requires j.id != ""
    ensures NoneHas(ValueLevel(n, status), vs, j) == NoValueMapped(vs, j.id)
    ensures Barred(ValueLevel(n, status), vs, j) == exists v :: v in vs && Mapped(v.aliases, "") && Calls(n, v.id, v.name, j.name, "")
  {
    hide HasAlias, Excludes, Adoptable, Mapped, Calls;
    var l := ValueLevel(n, status);
    forall v: ValueDoc ensures HasAlias(l, v, j) == Mapped(v.aliases, j.id)
                       ensures Excludes(l, v, j, {}) == (Mapped(v.aliases, "") && Calls(n, v.id, v.name, j.name, ""))
    {
      ValueTerms(n, status, v, j);
    }
  }

  lemma CategoryIs(group: string, category: string)
    ensures (if category !in Allowed(group) then Allowed(group)[0] else category) == Categorized(group, category)
    ensures Allowed(group)[0] == Categorized(group, "")
  {
  }

  /** A value that came of Jira's by a match. */
  lemma ValueTook(n: Naming, status: bool, vs: seq<ValueDoc>, now: seq<ValueDoc>, v: ValueDoc, j: JiraValue)
    requires DistinctKeys(ValueLevel(n, status), vs) && j.id != "" && TookOver(ValueLevel(n, status), vs, v, j)
    ensures ValueFollows(n, status, vs, now, v, j)
  {
    hide HasAlias, Excludes, Adoptable, Calls, FirstAliased, Allowed, Categorized, NoneHas, Barred, Mapped, Unmapped, NoValueMapped;
    var l := ValueLevel(n, status);
    var es: seq<ValueDoc>, s :| s in vs && l.key(s) == l.key(v) && Matched(l, vs, s, j) && v == l.touch(es, s, j);
    ValueTerms(n, status, s, j);
    ValueNone(n, status, vs, j);
    var i := ValueAt(n, status, vs, s, j);
    CategoryIs(j.group, s.category);
    assert v == TouchValue(status, s, j);
  }

  lemma ValueAt(n: Naming, status: bool, vs: seq<ValueDoc>, s: ValueDoc, j: JiraValue) returns (i: nat)
    requires DistinctKeys(ValueLevel(n, status), vs) && j.id != "" && s in vs && Matched(ValueLevel(n, status), vs, s, j)
    ensures i < |vs| && vs[i] == s && ValueMatched(n, vs, j, i)
  {
    hide HasAlias, Excludes, Adoptable, Calls, FirstAliased, NoneHas, Barred, Mapped, Unmapped, DistinctKeys;
    var l := ValueLevel(n, status);
    ValueTerms(n, status, s, j);
    ValueNone(n, status, vs, j);
    if HasAlias(l, s, j) && FirstAliased(l, vs, j) == Some(l.key(s)) {
      i := FirstIs(l, vs, j, s);
      forall v | v in vs[..i] ensures !Mapped(v.aliases, j.id) {
        var r :| 0 <= r < i && vs[r] == v;
        ValueTerms(n, status, v, j);
      }
    } else {
      i :| 0 <= i < |vs| && vs[i] == s;
    }
  }

  /** One made for Jira's value. */
  lemma ValueMade(n: Naming, status: bool, vs: seq<ValueDoc>, now: seq<ValueDoc>, claimed: set<string>, v: ValueDoc, j: JiraValue)
    requires j.id != "" && MadeNew(ValueLevel(n, status), vs, claimed, v, j)
    requires forall u :: u in now && Unmapped(u.aliases) ==> u in vs && u.id !in claimed
    ensures ValueFollows(n, status, vs, now, v, j)
  {
    hide HasAlias, Excludes, Adoptable, Calls, Allowed, Categorized, KeyFor, Keyed, NoneHas, Barred, Mapped, Unmapped, NoValueMapped;
    var l := ValueLevel(n, status);
    ValueNone(n, status, vs, j);
    var es: seq<ValueDoc> :| v == l.make(es, j);
    CategoryIs(j.group, "");
    assert v == NewValue(n, status, es, j);
    KeyIsFirst(n, j.name, j.id, "", ValueKeys(es));
    forall u | u in now && Unmapped(u.aliases) ensures !Calls(n, u.id, u.name, j.name, "") {
      ValueTerms(n, status, u, j);
      assert l.key(u) == u.id;
    }
    forall u | u in vs ensures u.id != v.id { var a :| 0 <= a < |vs| && vs[a] == u; assert l.key(vs[a]) == u.id; }
  }

  lemma ValueStart(n: Naming, vs: seq<ValueDoc>, w: JiraField)
    requires O.DistinctValues(vs) && FairValues(w)
    ensures Startable(ValueLevel(n, w.status), Always(), false, Always(), vs, w.values)
  {
    hide Lawful, Startable;
    ValueStartable(n, vs, w);
    StartLoosely(ValueLevel(n, w.status), Always(), Always(), vs, w.values);
  }

  lemma ValueCame(n: Naming, status: bool, vs: seq<ValueDoc>, now: seq<ValueDoc>, claimed: set<string>, v: ValueDoc, j: JiraValue)
    requires DistinctKeys(ValueLevel(n, status), vs) && j.id != "" && Came(ValueLevel(n, status), vs, claimed, v, j)
    requires forall u :: u in now && Unmapped(u.aliases) ==> u in vs && u.id !in claimed
    ensures ValueFollows(n, status, vs, now, v, j)
  {
    hide TookOver, MadeNew, ValueFollows, DistinctKeys, Unmapped;
    if TookOver(ValueLevel(n, status), vs, v, j) {
      ValueTook(n, status, vs, now, v, j);
    } else {
      ValueMade(n, status, vs, now, claimed, v, j);
    }
  }

  /** Whatever has no alias after a pass no match took. */
  lemma UnmappedValues(n: Naming, status: bool, vs: seq<ValueDoc>, p: Pass<ValueDoc>, js: seq<JiraValue>)
    requires forall e :: e in p.es ==> if ValueLevel(n, status).key(e) in p.claimed
               then exists j :: j in js && Came(ValueLevel(n, status), vs, p.claimed, e, j) else e in vs
    ensures forall u :: u in p.es && Unmapped(u.aliases) ==> u in vs && u.id !in p.claimed
  {
    hide Came;
    forall u | u in p.es && Unmapped(u.aliases) ensures u in vs && u.id !in p.claimed {
      assert ValueLevel(n, status).key(u) == u.id;
      if u.id in p.claimed {
        var j :| j in js && Came(ValueLevel(n, status), vs, p.claimed, u, j);
        AliasOfCame(ValueLevel(n, status), vs, p.claimed, u, j);
      }
    }
  }

  lemma ValueOutcome(n: Naming, vs: seq<ValueDoc>, now: seq<ValueDoc>, w: JiraField, j: JiraValue)
    requires O.DistinctValues(vs) && FairValues(w) && j in w.values
    requires Outcome(ValueLevel(n, w.status), vs, PassOver(ValueLevel(n, w.status), vs, w.values), j)
    requires SameMembers(PassOver(ValueLevel(n, w.status), vs, w.values).es, now)
    requires forall u :: u in now && Unmapped(u.aliases) ==> u in vs && u.id !in PassOver(ValueLevel(n, w.status), vs, w.values).claimed
    ensures ValueMet(n, w.status, vs, now, j)
  {
    hide PassOver, HasAlias, Came, Barred, Mapped, Unmapped, Calls, ValueFollows, FirstAliased, NoneHas, NoValueMapped;
    var l := ValueLevel(n, w.status);
    var p := PassOver(l, vs, w.values);
    KeysAre(n, w.status, vs);
    ValueNone(n, w.status, vs, j);
    ValueNone(n, w.status, p.es, j);
    NoneMembers(p.es, now, j.id);
    if !LeftOut(l, vs, j) {
      var i :| HeldBy(l, p.es, j, i) && Came(l, vs, p.claimed, p.es[i], j);
      ValueCame(n, w.status, vs, now, p.claimed, p.es[i], j);
      assert p.es[i] in now;
    }
  }

  lemma NoneMembers(a: seq<ValueDoc>, b: seq<ValueDoc>, id: string)
    requires SameMembers(a, b)
    ensures NoValueMapped(a, id) == NoValueMapped(b, id)
  {
  }

  /** Jira's values in the list derived. */
  lemma ValuesDerived(n: Naming, vs: seq<ValueDoc>, w: JiraField)
    requires O.DistinctValues(vs) && FairValues(w)
    ensures ValuesMet(n, w.status, vs, DeriveValues(n, vs, w), w.values)
  {
    hide PassOver, Came, Outcome, Unmapped, ValueFollows, ValueMet, O.JiraOrder, Startable, DeriveValues;
    var l := ValueLevel(n, w.status);
    var p := PassOver(l, vs, w.values);
    var now := DeriveValues(n, vs, w);
    ValueStart(n, vs, w);
    PassOutcome(l, Always(), Always(), vs, w.values);
    DerivedMembers(n, vs, w);
    UnmappedValues(n, w.status, vs, p, w.values);
    KeysAre(n, w.status, vs);
    forall j | j in w.values ensures ValueMet(n, w.status, vs, now, j) { ValueOutcome(n, vs, now, w, j); }
    forall v | v in now && v !in vs ensures exists j :: j in w.values && ValueFollows(n, w.status, vs, now, v, j) {
      var j :| j in w.values && Came(l, vs, p.claimed, v, j);
      ValueCame(n, w.status, vs, now, p.claimed, v, j);
    }
  }
}
