/** What deriving one field's values leaves: distinct, settled, and in the order of the first holders. */
module DeriveValueFacts {
  import opened Documents
  import opened Imports
  import opened Matching
  import opened MatchFacts
  import opened MatchPass
  import opened MatchAgain
  import opened Derivation
  import O = Ordering

  /** No two values share an id, nor an alias. */
  predicate ValuesOk(vs: seq<ValueDoc>) {
    && O.DistinctValues(vs)
    && forall i, k :: 0 <= i < k < |vs| && AliasOf(vs[i].aliases) == AliasOf(vs[k].aliases) ==>
         AliasOf(vs[i].aliases) == None || AliasOf(vs[i].aliases) == Some("")
  }

  predicate FairValues(w: JiraField) {
    && (forall i :: 0 <= i < |w.values| ==> w.values[i].id != "")
    && forall i, k :: 0 <= i < k < |w.values| ==> w.values[i].id != w.values[k].id
  }

  function Always<T>(): T -> bool { (x: T) => true }

  lemma ValueLawful(n: Naming, status: bool)
    ensures Lawful(ValueLevel(n, status), Always(), true, Always())
  {
    var l := ValueLevel(n, status);
    forall es: seq<ValueDoc>, v: ValueDoc, j: JiraValue ensures TouchLawful(l, Always(), true, es, v, j) {
      assert l.touch(es, v, j) == TouchValue(status, v, j);
      ValueFixed(n, status, TouchValue(status, v, j), j);
    }
    forall es: seq<ValueDoc>, j: JiraValue ensures MakeLawful(l, Always(), true, es, j) {
      var m := NewValue(n, status, es, j);
      assert l.make(es, j) == m && m.id !in ValueKeys(es);
      forall i | 0 <= i < |es| ensures l.key(es[i]) != m.id { assert es[i].id in ValueKeys(es); }
      ValueFixed(n, status, m, j);
    }
  }

  lemma ValueFixed(n: Naming, status: bool, v: ValueDoc, j: JiraValue)
    requires v.name == j.name && SYSTEM in v.aliases && v.aliases[SYSTEM] == j.id
    requires status ==> v.category in Allowed(j.group)
    ensures Fixed(ValueLevel(n, status), v, j)
  {
    assert v.aliases[SYSTEM := j.id] == v.aliases;
  }

  lemma ValueStartable(n: Naming, vs: seq<ValueDoc>, w: JiraField)
    requires O.DistinctValues(vs) && FairValues(w)
    ensures Startable(ValueLevel(n, w.status), Always(), true, Always(), vs, w.values)
  {
    hide Lawful;
    ValueLawful(n, w.status);
  }

  lemma ValuesOkAre(n: Naming, status: bool, vs: seq<ValueDoc>)
    ensures ValuesOk(vs) <==> DistinctKeys(ValueLevel(n, status), vs) && DistinctAliases(ValueLevel(n, status), vs)
  {
    var l := ValueLevel(n, status);
    if DistinctKeys(l, vs) {
      forall i, k | 0 <= i < k < |vs| ensures vs[i].id != vs[k].id { assert l.key(vs[i]) != l.key(vs[k]); }
    }
    if DistinctKeys(l, vs) && DistinctAliases(l, vs) {
      forall i, k | 0 <= i < k < |vs| && AliasOf(vs[i].aliases) == AliasOf(vs[k].aliases)
        ensures AliasOf(vs[i].aliases) == None || AliasOf(vs[i].aliases) == Some("")
      {
        assert l.alias(vs[i]) == l.alias(vs[k]) && l.eligible(vs[i]) && l.eligible(vs[k]);
      }
    }
  }

  // ---- the order a pass names ----

  lemma {:induction false} OrderHeld<E(!new), J(!new)>(l: Level<E, J>, es: seq<E>, js: seq<J>, a: nat)
    requires a < |OrderOf(l, es, js)|
    ensures exists j, i :: j in js && Holder(l, es, j, i) && OrderOf(l, es, js)[a] == Pair(l.id(j), l.key(es[i]))
  {
    if js != [] {
      var front, last := js[..|js| - 1], js[|js| - 1];
      assert last in js;
      if a < |OrderOf(l, es, front)| {
        OrderHeld(l, es, front, a);
        var j, i :| j in front && Holder(l, es, j, i) && OrderOf(l, es, front)[a] == Pair(l.id(j), l.key(es[i]));
        assert j in js;
      } else {
        AliasedIs(l, es, last);
        var i :| 0 <= i < |es| && HasAlias(l, es[i], last) && l.key(es[i]) == FirstAliased(l, es, last).value;
        assert Holder(l, es, last, i);
      }
    }
  }

  lemma {:induction false} OrderDistinct<E(!new), J(!new)>(l: Level<E, J>, es: seq<E>, js: seq<J>)
    requires DistinctKeys(l, es) && DistinctIds(l, js)
    ensures forall a, b :: 0 <= a < b < |OrderOf(l, es, js)| ==> OrderOf(l, es, js)[a].key != OrderOf(l, es, js)[b].key
  {
    if js != [] {
      var front, last := js[..|js| - 1], js[|js| - 1];
      OrderDistinct(l, es, front);
      AliasedIs(l, es, last);
      forall a | 0 <= a < |OrderOf(l, es, front)| && FirstAliased(l, es, last).Some?
        ensures OrderOf(l, es, front)[a].key != FirstAliased(l, es, last).value
      {
        OrderHeld(l, es, front, a);
        var j, i :| j in front && Holder(l, es, j, i) && OrderOf(l, es, front)[a] == Pair(l.id(j), l.key(es[i]));
        var k :| 0 <= k < |es| && HasAlias(l, es[k], last) && l.key(es[k]) == FirstAliased(l, es, last).value;
        var m :| 0 <= m < |front| && front[m] == j;
        assert l.id(js[m]) != l.id(js[|js| - 1]);
        assert l.key(es[i]) == l.key(es[k]) ==> i == k;
      }
    }
  }

  lemma OrderUsable(n: Naming, status: bool, vs: seq<ValueDoc>, js: seq<JiraValue>)
    requires DistinctKeys(ValueLevel(n, status), vs) && DistinctIds(ValueLevel(n, status), js)
    ensures var ids := KeysOfPairs(OrderOf(ValueLevel(n, status), vs, js));
            O.HasAll(vs, ids) && O.DistinctIds(ids)
  {
    var l := ValueLevel(n, status);
    var order := OrderOf(l, vs, js);
    var ids := KeysOfPairs(order);
    OrderDistinct(l, vs, js);
    forall a, b | 0 <= a < b < |ids| ensures ids[a] != ids[b] { assert order[a].key != order[b].key; }
    forall id | id in ids ensures O.Has(vs, id) {
      var a :| 0 <= a < |ids| && ids[a] == id;
      OrderHeld(l, vs, js, a);
      var j, i :| j in js && Holder(l, vs, j, i) && order[a] == Pair(l.id(j), l.key(vs[i]));
      assert vs[i].id == id;
    }
  }

  // ---- a permutation of distinct values ----

  lemma Twice(b: seq<ValueDoc>, i: nat, j: nat)
    requires i < j < |b| && b[i] == b[j]
    ensures multiset(b)[b[i]] >= 2
  {
    assert b == b[..i] + ([b[i]] + (b[i + 1..j] + ([b[j]] + b[j + 1..])));
  }

  lemma {:induction false} OnlyOnce(a: seq<ValueDoc>, x: ValueDoc)
    requires O.DistinctValues(a)
    ensures multiset(a)[x] <= 1
  {
    if a != [] {
      assert a == [a[0]] + a[1..];
      OnlyOnce(a[1..], x);
      if x in a[1..] {
        var i :| 0 <= i < |a[1..]| && a[1..][i] == x;
        assert a[i + 1].id == x.id;
      }
    }
  }

  lemma PermutedDistinct(a: seq<ValueDoc>, b: seq<ValueDoc>)
    requires multiset(a) == multiset(b) && O.DistinctValues(a)
    ensures O.DistinctValues(b) && SameMembers(a, b)
  {
    forall x ensures x in a <==> x in b {
      assert x in a <==> x in multiset(a);
      assert x in b <==> x in multiset(b);
    }
    forall i, j | 0 <= i < j < |b| ensures b[i].id != b[j].id {
      if b[i].id == b[j].id {
        assert b[i] in a && b[j] in a;
        var m :| 0 <= m < |a| && a[m] == b[i];
        var k :| 0 <= k < |a| && a[k] == b[j];
        assert m == k;
        Twice(b, i, j);
        OnlyOnce(a, b[i]);
      }
    }
  }

  // ---- what a derivation of values leaves ----

  /** A pass over values leaves distinct keys, every Jira value settled, and the order of the first holders. */
  lemma PassValues(n: Naming, vs: seq<ValueDoc>, w: JiraField)
    requires O.DistinctValues(vs) && FairValues(w)
    ensures var l := ValueLevel(n, w.status);
            var p := PassOver(l, vs, w.values);
            && DistinctKeys(l, p.es) && O.DistinctValues(p.es) && DistinctIds(l, w.values)
            && (forall j :: j in w.values ==> Settled(l, p.es, j)) && p.order == OrderOf(l, p.es, w.values)
            && O.HasAll(p.es, KeysOfPairs(p.order)) && O.DistinctIds(KeysOfPairs(p.order))
  {
    hide Lawful, Settled;
    var l := ValueLevel(n, w.status);
    ValueStartable(n, vs, w);
    PassSettles(l, Always(), Always(), vs, w.values);
    PassOrder(l, Always(), true, Always(), vs, w.values);
    OrderUsable(n, w.status, PassOver(l, vs, w.values).es, w.values);
    KeysAre(n, w.status, PassOver(l, vs, w.values).es);
  }

  lemma KeysAre(n: Naming, status: bool, vs: seq<ValueDoc>)
    ensures DistinctKeys(ValueLevel(n, status), vs) <==> O.DistinctValues(vs)
  {
    var l := ValueLevel(n, status);
    if DistinctKeys(l, vs) {
      forall i, k | 0 <= i < k < |vs| ensures vs[i].id != vs[k].id { assert l.key(vs[i]) != l.key(vs[k]); }
    }
  }

  /** No value is added or dropped by the ordering, and ids stay distinct. */
  lemma DerivedMembers(n: Naming, vs: seq<ValueDoc>, w: JiraField)
    requires O.DistinctValues(vs) && FairValues(w)
    ensures var p := PassOver(ValueLevel(n, w.status), vs, w.values);
            var es := DeriveValues(n, vs, w);
            O.DistinctValues(es) && SameMembers(p.es, es)
  {
    hide Settled, O.JiraOrder;
    var p := PassOver(ValueLevel(n, w.status), vs, w.values);
    PassValues(n, vs, w);
    if w.ordered {
      O.JiraOrderPermutes(p.es, KeysOfPairs(p.order));
      PermutedDistinct(p.es, O.JiraOrder(p.es, KeysOfPairs(p.order)));
    }
  }

  lemma DerivedAliases(n: Naming, vs: seq<ValueDoc>, w: JiraField)
    requires ValuesOk(vs) && FairValues(w)
    ensures ValuesOk(PassOver(ValueLevel(n, w.status), vs, w.values).es) && ValuesOk(DeriveValues(n, vs, w))
  {
    hide Lawful, Settled, O.JiraOrder;
    var l := ValueLevel(n, w.status);
    var p := PassOver(l, vs, w.values);
    ValueStartable(n, vs, w);
    ValuesOkAre(n, w.status, vs);
    PassAliases(l, Always(), true, Always(), vs, w.values);
    PassValues(n, vs, w);
    ValuesOkAre(n, w.status, p.es);
    DerivedMembers(n, vs, w);
    var es := DeriveValues(n, vs, w);
    KeysAre(n, w.status, es);
    MembersAliases(l, p.es, es);
    ValuesOkAre(n, w.status, es);
  }
}
