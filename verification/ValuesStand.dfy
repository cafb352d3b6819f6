/** When deriving values again changes nothing. */
module ValuesStand {
  // Exactly: an unordered list never changes; an ordered one when the values Jira's order puts first among those
  // that share an alias are as Jira has them and come in Jira's order.

  import opened Documents
  import opened Imports
  import opened Matching
  import opened MatchFacts
  import opened MatchPass
  import opened MatchAgain
  import opened Derivation
  import opened DeriveValueFacts
  import opened Turns
  import O = Ordering

  // ---- a pass over a list in which every Jira value has a holder ----

  ghost predicate Found<E, J>(l: Level<E, J>, es: seq<E>, j: J) {
    FirstAliased(l, es, j).Some? || exists i :: Excluder(l, es, j, {}, i)
  }

  ghost predicate Held(n: Naming, status: bool, vs: seq<ValueDoc>, done: seq<JiraValue>, i: int) {
    exists j :: j in done && HeldBy(ValueLevel(n, status), vs, j, i)
  }

  /** The value at each place: Jira's where a first holder was, what it was elsewhere. */
  ghost predicate Touched(n: Naming, status: bool, vs: seq<ValueDoc>, es: seq<ValueDoc>, done: seq<JiraValue>) {
    && |es| == |vs| && (forall i :: 0 <= i < |vs| ==> es[i].id == vs[i].id)
    && (forall i :: 0 <= i < |vs| && !Held(n, status, vs, done, i) ==> es[i] == vs[i])
    && (forall i, j :: j in done && HeldBy(ValueLevel(n, status), vs, j, i) ==> es[i] == TouchValue(status, vs[i], j))
  }

  ghost predicate Claims(n: Naming, status: bool, vs: seq<ValueDoc>, claimed: set<string>, done: seq<JiraValue>) {
    forall k :: k in claimed ==> exists i :: 0 <= i < |vs| && Held(n, status, vs, done, i) && vs[i].id == k
  }

  /** During such a pass each first holder becomes Jira's, and nothing else changes. */
  ghost predicate Touching(n: Naming, status: bool, vs: seq<ValueDoc>, p: Pass<ValueDoc>, done: seq<JiraValue>) {
    && Touched(n, status, vs, p.es, done) && Claims(n, status, vs, p.claimed, done)
    && p.order == OrderOf(ValueLevel(n, status), vs, done)
  }

  lemma HeldOnce(n: Naming, status: bool, vs: seq<ValueDoc>, j: JiraValue, x: JiraValue, i: int)
    requires var l := ValueLevel(n, status); HeldBy(l, vs, j, i) && HeldBy(l, vs, x, i)
    ensures j.id == x.id
  {
  }

  lemma HeldAt(n: Naming, status: bool, vs: seq<ValueDoc>, j: JiraValue, i: int, m: int)
    requires O.DistinctValues(vs)
    requires var l := ValueLevel(n, status); HeldBy(l, vs, j, i) && HeldBy(l, vs, j, m)
    ensures i == m
  {
    var l := ValueLevel(n, status);
    assert l.key(vs[i]) == vs[i].id && l.key(vs[m]) == vs[m].id;
  }

  lemma HeldMore(n: Naming, status: bool, vs: seq<ValueDoc>, done: seq<JiraValue>, j: JiraValue, i: int)
    ensures Held(n, status, vs, done + [j], i) <==> Held(n, status, vs, done, i) || HeldBy(ValueLevel(n, status), vs, j, i)
  {
    hide HeldBy;
    assert j in done + [j];
    if x :| x in done && HeldBy(ValueLevel(n, status), vs, x, i) { assert x in done + [j]; }
  }

  lemma OrderMore(n: Naming, status: bool, vs: seq<ValueDoc>, done: seq<JiraValue>, j: JiraValue)
    ensures var l := ValueLevel(n, status);
            var r := FirstAliased(l, vs, j);
            OrderOf(l, vs, done + [j]) == OrderOf(l, vs, done) + if r.Some? then [Pair(j.id, r.value)] else []
  {
    assert (done + [j])[..|done|] == done;
  }

  lemma ClaimsMore(n: Naming, status: bool, vs: seq<ValueDoc>, claimed: set<string>, done: seq<JiraValue>, j: JiraValue)
    requires Claims(n, status, vs, claimed, done)
    ensures Claims(n, status, vs, claimed, done + [j])
  {
    hide Held;
    forall k | k in claimed ensures exists i :: 0 <= i < |vs| && Held(n, status, vs, done + [j], i) && vs[i].id == k {
      var i :| 0 <= i < |vs| && Held(n, status, vs, done, i) && vs[i].id == k;
      HeldMore(n, status, vs, done, j, i);
    }
  }

  lemma TouchFound(n: Naming, status: bool, vs: seq<ValueDoc>, p: Pass<ValueDoc>, done: seq<JiraValue>, j: JiraValue)
    requires O.DistinctValues(vs) && Touching(n, status, vs, p, done) && (forall x :: x in done ==> x.id != j.id)
    requires FirstAliased(ValueLevel(n, status), vs, j).Some?
    ensures Touching(n, status, vs, StepPass(ValueLevel(n, status), vs, p, j), done + [j])
  {
    hide TouchValue, FirstAliased, Claims;
    var l := ValueLevel(n, status);
    AliasedIs(l, vs, j);
    var k := FirstAliased(l, vs, j).value;
    var i :| 0 <= i < |vs| && HasAlias(l, vs[i], j) && l.key(vs[i]) == k;
    assert HeldBy(l, vs, j, i) && vs[i].id == k;
    FoundAt(n, status, vs, p.es, k, i);
    NotHeldYet(n, status, vs, done, j, i);
    assert StepPass(l, vs, p, j) == Pass(p.es[i := TouchValue(status, vs[i], j)], p.claimed + {k}, p.order + [Pair(j.id, k)]);
    OrderMore(n, status, vs, done, j);
    TouchedMore(n, status, vs, p.es, done, j, i);
    ClaimsMore(n, status, vs, p.claimed, done, j);
    HeldMore(n, status, vs, done, j, i);
    ClaimsOne(n, status, vs, p.claimed, done + [j], i);
  }

  lemma FoundAt(n: Naming, status: bool, vs: seq<ValueDoc>, es: seq<ValueDoc>, k: string, i: nat)
    requires O.DistinctValues(vs) && |es| == |vs| && (forall m :: 0 <= m < |vs| ==> es[m].id == vs[m].id)
    requires i < |vs| && vs[i].id == k
    ensures var l := ValueLevel(n, status); HasKey(l, es, k) && IndexOf(l, es, k) == i
  {
    var l := ValueLevel(n, status);
    assert l.key(es[i]) == es[i].id;
    assert HasKey(l, es, k);
    var at := IndexOf(l, es, k);
    assert l.key(es[at]) == es[at].id;
  }

  lemma NotHeldYet(n: Naming, status: bool, vs: seq<ValueDoc>, done: seq<JiraValue>, j: JiraValue, i: int)
    requires HeldBy(ValueLevel(n, status), vs, j, i) && (forall x :: x in done ==> x.id != j.id)
    ensures !Held(n, status, vs, done, i)
  {
    hide HeldBy;
    forall x | x in done ensures !HeldBy(ValueLevel(n, status), vs, x, i) {
      if HeldBy(ValueLevel(n, status), vs, x, i) { HeldOnce(n, status, vs, j, x, i); }
    }
  }

  lemma TouchedMore(n: Naming, status: bool, vs: seq<ValueDoc>, es: seq<ValueDoc>, done: seq<JiraValue>, j: JiraValue, i: nat)
    requires O.DistinctValues(vs) && Touched(n, status, vs, es, done) && (forall x :: x in done ==> x.id != j.id)
    requires i < |vs| && HeldBy(ValueLevel(n, status), vs, j, i)
    ensures Touched(n, status, vs, es[i := TouchValue(status, vs[i], j)], done + [j])
  {
    hide HeldBy, Held, TouchValue;
    var l := ValueLevel(n, status);
    var es2 := es[i := TouchValue(status, vs[i], j)];
    assert TouchValue(status, vs[i], j).id == vs[i].id by { TouchKeepsId(status, vs[i], j); }
    forall m | 0 <= m < |vs| && !Held(n, status, vs, done + [j], m) ensures es2[m] == vs[m] { HeldMore(n, status, vs, done, j, m); }
    forall m, x | x in done + [j] && HeldBy(l, vs, x, m) ensures 0 <= m < |vs| && es2[m] == TouchValue(status, vs[m], x) {
      HeldIn(n, status, vs, x, m);
      if x == j {
        HeldAt(n, status, vs, j, i, m);
      } else {
        assert x in done;
        if m == i { HeldOnce(n, status, vs, j, x, i); }
      }
    }
  }

  lemma HeldIn(n: Naming, status: bool, vs: seq<ValueDoc>, j: JiraValue, i: int)
    requires HeldBy(ValueLevel(n, status), vs, j, i)
    ensures 0 <= i < |vs|
  {
  }

  lemma TouchKeepsId(status: bool, v: ValueDoc, j: JiraValue)
    ensures TouchValue(status, v, j).id == v.id
  {
  }

  lemma ClaimsOne(n: Naming, status: bool, vs: seq<ValueDoc>, claimed: set<string>, done: seq<JiraValue>, i: nat)
    requires Claims(n, status, vs, claimed, done) && i < |vs| && Held(n, status, vs, done, i)
    ensures Claims(n, status, vs, claimed + {vs[i].id}, done)
  {
    hide Held;
  }

  /** A claimed value holds an alias. */
  lemma ClaimedHeld(n: Naming, status: bool, vs: seq<ValueDoc>, claimed: set<string>, done: seq<JiraValue>, i: nat)
    requires O.DistinctValues(vs) && Claims(n, status, vs, claimed, done) && i < |vs|
    ensures vs[i].id in claimed ==> AliasOf(vs[i].aliases) != Some("")
  {
    hide FirstAliased;
    if vs[i].id in claimed {
      var m :| 0 <= m < |vs| && Held(n, status, vs, done, m) && vs[m].id == vs[i].id;
      assert m == i;
    }
  }

  lemma ExcludeFound(n: Naming, status: bool, vs: seq<ValueDoc>, p: Pass<ValueDoc>, done: seq<JiraValue>, j: JiraValue)
    requires O.DistinctValues(vs) && Touching(n, status, vs, p, done)
    requires FirstAliased(ValueLevel(n, status), vs, j).None? && exists i :: Excluder(ValueLevel(n, status), vs, j, {}, i)
    ensures Touching(n, status, vs, StepPass(ValueLevel(n, status), vs, p, j), done + [j])
  {
    hide TouchValue, FirstAliased, Claims, Touched;
    var l := ValueLevel(n, status);
    var i :| Excluder(l, vs, j, {}, i);
    assert l.key(vs[i]) == vs[i].id;
    ClaimedHeld(n, status, vs, p.claimed, done, i);
    assert Excludes(l, vs[i], j, p.claimed);
    assert StepPass(l, vs, p, j) == p;
    OrderMore(n, status, vs, done, j);
    ClaimsMore(n, status, vs, p.claimed, done, j);
    NoneTouched(n, status, vs, p.es, done, j);
  }

  lemma NoneTouched(n: Naming, status: bool, vs: seq<ValueDoc>, es: seq<ValueDoc>, done: seq<JiraValue>, j: JiraValue)
    requires Touched(n, status, vs, es, done) && FirstAliased(ValueLevel(n, status), vs, j).None?
    ensures Touched(n, status, vs, es, done + [j])
  {
    hide TouchValue, FirstAliased, Held, HasAlias;
    var l := ValueLevel(n, status);
    forall m | 0 <= m < |vs| && !Held(n, status, vs, done + [j], m) ensures es[m] == vs[m] { HeldMore(n, status, vs, done, j, m); }
    forall m, x | x in done + [j] && HeldBy(l, vs, x, m) ensures es[m] == TouchValue(status, vs[m], x) {
      assert x == j || x in done;
    }
  }

  lemma {:induction false} PassTouches(n: Naming, status: bool, vs: seq<ValueDoc>, js: seq<JiraValue>)
    requires O.DistinctValues(vs) && (forall i, k :: 0 <= i < k < |js| ==> js[i].id != js[k].id)
    requires forall j :: j in js ==> Found(ValueLevel(n, status), vs, j)
    ensures Touching(n, status, vs, PassOver(ValueLevel(n, status), vs, js), js)
  {
    hide StepPass, Touching;
    if js == [] {
      NothingTouched(n, status, vs);
    } else {
      var front, j := js[..|js| - 1], js[|js| - 1];
      assert j in js && forall x :: x in front ==> x in js;
      PassTouches(n, status, vs, front);
      assert front + [j] == js;
      var p := PassOver(ValueLevel(n, status), vs, front);
      if FirstAliased(ValueLevel(n, status), vs, j).Some? {
        TouchFound(n, status, vs, p, front, j);
      } else {
        ExcludeFound(n, status, vs, p, front, j);
      }
    }
  }

  lemma NothingTouched(n: Naming, status: bool, vs: seq<ValueDoc>)
    ensures Touching(n, status, vs, PassOver(ValueLevel(n, status), vs, []), [])
  {
  }

  // ---- deriving a list again, in terms of that list ----

  /** Every first holder is as Jira has it. */
  ghost predicate HoldersFixed(n: Naming, w: JiraField, vs: seq<ValueDoc>) {
    forall j, i :: j in w.values && HeldBy(ValueLevel(n, w.status), vs, j, i) ==> TouchValue(w.status, vs[i], j) == vs[i]
  }

  function Holders(n: Naming, w: JiraField, vs: seq<ValueDoc>): seq<string> {
    KeysOfPairs(OrderOf(ValueLevel(n, w.status), vs, w.values))
  }

  lemma TouchedAll(n: Naming, w: JiraField, vs: seq<ValueDoc>, p: Pass<ValueDoc>)
    requires Touching(n, w.status, vs, p, w.values)
    ensures |p.es| == |vs| && forall i :: 0 <= i < |vs| ==> p.es[i].id == vs[i].id
    ensures p.es == vs <==> HoldersFixed(n, w, vs)
  {
    hide TouchValue, FirstAliased, HasAlias;
    var l := ValueLevel(n, w.status);
    if HoldersFixed(n, w, vs) {
      forall i | 0 <= i < |vs| ensures p.es[i] == vs[i] {
        if j :| j in w.values && HeldBy(l, vs, j, i) { assert p.es[i] == TouchValue(w.status, vs[i], j); }
      }
    }
  }

  lemma SameByKey(a: seq<ValueDoc>, b: seq<ValueDoc>)
    requires |a| == |b| && (forall i :: 0 <= i < |a| ==> a[i].id == b[i].id) && O.DistinctValues(b)
    requires multiset(a) == multiset(b)
    ensures a == b
  {
    forall i | 0 <= i < |a| ensures a[i] == b[i] {
      assert a[i] in multiset(a);
      assert a[i] in b;
      var k :| 0 <= k < |b| && b[k] == a[i];
    }
  }

  lemma InOrder(vs: seq<ValueDoc>, ids: seq<string>)
    requires O.DistinctValues(vs) && O.HasAll(vs, ids) && O.DistinctIds(ids)
    ensures O.JiraOrder(vs, ids) == vs <==> O.MappedIds(vs, ids) == ids
  {
    O.JiraOrderFollows(vs, ids);
    O.Decomposed(vs, ids);
  }

  lemma SameIds(a: seq<ValueDoc>, b: seq<ValueDoc>)
    requires |a| == |b| && forall i :: 0 <= i < |a| ==> a[i].id == b[i].id
    ensures O.DistinctValues(b) ==> O.DistinctValues(a)
    ensures forall id :: O.Has(a, id) <==> O.Has(b, id)
  {
    forall id ensures O.Has(a, id) <==> O.Has(b, id) {
      if i :| 0 <= i < |a| && a[i].id == id { assert b[i].id == id; }
      if i :| 0 <= i < |b| && b[i].id == id { assert a[i].id == id; }
    }
  }

  /** An ordered list derives to itself exactly when its first holders are as Jira has them and come in Jira's order. */
  lemma DerivesToItself(n: Naming, vs: seq<ValueDoc>, w: JiraField)
    requires w.ordered && O.DistinctValues(vs) && FairValues(w)
    requires forall j :: j in w.values ==> Found(ValueLevel(n, w.status), vs, j)
    ensures DeriveValues(n, vs, w) == vs <==> HoldersFixed(n, w, vs) && O.MappedIds(vs, Holders(n, w, vs)) == Holders(n, w, vs)
  {
    hide O.JiraOrder, HoldersFixed, O.MappedIds, O.HasAll, O.DistinctValues, Found, TouchValue;
    var l := ValueLevel(n, w.status);
    var p, ids := PassOver(l, vs, w.values), Holders(n, w, vs);
    PassTouches(n, w.status, vs, w.values);
    TouchedAll(n, w, vs, p);
    KeysAre(n, w.status, vs);
    OrderUsable(n, w.status, vs, w.values);
    InOrder(vs, ids);
    SameIds(p.es, vs);
    AllHad(p.es, vs, ids);
    O.JiraOrderPermutes(p.es, ids);
    if DeriveValues(n, vs, w) == vs { SameByKey(p.es, vs); }
  }

  lemma AllHad(a: seq<ValueDoc>, b: seq<ValueDoc>, ids: seq<string>)
    requires O.HasAll(b, ids) && forall id :: O.Has(a, id) <==> O.Has(b, id)
    ensures O.HasAll(a, ids)
  {
  }

  // ---- the list just derived, in terms of the pass before its ordering ----

  /** Of the values with a Jira value's alias, the one Jira's order puts first. */
  ghost predicate FirstOf(n: Naming, w: JiraField, es: seq<ValueDoc>, ids: seq<string>, j: JiraValue, x: int) {
    var l := ValueLevel(n, w.status);
    Holder(l, es, j, x) && forall y :: Holder(l, es, j, y) && y != x ==> Before(es, ids, x, y)
  }

  /** Each is as Jira has it. */
  ghost predicate FirstsFixed(n: Naming, w: JiraField, es: seq<ValueDoc>, ids: seq<string>) {
    forall j, x :: j in w.values && 0 <= x < |es| && FirstOf(n, w, es, ids, j, x) ==> TouchValue(w.status, es[x], j) == es[x]
  }

  /** They come in Jira's order. */
  ghost predicate FirstsRise(n: Naming, w: JiraField, es: seq<ValueDoc>, ids: seq<string>) {
    forall a, b, x, y :: 0 <= a < b < |w.values| && 0 <= x < |es| && 0 <= y < |es|
                         && FirstOf(n, w, es, ids, w.values[a], x) && FirstOf(n, w, es, ids, w.values[b], y) ==>
                           Before(es, ids, x, y)
  }

  /** The values Jira's order puts first are as Jira has them, and come in Jira's order. */
  ghost predicate Stands(n: Naming, w: JiraField, es: seq<ValueDoc>, ids: seq<string>) {
    FirstsFixed(n, w, es, ids) && FirstsRise(n, w, es, ids)
  }

  lemma {:induction false} FirstIs<E, J>(l: Level<E, J>, es: seq<E>, j: J) returns (q: nat)
    requires FirstAliased(l, es, j).Some?
    ensures q < |es| && HasAlias(l, es[q], j) && FirstAliased(l, es, j) == Some(l.key(es[q]))
    ensures forall r :: 0 <= r < q ==> !HasAlias(l, es[r], j)
  {
    var n := |es| - 1;
    if FirstAliased(l, es[..n], j).Some? {
      q := FirstIs(l, es[..n], j);
      forall r | 0 <= r < q ensures !HasAlias(l, es[r], j) { assert es[..n][r] == es[r]; }
    } else {
      q := n;
      AliasedIs(l, es[..n], j);
      forall r | 0 <= r < n ensures !HasAlias(l, es[r], j) { assert es[..n][r] == es[r]; }
    }
  }

  /** once lists the values of es by their turns. */
  ghost predicate Listed(es: seq<ValueDoc>, ids: seq<string>, once: seq<ValueDoc>) {
    O.DistinctValues(es) && O.DistinctValues(once) && SameMembers(es, once) && SortedBy(es, ids, once)
  }

  /** The first holder in the ordered list is the one Jira's order puts first. */
  lemma FirstListed(n: Naming, w: JiraField, es: seq<ValueDoc>, ids: seq<string>, once: seq<ValueDoc>, j: JiraValue, x: nat)
    requires Listed(es, ids, once) && x < |es|
    ensures FirstOf(n, w, es, ids, j, x) <==> HasAlias(ValueLevel(n, w.status), es[x], j)
                                              && FirstAliased(ValueLevel(n, w.status), once, j) == Some(es[x].id)
  {
    hide FirstAliased, HasAlias, Before, Turn;
    var l := ValueLevel(n, w.status);
    AliasedIs(l, once, j);
    if HasAlias(l, es[x], j) {
      assert es[x] in once;
      var q := FirstIs(l, once, j);
      assert once[q] in es && l.key(once[q]) == once[q].id;
      var z :| 0 <= z < |es| && es[z] == once[q];
      forall y: nat | y < |es| && y != z && HasAlias(l, es[y], j) ensures Before(es, ids, z, y) { LaterListed(n, w, es, ids, once, j, z, y, q); }
      if z != x && FirstOf(n, w, es, ids, j, x) {
        assert Before(es, ids, x, z) && Before(es, ids, z, x);
        BeforeOnce(es, ids, x, z);
      }
      assert es[z].id == es[x].id ==> z == x;
    }
  }

  lemma LaterListed(n: Naming, w: JiraField, es: seq<ValueDoc>, ids: seq<string>, once: seq<ValueDoc>, j: JiraValue, z: nat, y: nat, q: nat)
    requires Listed(es, ids, once) && q < |once| && z < |es| && es[z] == once[q] && y < |es| && y != z
    requires var l := ValueLevel(n, w.status); HasAlias(l, es[y], j) && forall r :: 0 <= r < q ==> !HasAlias(l, once[r], j)
    ensures Before(es, ids, z, y)
  {
    hide HasAlias, Before, Turn;
    assert es[y] in once;
    var r :| 0 <= r < |once| && once[r] == es[y];
    assert es[z].id != es[y].id;
    assert r > q;
  }

  lemma BeforeOnce(es: seq<ValueDoc>, ids: seq<string>, x: nat, y: nat)
    requires x < |es| && y < |es|
    ensures !(Before(es, ids, x, y) && Before(es, ids, y, x))
  {
  }

  lemma HeldListed(n: Naming, w: JiraField, es: seq<ValueDoc>, ids: seq<string>, once: seq<ValueDoc>, j: JiraValue, q: nat) returns (x: nat)
    requires Listed(es, ids, once) && HeldBy(ValueLevel(n, w.status), once, j, q)
    ensures x < |es| && es[x] == once[q] && FirstOf(n, w, es, ids, j, x)
  {
    hide FirstAliased, HasAlias, Before, Turn, FirstOf;
    assert once[q] in es;
    x :| 0 <= x < |es| && es[x] == once[q];
    assert ValueLevel(n, w.status).key(once[q]) == once[q].id;
    FirstListed(n, w, es, ids, once, j, x);
  }

  lemma FirstHeld(n: Naming, w: JiraField, es: seq<ValueDoc>, ids: seq<string>, once: seq<ValueDoc>, j: JiraValue, x: nat) returns (q: nat)
    requires Listed(es, ids, once) && x < |es| && FirstOf(n, w, es, ids, j, x)
    ensures HeldBy(ValueLevel(n, w.status), once, j, q) && once[q] == es[x]
  {
    hide FirstAliased, HasAlias, Before, Turn;
    FirstListed(n, w, es, ids, once, j, x);
    assert es[x] in once;
    q :| 0 <= q < |once| && once[q] == es[x];
    assert ValueLevel(n, w.status).key(once[q]) == once[q].id;
  }

  lemma FixedListed(n: Naming, w: JiraField, es: seq<ValueDoc>, ids: seq<string>, once: seq<ValueDoc>)
    requires Listed(es, ids, once)
    ensures HoldersFixed(n, w, once) <==> FirstsFixed(n, w, es, ids)
  {
    hide FirstAliased, HasAlias, Before, Turn, TouchValue, Listed, FirstOf;
    var l := ValueLevel(n, w.status);
    if FirstsFixed(n, w, es, ids) {
      forall j, i | j in w.values && HeldBy(l, once, j, i) ensures TouchValue(w.status, once[i], j) == once[i] {
        var x := HeldListed(n, w, es, ids, once, j, i);
      }
    }
    if HoldersFixed(n, w, once) {
      forall j, x | j in w.values && 0 <= x < |es| && FirstOf(n, w, es, ids, j, x) ensures TouchValue(w.status, es[x], j) == es[x] {
        var q := FirstHeld(n, w, es, ids, once, j, x);
      }
    }
  }

  // ---- their order ----

  /** The a-th id named in the order of first holders is that of some Jira value's, later ones of later values. */
  lemma {:induction false} OrderPlace<E, J>(l: Level<E, J>, es: seq<E>, js: seq<J>, r: nat) returns (a: nat)
    requires r < |OrderOf(l, es, js)|
    ensures a < |js| && FirstAliased(l, es, js[a]) == Some(OrderOf(l, es, js)[r].key)
  {
    var front := js[..|js| - 1];
    if r < |OrderOf(l, es, front)| { a := OrderPlace(l, es, front, r); } else { a := |js| - 1; }
  }

  lemma {:induction false} OrderPlaces<E, J>(l: Level<E, J>, es: seq<E>, js: seq<J>, r: nat, s: nat) returns (a: nat, b: nat)
    requires r < s < |OrderOf(l, es, js)|
    ensures a < b < |js|
    ensures FirstAliased(l, es, js[a]) == Some(OrderOf(l, es, js)[r].key) && FirstAliased(l, es, js[b]) == Some(OrderOf(l, es, js)[s].key)
  {
    var front := js[..|js| - 1];
    if s < |OrderOf(l, es, front)| {
      a, b := OrderPlaces(l, es, front, r, s);
    } else {
      a := OrderPlace(l, es, front, r);
      b := |js| - 1;
    }
  }

  lemma {:induction false} PlaceOrder<E, J>(l: Level<E, J>, es: seq<E>, js: seq<J>, a: nat) returns (r: nat)
    requires a < |js| && FirstAliased(l, es, js[a]).Some?
    ensures r < |OrderOf(l, es, js)| && OrderOf(l, es, js)[r].key == FirstAliased(l, es, js[a]).value
  {
    var front := js[..|js| - 1];
    if a < |front| { r := PlaceOrder(l, es, front, a); } else { r := |OrderOf(l, es, front)|; }
  }

  lemma {:induction false} PlacesOrder<E, J>(l: Level<E, J>, es: seq<E>, js: seq<J>, a: nat, b: nat) returns (r: nat, s: nat)
    requires a < b < |js| && FirstAliased(l, es, js[a]).Some? && FirstAliased(l, es, js[b]).Some?
    ensures r < s < |OrderOf(l, es, js)|
    ensures OrderOf(l, es, js)[r].key == FirstAliased(l, es, js[a]).value && OrderOf(l, es, js)[s].key == FirstAliased(l, es, js[b]).value
  {
    var front := js[..|js| - 1];
    if b < |front| {
      r, s := PlacesOrder(l, es, front, a, b);
    } else {
      r := PlaceOrder(l, es, front, a);
      s := |OrderOf(l, es, front)|;
    }
  }

  lemma HoldersRise(n: Naming, w: JiraField, es: seq<ValueDoc>, ids: seq<string>, once: seq<ValueDoc>)
    requires Listed(es, ids, once)
    ensures Rising(es, ids, Holders(n, w, once)) <==> FirstsRise(n, w, es, ids)
  {
    hide FirstAliased, Before, Turn, FirstOf, Listed;
    var l := ValueLevel(n, w.status);
    var order, hs := OrderOf(l, once, w.values), Holders(n, w, once);
    if FirstsRise(n, w, es, ids) {
      forall r, s, x, y | 0 <= r < s < |hs| && 0 <= x < |es| && 0 <= y < |es| && es[x].id == hs[r] && es[y].id == hs[s]
        ensures Before(es, ids, x, y)
      {
        var a, b := OrderPlaces(l, once, w.values, r, s);
        assert order[r].key == hs[r] && order[s].key == hs[s];
        KeyFirst(n, w, es, ids, once, w.values[a], x);
        KeyFirst(n, w, es, ids, once, w.values[b], y);
      }
    }
    if Rising(es, ids, hs) {
      forall a, b, x, y | 0 <= a < b < |w.values| && 0 <= x < |es| && 0 <= y < |es|
                          && FirstOf(n, w, es, ids, w.values[a], x) && FirstOf(n, w, es, ids, w.values[b], y)
        ensures Before(es, ids, x, y)
      {
        FirstKey(n, w, es, ids, once, w.values[a], x);
        FirstKey(n, w, es, ids, once, w.values[b], y);
        var r, s := PlacesOrder(l, once, w.values, a, b);
        assert hs[r] == es[x].id && hs[s] == es[y].id;
      }
    }
  }

  /** The value whose id is the first holder's is the one Jira's order puts first. */
  lemma KeyFirst(n: Naming, w: JiraField, es: seq<ValueDoc>, ids: seq<string>, once: seq<ValueDoc>, j: JiraValue, x: nat)
    requires Listed(es, ids, once) && x < |es| && FirstAliased(ValueLevel(n, w.status), once, j) == Some(es[x].id)
    ensures FirstOf(n, w, es, ids, j, x)
  {
    hide FirstAliased, HasAlias, Before, Turn, FirstOf;
    var l := ValueLevel(n, w.status);
    AliasedIs(l, once, j);
    var q :| 0 <= q < |once| && HasAlias(l, once[q], j) && l.key(once[q]) == es[x].id;
    assert l.key(once[q]) == once[q].id && once[q] in es;
    var z :| 0 <= z < |es| && es[z] == once[q];
    assert z == x;
    FirstListed(n, w, es, ids, once, j, x);
  }

  lemma FirstKey(n: Naming, w: JiraField, es: seq<ValueDoc>, ids: seq<string>, once: seq<ValueDoc>, j: JiraValue, x: int)
    requires Listed(es, ids, once) && FirstOf(n, w, es, ids, j, x)
    ensures 0 <= x < |es| && FirstAliased(ValueLevel(n, w.status), once, j) == Some(es[x].id)
  {
    hide FirstAliased, Before, Turn, Listed;
    FirstListed(n, w, es, ids, once, j, x);
  }

  /** The first holders come in Jira's order in the ordered list exactly when their turns rise. */
  lemma OrderListed(n: Naming, w: JiraField, es: seq<ValueDoc>, ids: seq<string>, once: seq<ValueDoc>)
    requires Listed(es, ids, once) && FairValues(w)
    ensures O.MappedIds(once, Holders(n, w, once)) == Holders(n, w, once) <==> FirstsRise(n, w, es, ids)
  {
    hide Before, Turn, FirstsRise, O.MappedIds, Rising, O.HasAll, SortedBy, O.Has;
    var l := ValueLevel(n, w.status);
    var hs := Holders(n, w, once);
    var m := O.MappedIds(once, hs);
    KeysAre(n, w.status, once);
    OrderUsable(n, w.status, once, w.values);
    HoldersRise(n, w, es, ids, once);
    MappedRising(es, ids, once, hs);
    forall id ensures id in m <==> id in hs && O.Has(once, id) { O.MappedAre(once, hs, id); }
    SameHad(es, once);
    HadAll(es, once, hs, m);
    if FirstsRise(n, w, es, ids) { OneRising(es, ids, m, hs); }
  }

  lemma SameHad(a: seq<ValueDoc>, b: seq<ValueDoc>)
    requires SameMembers(a, b)
    ensures forall id :: O.Has(a, id) <==> O.Has(b, id)
  {
    forall id ensures O.Has(a, id) <==> O.Has(b, id) {
      if i :| 0 <= i < |a| && a[i].id == id { assert a[i] in b; }
      if i :| 0 <= i < |b| && b[i].id == id { assert b[i] in a; }
    }
  }

  lemma HadAll(es: seq<ValueDoc>, once: seq<ValueDoc>, hs: seq<string>, m: seq<string>)
    requires O.HasAll(once, hs) && (forall id :: O.Has(es, id) <==> O.Has(once, id))
    requires forall id :: id in m <==> id in hs && O.Has(once, id)
    ensures O.HasAll(es, hs) && O.HasAll(es, m) && forall id :: id in m <==> id in hs
  {
  }

  // ---- the exact condition ----

  lemma SettledFound(n: Naming, status: bool, es: seq<ValueDoc>, once: seq<ValueDoc>, j: JiraValue)
    requires Settled(ValueLevel(n, status), es, j) && SameMembers(es, once)
    ensures Found(ValueLevel(n, status), once, j)
  {
    hide FirstAliased;
    var l := ValueLevel(n, status);
    AliasedIs(l, once, j);
    if i :| HeldBy(l, es, j, i) && Fixed(l, es[i], j) {
      assert es[i] in once;
      var k :| 0 <= k < |once| && once[k] == es[i];
    } else {
      var i :| Excluder(l, es, j, {}, i);
      assert es[i] in once;
      var k :| 0 <= k < |once| && once[k] == es[i];
      assert Excluder(l, once, j, {}, k);
    }
  }

  /**
   Deriving a field's values again changes nothing exactly when the field is unordered, or the
   pass before the ordering leaves values that stand.
   */
  lemma DerivedAgainExactly(n: Naming, vs: seq<ValueDoc>, w: JiraField)
    requires O.DistinctValues(vs) && FairValues(w)
    ensures var p := PassOver(ValueLevel(n, w.status), vs, w.values);
            var once := DeriveValues(n, vs, w);
            DeriveValues(n, once, w) == once <==> !w.ordered || Stands(n, w, p.es, KeysOfPairs(p.order))
  {
    hide Settled, PassOver, DeriveValues, O.JiraOrder, Listed, HoldersFixed, O.DistinctValues, O.HasAll, SameMembers, Found, FirstsRise, FirstsFixed,
         O.MappedIds;
    var l := ValueLevel(n, w.status);
    var p := PassOver(l, vs, w.values);
    var once := DeriveValues(n, vs, w);
    PassValues(n, vs, w);
    if !w.ordered {
      PassAgain(l, p.es, w.values);
      assert once == p.es && DeriveValues(n, once, w) == p.es by { Unordered(n, vs, w); Unordered(n, p.es, w); }
    } else {
      var ids := KeysOfPairs(p.order);
      DerivedMembers(n, vs, w);
      JiraOrderSorts(p.es, ids);
      assert once == O.JiraOrder(p.es, ids) by { OrderedIs(n, vs, w); }
      assert Listed(p.es, ids, once) by { ListedIs(p.es, ids, once); }
      forall j | j in w.values ensures Found(l, once, j) { SettledFound(n, w.status, p.es, once, j); }
      DerivesToItself(n, once, w);
      FixedListed(n, w, p.es, ids, once);
      OrderListed(n, w, p.es, ids, once);
    }
  }

  lemma Unordered(n: Naming, vs: seq<ValueDoc>, w: JiraField)
    requires !w.ordered
    ensures DeriveValues(n, vs, w) == PassOver(ValueLevel(n, w.status), vs, w.values).es
  {
  }

  lemma OrderedIs(n: Naming, vs: seq<ValueDoc>, w: JiraField)
    requires w.ordered
    ensures var p := PassOver(ValueLevel(n, w.status), vs, w.values);
            DeriveValues(n, vs, w) == O.JiraOrder(p.es, KeysOfPairs(p.order))
  {
  }

  lemma ListedIs(es: seq<ValueDoc>, ids: seq<string>, once: seq<ValueDoc>)
    requires O.DistinctValues(es) && O.DistinctValues(once) && SameMembers(es, once) && SortedBy(es, ids, once)
    ensures Listed(es, ids, once)
  {
  }

  // ---- the condition read off the list itself, when Jira has nothing new ----

  /** The same ids at the same places. */
  ghost predicate SameIdsAt(a: seq<ValueDoc>, b: seq<ValueDoc>) { |a| == |b| && forall i :: 0 <= i < |a| ==> a[i].id == b[i].id }

  lemma {:induction false} SameTurn(a: seq<ValueDoc>, b: seq<ValueDoc>, ids: seq<string>, x: nat)
    requires SameIdsAt(a, b) && x < |a|
    ensures Turn(a, ids, x) == Turn(b, ids, x)
  {
    if a[x].id !in ids && x > 0 { SameTurn(a, b, ids, x - 1); }
  }

  /** A pass changes no alias of a list in which every Jira value has a holder. */
  lemma TouchedAlias(n: Naming, w: JiraField, vs: seq<ValueDoc>, es: seq<ValueDoc>, j: JiraValue, x: nat)
    requires Touched(n, w.status, vs, es, w.values) && x < |vs|
    ensures HasAlias(ValueLevel(n, w.status), es[x], j) == HasAlias(ValueLevel(n, w.status), vs[x], j)
  {
    hide FirstAliased;
    var l := ValueLevel(n, w.status);
    if k :| k in w.values && HeldBy(l, vs, k, x) {
      assert es[x] == TouchValue(w.status, vs[x], k) && HasAlias(l, vs[x], k);
    }
  }

  lemma SameBefore(a: seq<ValueDoc>, b: seq<ValueDoc>, ids: seq<string>, x: nat, y: nat)
    requires SameIdsAt(a, b) && x < |a| && y < |a|
    ensures Before(a, ids, x, y) == Before(b, ids, x, y)
  {
    SameTurn(a, b, ids, x);
    SameTurn(a, b, ids, y);
  }

  /** One entity put first of those with an alias stays so where aliases and ids are the same. */
  lemma FirstSame(n: Naming, w: JiraField, a: seq<ValueDoc>, b: seq<ValueDoc>, ids: seq<string>, j: JiraValue, x: int)
    requires SameIdsAt(a, b) && FirstOf(n, w, a, ids, j, x)
    requires forall y :: 0 <= y < |a| ==> HasAlias(ValueLevel(n, w.status), a[y], j) == HasAlias(ValueLevel(n, w.status), b[y], j)
    ensures FirstOf(n, w, b, ids, j, x)
  {
    hide HasAlias, Before;
    var l := ValueLevel(n, w.status);
    forall y | Holder(l, b, j, y) && y != x ensures Before(b, ids, x, y) {
      assert Holder(l, a, j, y);
      SameBefore(a, b, ids, x, y);
    }
  }

  lemma TouchedFirst(n: Naming, w: JiraField, vs: seq<ValueDoc>, es: seq<ValueDoc>, ids: seq<string>, j: JiraValue, x: int)
    requires Touched(n, w.status, vs, es, w.values)
    ensures FirstOf(n, w, es, ids, j, x) <==> FirstOf(n, w, vs, ids, j, x)
  {
    hide Touched, HasAlias, FirstOf;
    TouchedIds(n, w, vs, es);
    forall y | 0 <= y < |vs| ensures HasAlias(ValueLevel(n, w.status), es[y], j) == HasAlias(ValueLevel(n, w.status), vs[y], j) {
      TouchedAlias(n, w, vs, es, j, y);
    }
    if FirstOf(n, w, es, ids, j, x) { FirstSame(n, w, es, vs, ids, j, x); }
    if FirstOf(n, w, vs, ids, j, x) { FirstSame(n, w, vs, es, ids, j, x); }
  }

  lemma TouchedIds(n: Naming, w: JiraField, vs: seq<ValueDoc>, es: seq<ValueDoc>)
    requires Touched(n, w.status, vs, es, w.values)
    ensures SameIdsAt(es, vs)
  {
  }

  /**
   Of the values that share an alias, the one Jira's order puts first is the list's first, or is
   as Jira has it already; and those put first come in Jira's order.
   */
  ghost predicate StandsAsListed(n: Naming, w: JiraField, vs: seq<ValueDoc>) {
    var ids := Holders(n, w, vs);
    && (forall j, x :: j in w.values && 0 <= x < |vs| && FirstOf(n, w, vs, ids, j, x) ==>
          HeldBy(ValueLevel(n, w.status), vs, j, x) || TouchValue(w.status, vs[x], j) == vs[x])
    && FirstsRise(n, w, vs, ids)
  }

  lemma HeldOnly(n: Naming, w: JiraField, vs: seq<ValueDoc>, j: JiraValue, x: nat)
    requires FairValues(w) && j in w.values && x < |vs| && HasAlias(ValueLevel(n, w.status), vs[x], j)
    ensures forall k :: k in w.values && HeldBy(ValueLevel(n, w.status), vs, k, x) ==> k == j
  {
    hide FirstAliased;
    forall k | k in w.values && HeldBy(ValueLevel(n, w.status), vs, k, x) ensures k == j {
      assert k.id == j.id;
      var a :| 0 <= a < |w.values| && w.values[a] == k;
      var b :| 0 <= b < |w.values| && w.values[b] == j;
      assert a == b;
    }
  }

  /** A value touched is as Jira has it exactly when it is the first with its alias or was so already. */
  lemma TouchedFixed(n: Naming, w: JiraField, vs: seq<ValueDoc>, es: seq<ValueDoc>, j: JiraValue, x: nat)
    requires Touched(n, w.status, vs, es, w.values) && FairValues(w) && j in w.values
    requires x < |vs| && HasAlias(ValueLevel(n, w.status), vs[x], j)
    ensures TouchValue(w.status, es[x], j) == es[x] <==> HeldBy(ValueLevel(n, w.status), vs, j, x) || TouchValue(w.status, vs[x], j) == vs[x]
  {
    hide FirstAliased, TouchValue, HasAlias, HeldBy;
    HeldOnly(n, w, vs, j, x);
    TouchTwice(w.status, vs[x], j);
    assert !HeldBy(ValueLevel(n, w.status), vs, j, x) ==> !Held(n, w.status, vs, w.values, x);
  }

  lemma TouchTwice(status: bool, v: ValueDoc, j: JiraValue)
    ensures TouchValue(status, TouchValue(status, v, j), j) == TouchValue(status, v, j)
  {
    assert v.aliases[SYSTEM := j.id][SYSTEM := j.id] == v.aliases[SYSTEM := j.id];
  }

  /**
   When every Jira value has a local one, by alias, or is excluded: deriving again changes
   nothing exactly when the field is unordered or the list stands as it is listed.
   */
  lemma DerivedAgainAsListed(n: Naming, vs: seq<ValueDoc>, w: JiraField)
    requires O.DistinctValues(vs) && FairValues(w) && forall j :: j in w.values ==> Found(ValueLevel(n, w.status), vs, j)
    ensures var once := DeriveValues(n, vs, w);
            DeriveValues(n, once, w) == once <==> !w.ordered || StandsAsListed(n, w, vs)
  {
    hide PassOver, DeriveValues, Found, TouchValue, FirstAliased, HasAlias, Before, Touched, O.DistinctValues;
    DerivedAgainExactly(n, vs, w);
    PassTouches(n, w.status, vs, w.values);
    var p, ids := PassOver(ValueLevel(n, w.status), vs, w.values), Holders(n, w, vs);
    assert |p.es| == |vs| by { TouchedIds(n, w, vs, p.es); }
    FixedAsListed(n, w, vs, p.es, ids);
    RiseAsListed(n, w, vs, p.es, ids);
  }

  lemma FixedAsListed(n: Naming, w: JiraField, vs: seq<ValueDoc>, es: seq<ValueDoc>, ids: seq<string>)
    requires Touched(n, w.status, vs, es, w.values) && FairValues(w)
    ensures FirstsFixed(n, w, es, ids) <==>
              forall j, x :: j in w.values && 0 <= x < |vs| && FirstOf(n, w, vs, ids, j, x) ==>
                HeldBy(ValueLevel(n, w.status), vs, j, x) || TouchValue(w.status, vs[x], j) == vs[x]
  {
    hide Touched, TouchValue, FirstAliased, HasAlias, Before;
    TouchedIds(n, w, vs, es);
    forall j, x | j in w.values && 0 <= x < |vs| && FirstOf(n, w, vs, ids, j, x)
      ensures FirstOf(n, w, es, ids, j, x)
      ensures TouchValue(w.status, es[x], j) == es[x] <==> HeldBy(ValueLevel(n, w.status), vs, j, x) || TouchValue(w.status, vs[x], j) == vs[x]
    {
      TouchedFirst(n, w, vs, es, ids, j, x);
      TouchedFixed(n, w, vs, es, j, x);
    }
    forall j, x | j in w.values && 0 <= x < |es| && FirstOf(n, w, es, ids, j, x) ensures FirstOf(n, w, vs, ids, j, x) {
      TouchedFirst(n, w, vs, es, ids, j, x);
    }
  }

  lemma RiseAsListed(n: Naming, w: JiraField, vs: seq<ValueDoc>, es: seq<ValueDoc>, ids: seq<string>)
    requires Touched(n, w.status, vs, es, w.values)
    ensures FirstsRise(n, w, es, ids) <==> FirstsRise(n, w, vs, ids)
  {
    hide Touched, FirstAliased, HasAlias, Before, FirstOf;
    TouchedIds(n, w, vs, es);
    forall j, x ensures FirstOf(n, w, es, ids, j, x) <==> FirstOf(n, w, vs, ids, j, x) { TouchedFirst(n, w, vs, es, ids, j, x); }
    forall x: nat, y: nat | x < |vs| && y < |vs| ensures Before(es, ids, x, y) == Before(vs, ids, x, y) { SameBefore(es, vs, ids, x, y); }
  }

  // ---- enough for it ----

  /** Jira's order carries no other value with an alias ahead of the one the pass mapped. */
  ghost predicate Unovertaken(n: Naming, w: JiraField, es: seq<ValueDoc>, ids: seq<string>) {
    forall j, x :: j in w.values && 0 <= x < |es| && FirstOf(n, w, es, ids, j, x) ==> HeldBy(ValueLevel(n, w.status), es, j, x)
  }

  /** With none overtaken, the values stand. */
  lemma UnovertakenStands(n: Naming, vs: seq<ValueDoc>, w: JiraField)
    requires O.DistinctValues(vs) && FairValues(w)
    requires var p := PassOver(ValueLevel(n, w.status), vs, w.values); Unovertaken(n, w, p.es, KeysOfPairs(p.order))
    ensures var p := PassOver(ValueLevel(n, w.status), vs, w.values); Stands(n, w, p.es, KeysOfPairs(p.order))
  {
    hide PassOver, FirstOf, FirstAliased, HasAlias, Before;
    var l := ValueLevel(n, w.status);
    var p := PassOver(l, vs, w.values);
    var ids := KeysOfPairs(p.order);
    PassValues(n, vs, w);
    forall j, x | j in w.values && 0 <= x < |p.es| && FirstOf(n, w, p.es, ids, j, x)
      ensures TouchValue(w.status, p.es[x], j) == p.es[x]
    {
      HeldFixed(n, w.status, p.es, j, x);
    }
    forall a, b, x, y | 0 <= a < b < |w.values| && 0 <= x < |p.es| && 0 <= y < |p.es|
                        && FirstOf(n, w, p.es, ids, w.values[a], x) && FirstOf(n, w, p.es, ids, w.values[b], y)
      ensures Before(p.es, ids, x, y)
    {
      assert w.values[a] in w.values && w.values[b] in w.values;
      HeldInOrder(n, w, p.es, a, b, x, y);
    }
  }

  lemma HeldFixed(n: Naming, status: bool, es: seq<ValueDoc>, j: JiraValue, x: int)
    requires O.DistinctValues(es) && HeldBy(ValueLevel(n, status), es, j, x) && Settled(ValueLevel(n, status), es, j)
    ensures TouchValue(status, es[x], j) == es[x]
  {
    hide FirstAliased, TouchValue;
    var l := ValueLevel(n, status);
    var i :| HeldBy(l, es, j, i) && Fixed(l, es[i], j);
    HeldAt(n, status, es, j, i, x);
    assert l.touch([], es[x], j) == es[x];
  }

  lemma HeldInOrder(n: Naming, w: JiraField, es: seq<ValueDoc>, a: nat, b: nat, x: nat, y: nat)
    requires O.DistinctValues(es) && FairValues(w) && a < b < |w.values| && x < |es| && y < |es|
    requires HeldBy(ValueLevel(n, w.status), es, w.values[a], x) && HeldBy(ValueLevel(n, w.status), es, w.values[b], y)
    ensures Before(es, Holders(n, w, es), x, y)
  {
    hide FirstAliased, HasAlias;
    var l := ValueLevel(n, w.status);
    var ids := Holders(n, w, es);
    KeysAre(n, w.status, es);
    OrderUsable(n, w.status, es, w.values);
    var r, s := PlacesOrder(l, es, w.values, a, b);
    assert l.key(es[x]) == es[x].id && l.key(es[y]) == es[y].id;
    assert ids[r] == es[x].id && ids[s] == es[y].id;
    IndexOfEach(ids, r);
    IndexOfEach(ids, s);
  }

  /** With one overtaken that goes by another name, the second derivation renames it. */
  lemma OvertakenMoves(n: Naming, vs: seq<ValueDoc>, w: JiraField, j: JiraValue, x: nat)
    requires w.ordered && O.DistinctValues(vs) && FairValues(w) && j in w.values
    requires var p := PassOver(ValueLevel(n, w.status), vs, w.values);
             x < |p.es| && FirstOf(n, w, p.es, KeysOfPairs(p.order), j, x) && p.es[x].name != j.name
    ensures DeriveValues(n, DeriveValues(n, vs, w), w) != DeriveValues(n, vs, w)
  {
    hide PassOver, DeriveValues, FirstOf, FirstsRise;
    DerivedAgainExactly(n, vs, w);
    var p := PassOver(ValueLevel(n, w.status), vs, w.values);
    assert TouchValue(w.status, p.es[x], j).name == j.name;
  }

  lemma OnlyHolder(n: Naming, w: JiraField, es: seq<ValueDoc>, ids: seq<string>)
    requires ValuesOk(es)
    ensures Unovertaken(n, w, es, ids)
  {
    hide Before;
    var l := ValueLevel(n, w.status);
    forall j, x | j in w.values && 0 <= x < |es| && FirstOf(n, w, es, ids, j, x) ensures HeldBy(l, es, j, x) {
      AliasedIs(l, es, j);
      var i :| 0 <= i < |es| && HasAlias(l, es[i], j) && l.key(es[i]) == FirstAliased(l, es, j).value;
      assert i == x;
    }
  }

  /** Deriving values again changes nothing when no two share an alias. */
  lemma ValuesAgain(n: Naming, vs: seq<ValueDoc>, w: JiraField)
    requires ValuesOk(vs) && FairValues(w)
    ensures ValuesOk(DeriveValues(n, vs, w))
    ensures DeriveValues(n, DeriveValues(n, vs, w), w) == DeriveValues(n, vs, w)
  {
    hide PassOver, DeriveValues, Unovertaken, Stands;
    var p := PassOver(ValueLevel(n, w.status), vs, w.values);
    DerivedAliases(n, vs, w);
    OnlyHolder(n, w, p.es, KeysOfPairs(p.order));
    UnovertakenStands(n, vs, w);
    DerivedAgainExactly(n, vs, w);
  }

  /** Distinct ids, and, where some field is ordered, distinct aliases. */
  predicate GoodValues(vs: seq<ValueDoc>, strict: bool) { O.DistinctValues(vs) && (strict ==> ValuesOk(vs)) }

  predicate FairFor(w: JiraField, strict: bool) { FairValues(w) && (w.ordered ==> strict) }

  lemma ValuesSettle(n: Naming, vs: seq<ValueDoc>, w: JiraField, strict: bool)
    requires GoodValues(vs, strict) && FairFor(w, strict)
    ensures GoodValues(DeriveValues(n, vs, w), strict)
    ensures DeriveValues(n, DeriveValues(n, vs, w), w) == DeriveValues(n, vs, w)
  {
    hide DeriveValues, O.DistinctValues, Stands;
    DerivedMembers(n, vs, w);
    DerivedAgainExactly(n, vs, w);
    if strict { ValuesAgain(n, vs, w); }
  }
}
