/** What a derivation keeps. */
module DeriveKeeps {
  // Every type, field and value, and every kind.

  import opened Documents
  import opened Imports
  import opened Matching
  import opened MatchFacts
  import opened MatchPass
  import opened MatchAgain
  import opened Derivation
  import opened DeriveValueFacts
  import opened DeriveFacts
  import opened ValuesStand
  import O = Ordering

  /** Taking Jira's attributes keeps an entity's key, what R says of it, and its being good; one made is good and new. */
  ghost predicate Keeping<E(!new), J(!new)>(l: Level<E, J>, good: E -> bool, fair: J -> bool, R: (E, E) -> bool) {
    && (forall e :: R(e, e)) && (forall a, b, c :: R(a, b) && R(b, c) ==> R(a, c))
    && (forall es, e, j :: good(e) && fair(j) ==> TouchKeeps(l, good, R, es, e, j))
    && (forall es, j :: fair(j) ==> good(l.make(es, j)) && !HasKey(l, es, l.key(l.make(es, j))))
  }

  ghost predicate TouchKeeps<E, J>(l: Level<E, J>, good: E -> bool, R: (E, E) -> bool, es: seq<E>, e: E, j: J) {
    var t := l.touch(es, e, j);
    l.key(t) == l.key(e) && R(e, t) && good(t)
  }

  /** Each entity there was is still there under its key, and R relates it to what it was. */
  ghost predicate AllKept<E(!new), J>(l: Level<E, J>, start: seq<E>, es: seq<E>, R: (E, E) -> bool) {
    forall e :: e in start ==> exists k :: KeptAt(l, R, e, es, k)
  }

  ghost predicate KeptAt<E, J>(l: Level<E, J>, R: (E, E) -> bool, e: E, es: seq<E>, k: int) {
    0 <= k < |es| && l.key(es[k]) == l.key(e) && R(e, es[k])
  }

  lemma TouchKept<E(!new), J(!new)>(l: Level<E, J>, good: E -> bool, fair: J -> bool, R: (E, E) -> bool,
                                    start: seq<E>, p: Pass<E>, j: J, key: string)
    requires Keeping(l, good, fair, R) && AllKept(l, start, p.es, R) && fair(j) && forall e :: e in p.es ==> good(e)
    ensures var es := TouchKey(l, p, j, key).es;
            && AllKept(l, start, es, R) && (forall e :: e in es ==> good(e)) && (DistinctKeys(l, p.es) ==> DistinctKeys(l, es))
  {
    var es := TouchKey(l, p, j, key).es;
    if HasKey(l, p.es, key) {
      var i := IndexOf(l, p.es, key);
      assert p.es[i] in p.es && TouchKeeps(l, good, R, p.es, p.es[i], j);
    }
    forall e | e in start ensures exists k :: KeptAt(l, R, e, es, k) {
      var k :| KeptAt(l, R, e, p.es, k);
      assert R(p.es[k], es[k]) && l.key(es[k]) == l.key(p.es[k]);
      assert KeptAt(l, R, e, es, k);
    }
  }

  lemma InsertKept<E(!new), J(!new)>(l: Level<E, J>, R: (E, E) -> bool, start: seq<E>, es: seq<E>, at: nat, e: E)
    requires AllKept(l, start, es, R)
    ensures AllKept(l, start, Insert(es, at, e), R)
    ensures forall x :: x in Insert(es, at, e) ==> x in es || x == e
  {
    hide Insert;
    var n := InsertAt(es, at, e);
    var more := Insert(es, at, e);
    forall c | c in start ensures exists k :: KeptAt(l, R, c, more, k) {
      var k :| KeptAt(l, R, c, es, k);
      assert KeptAt(l, R, c, more, if k < n then k else k + 1);
    }
    forall x | x in more ensures x in es || x == e {
      var a :| 0 <= a < |more| && more[a] == x;
      if a != n { assert x == es[if a < n then a else a - 1]; }
    }
  }

  /** Whatever ids Jira repeats and aliases are shared, a pass keeps every entity. */
  lemma {:induction false} PassKept<E(!new), J(!new)>(l: Level<E, J>, good: E -> bool, fair: J -> bool, R: (E, E) -> bool,
                                                      start: seq<E>, js: seq<J>)
    requires Keeping(l, good, fair, R) && (forall e :: e in start ==> good(e)) && (forall j :: j in js ==> fair(j))
    ensures var es := PassOver(l, start, js).es;
            && AllKept(l, start, es, R) && (forall e :: e in es ==> good(e)) && (DistinctKeys(l, start) ==> DistinctKeys(l, es))
  {
    hide TouchKey, Insert, MatchOf, DistinctKeys;
    if js == [] {
      forall e | e in start ensures exists k :: KeptAt(l, R, e, start, k) {
        var k :| 0 <= k < |start| && start[k] == e;
        assert KeptAt(l, R, e, start, k);
      }
    } else {
      var done, j := js[..|js| - 1], js[|js| - 1];
      assert j in js && forall x :: x in done ==> x in js;
      PassKept(l, good, fair, R, start, done);
      var p := PassOver(l, start, done);
      match MatchOf(l, if l.rereads then p.es else start, j, p.claimed) {
        case Excluded =>
        case New =>
          InsertKept(l, R, start, p.es, l.place(p.es, j), l.make(p.es, j));
          if DistinctKeys(l, p.es) { InsertBecomes(l, p.es, l.place(p.es, j), l.make(p.es, j)); }
        case Aliased(k) => TouchKept(l, good, fair, R, start, p, j, k);
        case Adopted(k) => TouchKept(l, good, fair, R, start, p, j, k);
      }
    }
  }

  // ---- values ----

  /** A list ordered in any way by any of its ids, repeated or not, keeps every value. */
  lemma {:induction false} BlocksHold(vs: seq<ValueDoc>, order: seq<string>, some: seq<string>, ids: seq<string>)
    requires forall id :: id in some ==> id in ids
    ensures forall v :: v in O.Blocks(vs, order, some) ==> v in O.Blocks(vs, order, ids)
  {
    hide O.Block;
    if some != [] {
      BlocksHold(vs, order, some[1..], ids);
      assert some[0] in some;
      BlockHeld(vs, order, ids, some[0]);
    }
  }

  lemma {:induction false} BlockHeld(vs: seq<ValueDoc>, order: seq<string>, ids: seq<string>, id: string)
    requires id in ids
    ensures forall v :: v in O.Block(vs, order, id) ==> v in O.Blocks(vs, order, ids)
  {
    hide O.Block;
    if ids[0] != id { BlockHeld(vs, order, ids[1..], id); }
  }

  lemma OrderKeeps(vs: seq<ValueDoc>, order: seq<string>)
    requires O.DistinctValues(vs)
    ensures forall v :: v in vs ==> v in O.JiraOrder(vs, order)
  {
    hide O.Blocks, O.Head;
    O.Decomposed(vs, order);
    var ids := O.MappedIds(vs, order);
    forall id | id in ids ensures id in order { O.MappedAre(vs, order, id); }
    BlocksHold(vs, order, ids, order);
  }

  lemma ValueKeeping(n: Naming, status: bool)
    ensures Keeping(ValueLevel(n, status), Always(), Always(), (a: ValueDoc, b: ValueDoc) => true)
  {
    var l := ValueLevel(n, status);
    forall es: seq<ValueDoc>, j: JiraValue ensures !HasKey(l, es, l.key(l.make(es, j))) {
      var m := NewValue(n, status, es, j);
      assert l.make(es, j) == m && m.id !in ValueKeys(es);
      forall i | 0 <= i < |es| ensures l.key(es[i]) != m.id { assert es[i].id in ValueKeys(es); }
    }
  }

  lemma ValuesKept(n: Naming, vs: seq<ValueDoc>, w: JiraField)
    requires O.DistinctValues(vs)
    ensures ValueKeys(vs) <= ValueKeys(DeriveValues(n, vs, w))
    ensures (w.ordered ==> FairValues(w)) ==> O.DistinctValues(DeriveValues(n, vs, w))
  {
    hide O.JiraOrder, Keeping;
    var l := ValueLevel(n, w.status);
    var R := (a: ValueDoc, b: ValueDoc) => true;
    var p := PassOver(l, vs, w.values);
    ValueKeeping(n, w.status);
    PassKept(l, Always(), Always(), R, vs, w.values);
    KeysAre(n, w.status, vs);
    KeysAre(n, w.status, p.es);
    if w.ordered {
      OrderKeeps(p.es, KeysOfPairs(p.order));
      if FairValues(w) { DerivedMembers(n, vs, w); }
    }
    forall id | id in ValueKeys(vs) ensures id in ValueKeys(DeriveValues(n, vs, w)) {
      var v :| v in vs && v.id == id;
      assert l.key(v) == id;
      var k :| KeptAt(l, R, v, p.es, k);
      assert p.es[k] in p.es && p.es[k] in DeriveValues(n, vs, w);
    }
  }

  // ---- fields ----

  /** The same field, of the same kind, with every value it had. */
  predicate FieldKept(a: FieldDoc, b: FieldDoc) {
    a.key == b.key && a.kind == b.kind && ValueKeys(a.values) <= ValueKeys(b.values)
  }

  ghost predicate FieldsKept(a: seq<FieldDoc>, b: seq<FieldDoc>) {
    forall f :: f in a ==> exists g :: g in b && FieldKept(f, g)
  }

  /** A valid document's value ids are distinct. */
  function Listed(): FieldDoc -> bool { (f: FieldDoc) => O.DistinctValues(f.values) }

  /** Jira repeats no value of an ordered field. */
  function Orderly(): JiraField -> bool { (w: JiraField) => w.ordered ==> FairValues(w) }

  lemma TouchedKept(n: Naming, es: seq<FieldDoc>, f: FieldDoc, w: JiraField)
    requires Listed()(f) && Orderly()(w)
    ensures TouchKeeps(FieldLevel(n), Listed(), (a: FieldDoc, b: FieldDoc) => FieldKept(a, b), es, f, w)
  {
    hide DeriveValues, ValueKeys, SortStrings, WithTargets, KeyFor, TakenKeys, O.DistinctValues;
    ValuesKept(n, f.values, w);
    assert FieldLevel(n).touch(es, f, w) == TouchField(n, es, f, w);
  }

  lemma MadeListed(n: Naming, es: seq<FieldDoc>, w: JiraField)
    requires Orderly()(w)
    ensures var l := FieldLevel(n); Listed()(l.make(es, w)) && !HasKey(l, es, l.key(l.make(es, w)))
  {
    hide DeriveValues, SortStrings, WithTargets;
    var l := FieldLevel(n);
    var key := KeyFor(n, if w.key != "" then w.key else w.name, w.ref, "f-", TakenKeys(es));
    ValuesKept(n, [], w);
    assert l.make(es, w) == NewField(n, es, w) && NewField(n, es, w).key == key;
    forall i | 0 <= i < |es| ensures l.key(es[i]) != key { assert es[i].key in TakenKeys(es); }
  }

  lemma FieldKeeping(n: Naming)
    ensures Keeping(FieldLevel(n), Listed(), Orderly(), (a: FieldDoc, b: FieldDoc) => FieldKept(a, b))
  {
    hide TouchKeeps, SettleField, NewField, TouchField;
    var l, R := FieldLevel(n), (a: FieldDoc, b: FieldDoc) => FieldKept(a, b);
    forall es: seq<FieldDoc>, f: FieldDoc, w: JiraField | Listed()(f) && Orderly()(w) ensures TouchKeeps(l, Listed(), R, es, f, w) {
      TouchedKept(n, es, f, w);
    }
    forall es: seq<FieldDoc>, w: JiraField | Orderly()(w) ensures Listed()(l.make(es, w)) && !HasKey(l, es, l.key(l.make(es, w))) {
      MadeListed(n, es, w);
    }
  }

  ghost predicate AllListed(fs: seq<FieldDoc>) { forall f :: f in fs ==> O.DistinctValues(f.values) }

  ghost predicate AllOrderly(ws: seq<JiraField>) { forall w :: w in ws && w.ordered ==> FairValues(w) }

  lemma DerivedFieldsKept(n: Naming, fs: seq<FieldDoc>, ws: seq<JiraField>)
    requires AllListed(fs) && AllOrderly(ws)
    ensures FieldsKept(fs, DeriveFields(n, fs, ws)) && AllListed(DeriveFields(n, fs, ws))
  {
    hide PassOver, SettleField, FairValues, Keeping, O.DistinctValues, FieldKept;
    var l, R := FieldLevel(n), (a: FieldDoc, b: FieldDoc) => FieldKept(a, b);
    FieldKeeping(n);
    forall f | f in fs ensures Listed()(f) { assert O.DistinctValues(f.values); }
    forall w | w in ws ensures Orderly()(w) { assert w.ordered ==> FairValues(w); }
    PassKept(l, Listed(), Orderly(), R, fs, ws);
    var es := DeriveFields(n, fs, ws);
    forall f | f in es ensures O.DistinctValues(f.values) { assert Listed()(f); }
    forall f | f in fs ensures exists g :: g in es && FieldKept(f, g) {
      var k :| KeptAt(l, R, f, es, k);
      assert es[k] in es && R(f, es[k]);
    }
  }

  lemma KeptTwice(a: seq<FieldDoc>, b: seq<FieldDoc>, c: seq<FieldDoc>)
    requires FieldsKept(a, b) && FieldsKept(b, c)
    ensures FieldsKept(a, c)
  {
    forall f | f in a ensures exists h :: h in c && FieldKept(f, h) {
      var g :| g in b && FieldKept(f, g);
      var h :| h in c && FieldKept(g, h);
      assert FieldKept(f, h);
    }
  }

  // ---- types ----

  /** A valid document's value ids are distinct in every field of every type. */
  ghost predicate TypesListed(ts: seq<TypeDoc>) { forall t :: t in ts ==> AllListed(t.fields) }

  /** Jira repeats no value of any ordered field it maps. */
  ghost predicate ProjectOrderly(p: Project) {
    forall it, order: seq<Pair> :: it in p.types ==> AllOrderly(WantsOf(p, order, it))
  }

  lemma PassKeepsFields(n: Naming, p: Project, order: seq<Pair>, now: seq<TypeDoc>, it: IssueType)
    requires TypesListed(now) && AllOrderly(WantsOf(p, order, it))
    ensures var after := FieldPass(n, p, order, now, it);
            && |after| == |now| && TypesListed(after)
            && forall i :: 0 <= i < |now| ==> after[i].key == now[i].key && FieldsKept(now[i].fields, after[i].fields)
  {
    hide AllListed, AllOrderly, WantsOf, DeriveFields, FieldsKept;
    var after := FieldPass(n, p, order, now, it);
    forall i | 0 <= i < |now| ensures after[i].key == now[i].key && FieldsKept(now[i].fields, after[i].fields) && AllListed(after[i].fields) {
      SelfKept(now[i].fields);
      DerivedFieldsKept(n, now[i].fields, WantsOf(p, order, it));
    }
  }

  lemma {:induction false} PassesKeepFields(n: Naming, p: Project, order: seq<Pair>, ts: seq<TypeDoc>, its: seq<IssueType>)
    requires TypesListed(ts) && forall it :: it in its ==> AllOrderly(WantsOf(p, order, it))
    ensures var after := FieldPasses(n, p, order, ts, its);
            && |after| == |ts| && TypesListed(after)
            && forall i :: 0 <= i < |ts| ==> after[i].key == ts[i].key && FieldsKept(ts[i].fields, after[i].fields)
  {
    hide FieldPass, FieldsKept, TypesListed, AllOrderly, WantsOf;
    if its == [] {
      forall i | 0 <= i < |ts| ensures FieldsKept(ts[i].fields, ts[i].fields) { SelfKept(ts[i].fields); }
    } else {
      var front, last := its[..|its| - 1], its[|its| - 1];
      assert last in its;
      PassesKeepFields(n, p, order, ts, front);
      var now := FieldPasses(n, p, order, ts, front);
      PassKeepsFields(n, p, order, now, last);
      forall i | 0 <= i < |ts| ensures FieldsKept(ts[i].fields, FieldPass(n, p, order, now, last)[i].fields) {
        KeptTwice(ts[i].fields, now[i].fields, FieldPass(n, p, order, now, last)[i].fields);
      }
    }
  }

  lemma SelfKept(fs: seq<FieldDoc>)
    ensures FieldsKept(fs, fs)
  {
    forall f | f in fs ensures FieldKept(f, f) { }
  }

  function GoodType(): TypeDoc -> bool { (t: TypeDoc) => forall f :: f in t.fields ==> O.DistinctValues(f.values) }

  lemma TypeKeeping(n: Naming)
    ensures Keeping(TypeLevel(n), GoodType(), Always(), (a: TypeDoc, b: TypeDoc) => a.fields == b.fields)
  {
    hide KeyFor;
    var l := TypeLevel(n);
    forall es: seq<TypeDoc>, it: IssueType ensures GoodType()(l.make(es, it)) && !HasKey(l, es, l.key(l.make(es, it))) {
      var m := NewType(n, es, it);
      assert l.make(es, it) == m && m.key !in set t | t in es :: t.key;
      forall i | 0 <= i < |es| ensures l.key(es[i]) != m.key { assert es[i] in es; }
    }
  }

  /**
   Nothing is removed or re-kinded: every type, field and value stays, each field of the kind it
   was, whatever ids Jira repeats and whatever aliases are shared.
   */
  lemma DeriveKeepsAll(n: Naming, d: Document, p: Project, t: TypeDoc)
    requires TypesListed(d) && ProjectOrderly(p) && Derive(n, d, p).Ok? && t in d
    ensures exists u :: u in Derive(n, d, p).doc && u.key == t.key && FieldsKept(t.fields, u.fields)
  {
    hide WantsOf, FieldPasses, PassOver, FieldsKept, BoundElsewhere, Keeping, AllOrderly, O.DistinctValues;
    var l := TypeLevel(n);
    var R := (a: TypeDoc, b: TypeDoc) => a.fields == b.fields;
    TypeKeeping(n);
    forall e | e in d ensures GoodType()(e) { assert AllListed(e.fields); }
    PassKept(l, GoodType(), Always(), R, d, p.types);
    var pass := PassOver(l, d, p.types);
    var k :| KeptAt(l, R, t, pass.es, k);
    assert R(t, pass.es[k]) && l.key(pass.es[k]) == pass.es[k].key;
    forall e | e in pass.es ensures AllListed(e.fields) { assert GoodType()(e); }
    PassesKeepFields(n, p, pass.order, pass.es, p.types);
    var u := Derive(n, d, p).doc[k];
    assert u in Derive(n, d, p).doc && u.key == t.key;
  }

  // ---- two values with one alias ----

  const V1 := ValueDoc("v1", "Five", "", "", "", map[SYSTEM := "5"])
  const V2 := ValueDoc("v2", "Old", "", "", "", map[SYSTEM := "5"])
  const U := ValueDoc("u", "Six", "", "", "", map[SYSTEM := "6"])
  const SIX := JiraValue("6", "Six", "")
  const FIVE := JiraValue("5", "Five", "")
  const PRIORITY := JiraField("priority", "priority", "Priority", "ordinal-enum", false, "", false, [], [SIX, FIVE], true, false)

  /** One step that finds its value by alias, at place i. */
  lemma AliasStep(n: Naming, start: seq<ValueDoc>, p: Pass<ValueDoc>, j: JiraValue, i: nat)
    requires i < |p.es| && O.DistinctValues(p.es) && FirstAliased(ValueLevel(n, false), start, j) == Some(p.es[i].id)
    ensures StepPass(ValueLevel(n, false), start, p, j)
            == Pass(p.es[i := TouchValue(false, p.es[i], j)], p.claimed + {p.es[i].id}, p.order + [Pair(j.id, p.es[i].id)])
  {
    var l := ValueLevel(n, false);
    assert l.key(p.es[i]) == p.es[i].id;
    assert HasKey(l, p.es, p.es[i].id);
    var k := IndexOf(l, p.es, p.es[i].id);
    assert l.key(p.es[k]) == p.es[k].id && k == i;
  }

  lemma ThreeAliased(n: Naming, a: ValueDoc, b: ValueDoc, c: ValueDoc, j: JiraValue)
    ensures var l := ValueLevel(n, false);
            FirstAliased(l, [a, b, c], j)
            == if HasAlias(l, a, j) then Some(a.id) else if HasAlias(l, b, j) then Some(b.id)
               else if HasAlias(l, c, j) then Some(c.id) else None
  {
    var l := ValueLevel(n, false);
    hide HasAlias;
    assert [a, b, c][..2] == [a, b] && [a, b][..1] == [a] && [a][..0] == [];
    assert FirstAliased(l, [a], j) == if HasAlias(l, a, j) then Some(a.id) else None;
    assert FirstAliased(l, [a, b], j) == if HasAlias(l, a, j) then Some(a.id) else if HasAlias(l, b, j) then Some(b.id) else None;
  }

  lemma TwoSteps(n: Naming, vs: seq<ValueDoc>)
    ensures var l := ValueLevel(n, false);
            PassOver(l, vs, [SIX, FIVE]) == StepPass(l, vs, StepPass(l, vs, Pass(vs, {}, []), SIX), FIVE)
  {
    hide StepPass;
    assert [SIX, FIVE][..1] == [SIX] && [SIX][..0] == [];
    assert PassOver(ValueLevel(n, false), vs, []) == Pass(vs, {}, []);
  }

  lemma ThreeBlocks(a: ValueDoc, b: ValueDoc, c: ValueDoc, order: seq<string>)
    requires a.id != b.id && b.id != c.id && a.id != c.id && a.id in order && b.id in order && c.id !in order
    ensures var vs := [a, b, c];
            O.Block(vs, order, a.id) == [a] && O.Block(vs, order, b.id) == [b, c] && O.Head(vs, order) == []
  {
    var vs := [a, b, c];
    assert vs[1..] == [b, c] && [b, c][1..] == [c] && [c][1..] == [];
    assert O.Head([], order) == [] && O.Head([c], order) == [c] && O.Head([b, c], order) == [];
    assert O.Block([b, c], order, b.id) == [b] + [c];
  }

  lemma Reordered(a: ValueDoc, b: ValueDoc, c: ValueDoc)
    requires a.id != b.id && b.id != c.id && a.id != c.id
    ensures O.JiraOrder([a, b, c], [b.id, a.id]) == [b, c, a] && O.JiraOrder([a, b, c], [a.id, b.id]) == [a, b, c]
  {
    hide O.Block, O.Head;
    var vs, x, y := [a, b, c], [b.id, a.id], [a.id, b.id];
    ThreeBlocks(a, b, c, x);
    ThreeBlocks(a, b, c, y);
    assert x[1..] == [a.id] && y[1..] == [b.id] && [a.id][1..] == [] && [b.id][1..] == [];
    assert O.Blocks(vs, x, []) == [] && O.Blocks(vs, y, []) == [];
    assert O.Blocks(vs, x, [a.id]) == [a] && O.Blocks(vs, y, [b.id]) == [b, c];
  }

  /** Two steps over three values, taking those at places i and k, neither of which claims the other. */
  lemma TwoTaken(n: Naming, a: ValueDoc, b: ValueDoc, c: ValueDoc, i: nat, k: nat)
    requires a.id != b.id && b.id != c.id && a.id != c.id && i < 3 && k < 3 && i != k
    requires var vs := [a, b, c];
             && FirstAliased(ValueLevel(n, false), vs, SIX) == Some(vs[i].id) && TouchValue(false, vs[i], SIX) == vs[i]
             && FirstAliased(ValueLevel(n, false), vs, FIVE) == Some(vs[k].id)
    ensures var vs := [a, b, c];
            var p := PassOver(ValueLevel(n, false), vs, [SIX, FIVE]);
            p.es == vs[k := TouchValue(false, vs[k], FIVE)] && KeysOfPairs(p.order) == [vs[i].id, vs[k].id]
  {
    hide TouchValue, FirstAliased, StepPass, PassOver;
    var vs := [a, b, c];
    TwoSteps(n, vs);
    AliasStep(n, vs, Pass(vs, {}, []), SIX, i);
    assert vs[i := vs[i]] == vs;
    AliasStep(n, vs, Pass(vs, {} + {vs[i].id}, [] + [Pair("6", vs[i].id)]), FIVE, k);
    assert KeysOfPairs([] + [Pair("6", vs[i].id)] + [Pair("5", vs[k].id)]) == [vs[i].id, vs[k].id];
  }

  lemma FirstDerivation(n: Naming)
    ensures DeriveValues(n, [V1, U, V2], PRIORITY) == [U, V2, V1]
  {
    hide PassOver;
    ThreeAliased(n, V1, U, V2, SIX);
    ThreeAliased(n, V1, U, V2, FIVE);
    TouchSame(U, SIX);
    TouchSame(V1, FIVE);
    TwoTaken(n, V1, U, V2, 1, 0);
    assert [V1, U, V2][0 := V1] == [V1, U, V2];
    Reordered(V1, U, V2);
  }

  lemma SecondDerivation(n: Naming)
    ensures DeriveValues(n, [U, V2, V1], PRIORITY) == [U, V2.(name := "Five"), V1]
  {
    hide PassOver;
    ThreeAliased(n, U, V2, V1, SIX);
    ThreeAliased(n, U, V2, V1, FIVE);
    TouchSame(U, SIX);
    TouchRenames();
    TwoTaken(n, U, V2, V1, 0, 1);
    assert [U, V2, V1][1 := V2.(name := "Five")] == [U, V2.(name := "Five"), V1];
    Reordered(U, V2.(name := "Five"), V1);
  }

  /**
   Two values with one alias, and Jira's order 6, 5: the first derivation moves the one it
   found first behind the other, so the second finds that other one, and renames it.
   */
  lemma DuplicateAliasMoves(n: Naming)
    ensures !ValuesOk([V1, U, V2])
    ensures var once := DeriveValues(n, [V1, U, V2], PRIORITY); DeriveValues(n, once, PRIORITY) != once
  {
    hide DeriveValues;
    FirstDerivation(n);
    SecondDerivation(n);
    assert AliasOf([V1, U, V2][0].aliases) == AliasOf([V1, U, V2][2].aliases) == Some("5");
    assert [U, V2, V1][1] != [U, V2.(name := "Five"), V1][1];
  }

  lemma TouchSame(v: ValueDoc, j: JiraValue)
    requires v.name == j.name && v.aliases == map[SYSTEM := j.id]
    ensures TouchValue(false, v, j) == v
  {
    assert v.aliases[SYSTEM := j.id] == v.aliases;
  }

  lemma TouchRenames()
    ensures TouchValue(false, V2, FIVE) == V2.(name := "Five")
  {
    assert V2.aliases[SYSTEM := "5"] == V2.aliases;
  }
}
