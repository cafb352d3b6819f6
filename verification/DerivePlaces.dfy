/** Where a derivation puts things: what is there keeps its order, and no name is used twice. */
module DerivePlaces {
  import opened Documents
  import opened Imports
  import opened Matching
  import opened MatchFacts
  import opened MatchPass
  import opened Derivation
  import A = DeriveAgain
  import O = Ordering

  // ---- at any level ----

  /** Touching an entity leaves its key, and a new one's is not used. */
  ghost predicate Keyful<E(!new), J(!new)>(l: Level<E, J>) {
    && (forall es, e, j :: l.key(l.touch(es, e, j)) == l.key(e))
    && (forall es, j :: !HasKey(l, es, l.key(l.make(es, j))))
  }

  /** What comes before another in one list does in the other. */
  ghost predicate InOrder<E, J>(l: Level<E, J>, a: seq<E>, b: seq<E>) {
    forall i, k, x, y ::
      0 <= i < k < |a| && 0 <= x < |b| && 0 <= y < |b| && l.key(b[x]) == l.key(a[i]) && l.key(b[y]) == l.key(a[k]) ==> x < y
  }

  /** A list goes on from another, key by key. */
  ghost predicate Continues<E, J>(l: Level<E, J>, a: seq<E>, b: seq<E>) {
    |a| <= |b| && forall i :: 0 <= i < |a| ==> l.key(b[i]) == l.key(a[i])
  }

  lemma InsertOrder<E, J>(l: Level<E, J>, a: seq<E>, es: seq<E>, at: nat, t: E)
    requires InOrder(l, a, es) && forall i :: 0 <= i < |a| ==> l.key(a[i]) != l.key(t)
    ensures InOrder(l, a, Insert(es, at, t))
  {
    hide Insert;
    var n := InsertAt(es, at, t);
    var b := Insert(es, at, t);
    forall i, k, x, y | 0 <= i < k < |a| && 0 <= x < |b| && 0 <= y < |b| && l.key(b[x]) == l.key(a[i]) && l.key(b[y]) == l.key(a[k])
      ensures x < y
    {
      var x', y' := if x < n then x else x - 1, if y < n then y else y - 1;
      assert x != n && y != n;
      assert b[x] == es[x'] && b[y] == es[y'];
    }
  }

  lemma TouchOrder<E(!new), J(!new)>(l: Level<E, J>, a: seq<E>, p: Pass<E>, j: J, k: string)
    requires Keyful(l) && DistinctKeys(l, p.es)
    ensures var es := TouchKey(l, p, j, k).es;
            |es| == |p.es| && (forall i :: 0 <= i < |es| ==> l.key(es[i]) == l.key(p.es[i])) && DistinctKeys(l, es)
    ensures InOrder(l, a, p.es) ==> InOrder(l, a, TouchKey(l, p, j, k).es)
  {
    var es := TouchKey(l, p, j, k).es;
    forall i | 0 <= i < |es| ensures l.key(es[i]) == l.key(p.es[i]) { }
  }

  lemma NewDistinct<E(!new), J(!new)>(l: Level<E, J>, es: seq<E>, at: nat, j: J)
    requires Keyful(l) && DistinctKeys(l, es)
    ensures DistinctKeys(l, Insert(es, at, l.make(es, j)))
  {
    InsertBecomes(l, es, at, l.make(es, j));
  }

  /** A pass leaves what was there in its order, whatever it takes over and wherever it puts what is new. */
  lemma {:induction false} PassInOrder<E(!new), J(!new)>(l: Level<E, J>, start: seq<E>, js: seq<J>)
    requires Keyful(l) && DistinctKeys(l, start)
    ensures var es := PassOver(l, start, js).es;
            DistinctKeys(l, es) && InOrder(l, start, es) && forall i :: 0 <= i < |start| ==> HasKey(l, es, l.key(start[i]))
  {
    hide MatchOf, TouchKey, Insert, InOrder, DistinctKeys, Keyful;
    if js == [] {
      StartOrder(l, start);
    } else {
      PassInOrder(l, start, js[..|js| - 1]);
      var p, j := PassOver(l, start, js[..|js| - 1]), js[|js| - 1];
      StepOrder(l, start, p, j);
    }
  }

  lemma StartOrder<E, J>(l: Level<E, J>, start: seq<E>)
    requires DistinctKeys(l, start)
    ensures InOrder(l, start, start) && forall i :: 0 <= i < |start| ==> HasKey(l, start, l.key(start[i]))
  {
    forall i, k, x, y | 0 <= i < k < |start| && 0 <= x < |start| && 0 <= y < |start|
                        && l.key(start[x]) == l.key(start[i]) && l.key(start[y]) == l.key(start[k])
      ensures x < y
    {
      assert x == i && y == k;
    }
  }

  lemma StepOrder<E(!new), J(!new)>(l: Level<E, J>, start: seq<E>, p: Pass<E>, j: J)
    requires Keyful(l) && DistinctKeys(l, p.es) && InOrder(l, start, p.es)
    requires forall i :: 0 <= i < |start| ==> HasKey(l, p.es, l.key(start[i]))
    ensures var es := StepPass(l, start, p, j).es;
            DistinctKeys(l, es) && InOrder(l, start, es) && forall i :: 0 <= i < |start| ==> HasKey(l, es, l.key(start[i]))
  {
    hide MatchOf, TouchKey, Insert, InOrder;
    match MatchOf(l, if l.rereads then p.es else start, j, p.claimed) {
      case Aliased(k) => TouchOrder(l, start, p, j, k); KeysHeld(l, p.es, TouchKey(l, p, j, k).es);
      case Adopted(k) => TouchOrder(l, start, p, j, k); KeysHeld(l, p.es, TouchKey(l, p, j, k).es);
      case New =>
        var m := l.make(p.es, j);
        NewDistinct(l, p.es, l.place(p.es, j), j);
        InsertOrder(l, start, p.es, l.place(p.es, j), m);
        InsertHolds(l, p.es, l.place(p.es, j), m);
      case Excluded =>
    }
  }

  lemma KeysHeld<E, J>(l: Level<E, J>, a: seq<E>, b: seq<E>)
    requires |a| == |b| && forall i :: 0 <= i < |a| ==> l.key(b[i]) == l.key(a[i])
    ensures forall k :: HasKey(l, a, k) ==> HasKey(l, b, k)
  {
    forall k | HasKey(l, a, k) ensures HasKey(l, b, k) {
      var i :| 0 <= i < |a| && l.key(a[i]) == k;
      assert l.key(b[i]) == k;
    }
  }

  lemma InsertHolds<E, J>(l: Level<E, J>, es: seq<E>, at: nat, t: E)
    ensures forall k :: HasKey(l, es, k) ==> HasKey(l, Insert(es, at, t), k)
  {
    hide Insert;
    var n := InsertAt(es, at, t);
    forall k | HasKey(l, es, k) ensures HasKey(l, Insert(es, at, t), k) {
      var i :| 0 <= i < |es| && l.key(es[i]) == k;
      assert l.key(Insert(es, at, t)[if i < n then i else i + 1]) == k;
    }
  }

  /** Where new ones go last, what was there stays where it was. */
  lemma {:induction false} PassContinues<E(!new), J(!new)>(l: Level<E, J>, start: seq<E>, js: seq<J>)
    requires Keyful(l) && DistinctKeys(l, start) && forall es, j :: l.place(es, j) == |es|
    ensures Continues(l, start, PassOver(l, start, js).es)
  {
    hide MatchOf, TouchKey, InOrder, DistinctKeys, Keyful;
    if js != [] {
      PassContinues(l, start, js[..|js| - 1]);
      var p, j := PassOver(l, start, js[..|js| - 1]), js[|js| - 1];
      PassInOrder(l, start, js[..|js| - 1]);
      match MatchOf(l, if l.rereads then p.es else start, j, p.claimed) {
        case Aliased(k) => TouchOrder(l, start, p, j, k);
        case Adopted(k) => TouchOrder(l, start, p, j, k);
        case New => assert l.place(p.es, j) == |p.es|;
        case Excluded =>
      }
    }
  }

  // ---- types, fields, values ----

  lemma TypeKeyful(n: Naming)
    ensures Keyful(TypeLevel(n))
  {
    hide KeyFor;
    forall es: seq<TypeDoc>, it: IssueType ensures !HasKey(TypeLevel(n), es, NewType(n, es, it).key) {
      var k := NewType(n, es, it).key;
      assert k !in set t | t in es :: t.key;
      forall i | 0 <= i < |es| ensures TypeLevel(n).key(es[i]) != k { assert es[i] in es; }
    }
  }

  lemma FieldKeyful(n: Naming)
    ensures Keyful(FieldLevel(n))
  {
    hide KeyFor, SortStrings, WithTargets, DeriveValues;
    forall es: seq<FieldDoc>, w: JiraField ensures !HasKey(FieldLevel(n), es, NewField(n, es, w).key) {
      var k := NewField(n, es, w).key;
      assert k !in TakenKeys(es);
      forall i | 0 <= i < |es| ensures FieldLevel(n).key(es[i]) != k { assert es[i].key in TakenKeys(es); }
    }
  }

  lemma ValueKeyful(n: Naming, status: bool)
    ensures Keyful(ValueLevel(n, status))
  {
    hide KeyFor;
    forall es: seq<ValueDoc>, j: JiraValue ensures !HasKey(ValueLevel(n, status), es, NewValue(n, status, es, j).id) {
      var k := NewValue(n, status, es, j).id;
      assert k !in ValueKeys(es);
      forall i | 0 <= i < |es| ensures ValueLevel(n, status).key(es[i]) != k { assert es[i].id in ValueKeys(es); }
    }
  }

  /** Every type stays in its place; new ones follow. */
  lemma TypesInPlace(n: Naming, d: Document, p: Project)
    requires (forall i, k :: 0 <= i < k < |d| ==> d[i].key != d[k].key) && Derive(n, d, p).Ok?
    ensures var now := Derive(n, d, p).doc; |d| <= |now| && forall i :: 0 <= i < |d| ==> now[i].key == d[i].key
  {
    hide PassOver, Keyful, FieldPasses, BoundElsewhere;
    var l := TypeLevel(n);
    TypeKeyful(n);
    PassContinues(l, d, p.types);
    var q := PassOver(l, d, p.types);
    A.PassesSame(n, p, q.order, q.es, p.types);
    forall i | 0 <= i < |d| ensures q.es[i].key == d[i].key { assert l.key(q.es[i]) == l.key(d[i]); }
  }

  /** Every field of a type stays in its place; new ones follow. */
  lemma FieldsInPlace(n: Naming, fs: seq<FieldDoc>, ws: seq<JiraField>)
    requires forall i, k :: 0 <= i < k < |fs| ==> fs[i].key != fs[k].key
    ensures var now := DeriveFields(n, fs, ws); |fs| <= |now| && forall i :: 0 <= i < |fs| ==> now[i].key == fs[i].key
  {
    hide PassOver, Keyful;
    var l := FieldLevel(n);
    FieldKeyful(n);
    PassContinues(l, fs, ws);
    var now := DeriveFields(n, fs, ws);
    forall i | 0 <= i < |fs| ensures now[i].key == fs[i].key { assert l.key(now[i]) == l.key(fs[i]); }
  }

  /** The values of a field that does not follow Jira's order keep theirs; but for statuses new ones come last. */
  lemma ValuesInPlace(n: Naming, vs: seq<ValueDoc>, w: JiraField)
    requires O.DistinctValues(vs) && !w.ordered
    ensures var now := DeriveValues(n, vs, w);
            forall i, k, x, y ::
              0 <= i < k < |vs| && 0 <= x < |now| && 0 <= y < |now| && now[x].id == vs[i].id && now[y].id == vs[k].id ==> x < y
    ensures var now := DeriveValues(n, vs, w); !w.status ==> |vs| <= |now| && forall i :: 0 <= i < |vs| ==> now[i].id == vs[i].id
  {
    hide PassOver, Keyful;
    var l := ValueLevel(n, w.status);
    ValueKeyful(n, w.status);
    PassInOrder(l, vs, w.values);
    var now := DeriveValues(n, vs, w);
    forall i, k, x, y | 0 <= i < k < |vs| && 0 <= x < |now| && 0 <= y < |now| && now[x].id == vs[i].id && now[y].id == vs[k].id
      ensures x < y
    {
      assert l.key(now[x]) == l.key(vs[i]) && l.key(now[y]) == l.key(vs[k]);
    }
    if !w.status {
      PassContinues(l, vs, w.values);
      forall i | 0 <= i < |vs| ensures now[i].id == vs[i].id { assert l.key(now[i]) == l.key(vs[i]); }
    }
  }

  /** How far along a category is. */
  function Progress(category: string): int {
    match category
    case "started" => 1
    case "completed" => 2
    case "canceled" => 2
    case _ => 0
  }

  function StartOf(group: string): string {
    match group
    case "indeterminate" => "started"
    case "done" => "completed"
    case _ => "unstarted"
  }

  lemma {:induction false} PlaceIs(vs: seq<ValueDoc>, rank: int)
    ensures var at := PlaceByRank(vs, rank);
            && at <= |vs| && (at > 0 ==> Progress(vs[at - 1].category) <= rank)
            && forall i :: at <= i < |vs| ==> Progress(vs[i].category) > rank
  {
    if vs != [] { PlaceIs(vs[..|vs| - 1], rank); }
  }

  /** A new status goes in after the last that is no further along than it. */
  lemma StatusPlaced(n: Naming, start: seq<ValueDoc>, p: Pass<ValueDoc>, j: JiraValue)
    requires MatchOf(ValueLevel(n, true), start, j, p.claimed) == New
    ensures exists at, v :: 0 <= at <= |p.es| && StepPass(ValueLevel(n, true), start, p, j).es == p.es[..at] + [v] + p.es[at..]
              && v.category == StartOf(j.group) && (at > 0 ==> Progress(p.es[at - 1].category) <= Progress(v.category))
              && forall i :: at <= i < |p.es| ==> Progress(p.es[i].category) > Progress(v.category)
  {
    hide MatchOf, KeyFor, PlaceByRank;
    var at := PlaceByRank(p.es, RankOf(Allowed(j.group)[0]));
    PlaceIs(p.es, RankOf(Allowed(j.group)[0]));
    var v := NewValue(n, true, p.es, j);
    assert v.category == StartOf(j.group);
    assert StepPass(ValueLevel(n, true), start, p, j).es == p.es[..at] + [v] + p.es[at..];
  }

  // ---- a type's names ----

  /** No key or inverse of a type's fields is another's, or a built-in field's. */
  ghost predicate NamesApart(fs: seq<FieldDoc>) {
    && (forall i, k :: 0 <= i < k < |fs| ==> fs[i].key != fs[k].key)
    && (forall i, k :: 0 <= i < k < |fs| && fs[i].inverse != "" ==> fs[i].inverse != fs[k].inverse)
    && (forall i, k :: 0 <= i < |fs| && 0 <= k < |fs| && fs[i].inverse != "" ==> fs[i].inverse != fs[k].key)
    && (forall i :: 0 <= i < |fs| ==> fs[i].inverse !in BUILTINS)
  }

  lemma TakenHolds(fs: seq<FieldDoc>)
    ensures forall i :: 0 <= i < |fs| ==> fs[i].key in TakenKeys(fs) && fs[i].inverse in TakenKeys(fs)
    ensures BUILTINS <= TakenKeys(fs)
  {
  }

  lemma SettledName(n: Naming, fs: seq<FieldDoc>, f: FieldDoc, w: JiraField)
    ensures var g := SettleField(n, fs, f, w);
            && g.key == f.key
            && (g.inverse == f.inverse || (g.inverse != "" && f.inverse == "" && g.inverse !in TakenKeys(fs) && g.inverse != f.key))
  {
    hide KeyFor, TakenKeys, DeriveValues, SortStrings, WithTargets;
    assert KeyFor(n, w.inverse, w.ref, "f-", TakenKeys(fs) + {f.key}) !in TakenKeys(fs) + {f.key};
  }

  lemma TouchApart(n: Naming, fs: seq<FieldDoc>, i: nat, w: JiraField)
    requires NamesApart(fs) && i < |fs|
    ensures NamesApart(fs[i := TouchField(n, fs, fs[i], w)])
  {
    hide TakenKeys, SettleField;
    TakenHolds(fs);
    SettledName(n, fs, fs[i].(name := if w.name != "" then w.name else fs[i].name), w);
    ReplacedApart(fs, i, TouchField(n, fs, fs[i], w));
  }

  lemma ReplacedApart(fs: seq<FieldDoc>, i: nat, g: FieldDoc)
    requires NamesApart(fs) && i < |fs| && g.key == fs[i].key
    requires g.inverse == fs[i].inverse
             || (&& g.inverse != "" && g.inverse !in BUILTINS
                 && forall k :: 0 <= k < |fs| ==> g.inverse != fs[k].key && g.inverse != fs[k].inverse)
    ensures NamesApart(fs[i := g])
  {
  }

  lemma NewApart(n: Naming, fs: seq<FieldDoc>, w: JiraField)
    requires NamesApart(fs)
    ensures NamesApart(fs + [NewField(n, fs, w)])
  {
    hide TakenKeys, SettleField, KeyFor;
    TakenHolds(fs);
    var key := KeyFor(n, if w.key != "" then w.key else w.name, w.ref, "f-", TakenKeys(fs));
    SettledName(n, fs, FieldDoc(key, w.name, w.kind, "", false, "", false, [], map[], []), w);
    AddedApart(fs, NewField(n, fs, w));
  }

  lemma AddedApart(fs: seq<FieldDoc>, g: FieldDoc)
    requires NamesApart(fs) && g.inverse !in BUILTINS && g.inverse != g.key
    requires g.key != "" && forall k :: 0 <= k < |fs| ==> g.key != fs[k].key && g.key != fs[k].inverse
    requires g.inverse != "" ==> forall k :: 0 <= k < |fs| ==> g.inverse != fs[k].key && g.inverse != fs[k].inverse
    ensures NamesApart(fs + [g])
  {
  }

  /** Names that were apart stay apart: a derivation gives no key and no inverse that is in use. */
  lemma {:induction false} NamesStayApart(n: Naming, fs: seq<FieldDoc>, ws: seq<JiraField>)
    requires NamesApart(fs)
    ensures NamesApart(DeriveFields(n, fs, ws))
  {
    hide MatchOf, NamesApart, NewField, TouchField;
    if ws != [] {
      var l := FieldLevel(n);
      NamesStayApart(n, fs, ws[..|ws| - 1]);
      var p, w := PassOver(l, fs, ws[..|ws| - 1]), ws[|ws| - 1];
      match MatchOf(l, p.es, w, p.claimed) {
        case Aliased(k) => if HasKey(l, p.es, k) { TouchApart(n, p.es, IndexOf(l, p.es, k), w); }
        case Adopted(k) => if HasKey(l, p.es, k) { TouchApart(n, p.es, IndexOf(l, p.es, k), w); }
        case New => NewApart(n, p.es, w); assert Insert(p.es, |p.es|, NewField(n, p.es, w)) == p.es + [NewField(n, p.es, w)];
        case Excluded =>
      }
    }
  }
}
