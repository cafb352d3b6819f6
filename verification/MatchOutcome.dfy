/** What a pass makes of each Jira entity, in terms of the list it starts from. */
module MatchOutcome {
  // The one that has its alias is taken over; else nothing, if a name excludes it; else one of its name and
  // kind is adopted; else there is a new one.

  import opened Documents
  import opened Matching
  import opened MatchFacts
  import opened MatchPass
  import opened MatchAgain

  // ---- one match ----

  /** The first of a list with a property. */
  ghost predicate FirstWith<E>(cs: seq<E>, has: E -> bool, i: int) {
    0 <= i < |cs| && has(cs[i]) && forall r :: 0 <= r < i ==> !has(cs[r])
  }

  lemma {:induction false} AliasedFirst<E, J>(l: Level<E, J>, cs: seq<E>, j: J)
    ensures var r := FirstAliased(l, cs, j);
            if r.Some? then exists i :: FirstWith<E>(cs, (e: E) => HasAlias(l, e, j), i) && l.key(cs[i]) == r.value
            else forall i :: 0 <= i < |cs| ==> !HasAlias(l, cs[i], j)
  {
    hide HasAlias;
    if cs != [] {
      var n := |cs| - 1;
      AliasedFirst(l, cs[..n], j);
      if FirstAliased(l, cs[..n], j).Some? {
        var i :| FirstWith<E>(cs[..n], (e: E) => HasAlias(l, e, j), i) && l.key(cs[..n][i]) == FirstAliased(l, cs[..n], j).value;
        assert FirstWith<E>(cs, (e: E) => HasAlias(l, e, j), i);
      } else {
        forall i | 0 <= i < n ensures !HasAlias(l, cs[i], j) { assert cs[..n][i] == cs[i]; }
        if HasAlias(l, cs[n], j) { assert FirstWith<E>(cs, (e: E) => HasAlias(l, e, j), n); }
      }
    }
  }

  lemma {:induction false} AdoptableFirst<E, J>(l: Level<E, J>, cs: seq<E>, j: J, claimed: set<string>)
    ensures var r := FirstAdoptable(l, cs, j, claimed);
            if r.Some? then exists i :: FirstWith<E>(cs, (e: E) => Adoptable(l, e, j, claimed), i) && l.key(cs[i]) == r.value
            else forall i :: 0 <= i < |cs| ==> !Adoptable(l, cs[i], j, claimed)
  {
    hide Adoptable;
    if cs != [] {
      var n := |cs| - 1;
      AdoptableFirst(l, cs[..n], j, claimed);
      if FirstAdoptable(l, cs[..n], j, claimed).Some? {
        var i :| FirstWith<E>(cs[..n], (e: E) => Adoptable(l, e, j, claimed), i)
                 && l.key(cs[..n][i]) == FirstAdoptable(l, cs[..n], j, claimed).value;
        assert FirstWith<E>(cs, (e: E) => Adoptable(l, e, j, claimed), i);
      } else {
        forall i | 0 <= i < n ensures !Adoptable(l, cs[i], j, claimed) { assert cs[..n][i] == cs[i]; }
        if Adoptable(l, cs[n], j, claimed) { assert FirstWith<E>(cs, (e: E) => Adoptable(l, e, j, claimed), n); }
      }
    }
  }

  /**
   A match is the first with the alias; none being so, it is excluded when an unclaimed entity of
   its name carries the empty alias; else the first unclaimed one of its name and kind without an
   alias is adopted; and it is new when there is none.
   */
  lemma MatchIs<E, J>(l: Level<E, J>, cs: seq<E>, j: J, claimed: set<string>)
    ensures match MatchOf(l, cs, j, claimed)
            case Aliased(k) => exists i :: FirstWith<E>(cs, (e: E) => HasAlias(l, e, j), i) && l.key(cs[i]) == k
            case Excluded => NoneHas(l, cs, j) && exists i :: Excluder(l, cs, j, claimed, i)
            case Adopted(k) =>
              && NoneHas(l, cs, j) && (forall i :: !Excluder(l, cs, j, claimed, i))
              && exists i :: FirstWith<E>(cs, (e: E) => Adoptable(l, e, j, claimed), i) && l.key(cs[i]) == k
            case New =>
              && NoneHas(l, cs, j) && (forall i :: !Excluder(l, cs, j, claimed, i))
              && forall i :: 0 <= i < |cs| ==> !Adoptable(l, cs[i], j, claimed)
  {
    hide HasAlias, Adoptable, Excludes;
    AliasedFirst(l, cs, j);
    AdoptableFirst(l, cs, j, claimed);
    if i :| 0 <= i < |cs| && Excludes(l, cs[i], j, claimed) { assert Excluder(l, cs, j, claimed, i); }
  }

  // ---- where an entity came from ----

  /** Some entity of the list excludes the Jira one. */
  ghost predicate Barred<E, J>(l: Level<E, J>, start: seq<E>, j: J) { exists s :: s in start && Excludes(l, s, j, {}) }

  /** s is the first with the alias; or, no alias, nothing excluding, has the name and the kind and no alias of its own. */
  ghost predicate Matched<E, J>(l: Level<E, J>, start: seq<E>, s: E, j: J) {
    || (HasAlias(l, s, j) && FirstAliased(l, start, j) == Some(l.key(s)))
    || (NoneHas(l, start, j) && !Barred(l, start, j) && Adoptable(l, s, j, {}))
  }

  ghost predicate TookOver<E(!new), J(!new)>(l: Level<E, J>, start: seq<E>, e: E, j: J) {
    exists es: seq<E>, s :: s in start && l.key(s) == l.key(e) && Matched(l, start, s, j) && e == l.touch(es, s, j)
  }

  /** A new entity: no alias, nothing excluding, and whatever could be adopted has gone to others. */
  ghost predicate MadeNew<E(!new), J(!new)>(l: Level<E, J>, start: seq<E>, claimed: set<string>, e: E, j: J) {
    && NoneHas(l, start, j) && !Barred(l, start, j) && !HasKey(l, start, l.key(e))
    && (exists es: seq<E> :: e == l.make(es, j))
    && forall s :: s in start && Adoptable(l, s, j, {}) ==> l.key(s) in claimed
  }

  ghost predicate Came<E(!new), J(!new)>(l: Level<E, J>, start: seq<E>, claimed: set<string>, e: E, j: J) {
    l.alias(e) == Some(l.id(j)) && (TookOver(l, start, e, j) || MadeNew(l, start, claimed, e, j))
  }

  /** Every claimed entity came of a Jira one. */
  ghost predicate AllCame<E(!new), J(!new)>(l: Level<E, J>, start: seq<E>, p: Pass<E>, done: seq<J>) {
    forall e :: e in p.es && l.key(e) in p.claimed ==> exists j :: j in done && Came(l, start, p.claimed, e, j)
  }

  lemma CameMore<E(!new), J(!new)>(l: Level<E, J>, start: seq<E>, a: set<string>, b: set<string>, e: E, j: J)
    requires Came(l, start, a, e, j) && a <= b
    ensures Came(l, start, b, e, j)
  {
    hide Adoptable, NoneHas, Barred;
  }

  lemma OneKey<E, J>(l: Level<E, J>, start: seq<E>, s: E)
    requires DistinctKeys(l, start) && s in start
    ensures HasKey(l, start, l.key(s)) && forall t :: t in start && l.key(t) == l.key(s) ==> t == s
  {
    var a :| 0 <= a < |start| && start[a] == s;
    forall t | t in start && l.key(t) == l.key(s) ensures t == s { var b :| 0 <= b < |start| && start[b] == t; }
  }

  /** What excludes is never taken over, nor is its key given to a new entity. */
  lemma CameNot<E(!new), J(!new)>(l: Level<E, J>, start: seq<E>, claimed: set<string>, e: E, x: J, s: E)
    requires DistinctKeys(l, start) && s in start && l.key(e) == l.key(s) && Came(l, start, claimed, e, x)
    ensures l.alias(s) != Some("")
  {
    hide FirstAliased, NoneHas, Barred;
    OneKey(l, start, s);
    if TookOver(l, start, e, x) {
      var es: seq<E>, t :| t in start && l.key(t) == l.key(e) && Matched(l, start, t, x) && e == l.touch(es, t, x);
    }
  }

  lemma NeverClaimed<E(!new), J(!new)>(l: Level<E, J>, good: E -> bool, start: seq<E>, p: Pass<E>, done: seq<J>, s: E, j: J)
    requires PassInv(l, good, false, start, p, done) && AllCame(l, start, p, done) && DistinctKeys(l, start)
    requires s in start && Excludes(l, s, j, {})
    ensures l.key(s) !in p.claimed
  {
    hide Taken, SameFirst, FirstAliased, Came, DistinctKeys;
    if l.key(s) in p.claimed {
      assert HasKey(l, p.es, l.key(s));
      var i :| 0 <= i < |p.es| && l.key(p.es[i]) == l.key(s);
      var x :| x in done && Came(l, start, p.claimed, p.es[i], x);
      CameNot(l, start, p.claimed, p.es[i], x, s);
    }
  }

  /** The list as it is, for the entities not yet claimed, is the list as it was. */
  lemma StartSays<E(!new), J(!new)>(l: Level<E, J>, good: E -> bool, start: seq<E>, p: Pass<E>, done: seq<J>, j: J)
    requires PassInv(l, good, false, start, p, done) && AllCame(l, start, p, done) && DistinctKeys(l, start) && DistinctIds(l, done + [j])
    ensures NoneHas(l, p.es, j) <==> NoneHas(l, start, j)
    ensures FirstAliased(l, p.es, j) == FirstAliased(l, start, j)
    ensures Barred(l, start, j) <==> exists i :: Excluder(l, p.es, j, p.claimed, i)
    ensures Barred(l, start, j) <==> exists i :: Excluder(l, start, j, p.claimed, i)
    ensures forall s :: s in p.es && l.key(s) !in p.claimed ==> s in start
    ensures forall s :: s in start && l.key(s) !in p.claimed ==> s in p.es
  {
    hide Taken, SameFirst, FirstAliased, HasAlias, AllCame, Excludes;
    FirstNow(l, good, false, start, p, done, j);
    AliasedIs(l, p.es, j);
    AliasedIs(l, start, j);
    forall s | s in p.es && l.key(s) !in p.claimed ensures s in start { assert Accounted(l, start, p, done, s); }
    forall s | s in start && l.key(s) !in p.claimed ensures s in p.es {
      var i := Untouched(l, good, false, start, p, done, s);
    }
    if Barred(l, start, j) {
      var s :| s in start && Excludes(l, s, j, {});
      NeverClaimed(l, good, start, p, done, s, j);
      var a :| 0 <= a < |p.es| && p.es[a] == s;
      var b :| 0 <= b < |start| && start[b] == s;
      ExcludesUnclaimed(l, s, j, p.claimed);
      assert Excluder(l, p.es, j, p.claimed, a) && Excluder(l, start, j, p.claimed, b);
    }
    if i :| Excluder(l, p.es, j, p.claimed, i) { ExcludesLess(l, p.es[i], j, p.claimed); assert Accounted(l, start, p, done, p.es[i]); }
    if i :| Excluder(l, start, j, p.claimed, i) { ExcludesLess(l, start[i], j, p.claimed); }
  }

  lemma ExcludesUnclaimed<E, J>(l: Level<E, J>, e: E, j: J, claimed: set<string>)
    requires Excludes(l, e, j, {}) && l.key(e) !in claimed
    ensures Excludes(l, e, j, claimed)
  {
  }

  lemma ExcludesLess<E, J>(l: Level<E, J>, e: E, j: J, claimed: set<string>)
    requires Excludes(l, e, j, claimed)
    ensures Excludes(l, e, j, {}) && l.key(e) !in claimed
  {
  }

  lemma TouchCame<E(!new), J(!new)>(l: Level<E, J>, good: E -> bool, fair: J -> bool, start: seq<E>, p: Pass<E>, done: seq<J>, j: J, i: nat)
    requires Lawful(l, good, false, fair) && fair(j) && PassInv(l, good, false, start, p, done) && AllCame(l, start, p, done)
    requires DistinctKeys(l, start) && DistinctIds(l, done + [j]) && i < |p.es| && l.key(p.es[i]) !in p.claimed
    requires HeldBy(l, p.es, j, i) || (NoneHas(l, p.es, j) && Adoptable(l, p.es[i], j, p.claimed) && !Barred(l, start, j))
    ensures AllCame(l, start, TouchKey(l, p, j, l.key(p.es[i])), done + [j])
  {
    hide Taken, SameFirst, FirstAliased, Lawful, Accounted, StepTo, TouchKey, Came, Barred;
    var s := p.es[i];
    var t := l.touch(p.es, s, j);
    TouchSteps(l, good, false, fair, start, p, done, j, i);
    StartSays(l, good, start, p, done, j);
    var p2 := TouchKey(l, p, j, l.key(s));
    assert Matched(l, start, s, j);
    StepAlias(l, good, p, p2, j, t);
    TouchedKey(l, good, fair, p.es, s, j);
    TookBy(l, start, p.es, s, j);
    assert Came(l, start, p2.claimed, t, j) by { CameBy(l, start, p2.claimed, t, j); }
    BecameOthers(l, good, p, p2, j, t);
    OthersCame(l, start, p, p2, done, j, t);
  }

  lemma TouchedKey<E(!new), J(!new)>(l: Level<E, J>, good: E -> bool, fair: J -> bool, es: seq<E>, e: E, j: J)
    requires Lawful(l, good, false, fair) && good(e) && l.eligible(e) && fair(j) && Reaches(l, e, j)
    ensures l.key(l.touch(es, e, j)) == l.key(e)
  {
    assert TouchLawful(l, good, false, es, e, j);
  }

  lemma TookBy<E(!new), J(!new)>(l: Level<E, J>, start: seq<E>, es: seq<E>, s: E, j: J)
    requires s in start && Matched(l, start, s, j) && l.key(l.touch(es, s, j)) == l.key(s)
    ensures TookOver(l, start, l.touch(es, s, j), j)
  {
  }

  lemma StepAlias<E(!new), J(!new)>(l: Level<E, J>, good: E -> bool, p: Pass<E>, p2: Pass<E>, j: J, t: E)
    requires StepTo(l, good, false, p, p2, j, t)
    ensures l.alias(t) == Some(l.id(j))
  {
  }

  lemma CameBy<E(!new), J(!new)>(l: Level<E, J>, start: seq<E>, claimed: set<string>, e: E, j: J)
    requires l.alias(e) == Some(l.id(j)) && (TookOver(l, start, e, j) || MadeNew(l, start, claimed, e, j))
    ensures Came(l, start, claimed, e, j)
  {
  }

  /** Beside the one of a step, whatever is claimed came as it had come. */
  lemma OthersCame<E(!new), J(!new)>(l: Level<E, J>, start: seq<E>, p: Pass<E>, p2: Pass<E>, done: seq<J>, j: J, t: E)
    requires AllCame(l, start, p, done) && p2.claimed == p.claimed + {l.key(t)} && Came(l, start, p2.claimed, t, j)
    requires forall e :: e in p2.es ==> e == t || (e in p.es && l.key(e) != l.key(t))
    ensures AllCame(l, start, p2, done + [j])
  {
    hide Came;
    forall e | e in p2.es && l.key(e) in p2.claimed ensures exists x :: x in done + [j] && Came(l, start, p2.claimed, e, x) {
      if e == t {
        assert j in done + [j];
      } else {
        var x :| x in done && Came(l, start, p.claimed, e, x);
        CameMore(l, start, p.claimed, p2.claimed, e, x);
        assert x in done + [j];
      }
    }
  }

  lemma BecameOthers<E(!new), J(!new)>(l: Level<E, J>, good: E -> bool, p: Pass<E>, p2: Pass<E>, j: J, t: E)
    requires StepTo(l, good, false, p, p2, j, t)
    ensures p2.claimed == p.claimed + {l.key(t)} && forall e :: e in p2.es ==> e == t || (e in p.es && l.key(e) != l.key(t))
  {
  }

  lemma NewCame<E(!new), J(!new)>(l: Level<E, J>, good: E -> bool, fair: J -> bool, start: seq<E>, p: Pass<E>, done: seq<J>, j: J)
    requires Lawful(l, good, false, fair) && fair(j) && PassInv(l, good, false, start, p, done) && AllCame(l, start, p, done)
    requires DistinctKeys(l, start) && DistinctIds(l, done + [j]) && NoneHas(l, p.es, j) && !Barred(l, start, j)
    requires forall s :: s in start && Adoptable(l, s, j, {}) ==> l.key(s) in p.claimed
    ensures AllCame(l, start, Pass(Insert(p.es, l.place(p.es, j), l.make(p.es, j)), p.claimed + {l.key(l.make(p.es, j))},
                                   p.order + [Pair(l.id(j), l.key(l.make(p.es, j)))]), done + [j])
  {
    hide Taken, SameFirst, FirstAliased, Lawful, Accounted, StepTo, Came, Barred, Insert, NoneHas, Adoptable;
    var m := l.make(p.es, j);
    var p2 := Pass(Insert(p.es, l.place(p.es, j), m), p.claimed + {l.key(m)}, p.order + [Pair(l.id(j), l.key(m))]);
    assert l.id((done + [j])[|done|]) != "";
    MakeSteps(l, good, false, fair, start, p, done, j);
    StartSays(l, good, start, p, done, j);
    StepAlias(l, good, p, p2, j, m);
    NewKey(l, good, fair, start, p, done, j);
    assert MadeNew(l, start, p2.claimed, m, j);
    CameBy(l, start, p2.claimed, m, j);
    BecameOthers(l, good, p, p2, j, m);
    OthersCame(l, start, p, p2, done, j, m);
  }

  lemma NewKey<E(!new), J(!new)>(l: Level<E, J>, good: E -> bool, fair: J -> bool, start: seq<E>, p: Pass<E>, done: seq<J>, j: J)
    requires Lawful(l, good, false, fair) && fair(j) && PassInv(l, good, false, start, p, done)
    ensures !HasKey(l, start, l.key(l.make(p.es, j)))
  {
    hide Taken, SameFirst, Accounted;
    assert MakeLawful(l, good, false, p.es, j);
    KeysStay(l, start, p.es, l.key(l.make(p.es, j)));
  }

  lemma KeysStay<E, J>(l: Level<E, J>, a: seq<E>, b: seq<E>, k: string)
    requires forall c :: c in a ==> HasKey(l, b, l.key(c))
    ensures HasKey(l, a, k) ==> HasKey(l, b, k)
  {
    if i :| 0 <= i < |a| && l.key(a[i]) == k { assert a[i] in a; }
  }

  lemma MoreCame<E(!new), J(!new)>(l: Level<E, J>, start: seq<E>, p: Pass<E>, done: seq<J>, j: J)
    requires AllCame(l, start, p, done)
    ensures AllCame(l, start, p, done + [j])
  {
    hide Came;
    forall e | e in p.es && l.key(e) in p.claimed ensures exists x :: x in done + [j] && Came(l, start, p.claimed, e, x) {
      var x :| x in done && Came(l, start, p.claimed, e, x);
      assert x in done + [j];
    }
  }

  /** What a match that is not the alias's leaves open is closed at the start too. */
  lemma StartOpen<E(!new), J(!new)>(l: Level<E, J>, good: E -> bool, start: seq<E>, p: Pass<E>, done: seq<J>, j: J)
    requires PassInv(l, good, false, start, p, done) && AllCame(l, start, p, done) && DistinctKeys(l, start) && DistinctIds(l, done + [j])
    ensures var m := MatchOf(l, if l.rereads then p.es else start, j, p.claimed);
            && (m.Adopted? || m.New? ==> !Barred(l, start, j))
            && (m.New? ==> forall s :: s in start && Adoptable(l, s, j, {}) ==> l.key(s) in p.claimed)
  {
    hide Taken, SameFirst, FirstAliased, Accounted, AllCame, NoneHas, Barred, MatchOf, HasAlias, Excludes;
    var cs := if l.rereads then p.es else start;
    MatchIs(l, cs, j, p.claimed);
    StartSays(l, good, start, p, done, j);
    if MatchOf(l, cs, j, p.claimed).New? {
      forall s | s in start && Adoptable(l, s, j, {}) ensures l.key(s) in p.claimed { AdoptableGone(l, cs, j, p.claimed, s); }
    }
  }

  lemma AdoptableGone<E, J>(l: Level<E, J>, cs: seq<E>, j: J, claimed: set<string>, s: E)
    requires forall i :: 0 <= i < |cs| ==> !Adoptable(l, cs[i], j, claimed)
    requires Adoptable(l, s, j, {})
    ensures s in cs ==> l.key(s) in claimed
  {
    if s in cs { var i :| 0 <= i < |cs| && cs[i] == s; }
  }

  lemma StepCame<E(!new), J(!new)>(l: Level<E, J>, good: E -> bool, fair: J -> bool, start: seq<E>, p: Pass<E>, done: seq<J>, j: J)
    requires Lawful(l, good, false, fair) && fair(j) && PassInv(l, good, false, start, p, done) && AllCame(l, start, p, done)
    requires DistinctKeys(l, start) && DistinctIds(l, done + [j])
    ensures AllCame(l, start, StepPass(l, start, p, j), done + [j])
  {
    hide PassInv, Lawful, TouchKey, Insert, FirstAliased, AllCame, Barred, MatchOf, NoneHas, DistinctIds;
    MatchSays(l, good, false, start, p, done, j);
    StartOpen(l, good, start, p, done, j);
    match MatchOf(l, if l.rereads then p.es else start, j, p.claimed) {
      case Aliased(k) =>
        var i :| HeldBy(l, p.es, j, i) && l.key(p.es[i]) == k && k !in p.claimed;
        TouchCame(l, good, fair, start, p, done, j, i);
      case Adopted(k) =>
        var i :| 0 <= i < |p.es| && l.key(p.es[i]) == k && Adoptable(l, p.es[i], j, p.claimed);
        TouchCame(l, good, fair, start, p, done, j, i);
      case New =>
        NewCame(l, good, fair, start, p, done, j);
      case Excluded =>
        MoreCame(l, start, p, done, j);
    }
  }

  lemma {:induction false} PassCame<E(!new), J(!new)>(l: Level<E, J>, good: E -> bool, fair: J -> bool, start: seq<E>, js: seq<J>)
    requires Startable(l, good, false, fair, start, js)
    ensures AllCame(l, start, PassOver(l, start, js), js)
  {
    hide PassInv, StepPass, Lawful, Came;
    if js != [] {
      var done, j := js[..|js| - 1], js[|js| - 1];
      FrontStartable(l, good, false, fair, start, js);
      PassCame(l, good, fair, start, done);
      PassKeeps(l, good, false, fair, start, done);
      StepCame(l, good, fair, start, PassOver(l, start, done), done, j);
    }
  }

  // ---- what a pass leaves ----

  /** No entity has the alias at the start, and one of the name says to leave the Jira one alone. */
  ghost predicate LeftOut<E, J>(l: Level<E, J>, start: seq<E>, j: J) { NoneHas(l, start, j) && Barred(l, start, j) }

  lemma CameIn<E(!new), J(!new)>(l: Level<E, J>, start: seq<E>, claimed: set<string>, e: E, j: J)
    requires Came(l, start, claimed, e, j)
    ensures !LeftOut(l, start, j)
  {
    hide FirstAliased, Barred;
    if TookOver(l, start, e, j) {
      var es: seq<E>, s :| s in start && l.key(s) == l.key(e) && Matched(l, start, s, j) && e == l.touch(es, s, j);
    }
  }

  /** An entity whose alias was another's at the start came of that one. */
  lemma HolderCame<E(!new), J(!new)>(l: Level<E, J>, start: seq<E>, claimed: set<string>, e: E, x: J, s: E, j: J)
    requires DistinctKeys(l, start) && s in start && l.key(e) == l.key(s) && Came(l, start, claimed, e, x) && HasAlias(l, s, j)
    ensures l.id(x) == l.id(j)
  {
    hide FirstAliased, NoneHas, Barred;
    OneKey(l, start, s);
    if TookOver(l, start, e, x) {
      var es: seq<E>, t :| t in start && l.key(t) == l.key(e) && Matched(l, start, t, x) && e == l.touch(es, t, x);
    }
  }

  lemma NoneHad<E(!new), J(!new)>(l: Level<E, J>, good: E -> bool, start: seq<E>, p: Pass<E>, done: seq<J>, j: J, s: E)
    requires PassInv(l, good, false, start, p, done) && AllCame(l, start, p, done) && DistinctKeys(l, start)
    requires NoneHas(l, p.es, j) && s in start
    ensures !HasAlias(l, s, j)
  {
    hide Taken, SameFirst, FirstAliased, Came, DistinctKeys;
    if HasAlias(l, s, j) {
      if l.key(s) in p.claimed {
        assert HasKey(l, p.es, l.key(s));
        var i :| 0 <= i < |p.es| && l.key(p.es[i]) == l.key(s);
        var x :| x in done && Came(l, start, p.claimed, p.es[i], x);
        assert Accounted(l, start, p, done, p.es[i]);
        AliasOfCame(l, start, p.claimed, p.es[i], x);
        HolderCame(l, start, p.claimed, p.es[i], x, s, j);
      } else {
        var i := Untouched(l, good, false, start, p, done, s);
      }
    }
  }

  lemma AliasOfCame<E(!new), J(!new)>(l: Level<E, J>, start: seq<E>, claimed: set<string>, e: E, j: J)
    requires Came(l, start, claimed, e, j)
    ensures l.alias(e) == Some(l.id(j))
  {
  }

  /** A Jira entity's outcome: left out, or the first with its alias is what came of it. */
  ghost predicate Outcome<E(!new), J(!new)>(l: Level<E, J>, start: seq<E>, p: Pass<E>, j: J) {
    if LeftOut(l, start, j) then NoneHas(l, p.es, j)
    else exists i :: HeldBy(l, p.es, j, i) && Came(l, start, p.claimed, p.es[i], j)
  }

  lemma OneOutcome<E(!new), J(!new)>(l: Level<E, J>, good: E -> bool, start: seq<E>, p: Pass<E>, js: seq<J>, j: J)
    requires PassInv(l, good, false, start, p, js) && AllCame(l, start, p, js) && DistinctKeys(l, start) && DistinctIds(l, js) && j in js
    ensures Outcome(l, start, p, j)
  {
    hide SameFirst, FirstAliased, Came, DistinctKeys, NoneHas, HasAlias, Excludes;
    assert Taken(l, false, p.es, p.claimed, j);
    if i :| HeldBy(l, p.es, j, i) && l.key(p.es[i]) in p.claimed {
      assert HasAlias(l, p.es[i], j);
      var x :| x in js && Came(l, start, p.claimed, p.es[i], x);
      AliasOfCame(l, start, p.claimed, p.es[i], x);
      AliasOfHeld(l, p.es[i], j);
      OneId(l, js, x, j);
      CameIn(l, start, p.claimed, p.es[i], j);
    } else {
      var i :| Excluder(l, p.es, j, p.claimed, i);
      ExcludesLess(l, p.es[i], j, p.claimed);
      assert Accounted(l, start, p, js, p.es[i]);
      assert Barred(l, start, j);
      forall s | s in start ensures !HasAlias(l, s, j) { NoneHad(l, good, start, p, js, j, s); }
      NoneIs(l, start, j);
    }
  }

  lemma AliasOfHeld<E, J>(l: Level<E, J>, e: E, j: J)
    requires HasAlias(l, e, j)
    ensures l.alias(e) == Some(l.id(j))
  {
  }

  lemma NoneIs<E, J>(l: Level<E, J>, es: seq<E>, j: J)
    requires forall s :: s in es ==> !HasAlias(l, s, j)
    ensures NoneHas(l, es, j)
  {
  }

  lemma OneId<E, J>(l: Level<E, J>, js: seq<J>, x: J, y: J)
    requires DistinctIds(l, js) && x in js && y in js && l.id(x) == l.id(y)
    ensures x == y
  {
    var a :| 0 <= a < |js| && js[a] == x;
    var b :| 0 <= b < |js| && js[b] == y;
  }

  /**
   A pass leaves out exactly the Jira entities that are excluded, gives each other one the entity
   that came of it, and leaves every entity that came of none as it was, losing none.
   */
  lemma PassOutcome<E(!new), J(!new)>(l: Level<E, J>, good: E -> bool, fair: J -> bool, start: seq<E>, js: seq<J>)
    requires Startable(l, good, false, fair, start, js)
    ensures var p := PassOver(l, start, js);
            && (forall j :: j in js ==> Outcome(l, start, p, j))
            && (forall e :: e in p.es ==>
                  if l.key(e) in p.claimed then exists j :: j in js && Came(l, start, p.claimed, e, j) else e in start)
            && (forall s :: s in start && l.key(s) !in p.claimed ==> s in p.es)
  {
    hide PassInv, Lawful, Came, Outcome;
    var p := PassOver(l, start, js);
    PassKeeps(l, good, false, fair, start, js);
    PassCame(l, good, fair, start, js);
    forall j | j in js ensures Outcome(l, start, p, j) { OneOutcome(l, good, start, p, js, j); }
    OthersStay(l, good, start, p, js);
  }

  lemma OthersStay<E(!new), J(!new)>(l: Level<E, J>, good: E -> bool, start: seq<E>, p: Pass<E>, js: seq<J>)
    requires PassInv(l, good, false, start, p, js) && DistinctKeys(l, start)
    ensures forall e :: e in p.es && l.key(e) !in p.claimed ==> e in start
    ensures forall s :: s in start && l.key(s) !in p.claimed ==> s in p.es
  {
    hide Taken, SameFirst;
    forall e | e in p.es && l.key(e) !in p.claimed ensures e in start { assert Accounted(l, start, p, js, e); }
    forall s | s in start && l.key(s) !in p.claimed ensures s in p.es { var i := Untouched(l, good, false, start, p, js, s); }
  }

  /** The entity whose key the alias finds is the first that has it. */
  lemma FirstIs<E, J>(l: Level<E, J>, cs: seq<E>, j: J, s: E) returns (i: nat)
    requires DistinctKeys(l, cs) && s in cs && FirstAliased(l, cs, j) == Some(l.key(s))
    ensures i < |cs| && cs[i] == s && HasAlias(l, s, j) && forall r :: 0 <= r < i ==> !HasAlias(l, cs[r], j)
  {
    hide HasAlias, FirstAliased;
    AliasedFirst(l, cs, j);
    i :| FirstWith<E>(cs, (e: E) => HasAlias(l, e, j), i) && l.key(cs[i]) == l.key(s);
    OneKey(l, cs, s);
    assert cs[i] in cs;
  }

  lemma LooselyLawful<E(!new), J(!new)>(l: Level<E, J>, good: E -> bool, fair: J -> bool)
    requires Lawful(l, good, true, fair)
    ensures Lawful(l, good, false, fair)
  {
    hide Fixed;
    forall es, e, j | good(e) && l.eligible(e) && fair(j) && Reaches(l, e, j) ensures TouchLawful(l, good, false, es, e, j) {
      assert TouchLawful(l, good, true, es, e, j);
    }
    forall es, j | fair(j) ensures MakeLawful(l, good, false, es, j) { assert MakeLawful(l, good, true, es, j); }
  }

  lemma StartLoosely<E(!new), J(!new)>(l: Level<E, J>, good: E -> bool, fair: J -> bool, start: seq<E>, js: seq<J>)
    requires Startable(l, good, true, fair, start, js)
    ensures Startable(l, good, false, fair, start, js)
  {
    hide Lawful;
    LooselyLawful(l, good, fair);
  }
}
