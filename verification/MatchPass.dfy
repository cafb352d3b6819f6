/** A pass keeps its invariant at every level, and what it leaves of the list is settled. */
module MatchPass {
  import opened Documents
  import opened Matching
  import opened MatchFacts

  /** es2 is es with the entity of t's key, if there is one, replaced by t. */
  ghost predicate Became<E(!new), J>(l: Level<E, J>, es: seq<E>, es2: seq<E>, t: E) {
    && DistinctKeys(l, es2)
    && forall x :: x in es2 <==> x == t || (x in es && l.key(x) != l.key(t))
  }

  lemma TouchBecomes<E(!new), J>(l: Level<E, J>, es: seq<E>, i: nat, t: E)
    requires DistinctKeys(l, es) && i < |es| && l.key(t) == l.key(es[i])
    ensures Became(l, es, es[i := t], t)
  {
    var es2 := es[i := t];
    forall x ensures x in es2 <==> x == t || (x in es && l.key(x) != l.key(t)) {
      if x in es2 { var a :| 0 <= a < |es2| && es2[a] == x; }
      if x in es && l.key(x) != l.key(t) { var a :| 0 <= a < |es| && es[a] == x; assert es2[a] == x; }
      if x == t { assert es2[i] == t; }
    }
  }

  lemma InsertAt<E>(es: seq<E>, at: nat, t: E) returns (n: nat)
    ensures n <= |es| && |Insert(es, at, t)| == |es| + 1 && Insert(es, at, t)[n] == t
    ensures forall i :: 0 <= i < n ==> Insert(es, at, t)[i] == es[i]
    ensures forall i :: n < i <= |es| ==> Insert(es, at, t)[i] == es[i - 1]
  {
    n := if at <= |es| then at else |es|;
  }

  lemma InsertBecomes<E(!new), J>(l: Level<E, J>, es: seq<E>, at: nat, t: E)
    requires DistinctKeys(l, es) && !HasKey(l, es, l.key(t))
    ensures Became(l, es, Insert(es, at, t), t)
  {
    hide Insert;
    var n := InsertAt(es, at, t);
    var es2 := Insert(es, at, t);
    forall a, b | 0 <= a < b < |es2| ensures l.key(es2[a]) != l.key(es2[b]) {
      if a == n { assert l.key(es[b - 1]) != l.key(t); } else if b == n { assert l.key(es[a]) != l.key(t); }
    }
    forall x ensures x in es2 <==> x == t || (x in es && l.key(x) != l.key(t)) {
      if x in es {
        var i :| 0 <= i < |es| && es[i] == x;
        assert es2[if i < n then i else i + 1] == x && l.key(es[i]) != l.key(t);
      }
      if x in es2 { var a :| 0 <= a < |es2| && es2[a] == x; }
    }
  }

  lemma AliasMember<E, J>(l: Level<E, J>, es: seq<E>, x: E, y: E)
    requires DistinctKeys(l, es) && DistinctAliases(l, es) && x in es && y in es && l.eligible(x) && l.eligible(y)
    requires l.alias(x) == l.alias(y) && l.alias(x) != None && l.alias(x) != Some("")
    ensures x == y
  {
    var a :| 0 <= a < |es| && es[a] == x;
    var b :| 0 <= b < |es| && es[b] == y;
  }

  lemma AliasesFrom<E, J>(l: Level<E, J>, es: seq<E>)
    requires DistinctKeys(l, es)
    requires forall x, y :: x in es && y in es && l.eligible(x) && l.eligible(y) && l.alias(x) == l.alias(y) && x != y ==>
               l.alias(x) == None || l.alias(x) == Some("")
    ensures DistinctAliases(l, es)
  {
  }

  // ---- the first holder of an alias ----

  lemma {:induction false} FirstConcat<E, J>(l: Level<E, J>, a: seq<E>, b: seq<E>, j: J)
    ensures FirstAliased(l, a + b, j) == if FirstAliased(l, a, j).Some? then FirstAliased(l, a, j) else FirstAliased(l, b, j)
  {
    if b == [] {
      assert a + b == a;
    } else {
      assert (a + b)[..|a + b| - 1] == a + b[..|b| - 1];
      FirstConcat(l, a, b[..|b| - 1], j);
    }
  }

  lemma FirstSingle<E, J>(l: Level<E, J>, e: E, j: J)
    ensures FirstAliased(l, [e], j) == if HasAlias(l, e, j) then Some(l.key(e)) else None
  {
    assert [e][..0] == [];
  }

  lemma FirstAround<E, J>(l: Level<E, J>, a: seq<E>, e: E, b: seq<E>, j: J)
    ensures FirstAliased(l, a + [e] + b, j) ==
            if FirstAliased(l, a, j).Some? then FirstAliased(l, a, j)
            else if HasAlias(l, e, j) then Some(l.key(e)) else FirstAliased(l, b, j)
  {
    FirstConcat(l, a + [e], b, j);
    FirstConcat(l, a, [e], j);
    FirstSingle(l, e, j);
  }

  /** Replacing an entity by one of its key that has the alias when it has changes nothing. */
  lemma FirstUpdated<E, J>(l: Level<E, J>, es: seq<E>, i: nat, t: E, j: J)
    requires i < |es| && l.key(t) == l.key(es[i]) && HasAlias(l, t, j) == HasAlias(l, es[i], j)
    ensures FirstAliased(l, es[i := t], j) == FirstAliased(l, es, j)
  {
    assert es == es[..i] + [es[i]] + es[i + 1..] && es[i := t] == es[..i] + [t] + es[i + 1..];
    FirstAround(l, es[..i], es[i], es[i + 1..], j);
    FirstAround(l, es[..i], t, es[i + 1..], j);
  }

  lemma FirstInserted<E, J>(l: Level<E, J>, es: seq<E>, at: nat, t: E, j: J)
    requires !HasAlias(l, t, j)
    ensures FirstAliased(l, Insert(es, at, t), j) == FirstAliased(l, es, j)
  {
    var n := if at <= |es| then at else |es|;
    assert Insert(es, at, t) == es[..n] + [t] + es[n..] && es == es[..n] + es[n..];
    FirstAround(l, es[..n], t, es[n..], j);
    FirstConcat(l, es[..n], es[n..], j);
  }

  // ---- one step ----

  /** What a step does to the list: one entity, unclaimed until then, becomes Jira's. */
  ghost predicate StepTo<E(!new), J(!new)>(l: Level<E, J>, good: E -> bool, exact: bool, p: Pass<E>, p2: Pass<E>, j: J, t: E) {
    && Became(l, p.es, p2.es, t) && p2.claimed == p.claimed + {l.key(t)} && p2.order == p.order + [Pair(l.id(j), l.key(t))]
    && l.key(t) !in p.claimed && good(t) && l.eligible(t) && l.alias(t) == Some(l.id(j)) && (exact ==> Fixed(l, t, j))
    && (forall x :: x in p.es && l.key(x) == l.key(t) ==> l.alias(x) != Some(""))
    && OthersFirst(l, p.es, p2.es, j) && FirstAliased(l, p2.es, j) == Some(l.key(t))
    && (DistinctAliases(l, p.es) ==> forall x :: x in p.es && l.key(x) != l.key(t) ==> !HasAlias(l, x, j))
  }

  /** Other Jira entities find by their alias what they found. */
  ghost predicate OthersFirst<E, J(!new)>(l: Level<E, J>, es: seq<E>, es2: seq<E>, j: J) {
    forall x: J :: l.id(x) != l.id(j) ==> FirstAliased(l, es2, x) == FirstAliased(l, es, x)
  }

  lemma StepAliases<E(!new), J(!new)>(l: Level<E, J>, good: E -> bool, exact: bool, p: Pass<E>, p2: Pass<E>, j: J, t: E)
    requires DistinctKeys(l, p.es) && DistinctAliases(l, p.es) && StepTo(l, good, exact, p, p2, j, t) && l.id(j) != ""
    ensures DistinctAliases(l, p2.es)
  {
    forall x, y | x in p2.es && y in p2.es && l.eligible(x) && l.eligible(y) && l.alias(x) == l.alias(y) && x != y
      ensures l.alias(x) == None || l.alias(x) == Some("")
    {
      if x != t && y != t && l.alias(x) != None && l.alias(x) != Some("") { AliasMember(l, p.es, x, y); }
    }
    AliasesFrom(l, p2.es);
  }

  lemma StepTaken<E(!new), J(!new)>(l: Level<E, J>, good: E -> bool, exact: bool, p: Pass<E>, p2: Pass<E>, j: J, t: E, x: J)
    requires StepTo(l, good, exact, p, p2, j, t) && Taken(l, exact, p.es, p.claimed, x) && l.id(x) != l.id(j)
    ensures Taken(l, exact, p2.es, p2.claimed, x)
  {
    if i :| HeldBy(l, p.es, x, i) && l.key(p.es[i]) in p.claimed && (exact ==> Fixed(l, p.es[i], x)) {
      assert p.es[i] in p2.es;
      var a :| 0 <= a < |p2.es| && p2.es[a] == p.es[i];
      assert HeldBy(l, p2.es, x, a);
    } else {
      var i :| Excluder(l, p.es, x, p.claimed, i);
      assert p.es[i] in p.es && p.es[i] in p2.es;
      var a :| 0 <= a < |p2.es| && p2.es[a] == p.es[i];
      assert Excluder(l, p2.es, x, p2.claimed, a);
      AliasedIs(l, p.es, x);
      AliasedIs(l, p2.es, x);
    }
  }

  lemma StepTakes<E(!new), J(!new)>(l: Level<E, J>, good: E -> bool, exact: bool, p: Pass<E>, p2: Pass<E>, j: J, t: E)
    requires StepTo(l, good, exact, p, p2, j, t) && l.id(j) != ""
    ensures Taken(l, exact, p2.es, p2.claimed, j)
  {
    assert t in p2.es;
    var a :| 0 <= a < |p2.es| && p2.es[a] == t;
    assert HeldBy(l, p2.es, j, a);
  }

  lemma StepInv<E(!new), J(!new)>(l: Level<E, J>, good: E -> bool, exact: bool, start: seq<E>, p: Pass<E>, p2: Pass<E>, done: seq<J>, j: J, t: E)
    requires PassInv(l, good, exact, start, p, done) && DistinctIds(l, done + [j]) && StepTo(l, good, exact, p, p2, j, t)
    ensures PassInv(l, good, exact, start, p2, done + [j])
  {
    hide Taken, Fixed, SameFirst, OthersFirst, FirstAliased;
    assert l.id((done + [j])[|done|]) != "";
    StepFirst(l, start, p.es, p2.es, done, j);
    forall e | e in p2.es ensures good(e) && Accounted(l, start, p2, done + [j], e) {
      if e != t { assert Accounted(l, start, p, done, e); } else { assert j in done + [j]; }
    }
    forall c | c in start ensures HasKey(l, p2.es, l.key(c)) { KeyStays(l, p, p2, t, l.key(c)); }
    forall k | k in p2.claimed ensures HasKey(l, p2.es, k) {
      KeyStays(l, p, p2, t, k);
    }
    forall x | x in done + [j] ensures Taken(l, exact, p2.es, p2.claimed, x) {
      if x in done {
        var i :| 0 <= i < |done| && done[i] == x;
        assert (done + [j])[i] == x && (done + [j])[|done|] == j;
        StepTaken(l, good, exact, p, p2, j, t, x);
      } else {
        StepTakes(l, good, exact, p, p2, j, t);
      }
    }
  }

  lemma StepFirst<E, J(!new)>(l: Level<E, J>, start: seq<E>, es: seq<E>, es2: seq<E>, done: seq<J>, j: J)
    requires SameFirst(l, start, es, done) && OthersFirst(l, es, es2, j)
    ensures SameFirst(l, start, es2, done + [j])
  {
    forall x: J | forall d :: d in done + [j] ==> l.id(d) != l.id(x)
      ensures FirstAliased(l, es2, x) == FirstAliased(l, start, x)
    {
      assert j in done + [j];
      forall d | d in done ensures l.id(d) != l.id(x) { assert d in done + [j]; }
    }
  }

  lemma KeyStays<E(!new), J>(l: Level<E, J>, p: Pass<E>, p2: Pass<E>, t: E, k: string)
    requires Became(l, p.es, p2.es, t) && (k == l.key(t) || HasKey(l, p.es, k))
    ensures HasKey(l, p2.es, k)
  {
    if k == l.key(t) {
      assert t in p2.es;
      var a :| 0 <= a < |p2.es| && p2.es[a] == t;
    } else {
      var i :| 0 <= i < |p.es| && l.key(p.es[i]) == k;
      assert p.es[i] in p2.es;
      var a :| 0 <= a < |p2.es| && p2.es[a] == p.es[i];
    }
  }

  lemma SkipInv<E(!new), J(!new)>(l: Level<E, J>, good: E -> bool, exact: bool, start: seq<E>, p: Pass<E>, done: seq<J>, j: J)
    requires PassInv(l, good, exact, start, p, done)
    requires NoneHas(l, p.es, j) && exists i :: Excluder(l, p.es, j, p.claimed, i)
    ensures PassInv(l, good, exact, start, p, done + [j])
  {
    hide Fixed, SameFirst, FirstAliased;
    StepFirst(l, start, p.es, p.es, done, j);
    forall e | e in p.es ensures Accounted(l, start, p, done + [j], e) { assert Accounted(l, start, p, done, e); }
    assert Taken(l, exact, p.es, p.claimed, j);
  }

  // ---- each step, and the whole pass ----

  lemma TouchSteps<E(!new), J(!new)>(l: Level<E, J>, good: E -> bool, exact: bool, fair: J -> bool, start: seq<E>, p: Pass<E>, done: seq<J>, j: J, i: nat)
    requires Lawful(l, good, exact, fair) && fair(j) && PassInv(l, good, exact, start, p, done)
    requires DistinctIds(l, done + [j]) && i < |p.es| && l.key(p.es[i]) !in p.claimed
    requires HeldBy(l, p.es, j, i) || (NoneHas(l, p.es, j) && Adoptable(l, p.es[i], j, p.claimed))
    ensures var t := l.touch(p.es, p.es[i], j);
            TouchKey(l, p, j, l.key(p.es[i])) == Pass(p.es[i := t], p.claimed + {l.key(p.es[i])}, p.order + [Pair(l.id(j), l.key(p.es[i]))])
            && StepTo(l, good, exact, p, TouchKey(l, p, j, l.key(p.es[i])), j, t)
  {
    hide Accounted, Taken, Fixed, Became, SameFirst, FirstAliased;
    var e := p.es[i];
    assert e in p.es && good(e);
    assert Reaches(l, e, j);
    assert TouchLawful(l, good, exact, p.es, e, j);
    assert HasKey(l, p.es, l.key(e)) && IndexOf(l, p.es, l.key(e)) == i;
    var t := l.touch(p.es, e, j);
    TouchBecomes(l, p.es, i, t);
    assert l.id((done + [j])[|done|]) != "";
    TouchFirst(l, p.es, p.claimed, i, t, j);
    forall x | x in p.es && l.key(x) == l.key(e) ensures l.alias(x) != Some("") {
      var a :| 0 <= a < |p.es| && p.es[a] == x;
    }
    if DistinctAliases(l, p.es) {
      forall x | x in p.es && l.key(x) != l.key(e) ensures !HasAlias(l, x, j) {
        var a :| 0 <= a < |p.es| && p.es[a] == x;
        if HasAlias(l, e, j) && HasAlias(l, x, j) { AliasMember(l, p.es, e, x); }
      }
    }
  }

  lemma TouchFirst<E, J(!new)>(l: Level<E, J>, es: seq<E>, claimed: set<string>, i: nat, t: E, j: J)
    requires i < |es| && l.key(t) == l.key(es[i]) && l.eligible(t) && l.alias(t) == Some(l.id(j)) && l.id(j) != ""
    requires HeldBy(l, es, j, i) || (NoneHas(l, es, j) && Adoptable(l, es[i], j, claimed))
    ensures OthersFirst(l, es, es[i := t], j) && FirstAliased(l, es[i := t], j) == Some(l.key(t))
  {
    hide FirstAliased;
    forall x: J | l.id(x) != l.id(j) ensures FirstAliased(l, es[i := t], x) == FirstAliased(l, es, x) { FirstUpdated(l, es, i, t, x); }
    if HeldBy(l, es, j, i) {
      FirstUpdated(l, es, i, t, j);
    } else {
      AliasedIs(l, es[i := t], j);
      assert HasAlias(l, es[i := t][i], j);
    }
  }

  lemma MakeSteps<E(!new), J(!new)>(l: Level<E, J>, good: E -> bool, exact: bool, fair: J -> bool, start: seq<E>, p: Pass<E>, done: seq<J>, j: J)
    requires Lawful(l, good, exact, fair) && fair(j) && PassInv(l, good, exact, start, p, done) && NoneHas(l, p.es, j) && l.id(j) != ""
    ensures var m := l.make(p.es, j);
            StepTo(l, good, exact, p, Pass(Insert(p.es, l.place(p.es, j), m), p.claimed + {l.key(m)}, p.order + [Pair(l.id(j), l.key(m))]), j, m)
  {
    hide Accounted, Taken, Fixed, Became, SameFirst, FirstAliased, Insert;
    var m := l.make(p.es, j);
    assert MakeLawful(l, good, exact, p.es, j);
    InsertBecomes(l, p.es, l.place(p.es, j), m);
    MakeFirst(l, p.es, l.place(p.es, j), m, j);
    forall x | x in p.es ensures l.key(x) != l.key(m) && !HasAlias(l, x, j) {
      var a :| 0 <= a < |p.es| && p.es[a] == x;
    }
  }

  lemma MakeFirst<E, J(!new)>(l: Level<E, J>, es: seq<E>, at: nat, t: E, j: J)
    requires NoneHas(l, es, j) && l.eligible(t) && l.alias(t) == Some(l.id(j)) && l.id(j) != ""
    ensures OthersFirst(l, es, Insert(es, at, t), j) && FirstAliased(l, Insert(es, at, t), j) == Some(l.key(t))
  {
    hide FirstAliased, Insert;
    forall x: J | l.id(x) != l.id(j) ensures FirstAliased(l, Insert(es, at, t), x) == FirstAliased(l, es, x) { FirstInserted(l, es, at, t, x); }
    var n := InsertAt(es, at, t);
    var es2 := Insert(es, at, t);
    AliasedIs(l, es2, j);
    assert HasAlias(l, es2[n], j);
    forall a | 0 <= a < |es2| && a != n ensures !HasAlias(l, es2[a], j) { assert es2[a] == es[if a < n then a else a - 1]; }
  }

  /** A step excludes its Jira entity, or makes a local one Jira's. */
  ghost predicate Stepped<E(!new), J(!new)>(l: Level<E, J>, good: E -> bool, exact: bool, p: Pass<E>, p2: Pass<E>, j: J) {
    || (p2 == p && NoneHas(l, p.es, j) && exists i :: Excluder(l, p.es, j, p.claimed, i))
    || exists t :: StepTo(l, good, exact, p, p2, j, t)
  }

  lemma StepOf<E(!new), J(!new)>(l: Level<E, J>, good: E -> bool, exact: bool, fair: J -> bool, start: seq<E>, p: Pass<E>, done: seq<J>, j: J)
    requires Lawful(l, good, exact, fair) && fair(j) && PassInv(l, good, exact, start, p, done) && DistinctKeys(l, start)
    requires DistinctIds(l, done + [j])
    ensures Stepped(l, good, exact, p, StepPass(l, start, p, j), j)
  {
    hide PassInv, Lawful, StepTo, TouchKey, Insert, FirstAliased;
    MatchSays(l, good, exact, start, p, done, j);
    assert l.id((done + [j])[|done|]) != "";
    match MatchOf(l, if l.rereads then p.es else start, j, p.claimed) {
      case Aliased(k) =>
        var i :| HeldBy(l, p.es, j, i) && l.key(p.es[i]) == k && k !in p.claimed;
        TouchSteps(l, good, exact, fair, start, p, done, j, i);
      case Adopted(k) =>
        var i :| 0 <= i < |p.es| && l.key(p.es[i]) == k && Adoptable(l, p.es[i], j, p.claimed);
        TouchSteps(l, good, exact, fair, start, p, done, j, i);
      case New =>
        MakeSteps(l, good, exact, fair, start, p, done, j);
      case Excluded =>
    }
  }

  ghost predicate Startable<E(!new), J(!new)>(l: Level<E, J>, good: E -> bool, exact: bool, fair: J -> bool, start: seq<E>, js: seq<J>) {
    && Lawful(l, good, exact, fair) && DistinctKeys(l, start) && DistinctIds(l, js)
    && (forall e :: e in start ==> good(e)) && (forall j :: j in js ==> fair(j))
  }

  lemma StartInv<E(!new), J(!new)>(l: Level<E, J>, good: E -> bool, exact: bool, fair: J -> bool, start: seq<E>, js: seq<J>)
    requires Startable(l, good, exact, fair, start, js)
    ensures PassInv(l, good, exact, start, Pass(start, {}, []), [])
  {
    var p := Pass(start, {}, []);
    forall c | c in start ensures HasKey(l, p.es, l.key(c)) {
      var i :| 0 <= i < |start| && start[i] == c;
      assert l.key(p.es[i]) == l.key(c);
    }
  }

  lemma FrontStartable<E(!new), J(!new)>(l: Level<E, J>, good: E -> bool, exact: bool, fair: J -> bool, start: seq<E>, js: seq<J>)
    requires Startable(l, good, exact, fair, start, js) && js != []
    ensures Startable(l, good, exact, fair, start, js[..|js| - 1]) && fair(js[|js| - 1])
    ensures js[..|js| - 1] + [js[|js| - 1]] == js
  {
    hide Lawful;
    assert js[|js| - 1] in js;
  }

  lemma {:induction false} PassKeeps<E(!new), J(!new)>(l: Level<E, J>, good: E -> bool, exact: bool, fair: J -> bool, start: seq<E>, js: seq<J>)
    requires Startable(l, good, exact, fair, start, js)
    ensures PassInv(l, good, exact, start, PassOver(l, start, js), js)
  {
    hide PassInv, StepPass, Lawful, StepTo;
    if js == [] {
      StartInv(l, good, exact, fair, start, js);
    } else {
      var done, j := js[..|js| - 1], js[|js| - 1];
      FrontStartable(l, good, exact, fair, start, js);
      PassKeeps(l, good, exact, fair, start, done);
      var p := PassOver(l, start, done);
      StepOf(l, good, exact, fair, start, p, done, j);
      KeepsStep(l, good, exact, start, p, StepPass(l, start, p, j), done, j);
    }
  }

  lemma KeepsStep<E(!new), J(!new)>(l: Level<E, J>, good: E -> bool, exact: bool, start: seq<E>, p: Pass<E>, p2: Pass<E>, done: seq<J>, j: J)
    requires PassInv(l, good, exact, start, p, done) && DistinctIds(l, done + [j]) && Stepped(l, good, exact, p, p2, j)
    ensures PassInv(l, good, exact, start, p2, done + [j])
  {
    hide PassInv, StepTo;
    if t :| StepTo(l, good, exact, p, p2, j, t) {
      StepInv(l, good, exact, start, p, p2, done, j, t);
    } else {
      SkipInv(l, good, exact, start, p, done, j);
    }
  }

  /** Aliases no two entities share at the start are shared by none after. */
  lemma {:induction false} PassAliases<E(!new), J(!new)>(l: Level<E, J>, good: E -> bool, exact: bool, fair: J -> bool, start: seq<E>, js: seq<J>)
    requires Startable(l, good, exact, fair, start, js) && DistinctAliases(l, start)
    ensures DistinctAliases(l, PassOver(l, start, js).es)
  {
    hide StepPass, Lawful, StepTo, Taken, SameFirst, DistinctAliases;
    if js != [] {
      var done, j := js[..|js| - 1], js[|js| - 1];
      FrontStartable(l, good, exact, fair, start, js);
      PassAliases(l, good, exact, fair, start, done);
      PassKeeps(l, good, exact, fair, start, done);
      var p := PassOver(l, start, done);
      StepOf(l, good, exact, fair, start, p, done, j);
      if t :| StepTo(l, good, exact, p, StepPass(l, start, p, j), j, t) { StepAliases(l, good, exact, p, StepPass(l, start, p, j), j, t); }
    }
  }
}
