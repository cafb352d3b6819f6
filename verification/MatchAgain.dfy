/** A pass over a settled list changes nothing, whatever order the list is in. */
module MatchAgain {
  import opened Documents
  import opened Matching
  import opened MatchFacts
  import opened MatchPass

  /** A Jira entity has its local one, as Jira has it, or an entity excludes it. */
  ghost predicate Settled<E(!new), J>(l: Level<E, J>, es: seq<E>, j: J) {
    || (exists i :: HeldBy(l, es, j, i) && Fixed(l, es[i], j))
    || (NoneHas(l, es, j) && exists i :: Excluder(l, es, j, {}, i))
  }

  /** Every claimed entity carries an alias. */
  ghost predicate ClaimsAliased<E, J>(l: Level<E, J>, es: seq<E>, claimed: set<string>) {
    forall i :: 0 <= i < |es| && l.key(es[i]) in claimed ==> l.alias(es[i]) != None && l.alias(es[i]) != Some("")
  }

  /** The local keys of the Jira entities that have one, in Jira's order. */
  function OrderOf<E, J>(l: Level<E, J>, es: seq<E>, js: seq<J>): seq<Pair> {
    if js == [] then []
    else
      var r := FirstAliased(l, es, js[|js| - 1]);
      OrderOf(l, es, js[..|js| - 1]) + if r.Some? then [Pair(l.id(js[|js| - 1]), r.value)] else []
  }

  lemma StepAgain<E(!new), J(!new)>(l: Level<E, J>, es: seq<E>, p: Pass<E>, j: J)
    requires DistinctKeys(l, es) && Settled(l, es, j)
    requires p.es == es && ClaimsAliased(l, es, p.claimed)
    ensures var p2 := StepPass(l, es, p, j);
            var r := FirstAliased(l, es, j);
            p2.es == es && ClaimsAliased(l, es, p2.claimed) && p2.order == p.order + if r.Some? then [Pair(l.id(j), r.value)] else []
  {
    if i :| HeldBy(l, es, j, i) && Fixed(l, es[i], j) {
      var k := l.key(es[i]);
      assert HasKey(l, es, k) && IndexOf(l, es, k) == i;
      assert l.touch(es, es[i], j) == es[i];
      assert es[i := es[i]] == es;
    } else {
      AliasedIs(l, es, j);
      var i :| Excluder(l, es, j, {}, i);
      assert Excludes(l, es[i], j, p.claimed);
    }
  }

  lemma {:induction false} PassAgain<E(!new), J(!new)>(l: Level<E, J>, es: seq<E>, js: seq<J>)
    requires DistinctKeys(l, es) && forall j :: j in js ==> Settled(l, es, j)
    ensures var p := PassOver(l, es, js); p.es == es && ClaimsAliased(l, es, p.claimed) && p.order == OrderOf(l, es, js)
  {
    hide Settled, StepPass;
    if js != [] {
      assert js[|js| - 1] in js;
      PassAgain(l, es, js[..|js| - 1]);
      StepAgain(l, es, PassOver(l, es, js[..|js| - 1]), js[|js| - 1]);
    }
  }

  // ---- what the first pass leaves ----

  lemma TakenSettled<E(!new), J>(l: Level<E, J>, es: seq<E>, claimed: set<string>, j: J)
    requires Taken(l, true, es, claimed, j)
    ensures Settled(l, es, j)
  {
    if i :| HeldBy(l, es, j, i) && l.key(es[i]) in claimed && Fixed(l, es[i], j) {
    } else {
      var i :| Excluder(l, es, j, claimed, i);
      assert Excluder(l, es, j, {}, i);
    }
  }

  lemma PassSettles<E(!new), J(!new)>(l: Level<E, J>, good: E -> bool, fair: J -> bool, start: seq<E>, js: seq<J>)
    requires Startable(l, good, true, fair, start, js)
    ensures var es := PassOver(l, start, js).es;
            && DistinctKeys(l, es) && (forall j :: j in js ==> Settled(l, es, j))
            && (forall e :: e in es ==> good(e))
  {
    hide Taken, Settled;
    PassKeeps(l, good, true, fair, start, js);
    var p := PassOver(l, start, js);
    forall j | j in js ensures Settled(l, p.es, j) { TakenSettled(l, p.es, p.claimed, j); }
  }

  lemma {:induction false} OrderStays<E, J(!new)>(l: Level<E, J>, es: seq<E>, es2: seq<E>, j: J, done: seq<J>)
    requires OthersFirst(l, es, es2, j) && forall x :: x in done ==> l.id(x) != l.id(j)
    ensures OrderOf(l, es2, done) == OrderOf(l, es, done)
  {
    if done != [] {
      assert done[|done| - 1] in done;
      OrderStays(l, es, es2, j, done[..|done| - 1]);
    }
  }

  lemma OrderStep<E(!new), J(!new)>(l: Level<E, J>, good: E -> bool, exact: bool, p: Pass<E>, p2: Pass<E>, done: seq<J>, j: J)
    requires DistinctIds(l, done + [j]) && Stepped(l, good, exact, p, p2, j)
    requires p.order == OrderOf(l, p.es, done)
    ensures p2.order == OrderOf(l, p2.es, done + [j])
  {
    hide Fixed, FirstAliased;
    assert (done + [j])[..|done|] == done && (done + [j])[|done|] == j;
    if t :| StepTo(l, good, exact, p, p2, j, t) {
      forall x | x in done ensures l.id(x) != l.id(j) {
        var i :| 0 <= i < |done| && done[i] == x;
        assert (done + [j])[i] == x;
      }
      OrderStays(l, p.es, p2.es, j, done);
    } else {
      AliasedIs(l, p.es, j);
    }
  }

  lemma {:induction false} PassOrder<E(!new), J(!new)>(l: Level<E, J>, good: E -> bool, exact: bool, fair: J -> bool, start: seq<E>, js: seq<J>)
    requires Startable(l, good, exact, fair, start, js)
    ensures var p := PassOver(l, start, js); p.order == OrderOf(l, p.es, js)
  {
    hide PassInv, StepPass, Lawful, Stepped;
    if js != [] {
      var done, j := js[..|js| - 1], js[|js| - 1];
      FrontStartable(l, good, exact, fair, start, js);
      PassOrder(l, good, exact, fair, start, done);
      PassKeeps(l, good, exact, fair, start, done);
      var p := PassOver(l, start, done);
      StepOf(l, good, exact, fair, start, p, done, j);
      OrderStep(l, good, exact, p, StepPass(l, start, p, j), done, j);
    }
  }

  /** Every pass is repeatable: run again on the list it left, it changes nothing and names the same order. */
  lemma PassRepeats<E(!new), J(!new)>(l: Level<E, J>, good: E -> bool, fair: J -> bool, start: seq<E>, js: seq<J>)
    requires Startable(l, good, true, fair, start, js)
    ensures var p := PassOver(l, start, js);
            PassOver(l, p.es, js).es == p.es && PassOver(l, p.es, js).order == p.order
  {
    hide Settled, Lawful, ClaimsAliased;
    var p := PassOver(l, start, js);
    PassSettles(l, good, fair, start, js);
    PassOrder(l, good, true, fair, start, js);
    PassAgain(l, p.es, js);
  }

  // ---- the same entities in another order ----

  ghost predicate SameMembers<E(!new)>(a: seq<E>, b: seq<E>) { forall x :: x in a <==> x in b }

  lemma MembersAliases<E(!new), J(!new)>(l: Level<E, J>, a: seq<E>, b: seq<E>)
    requires SameMembers(a, b) && DistinctKeys(l, a) && DistinctKeys(l, b) && DistinctAliases(l, a)
    ensures DistinctAliases(l, b)
  {
    forall x, y | x in b && y in b && l.eligible(x) && l.eligible(y) && l.alias(x) == l.alias(y) && x != y
      ensures l.alias(x) == None || l.alias(x) == Some("")
    {
      if l.alias(x) != None && l.alias(x) != Some("") { AliasMember(l, a, x, y); }
    }
    AliasesFrom(l, b);
  }
}
