/** What a match finds in the list as it was, and what distinct keys and aliases make of it. */
module MatchFacts {
  import opened Documents
  import opened Matching

  ghost predicate DistinctKeys<E, J>(l: Level<E, J>, es: seq<E>) {
    forall i, k :: 0 <= i < k < |es| ==> l.key(es[i]) != l.key(es[k])
  }

  /** No two candidates share an alias, the excluding one apart. */
  ghost predicate DistinctAliases<E, J>(l: Level<E, J>, es: seq<E>) {
    forall i, k :: 0 <= i < k < |es| && l.eligible(es[i]) && l.eligible(es[k]) && l.alias(es[i]) == l.alias(es[k]) ==>
      l.alias(es[i]) == None || l.alias(es[i]) == Some("")
  }

  ghost predicate DistinctIds<E, J>(l: Level<E, J>, js: seq<J>) {
    && (forall i :: 0 <= i < |js| ==> l.id(js[i]) != "")
    && forall i, k :: 0 <= i < k < |js| ==> l.id(js[i]) != l.id(js[k])
  }

  /** Taking Jira's attributes again changes nothing. */
  ghost predicate Fixed<E(!new), J>(l: Level<E, J>, e: E, j: J) { forall es: seq<E> :: l.touch(es, e, j) == e }

  ghost predicate TouchLawful<E(!new), J(!new)>(l: Level<E, J>, good: E -> bool, exact: bool, es: seq<E>, e: E, j: J) {
    var t := l.touch(es, e, j);
    l.key(t) == l.key(e) && l.eligible(t) && good(t) && l.alias(t) == Some(l.id(j)) && (exact ==> Fixed(l, t, j))
  }

  ghost predicate MakeLawful<E(!new), J(!new)>(l: Level<E, J>, good: E -> bool, exact: bool, es: seq<E>, j: J) {
    var m := l.make(es, j);
    !HasKey(l, es, l.key(m)) && l.eligible(m) && good(m) && l.alias(m) == Some(l.id(j)) && (exact ==> Fixed(l, m, j))
  }

  /** An entity a Jira one may be matched to: by its alias, or by adopting one of its kind without an alias. */
  ghost predicate Reaches<E, J>(l: Level<E, J>, e: E, j: J) {
    l.alias(e) == Some(l.id(j)) || (l.alias(e) == None && l.fits(e, j))
  }

  /** What a level must do with good local entities and fair Jira ones; exact, it need not do it twice. */
  ghost predicate Lawful<E(!new), J(!new)>(l: Level<E, J>, good: E -> bool, exact: bool, fair: J -> bool) {
    && (forall es, e, j :: good(e) && l.eligible(e) && fair(j) && Reaches(l, e, j) ==> TouchLawful(l, good, exact, es, e, j))
    && (forall es, j :: fair(j) ==> MakeLawful(l, good, exact, es, j))
  }

  // ---- what holds during a pass ----

  ghost predicate NoneHas<E, J>(l: Level<E, J>, es: seq<E>, j: J) { forall i :: 0 <= i < |es| ==> !HasAlias(l, es[i], j) }

  ghost predicate Holder<E, J>(l: Level<E, J>, es: seq<E>, j: J, i: int) { 0 <= i < |es| && HasAlias(l, es[i], j) }

  ghost predicate Excluder<E, J>(l: Level<E, J>, es: seq<E>, j: J, claimed: set<string>, i: int) {
    0 <= i < |es| && Excludes(l, es[i], j, claimed)
  }

  /** The first of the list with the alias. */
  ghost predicate HeldBy<E, J>(l: Level<E, J>, es: seq<E>, j: J, i: int) {
    Holder(l, es, j, i) && FirstAliased(l, es, j) == Some(l.key(es[i]))
  }

  /** A Jira entity taken in has its local one, as Jira has it, or is excluded. */
  ghost predicate Taken<E(!new), J>(l: Level<E, J>, exact: bool, es: seq<E>, claimed: set<string>, j: J) {
    || (exists i :: HeldBy(l, es, j, i) && l.key(es[i]) in claimed && (exact ==> Fixed(l, es[i], j)))
    || (NoneHas(l, es, j) && exists i :: Excluder(l, es, j, claimed, i))
  }

  /** An entity of the list is one claimed for a Jira entity, or one there was, untouched. */
  ghost predicate Accounted<E, J>(l: Level<E, J>, start: seq<E>, p: Pass<E>, done: seq<J>, e: E) {
    if l.key(e) in p.claimed then l.eligible(e) && exists j :: j in done && l.alias(e) == Some(l.id(j))
    else e in start
  }

  /** A Jira entity not taken in yet finds by its alias what it would have found at the start. */
  ghost predicate SameFirst<E, J(!new)>(l: Level<E, J>, start: seq<E>, es: seq<E>, done: seq<J>) {
    forall x: J :: (forall d :: d in done ==> l.id(d) != l.id(x)) ==> FirstAliased(l, es, x) == FirstAliased(l, start, x)
  }

  ghost predicate PassInv<E(!new), J(!new)>(l: Level<E, J>, good: E -> bool, exact: bool, start: seq<E>, p: Pass<E>, done: seq<J>) {
    && DistinctKeys(l, p.es) && SameFirst(l, start, p.es, done)
    && (forall e :: e in p.es ==> good(e) && Accounted(l, start, p, done, e))
    && (forall c :: c in start ==> HasKey(l, p.es, l.key(c)))
    && (forall k :: k in p.claimed ==> HasKey(l, p.es, k))
    && (forall j :: j in done ==> Taken(l, exact, p.es, p.claimed, j))
  }

  // ---- matching during a pass ----

  /** The entity a key names, as it was at the start, if nothing has claimed it. */
  lemma Untouched<E(!new), J(!new)>(l: Level<E, J>, good: E -> bool, exact: bool, start: seq<E>, p: Pass<E>, done: seq<J>, c: E) returns (i: nat)
    requires PassInv(l, good, exact, start, p, done) && DistinctKeys(l, start) && c in start && l.key(c) !in p.claimed
    ensures i < |p.es| && p.es[i] == c
  {
    assert HasKey(l, p.es, l.key(c));
    i :| 0 <= i < |p.es| && l.key(p.es[i]) == l.key(c);
    assert Accounted(l, start, p, done, p.es[i]);
    var a :| 0 <= a < |start| && start[a] == p.es[i];
    var b :| 0 <= b < |start| && start[b] == c;
    assert a == b;
  }

  /** The id of a Jira entity not taken in yet is no alias of a claimed entity. */
  lemma AliasNew<E(!new), J(!new)>(l: Level<E, J>, good: E -> bool, exact: bool, start: seq<E>, p: Pass<E>, done: seq<J>, j: J, e: E)
    requires PassInv(l, good, exact, start, p, done) && DistinctIds(l, done + [j]) && e in p.es && l.key(e) in p.claimed
    ensures l.alias(e) != Some(l.id(j))
  {
    assert Accounted(l, start, p, done, e);
    var x :| x in done && l.alias(e) == Some(l.id(x));
    var i :| 0 <= i < |done| && done[i] == x;
    assert (done + [j])[i] == x && (done + [j])[|done|] == j;
  }

  /**
   Matching against the list as it was at the start says the same of the list as it is: the
   entity matched is there, unclaimed and untouched.
   */
  lemma MatchSays<E(!new), J(!new)>(l: Level<E, J>, good: E -> bool, exact: bool, start: seq<E>, p: Pass<E>, done: seq<J>, j: J)
    requires PassInv(l, good, exact, start, p, done) && DistinctKeys(l, start) && DistinctIds(l, done + [j])
    ensures match MatchOf(l, if l.rereads then p.es else start, j, p.claimed)
            case Aliased(k) => exists i :: HeldBy(l, p.es, j, i) && l.key(p.es[i]) == k && k !in p.claimed
            case Adopted(k) => NoneHas(l, p.es, j) &&
              exists i :: 0 <= i < |p.es| && l.key(p.es[i]) == k && Adoptable(l, p.es[i], j, p.claimed)
            case Excluded => NoneHas(l, p.es, j) && exists i :: Excluder(l, p.es, j, p.claimed, i)
            case New => NoneHas(l, p.es, j)
  {
    var cs := if l.rereads then p.es else start;
    AliasedIs(l, cs, j);
    AdoptableIs(l, cs, j, p.claimed);
    if FirstAliased(l, cs, j).Some? {
      HolderSays(l, good, exact, start, p, done, j);
    } else {
      NoHolder(l, good, exact, start, p, done, j);
      if i :| 0 <= i < |cs| && Excludes(l, cs[i], j, p.claimed) {
        var at := i;
        if !l.rereads { at := Untouched(l, good, exact, start, p, done, cs[i]); }
        assert Excluder(l, p.es, j, p.claimed, at);
      } else if FirstAdoptable(l, cs, j, p.claimed).Some? {
        var i :| 0 <= i < |cs| && Adoptable(l, cs[i], j, p.claimed) && l.key(cs[i]) == FirstAdoptable(l, cs, j, p.claimed).value;
        var at := i;
        if !l.rereads { at := Untouched(l, good, exact, start, p, done, cs[i]); }
        assert p.es[at] == cs[i];
      }
    }
  }

  /** The alias finds the same entity at the start and now. */
  lemma FirstNow<E(!new), J(!new)>(l: Level<E, J>, good: E -> bool, exact: bool, start: seq<E>, p: Pass<E>, done: seq<J>, j: J)
    requires PassInv(l, good, exact, start, p, done) && DistinctIds(l, done + [j])
    ensures FirstAliased(l, p.es, j) == FirstAliased(l, start, j)
  {
    forall d | d in done ensures l.id(d) != l.id(j) {
      var i :| 0 <= i < |done| && done[i] == d;
      assert (done + [j])[i] == d && (done + [j])[|done|] == j;
    }
  }

  lemma HolderSays<E(!new), J(!new)>(l: Level<E, J>, good: E -> bool, exact: bool, start: seq<E>, p: Pass<E>, done: seq<J>, j: J)
    requires PassInv(l, good, exact, start, p, done) && DistinctKeys(l, start) && DistinctIds(l, done + [j])
    requires FirstAliased(l, if l.rereads then p.es else start, j).Some?
    ensures var k := FirstAliased(l, if l.rereads then p.es else start, j).value;
            exists i :: HeldBy(l, p.es, j, i) && l.key(p.es[i]) == k && k !in p.claimed
  {
    FirstNow(l, good, exact, start, p, done, j);
    AliasedIs(l, p.es, j);
    var k := FirstAliased(l, p.es, j).value;
    var i :| 0 <= i < |p.es| && HasAlias(l, p.es[i], j) && l.key(p.es[i]) == k;
    if k in p.claimed { AliasNew(l, good, exact, start, p, done, j, p.es[i]); }
    assert HeldBy(l, p.es, j, i);
  }

  lemma NoHolder<E(!new), J(!new)>(l: Level<E, J>, good: E -> bool, exact: bool, start: seq<E>, p: Pass<E>, done: seq<J>, j: J)
    requires PassInv(l, good, exact, start, p, done) && DistinctIds(l, done + [j])
    requires FirstAliased(l, if l.rereads then p.es else start, j).None?
    ensures NoneHas(l, p.es, j)
  {
    FirstNow(l, good, exact, start, p, done, j);
    AliasedIs(l, p.es, j);
  }
}
