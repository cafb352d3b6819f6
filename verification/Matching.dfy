/** Matching Jira entities to local ones. */
module Matching {
  // As a derivation does for types, for one type's fields and for one field's values: an alias first,
  // then an excluding name, then a name to adopt, and a new entity when nothing matches.

  import opened Documents

  /** What differs between the three levels. */
  datatype Level<!E, !J> = Level(
    key: E -> string,
    alias: E -> Option<string>,
    eligible: E -> bool,          // a built-in field is no candidate
    same: (E, J) -> bool,         // one name, or the fixed table's key
    fits: (E, J) -> bool,         // of the same kind
    id: J -> string,
    touch: (seq<E>, E, J) -> E,   // a matched entity after Jira's
    make: (seq<E>, J) -> E,       // a new one
    place: (seq<E>, J) -> nat,    // where a new one goes
    rereads: bool)                // candidates are read again for each Jira entity

  datatype Match = Aliased(key: string) | Adopted(key: string) | Excluded | New

  predicate HasAlias<E, J>(l: Level<E, J>, e: E, j: J) {
    l.eligible(e) && l.alias(e) == Some(l.id(j)) && l.id(j) != ""
  }

  predicate Excludes<E, J>(l: Level<E, J>, e: E, j: J, claimed: set<string>) {
    l.eligible(e) && l.same(e, j) && l.key(e) !in claimed && l.alias(e) == Some("")
  }

  predicate Adoptable<E, J>(l: Level<E, J>, e: E, j: J, claimed: set<string>) {
    l.eligible(e) && l.same(e, j) && l.key(e) !in claimed && l.alias(e) == None && l.fits(e, j)
  }

  function FirstAliased<E, J>(l: Level<E, J>, cs: seq<E>, j: J): Option<string> {
    if cs == [] then None
    else
      var r := FirstAliased(l, cs[..|cs| - 1], j);
      if r.Some? then r else if HasAlias(l, cs[|cs| - 1], j) then Some(l.key(cs[|cs| - 1])) else None
  }

  function FirstAdoptable<E, J>(l: Level<E, J>, cs: seq<E>, j: J, claimed: set<string>): Option<string> {
    if cs == [] then None
    else
      var r := FirstAdoptable(l, cs[..|cs| - 1], j, claimed);
      if r.Some? then r else if Adoptable(l, cs[|cs| - 1], j, claimed) then Some(l.key(cs[|cs| - 1])) else None
  }

  function MatchOf<E, J>(l: Level<E, J>, cs: seq<E>, j: J, claimed: set<string>): Match {
    var aliased, named := FirstAliased(l, cs, j), FirstAdoptable(l, cs, j, claimed);
    if aliased.Some? then Aliased(aliased.value)
    else if exists i :: 0 <= i < |cs| && Excludes(l, cs[i], j, claimed) then Excluded
    else if named.Some? then Adopted(named.value)
    else New
  }

  method FindMatch<E, J>(l: Level<E, J>, cs: seq<E>, j: J, claimed: set<string>) returns (m: Match)
    ensures m == MatchOf(l, cs, j, claimed)
  {
    for i := 0 to |cs|
      invariant FirstAliased(l, cs[..i], j) == None
    {
      assert cs[..i + 1][..i] == cs[..i];
      if HasAlias(l, cs[i], j) {
        AliasedStays(l, cs, i + 1, j);
        return Aliased(l.key(cs[i]));
      }
    }
    assert cs[..|cs|] == cs;
    var found: Option<string> := None;
    for i := 0 to |cs|
      invariant found == FirstAdoptable(l, cs[..i], j, claimed)
      invariant forall k :: 0 <= k < i ==> !Excludes(l, cs[k], j, claimed)
    {
      assert cs[..i + 1][..i] == cs[..i];
      if Excludes(l, cs[i], j, claimed) {
        return Excluded;
      }
      if found.None? && Adoptable(l, cs[i], j, claimed) {
        found := Some(l.key(cs[i]));
      }
    }
    m := if found.Some? then Adopted(found.value) else New;
  }

  lemma {:induction false} AliasedStays<E, J>(l: Level<E, J>, cs: seq<E>, n: nat, j: J)
    requires n <= |cs| && FirstAliased(l, cs[..n], j).Some?
    ensures FirstAliased(l, cs, j) == FirstAliased(l, cs[..n], j)
  {
    if n < |cs| {
      assert cs[..|cs| - 1][..n] == cs[..n];
      AliasedStays(l, cs[..|cs| - 1], n, j);
    } else {
      assert cs[..n] == cs;
    }
  }

  // ---- what a match says ----

  lemma {:induction false} AliasedIs<E, J>(l: Level<E, J>, cs: seq<E>, j: J)
    ensures var r := FirstAliased(l, cs, j);
            if r.Some? then exists i :: 0 <= i < |cs| && HasAlias(l, cs[i], j) && l.key(cs[i]) == r.value
            else forall i :: 0 <= i < |cs| ==> !HasAlias(l, cs[i], j)
  {
    if cs != [] {
      var n := |cs| - 1;
      AliasedIs(l, cs[..n], j);
      if FirstAliased(l, cs[..n], j).Some? {
        var i :| 0 <= i < n && HasAlias(l, cs[..n][i], j) && l.key(cs[..n][i]) == FirstAliased(l, cs[..n], j).value;
        assert cs[i] == cs[..n][i];
      } else {
        forall i | 0 <= i < n ensures !HasAlias(l, cs[i], j) { assert cs[..n][i] == cs[i]; }
      }
    }
  }

  lemma {:induction false} AdoptableIs<E, J>(l: Level<E, J>, cs: seq<E>, j: J, claimed: set<string>)
    ensures var r := FirstAdoptable(l, cs, j, claimed);
            r.Some? ==> exists i :: 0 <= i < |cs| && Adoptable(l, cs[i], j, claimed) && l.key(cs[i]) == r.value
  {
    if cs != [] {
      var n := |cs| - 1;
      AdoptableIs(l, cs[..n], j, claimed);
      var r := FirstAdoptable(l, cs[..n], j, claimed);
      if r.Some? {
        var i :| 0 <= i < n && Adoptable(l, cs[..n][i], j, claimed) && l.key(cs[..n][i]) == r.value;
        assert cs[i] == cs[..n][i];
      }
    }
  }

  // ---- one pass over the Jira entities ----

  /** A Jira entity's id and the key of its local one. */
  datatype Pair = Pair(id: string, key: string)

  datatype Pass<E> = Pass(es: seq<E>, claimed: set<string>, order: seq<Pair>)

  predicate HasKey<E, J>(l: Level<E, J>, es: seq<E>, k: string) { exists i :: 0 <= i < |es| && l.key(es[i]) == k }

  function IndexOf<E, J>(l: Level<E, J>, es: seq<E>, k: string): (i: nat)
    requires HasKey(l, es, k)
    ensures i < |es| && l.key(es[i]) == k
  {
    if l.key(es[0]) == k then 0
    else
      assert HasKey(l, es[1..], k) by {
        var i :| 0 <= i < |es| && l.key(es[i]) == k;
        assert l.key(es[1..][i - 1]) == k;
      }
      IndexOf(l, es[1..], k) + 1
  }

  function Insert<E>(es: seq<E>, at: nat, e: E): seq<E> {
    if at <= |es| then es[..at] + [e] + es[at..] else es + [e]
  }

  /** One Jira entity taken in: skipped, matched, or made. A key nothing has leaves the list alone. */
  function StepPass<E, J>(l: Level<E, J>, start: seq<E>, p: Pass<E>, j: J): Pass<E> {
    match MatchOf(l, if l.rereads then p.es else start, j, p.claimed)
    case Excluded => p
    case New =>
      var e := l.make(p.es, j);
      Pass(Insert(p.es, l.place(p.es, j), e), p.claimed + {l.key(e)}, p.order + [Pair(l.id(j), l.key(e))])
    case Aliased(k) => TouchKey(l, p, j, k)
    case Adopted(k) => TouchKey(l, p, j, k)
  }

  function TouchKey<E, J>(l: Level<E, J>, p: Pass<E>, j: J, k: string): Pass<E> {
    if HasKey(l, p.es, k) then
      var i := IndexOf(l, p.es, k);
      Pass(p.es[i := l.touch(p.es, p.es[i], j)], p.claimed + {k}, p.order + [Pair(l.id(j), k)])
    else p
  }

  function PassOver<E, J>(l: Level<E, J>, start: seq<E>, js: seq<J>): Pass<E> {
    if js == [] then Pass(start, {}, []) else StepPass(l, start, PassOver(l, start, js[..|js| - 1]), js[|js| - 1])
  }

  method RunPass<E, J>(l: Level<E, J>, start: seq<E>, js: seq<J>) returns (p: Pass<E>)
    ensures p == PassOver(l, start, js)
  {
    hide MatchOf, TouchKey, Insert;
    p := Pass(start, {}, []);
    for i := 0 to |js|
      invariant p == PassOver(l, start, js[..i])
    {
      assert js[..i + 1][..i] == js[..i];
      var m := FindMatch(l, if l.rereads then p.es else start, js[i], p.claimed);
      match m {
        case Excluded =>
        case New =>
          var e := l.make(p.es, js[i]);
          p := Pass(Insert(p.es, l.place(p.es, js[i]), e), p.claimed + {l.key(e)}, p.order + [Pair(l.id(js[i]), l.key(e))]);
        case Aliased(k) => p := TouchKey(l, p, js[i], k);
        case Adopted(k) => p := TouchKey(l, p, js[i], k);
      }
    }
    assert js[..|js|] == js;
  }
}
