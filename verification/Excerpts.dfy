/** The excerpt index of one type. */
module Excerpts {
  // Kept beside the refs: each excerpt is recorded with the hash of the ref it was built from, which is
  // what lets a load verify it instead of trusting it. A ref's hash stands for the history it heads.

  import opened Documents
  import opened Entities
  import opened Order

  type Id = string
  type Ref = seq<Op>

  /** What one cache holds, in memory or in its file. */
  datatype Index<X> = Index(excerpts: map<Id, X>, refs: map<Id, Ref>)

  function Patch<V>(m: map<Id, V>, at: set<Id>, from: map<Id, V>): map<Id, V>
    requires at <= from.Keys
  {
    map k | k in m.Keys + at :: if k in at then from[k] else m[k]
  }

  /** The entities whose recorded hash is not the current one. */
  function Moved(refs: map<Id, Ref>, current: map<Id, Ref>): set<Id> {
    set id | id in current && !(id in refs && refs[id] == current[id])
  }

  /** Reads of the given entities: each answers with a history, or fails. */
  function Described<X>(excerpt: Ref -> X, got: map<Id, Option<Ref>>): map<Id, X> {
    map id | id in got && got[id].Some? :: excerpt(got[id].value)
  }

  /** The index after the entities in `done` are looked at. */
  function Looked<X>(excerpt: Ref -> X, was: Index<X>, current: map<Id, Ref>, got: map<Id, Option<Ref>>, done: set<Id>)
    : Index<X>
    requires done * Moved(was.refs, current) <= Described(excerpt, got).Keys
  {
    var moved := done * Moved(was.refs, current);
    Index(Patch(was.excerpts, moved, Described(excerpt, got)), Patch(was.refs, moved, current))
  }

  /** The index after those no ref backs are dropped. */
  function Swept<X>(x: Index<X>, current: map<Id, Ref>): Index<X> {
    Index(map id | id in x.excerpts && id in current :: x.excerpts[id], x.refs - (x.excerpts.Keys - current.Keys))
  }

  /** One more entity looked at: skipped if its hash stands, else described and its hash recorded. */
  lemma LookNext<X>(excerpt: Ref -> X, was: Index<X>, current: map<Id, Ref>, got: map<Id, Option<Ref>>, done: set<Id>, id: Id)
    requires id in current && id in got && id !in done
    requires done * Moved(was.refs, current) <= Described(excerpt, got).Keys
    ensures var x := Looked(excerpt, was, current, got, done);
            var moved := id in Moved(was.refs, current);
            && (moved <==> !(id in x.refs && x.refs[id] == current[id])) && (id in x.excerpts <==> id in was.excerpts)
            && (!moved || got[id].Some? ==>
                  && (done + {id}) * Moved(was.refs, current) <= Described(excerpt, got).Keys
                  && Looked(excerpt, was, current, got, done + {id})
                     == if moved then Index(x.excerpts[id := excerpt(got[id].value)], x.refs[id := current[id]]) else x)
  {
    hide Patch, Described;
    var moved := Moved(was.refs, current);
    PatchAt(was.excerpts, done * moved, Described(excerpt, got), id);
    PatchAt(was.refs, done * moved, current, id);
    if id in moved {
      assert (done + {id}) * moved == done * moved + {id};
      if got[id].Some? { DescribedAt(excerpt, got, id); }
    } else {
      assert (done + {id}) * moved == done * moved;
    }
  }

  lemma DescribedAt<X>(excerpt: Ref -> X, got: map<Id, Option<Ref>>, id: Id)
    requires id in got && got[id].Some?
    ensures id in Described(excerpt, got) && Described(excerpt, got)[id] == excerpt(got[id].value)
  {
  }

  lemma PatchAt<V>(m: map<Id, V>, at: set<Id>, from: map<Id, V>, id: Id)
    requires at <= from.Keys && id !in at
    ensures id in Patch(m, at, from) <==> id in m
    ensures id in m ==> Patch(m, at, from)[id] == m[id]
    ensures id in from ==> Patch(m, at + {id}, from) == Patch(m, at, from)[id := from[id]]
  {
  }

  lemma LookNone<X>(excerpt: Ref -> X, was: Index<X>, current: map<Id, Ref>, got: map<Id, Option<Ref>>)
    ensures Looked(excerpt, was, current, got, {}) == was
  {
  }

  datatype Report = Report(created: seq<Id>, updated: seq<Id>, removed: seq<Id>)

  predicate Lists(xs: seq<Id>, s: set<Id>) { Elems(xs) == s && |xs| == |s| }

  lemma ListsMore(xs: seq<Id>, s: set<Id>, id: Id, more: set<Id>)
    requires Lists(xs, s) && id !in s && more == s + {id}
    ensures Lists(xs + [id], more)
  {
    ElemsAppend(xs, [id]);
  }

  /** The entities looked at whose hash had moved: those without an excerpt, and those with one. */
  predicate Reports<X>(created: seq<Id>, updated: seq<Id>, was: Index<X>, current: map<Id, Ref>, done: set<Id>) {
    var moved := done * Moved(was.refs, current);
    Lists(created, moved - was.excerpts.Keys) && Lists(updated, moved * was.excerpts.Keys)
  }

  lemma ReportsNext<X>(created: seq<Id>, updated: seq<Id>, was: Index<X>, current: map<Id, Ref>, done: set<Id>, id: Id)
    requires Reports(created, updated, was, current, done) && id !in done
    ensures if id !in Moved(was.refs, current) then Reports(created, updated, was, current, done + {id})
            else if id in was.excerpts then Reports(created, updated + [id], was, current, done + {id})
            else Reports(created + [id], updated, was, current, done + {id})
  {
    hide Moved, Lists;
    var m := Moved(was.refs, current);
    var x := was.excerpts.Keys;
    OneMore(done, m, x, id);
    if id in m && id in x {
      ListsMore(updated, done * m * x, id, (done + {id}) * m * x);
    } else if id in m {
      ListsMore(created, done * m - x, id, (done + {id}) * m - x);
    }
  }

  lemma OneMore(done: set<Id>, m: set<Id>, x: set<Id>, id: Id)
    requires id !in done
    ensures (done + {id}) * m - x == if id in m - x then done * m - x + {id} else done * m - x
    ensures (done + {id}) * m * x == if id in m * x then done * m * x + {id} else done * m * x
    ensures id !in done * m - x && id !in done * m * x
  {
  }

  class SubCache<X(==,!new)> {
    const excerpt: Ref -> X
    var excerpts: map<Id, X>
    var refs: map<Id, Ref>
    var loaded: set<Id>

    function View(): Index<X>
      reads this
    {
      Index(excerpts, refs)
    }

    constructor (excerpt: Ref -> X, x: Index<X>)
      ensures this.excerpt == excerpt && View() == x && loaded == {}
    {
      this.excerpt := excerpt;
      excerpts, refs, loaded := x.excerpts, x.refs, {};
    }

    /** The first half of a refresh: every entity whose hash moved is read again, until a read fails. */
    method Reread(current: map<Id, Ref>, got: map<Id, Option<Ref>>)
      returns (ok: bool, created: seq<Id>, updated: seq<Id>, ghost done: set<Id>)
      requires current.Keys <= got.Keys
      modifies this
      ensures done <= current.Keys && done * Moved(old(refs), current) <= Described(excerpt, got).Keys
      ensures View() == Looked(excerpt, old(View()), current, got, done)
      ensures loaded == old(loaded) - done * Moved(old(refs), current)
      ensures if ok then done == current.Keys else exists id :: id in Moved(old(refs), current) && got[id].None?
      ensures Reports(created, updated, old(View()), current, done)
    {
      hide Looked, Moved, Described, Reports;
      ghost var was := View();
      ghost var moved := Moved(was.refs, current);
      created, updated, done := [], [], {};
      var todo := current.Keys;
      LookNone(excerpt, was, current, got);
      ReportsNone(was, current);
      while todo != {}
        invariant todo + done == current.Keys && todo !! done
        invariant done * moved <= Described(excerpt, got).Keys
        invariant View() == Looked(excerpt, was, current, got, done)
        invariant loaded == old(loaded) - done * moved
        invariant Reports(created, updated, was, current, done)
        decreases todo
      {
        var id :| id in todo;
        LookNext(excerpt, was, current, got, done, id);
        ReportsNext(created, updated, was, current, done, id);
        todo := todo - {id};
        if !(id in refs && refs[id] == current[id]) {
          if got[id].None? {
            return false, created, updated, done;
          }
          var known := id in excerpts;
          excerpts := excerpts[id := excerpt(got[id].value)];
          refs := refs[id := current[id]];
          loaded := loaded - {id};
          if known {
            updated := updated + [id];
          } else {
            created := created + [id];
          }
        }
        done := done + {id};
      }
      ok := true;
    }

    /** The second half: an excerpt no ref backs is dropped. */
    method Sweep(current: map<Id, Ref>) returns (removed: seq<Id>)
      modifies this
      ensures View() == Swept(old(View()), current)
      ensures loaded == old(loaded) - (old(excerpts).Keys - current.Keys)
      ensures Lists(removed, old(excerpts).Keys - current.Keys)
    {
      var x, rest, gone := SweepLoop(View(), loaded, current);
      excerpts, refs, loaded, removed := x.excerpts, x.refs, rest, gone;
    }

    /** Reconciles the excerpts with the refs just listed; a failed read stops it there, with what it found so far. */
    method RefreshFromRefs(current: map<Id, Ref>, got: map<Id, Option<Ref>>) returns (ok: bool, report: Report)
      requires current.Keys <= got.Keys
      modifies this
      ensures ok <==> forall id :: id in Moved(old(refs), current) ==> got[id].Some?
      ensures ok ==> View() == Refreshed(excerpt, old(View()), current, got)
      ensures ok ==> loaded == old(loaded) - Moved(old(refs), current) - (old(excerpts).Keys - current.Keys)
      ensures ok ==> Reports(report.created, report.updated, old(View()), current, current.Keys)
      ensures ok ==> Lists(report.removed, old(excerpts).Keys - current.Keys)
      ensures !ok ==> exists done: set<Id> ::
                && done * Moved(old(refs), current) <= Described(excerpt, got).Keys
                && View() == Looked(excerpt, old(View()), current, got, done)
                && Reports(report.created, report.updated, old(View()), current, done)
      ensures !ok ==> report.removed == []
    {
      hide Looked, Swept, Reports, Lists;
      ghost var was := View();
      var read, created, updated, done := Reread(current, got);
      report := Report(created, updated, []);
      if !read {
        return false, report;
      }
      assert current.Keys * Moved(was.refs, current) == Moved(was.refs, current);
      LookedKeys(excerpt, was, current, got);
      var removed := Sweep(current);
      return true, report.(removed := removed);
    }

    /** Under the write lock, after a write or a re-read: the excerpt of this copy, and the ref's hash as it is now. */
    method UpdateExcerpt(id: Id, copy: Ref, ref: Option<Ref>)
      modifies this
      ensures View() == Noted(excerpt, old(View()), id, copy, ref) && loaded == old(loaded)
    {
      excerpts := excerpts[id := excerpt(copy)];
      if ref.None? {
        refs := refs - {id};
      } else {
        refs := refs[id := ref.value];
      }
    }
  }

  function Noted<X>(excerpt: Ref -> X, x: Index<X>, id: Id, copy: Ref, ref: Option<Ref>): Index<X> {
    Index(x.excerpts[id := excerpt(copy)], if ref.None? then x.refs - {id} else x.refs[id := ref.value])
  }

  /**
   An excerpt noted describes the copy, and an entity noted is reported by a later refresh exactly
   when its ref is not the one recorded with it: always, when it had none. No other is concerned.
   */
  lemma NotedMoves<X>(excerpt: Ref -> X, x: Index<X>, id: Id, copy: Ref, ref: Option<Ref>, later: map<Id, Ref>, other: Id)
    ensures var now := Noted(excerpt, x, id, copy, ref);
            && id in now.excerpts && now.excerpts[id] == excerpt(copy)
            && (id in Moved(now.refs, later) <==> id in later && ref != Some(later[id]))
            && (other != id ==>
                  && (other in Moved(now.refs, later) <==> other in Moved(x.refs, later))
                  && (other in now.excerpts <==> other in x.excerpts) && (other in x.excerpts ==> now.excerpts[other] == x.excerpts[other]))
  {
  }

  /** The index after a refresh that nothing stopped. */
  function Refreshed<X>(excerpt: Ref -> X, was: Index<X>, current: map<Id, Ref>, got: map<Id, Option<Ref>>): Index<X>
    requires forall id :: id in Moved(was.refs, current) ==> id in got && got[id].Some?
  {
    Swept(Looked(excerpt, was, current, got, current.Keys), current)
  }

  lemma LookedKeys<X>(excerpt: Ref -> X, was: Index<X>, current: map<Id, Ref>, got: map<Id, Option<Ref>>)
    requires Moved(was.refs, current) <= Described(excerpt, got).Keys
    ensures current.Keys * Moved(was.refs, current) == Moved(was.refs, current)
    ensures Looked(excerpt, was, current, got, current.Keys).excerpts.Keys - current.Keys == was.excerpts.Keys - current.Keys
  {
    assert current.Keys * Moved(was.refs, current) == Moved(was.refs, current);
  }

  /** Whatever the refs are by then, an entity a refresh looked at is not reported again until its ref moves. */
  lemma MovedAfter<X>(excerpt: Ref -> X, was: Index<X>, current: map<Id, Ref>, got: map<Id, Option<Ref>>, done: set<Id>,
                      later: map<Id, Ref>, id: Id)
    requires done * Moved(was.refs, current) <= Described(excerpt, got).Keys
    ensures var now := Looked(excerpt, was, current, got, done);
            id in Moved(now.refs, later) <==>
              if id in done * Moved(was.refs, current) then id in later && later[id] != current[id]
              else id in Moved(was.refs, later)
  {
  }

  /**
   A refresh that failed keeps what it learned, so the next one, over the same refs, reports all
   that moved but exactly what the first had read: whoever is told only of refreshes that
   succeed is never told of those.
   */
  lemma FailedRefreshMisses<X>(excerpt: Ref -> X, was: Index<X>, current: map<Id, Ref>, got: map<Id, Option<Ref>>, done: set<Id>,
                               created: seq<Id>, updated: seq<Id>)
    requires done * Moved(was.refs, current) <= Described(excerpt, got).Keys
    requires Reports(created, updated, Looked(excerpt, was, current, got, done), current, current.Keys)
    ensures var moved, missed := Moved(was.refs, current), done * Moved(was.refs, current);
            && Elems(created) == moved - was.excerpts.Keys - missed
            && Elems(updated) == moved * was.excerpts.Keys - missed
  {
    hide Looked, Moved, Described, Patch;
    var now := Looked(excerpt, was, current, got, done);
    var moved, missed := Moved(was.refs, current), done * Moved(was.refs, current);
    LookedExcerpts(excerpt, was, current, got, done);
    assert Moved(now.refs, current) == moved - missed by { StillMoved(excerpt, was, current, got, done); }
    MovedIn(was.refs, current);
    LessMissed(current.Keys, moved, missed, was.excerpts.Keys);
  }

  lemma StillMoved<X>(excerpt: Ref -> X, was: Index<X>, current: map<Id, Ref>, got: map<Id, Option<Ref>>, done: set<Id>)
    requires done * Moved(was.refs, current) <= Described(excerpt, got).Keys
    ensures Moved(Looked(excerpt, was, current, got, done).refs, current) == Moved(was.refs, current) - done * Moved(was.refs, current)
  {
    hide Looked, Described, Patch;
    var now := Looked(excerpt, was, current, got, done);
    forall id ensures id in Moved(now.refs, current) <==> id in Moved(was.refs, current) - done * Moved(was.refs, current) {
      MovedAfter(excerpt, was, current, got, done, current, id);
    }
  }

  lemma LookedExcerpts<X>(excerpt: Ref -> X, was: Index<X>, current: map<Id, Ref>, got: map<Id, Option<Ref>>, done: set<Id>)
    requires done * Moved(was.refs, current) <= Described(excerpt, got).Keys
    ensures Looked(excerpt, was, current, got, done).excerpts.Keys == was.excerpts.Keys + done * Moved(was.refs, current)
  {
    hide Moved, Described;
  }

  lemma MovedIn(refs: map<Id, Ref>, current: map<Id, Ref>)
    ensures Moved(refs, current) <= current.Keys
  {
  }

  lemma LessMissed(all: set<Id>, moved: set<Id>, missed: set<Id>, had: set<Id>)
    requires missed <= moved <= all
    ensures all * (moved - missed) - (had + missed) == moved - had - missed
    ensures all * (moved - missed) * (had + missed) == moved * had - missed
  {
  }

  lemma ReportsNone<X>(was: Index<X>, current: map<Id, Ref>)
    ensures Reports([], [], was, current, {})
  {
  }

  lemma NoneListed()
    ensures Lists([], {})
  {
  }

  /** What a sweep has dropped while the entities in `todo` are still to look at. */
  ghost function Dropped(keys: set<Id>, todo: set<Id>, current: set<Id>): set<Id> { keys - todo - current }

  lemma DroppedNext(keys: set<Id>, todo: set<Id>, current: set<Id>, id: Id)
    requires id in todo && todo <= keys
    ensures var gone := Dropped(keys, todo, current);
            id !in gone && Dropped(keys, todo - {id}, current) == if id in current then gone else gone + {id}
  {
  }

  lemma DroppedEnds(keys: set<Id>, current: set<Id>)
    ensures Dropped(keys, keys, current) == {} && Dropped(keys, {}, current) == keys - current
  {
  }

  method SweepLoop<X>(was: Index<X>, loaded: set<Id>, current: map<Id, Ref>)
    returns (x: Index<X>, rest: set<Id>, removed: seq<Id>)
    ensures x == Swept(was, current) && rest == loaded - (was.excerpts.Keys - current.Keys)
    ensures Lists(removed, was.excerpts.Keys - current.Keys)
  {
    hide Lists, Without, Dropped, Swept;
    x, rest, removed := was, loaded, [];
    var todo := was.excerpts.Keys;
    DroppedEnds(was.excerpts.Keys, current.Keys);
    NoneListed();
    WithoutNone(was);
    while todo != {}
      invariant todo <= was.excerpts.Keys
      invariant var gone := Dropped(was.excerpts.Keys, todo, current.Keys);
                x == Without(was, gone) && rest == loaded - gone && Lists(removed, gone)
      decreases todo
    {
      var id :| id in todo;
      DroppedNext(was.excerpts.Keys, todo, current.Keys, id);
      ghost var gone := Dropped(was.excerpts.Keys, todo, current.Keys);
      todo := todo - {id};
      if id !in current {
        WithoutMore(was, gone, id);
        ListsMore(removed, gone, id, gone + {id});
        x, rest, removed := Index(x.excerpts - {id}, x.refs - {id}), rest - {id}, removed + [id];
      }
    }
    SweptIs(was, current);
  }

  function Without<X>(x: Index<X>, gone: set<Id>): Index<X> { Index(x.excerpts - gone, x.refs - gone) }

  lemma WithoutNone<X>(x: Index<X>)
    ensures Without(x, {}) == x
  {
    assert x.excerpts - {} == x.excerpts && x.refs - {} == x.refs;
  }

  lemma WithoutMore<X>(x: Index<X>, gone: set<Id>, id: Id)
    ensures var y := Without(x, gone); Without(x, gone + {id}) == Index(y.excerpts - {id}, y.refs - {id})
  {
    assert x.excerpts - (gone + {id}) == x.excerpts - gone - {id};
    assert x.refs - (gone + {id}) == x.refs - gone - {id};
  }

  lemma SweptIs<X>(was: Index<X>, current: map<Id, Ref>)
    ensures Swept(was, current) == Without(was, was.excerpts.Keys - current.Keys)
  {
    assert Swept(was, current).excerpts == was.excerpts - (was.excerpts.Keys - current.Keys);
  }
}
