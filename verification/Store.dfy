/** The store's write protocol. */
module Store {
  // A short lock, a re-read, and a replay make an unconditional overwrite of the ref a fast-forward in
  // fact.

  import opened Documents
  import opened Entities

  function AppendedAll<S>(f: Folding<S>, c: Copy<S>, ops: seq<Op>): (r: Copy<S>)
    ensures r.ops == c.ops && r.staging == c.staging + ops && r.staged == c.staged + ops
  {
    if ops == [] then c else Appended(f, AppendedAll(f, c, ops[..|ops| - 1]), ops[|ops| - 1])
  }

  lemma {:induction false} AppendedAllCoherent<S(!new)>(f: Folding<S>, c: Copy<S>, ops: seq<Op>)
    requires Coherent(f, c)
    ensures Coherent(f, AppendedAll(f, c, ops))
  {
    if ops != [] {
      AppendedAllCoherent(f, c, ops[..|ops| - 1]);
      StepsCoherent(f, AppendedAll(f, c, ops[..|ops| - 1]), ops[|ops| - 1], [], Refused);
    }
  }

  /** What a commit writes: the staged operations on a fresh read, when there are any. */
  function Rebased<S>(c: Copy<S>, ref: seq<Op>): Copy<S> {
    if c.staged == [] then c else Reloaded(c, ref)
  }

  /** One process's handle on an entity, its methods run under the entity's mutex. */
  class CachedEntity<S(!new)> {
    const f: Folding<S>
    const repo: Repo
    var entity: WithSnapshot<S>

    ghost predicate Valid()
      reads this, entity, entity.inner
    {
      entity.f == f && Coherent(f, entity.View())
    }

    constructor (f: Folding<S>, repo: Repo)
      ensures Valid() && this.f == f && this.repo == repo && entity.View() == Opened(repo.ref)
      ensures fresh(entity) && fresh(entity.inner)
    {
      this.f, this.repo := f, repo;
      entity := new WithSnapshot(f, repo);
    }

    method Append(op: Op)
      requires Valid()
      modifies entity, entity.inner
      ensures Valid() && entity.View() == Appended(f, old(entity.View()), op)
    {
      StepsCoherent(f, entity.View(), op, [], Refused);
      entity.Append(op);
    }

    /** Replaces the entity with a fresh read, the given operations appended. */
    method ReloadLocked(ops: seq<Op>)
      requires Valid()
      modifies this
      ensures Valid() && fresh(entity) && fresh(entity.inner)
      ensures entity.View() == Copy(repo.ref, ops, None, ops)
    {
      var again := new WithSnapshot(f, repo);
      for i := 0 to |ops|
        invariant again.View() == Copy(repo.ref, ops[..i], None, ops[..i]) && again.f == f
        invariant fresh(again) && fresh(again.inner)
      {
        assert ops[..i + 1] == ops[..i] + [ops[i]];
        again.Append(ops[i]);
      }
      assert ops[..|ops|] == ops;
      entity := again;
    }

    method RebaseStaged()
      requires Valid()
      modifies this
      ensures Valid() && entity.View() == Rebased(old(entity.View()), repo.ref)
      ensures var was := old(entity.View());
              entity.View() == if was.staged == [] then was else Copy(repo.ref, was.staged, None, was.staged)
      ensures (entity == old(entity) && entity.inner == old(entity.inner)) || (fresh(entity) && fresh(entity.inner))
    {
      if entity.staged != [] {
        ReloadLocked(entity.staged);
      }
    }

    method Commit(fuse: nat, moves: bool) returns (ghost o: Outcome, ok: bool)
      requires Valid()
      modifies this, entity, entity.inner, repo
      ensures Valid() && ok == o.Written?
      ensures var c := Rebased(old(entity.View()), old(repo.ref));
              && Ending(c.ops, c.staging, fuse, moves, o)
              && Possible(c, o) && entity.View() == CommittedCopy(c, o) && repo.ref == CommittedRef(c, o, old(repo.ref))
      ensures var staged := old(entity.View()).staged;
              staged != [] && UniqueIds(old(repo.ref) + staged) && AuthorRuns(staged) <= fuse && moves ==>
                ok && repo.ref == old(repo.ref) + staged
    {
      hide Ending, UniqueIds, AuthorRuns, Possible, Fold;
      RebaseStaged();
      ghost var c := entity.View();
      o, ok := entity.Commit(repo, fuse, moves);
      EndsWritten(c.ops, c.staging, fuse, moves, o);
      StepsCoherent(f, c, Op(0, ""), [], o);
    }

    function NeedCommit(): bool
      reads this, entity, entity.inner
    {
      entity.inner.NeedCommit()
    }

    /**
     Read-modify-commit: decide runs on the snapshot as it is under the lock; None is its
     error. accepted is the schema's verdict on the batch.
     */
    method Update(decide: S -> Option<seq<Op>>, accepted: seq<Op> -> bool, fuse: nat, moves: bool)
      returns (ghost o: Outcome, ok: bool)
      requires Valid()
      modifies this, entity, entity.inner, repo
      ensures Valid()
      ensures var c := Reloaded(old(entity.View()), old(repo.ref));
              var decided := decide(Fold(f, c.ops + c.staging));
              if decided.Some? && decided.value != [] && accepted(decided.value) then
                var d := AppendedAll(f, Compiled(f, c), decided.value);
                && ok == o.Written? && Ending(d.ops, d.staging, fuse, moves, o) && Possible(d, o)
                && entity.View() == CommittedCopy(d, o) && repo.ref == CommittedRef(d, o, old(repo.ref))
              else
                && ok == (decided == Some([])) && repo.ref == old(repo.ref) && entity.View() == Compiled(f, c)
      ensures var staged := old(entity.View()).staged;
              var decided := decide(Fold(f, old(repo.ref) + staged));
              decided.Some? && decided.value != [] && accepted(decided.value)
              && UniqueIds(old(repo.ref) + (staged + decided.value)) && AuthorRuns(staged + decided.value) <= fuse && moves ==>
                ok && repo.ref == old(repo.ref) + (staged + decided.value)
    {
      hide Ending, UniqueIds, AuthorRuns, Possible, Fold;
      o := Refused;
      ReloadLocked(entity.staged);
      ghost var again := entity;
      StepsCoherent(f, entity.View(), Op(0, ""), [], Refused);
      ghost var c := Compiled(f, entity.View());
      var snap := entity.Compile();
      var decided := decide(snap);
      if decided.None? {
        return o, false;
      }
      var ops := decided.value;
      if ops == [] {
        return o, true;
      }
      if !accepted(ops) {
        return o, false;
      }
      for i := 0 to |ops|
        invariant entity == again
        invariant entity.View() == AppendedAll(f, c, ops[..i]) && entity.f == f && repo.ref == old(repo.ref)
      {
        assert ops[..i + 1][..i] == ops[..i];
        entity.Append(ops[i]);
      }
      assert ops[..|ops|] == ops;
      AppendedAllCoherent(f, c, ops);
      ghost var d := entity.View();
      o, ok := entity.Commit(repo, fuse, moves);
      EndsWritten(d.ops, d.staging, fuse, moves, o);
      StepsCoherent(f, d, Op(0, ""), [], o);
    }
  }
}
