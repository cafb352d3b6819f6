/** An entity as a cache holds it. */
module Entities {
  // The operations read from its ref, those staged, the snapshot kept beside them, and the list of staged
  // operations a commit replays.

  import opened Documents

  datatype Op = Op(id: nat, author: string)

  /** How operations fold into a snapshot. */
  datatype Folding<!S> = Folding(init: S, apply: (S, Op) -> S)

  function Fold<S>(f: Folding<S>, ops: seq<Op>): S {
    if ops == [] then f.init else f.apply(Fold(f, ops[..|ops| - 1]), ops[|ops| - 1])
  }

  function Ids(ops: seq<Op>): set<nat> { set op | op in ops :: op.id }

  predicate UniqueIds(ops: seq<Op>) { forall i, j :: 0 <= i < j < |ops| ==> ops[i].id != ops[j].id }

  /** One process's copy: `staging` is what the entity would write, `staged` what a replay would. */
  datatype Copy<S> = Copy(ops: seq<Op>, staging: seq<Op>, snap: Option<S>, staged: seq<Op>)

  /** The cached snapshot, when there is one, is the fold of the copy's operations. */
  ghost predicate Coherent<S(!new)>(f: Folding<S>, c: Copy<S>) {
    c.snap.Some? ==> c.snap.value == Fold(f, c.ops + c.staging)
  }

  function Opened<S>(ref: seq<Op>): Copy<S> { Copy(ref, [], None, []) }

  /** A copy with neither snapshot nor record, as the entity below the cache is. */
  function Bare(ops: seq<Op>, staging: seq<Op>): Copy<()> { Copy(ops, staging, None, []) }

  function Appended<S>(f: Folding<S>, c: Copy<S>, op: Op): Copy<S> {
    Copy(c.ops, c.staging + [op], if c.snap.Some? then Some(f.apply(c.snap.value, op)) else None, c.staged + [op])
  }

  /** A fresh read with the staged operations replayed onto it. */
  function Reloaded<S>(c: Copy<S>, ref: seq<Op>): Copy<S> { Copy(ref, c.staged, None, c.staged) }

  function Compiled<S>(f: Folding<S>, c: Copy<S>): Copy<S> {
    if c.snap.Some? then c else c.(snap := Some(Fold(f, c.ops + c.staging)))
  }

  /**
   How a commit ends: Written moves the ref; Refused changes nothing but drops the snapshot;
   Broken stops in the middle, operations up to i written, those up to j in hand and gone from
   the entity's staging area.
   */
  datatype Outcome = Written | Refused | Broken(i: nat, j: nat)

  predicate Possible<S>(c: Copy<S>, o: Outcome) {
    match o
    case Written => c.staging != [] && UniqueIds(c.ops + c.staging)
    case Refused => true
    case Broken(i, j) => i <= j <= |c.staging|
  }

  function CommittedCopy<S>(c: Copy<S>, o: Outcome): Copy<S>
    requires Possible(c, o)
  {
    match o
    case Written => Copy(c.ops + c.staging, [], c.snap, [])
    case Refused => c.(snap := None)
    case Broken(i, j) => Copy(c.ops + c.staging[..i], c.staging[j..], None, c.staged)
  }

  /** The ref after a commit: overwritten with everything the copy holds. */
  function CommittedRef<S>(c: Copy<S>, o: Outcome, ref: seq<Op>): seq<Op>
    requires Possible(c, o)
  {
    if o.Written? then c.ops + c.staging else ref
  }

  // ---- how a commit ends ----

  /** A run of one author's operations ends here. */
  predicate Cut(ops: seq<Op>, i: nat)
    requires i <= |ops|
  {
    i == 0 || i == |ops| || ops[i - 1].author != ops[i].author
  }

  /** How many times the author changes, the first counted. */
  function AuthorRuns(ops: seq<Op>): nat {
    if ops == [] then 0
    else
      var n := |ops| - 1;
      AuthorRuns(ops[..n]) + if n == 0 || ops[n - 1].author != ops[n].author then 1 else 0
  }

  /**
   A commit of these operations over those, when storage takes so many chunks and then moves the
   ref or not: refused with nothing staged or an id repeated; written when every run of one
   author gets its chunk and the ref moves; else broken after the chunks there was room for, with
   the next run in hand, or after all of them.
   */
  ghost predicate Ending(ops: seq<Op>, staging: seq<Op>, fuse: nat, moves: bool, o: Outcome) {
    if staging == [] || !UniqueIds(ops + staging) then o == Refused
    else if AuthorRuns(staging) > fuse then
      && o.Broken? && o.i < o.j <= |staging| && Cut(staging, o.i) && Cut(staging, o.j)
      && AuthorRuns(staging[..o.i]) == fuse && AuthorRuns(staging[..o.j]) == fuse + 1
    else o == if moves then Written else Broken(|staging|, |staging|)
  }

  /** A commit succeeds exactly when something is staged, no id is repeated, every run has its chunk and the ref moves. */
  lemma EndsWritten(ops: seq<Op>, staging: seq<Op>, fuse: nat, moves: bool, o: Outcome)
    requires Ending(ops, staging, fuse, moves, o)
    ensures o.Written? <==> staging != [] && UniqueIds(ops + staging) && AuthorRuns(staging) <= fuse && moves
  {
  }

  lemma {:induction false} RunsGrow(ops: seq<Op>, i: nat, j: nat)
    requires i <= j <= |ops|
    ensures AuthorRuns(ops[..i]) <= AuthorRuns(ops[..j])
    ensures i < j && Cut(ops, i) ==> AuthorRuns(ops[..i]) < AuthorRuns(ops[..j])
    decreases j
  {
    if i < j {
      assert ops[..j][..j - 1] == ops[..j - 1];
      if i < j - 1 { RunsGrow(ops, i, j - 1); }
    }
  }

  /** There is one way to end. */
  lemma EndsOnce(ops: seq<Op>, staging: seq<Op>, fuse: nat, moves: bool, a: Outcome, b: Outcome)
    requires Ending(ops, staging, fuse, moves, a) && Ending(ops, staging, fuse, moves, b)
    ensures a == b
  {
    if a.Broken? && b.Broken? && AuthorRuns(staging) > fuse {
      CutOnce(staging, a.i, b.i);
      CutOnce(staging, a.j, b.j);
    }
  }

  lemma CutOnce(ops: seq<Op>, i: nat, j: nat)
    requires i <= |ops| && j <= |ops| && Cut(ops, i) && Cut(ops, j) && AuthorRuns(ops[..i]) == AuthorRuns(ops[..j])
    ensures i == j
  {
    if i <= j { RunsGrow(ops, i, j); } else { RunsGrow(ops, j, i); }
  }

  /** One author's operations after a cut are one run more. */
  lemma {:induction false} OneRun(ops: seq<Op>, i: nat, j: nat)
    requires i < j <= |ops| && Cut(ops, i) && forall k :: i <= k < j ==> ops[k].author == ops[i].author
    ensures AuthorRuns(ops[..j]) == AuthorRuns(ops[..i]) + 1
    decreases j
  {
    assert ops[..j][..j - 1] == ops[..j - 1];
    if i < j - 1 { OneRun(ops, i, j - 1); }
  }

  lemma EndsRefused(ops: seq<Op>, staging: seq<Op>, fuse: nat, moves: bool)
    requires staging == [] || !UniqueIds(ops + staging)
    ensures Ending(ops, staging, fuse, moves, Refused)
  {
  }

  lemma NoRuns(ops: seq<Op>)
    ensures Cut(ops, 0) && AuthorRuns(ops[..0]) == 0
  {
  }

  lemma EndsShort(ops: seq<Op>, staging: seq<Op>, fuse: nat, moves: bool, i: nat, j: nat)
    requires staging != [] && UniqueIds(ops + staging) && i < j <= |staging| && Cut(staging, i) && Cut(staging, j)
    requires AuthorRuns(staging[..i]) == fuse && AuthorRuns(staging[..j]) == fuse + 1 <= AuthorRuns(staging)
    ensures Ending(ops, staging, fuse, moves, Broken(i, j))
  {
    hide AuthorRuns, Cut, UniqueIds;
  }

  lemma EndsLast(ops: seq<Op>, staging: seq<Op>, fuse: nat, moves: bool)
    requires staging != [] && UniqueIds(ops + staging) && AuthorRuns(staging) <= fuse
    ensures Ending(ops, staging, fuse, moves, if moves then Written else Broken(|staging|, |staging|))
  {
    hide AuthorRuns, UniqueIds;
  }

  // ---- the snapshot beside the entity ----

  lemma FoldNext<S>(f: Folding<S>, ops: seq<Op>, op: Op)
    ensures Fold(f, ops + [op]) == f.apply(Fold(f, ops), op)
  {
    assert (ops + [op])[..|ops|] == ops;
  }

  lemma StepsCoherent<S(!new)>(f: Folding<S>, c: Copy<S>, op: Op, ref: seq<Op>, o: Outcome)
    requires Coherent(f, c)
    ensures Coherent(f, Appended(f, c, op)) && Coherent(f, Compiled(f, c)) && Coherent(f, Reloaded(c, ref))
    ensures Possible(c, o) ==> Coherent(f, CommittedCopy(c, o))
  {
    FoldNext(f, c.ops + c.staging, op);
    assert c.ops + (c.staging + [op]) == (c.ops + c.staging) + [op];
    assert (c.ops + c.staging) + [] == c.ops + c.staging;
  }

  class Repo {
    var ref: seq<Op>

    constructor (ref: seq<Op>)
      ensures this.ref == ref
    {
      this.ref := ref;
    }
  }

  /** The entity below the cache: it splits what is staged by author, writes each chunk, then moves the ref. */
  class DagEntity {
    var ops: seq<Op>
    var staging: seq<Op>

    constructor Read(repo: Repo)
      ensures ops == repo.ref && staging == []
    {
      ops, staging := repo.ref, [];
    }

    method Append(op: Op)
      modifies this
      ensures ops == old(ops) && staging == old(staging) + [op]
    {
      staging := staging + [op];
    }

    function NeedCommit(): bool
      reads this
    {
      staging != []
    }

    /** fuse is how many chunks can be written before storage fails; moves, whether the ref can then be moved. */
    method Commit(repo: Repo, fuse: nat, moves: bool) returns (ghost o: Outcome, ok: bool)
      modifies this, repo
      ensures ok == o.Written? && Ending(old(ops), old(staging), fuse, moves, o)
      ensures Possible(Bare(old(ops), old(staging)), o)
      ensures var c := CommittedCopy(Bare(old(ops), old(staging)), o); ops == c.ops && staging == c.staging
      ensures repo.ref == CommittedRef(Bare(old(ops), old(staging)), o, old(repo.ref))
    {
      hide AuthorRuns, UniqueIds, Ending, ChunkOf, Cut;
      if !NeedCommit() || !UniqueIds(ops + staging) {
        EndsRefused(ops, staging, fuse, moves);
        return Refused, false;
      }
      ghost var was, all := ops, staging;
      NoRuns(all);
      var left := fuse;
      ghost var at: nat := 0;
      while staging != []
        invariant at <= |all| && ops == was + all[..at] && staging == all[at..]
        invariant repo.ref == old(repo.ref)
        invariant Cut(all, at) && AuthorRuns(all[..at]) + left == fuse
        decreases |staging|
      {
        var chunk := ChunkOf(staging);
        NextRun(all, at, |chunk|);
        staging := staging[|chunk|..];
        if left == 0 {
          EndsShort(was, all, fuse, moves, at, at + |chunk|);
          return Broken(at, at + |chunk|), false;
        }
        left := left - 1;
        assert all[..at] + chunk == all[..at + |chunk|];
        ops := ops + chunk;
        at := at + |chunk|;
      }
      assert all[..at] == all;
      EndsLast(was, all, fuse, moves);
      if !moves {
        return Broken(at, at), false;
      }
      repo.ref := ops;
      return Written, true;
    }
  }

  /** The staged operations up to the first by another author. */
  function ChunkOf(staging: seq<Op>): (chunk: seq<Op>)
    requires staging != []
    ensures 0 < |chunk| <= |staging| && chunk == staging[..|chunk|]
    ensures forall op :: op in chunk ==> op.author == staging[0].author
    ensures |chunk| < |staging| ==> staging[|chunk|].author != staging[0].author
  {
    if |staging| == 1 || staging[1].author != staging[0].author then staging[..1]
    else [staging[0]] + ChunkOf(staging[1..])
  }

  /** A chunk is the next run. */
  lemma NextRun(all: seq<Op>, at: nat, n: nat)
    requires at < |all| && Cut(all, at) && n == |ChunkOf(all[at..])|
    ensures at + n <= |all| && Cut(all, at + n) && AuthorRuns(all[..at + n]) == AuthorRuns(all[..at]) + 1
    ensures AuthorRuns(all[..at + n]) <= AuthorRuns(all)
  {
    var chunk := ChunkOf(all[at..]);
    forall k | at <= k < at + n ensures all[k].author == all[at].author {
      assert all[k] == chunk[k - at];
    }
    OneRun(all, at, at + n);
    RunsGrow(all, at + n, |all|);
    assert all[..|all|] == all;
  }

  /** The wrapper that keeps the snapshot and records what is staged. */
  class WithSnapshot<S(!new)> {
    const f: Folding<S>
    const inner: DagEntity
    var snap: Option<S>
    var staged: seq<Op>

    function View(): Copy<S>
      reads this, inner
    {
      Copy(inner.ops, inner.staging, snap, staged)
    }

    constructor (f: Folding<S>, repo: Repo)
      ensures View() == Opened(repo.ref) && this.f == f && fresh(inner)
    {
      this.f := f;
      inner := new DagEntity.Read(repo);
      snap, staged := None, [];
    }

    method Compile() returns (s: S)
      requires Coherent(f, View())
      modifies this
      ensures View() == Compiled(f, old(View())) && s == Fold(f, inner.ops + inner.staging)
    {
      if snap.None? {
        snap := Some(Fold(f, inner.ops + inner.staging));
      }
      s := snap.value;
    }

    method Append(op: Op)
      modifies this, inner
      ensures View() == Appended(f, old(View()), op)
    {
      inner.Append(op);
      staged := staged + [op];
      if snap.Some? {
        snap := Some(f.apply(snap.value, op));
      }
    }

    method Commit(repo: Repo, fuse: nat, moves: bool) returns (ghost o: Outcome, ok: bool)
      modifies this, inner, repo
      ensures ok == o.Written? && Ending(old(View()).ops, old(View()).staging, fuse, moves, o) && Possible(old(View()), o)
      ensures View() == CommittedCopy(old(View()), o) && repo.ref == CommittedRef(old(View()), o, old(repo.ref))
    {
      o, ok := inner.Commit(repo, fuse, moves);
      if !ok {
        snap := None;
      } else {
        staged := [];
      }
    }
  }
}
