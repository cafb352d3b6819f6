/** Whole runs of the store. */
module StoreRuns {
  // Any number of processes on one entity, in any interleaving: opening, staging, committing, updating,
  // crashing. A step is what one process does while holding its own mutex; the write lock is held across
  // the steps of one commit or update.

  import opened Documents
  import opened Entities
  import opened Store

  /** Where a process is: free, holding the lock, rebased for a commit, or deciding an update. */
  datatype Phase = Free | Holding | Rebasing | Deciding

  datatype Process<S> = Process(copy: Copy<S>, phase: Phase)

  /** `acknowledged` are the operations whose commit succeeded, `used` every operation id handed out. */
  datatype State<S> = State(
    ref: seq<Op>, lock: Option<nat>, procs: map<nat, Process<S>>,
    acknowledged: set<nat>, used: set<nat>)

  datatype Event =
    | Open(p: nat)
    | Append(p: nat, op: Op)
    | Acquire(p: nat)
    | Rebase(p: nat)
    | Commit(p: nat, o: Outcome)
    | Reload(p: nat)
    | Decide(p: nat, ops: seq<Op>, o: Outcome)
    | Abandon(p: nat)
    | Crash(p: nat)

  /** Operations never handed out before, with distinct ids. */
  predicate New<S>(st: State<S>, ops: seq<Op>) { UniqueIds(ops) && Ids(ops) !! st.used }

  /** Whether the protocol allows an event. A copy is replaced only when it needs no commit. */
  ghost predicate Enabled<S>(f: Folding<S>, st: State<S>, e: Event) {
    match e
    case Open(p) => p in st.procs ==> st.procs[p].phase.Free? && st.procs[p].copy.staging == []
    case Append(p, op) =>
      p in st.procs && (st.procs[p].phase.Free? || st.procs[p].phase.Deciding?) && New(st, [op])
    case Acquire(p) => p in st.procs && st.procs[p].phase.Free? && st.lock.None?
    case Rebase(p) => p in st.procs && st.procs[p].phase.Holding?
    case Commit(p, o) => p in st.procs && st.procs[p].phase.Rebasing? && Possible(st.procs[p].copy, o)
    case Reload(p) => p in st.procs && st.procs[p].phase.Holding?
    case Decide(p, ops, o) =>
      p in st.procs && st.procs[p].phase.Deciding? && New(st, ops) &&
      Possible(AppendedAll(f, st.procs[p].copy, ops), o)
    case Abandon(p) => p in st.procs && st.procs[p].phase.Deciding?
    case Crash(p) => p in st.procs
  }

  /** A process ends its turn with the lock: the copy and the ref its commit leaves. */
  function Committed<S>(st: State<S>, p: nat, c: Copy<S>, o: Outcome, handed: set<nat>): State<S>
    requires Possible(c, o)
  {
    State(CommittedRef(c, o, st.ref), None, st.procs[p := Process(CommittedCopy(c, o), Free)],
          if o.Written? then st.acknowledged + Ids(c.staging) else st.acknowledged, st.used + handed)
  }

  ghost function Next<S>(f: Folding<S>, st: State<S>, e: Event): State<S>
    requires Enabled(f, st, e)
  {
    match e
    case Open(p) => st.(procs := st.procs[p := Process(Opened(st.ref), Free)])
    case Append(p, op) =>
      st.(procs := st.procs[p := st.procs[p].(copy := Appended(f, st.procs[p].copy, op))], used := st.used + {op.id})
    case Acquire(p) => st.(lock := Some(p), procs := st.procs[p := st.procs[p].(phase := Holding)])
    case Rebase(p) => st.(procs := st.procs[p := Process(Rebased(st.procs[p].copy, st.ref), Rebasing)])
    case Commit(p, o) => Committed(st, p, st.procs[p].copy, o, {})
    case Reload(p) =>
      st.(procs := st.procs[p := Process(Compiled(f, Reloaded(st.procs[p].copy, st.ref)), Deciding)])
    case Decide(p, ops, o) => Committed(st, p, AppendedAll(f, st.procs[p].copy, ops), o, Ids(ops))
    case Abandon(p) => st.(lock := None, procs := st.procs[p := st.procs[p].(phase := Free)])
    case Crash(p) => st.(lock := if st.lock == Some(p) then None else st.lock, procs := st.procs - {p})
  }

  ghost predicate Legal<S>(f: Folding<S>, st: State<S>, events: seq<Event>)
    decreases |events|
  {
    events == [] || (Enabled(f, st, events[0]) && Legal(f, Next(f, st, events[0]), events[1..]))
  }

  ghost function Run<S>(f: Folding<S>, st: State<S>, events: seq<Event>): State<S>
    requires Legal(f, st, events)
    decreases |events|
  {
    if events == [] then st else Run(f, Next(f, st, events[0]), events[1..])
  }

  function Initial<S>(ref: seq<Op>): State<S> { State(ref, None, map[], {}, Ids(ref)) }

  // ---- the invariant ----

  /** a is the end of b. */
  predicate Ends(a: seq<Op>, b: seq<Op>) { |a| <= |b| && a == b[|b| - |a|..] }

  lemma EndsSelf(a: seq<Op>)
    ensures Ends(a, a)
  {
  }

  lemma EndsLess(a: seq<Op>, b: seq<Op>, j: nat)
    requires Ends(a, b) && j <= |a|
    ensures Ends(a[j..], b)
  {
  }

  lemma EndsMore(a: seq<Op>, b: seq<Op>, c: seq<Op>)
    requires Ends(a, b)
    ensures Ends(a + c, b + c)
  {
  }

  /** What a process may write next: its staging area ends its record, on a fresh read when it is about to write. */
  ghost predicate CopyOk<S(!new)>(f: Folding<S>, st: State<S>, p: nat, x: Process<S>) {
    && Coherent(f, x.copy)
    && Ends(x.copy.staging, x.copy.staged)
    && UniqueIds(x.copy.staged) && Ids(x.copy.staged) <= st.used && Ids(x.copy.staged) !! Ids(st.ref)
    && (!x.phase.Free? <==> st.lock == Some(p))
    && ((x.phase.Rebasing? && x.copy.staged != []) || x.phase.Deciding? ==>
          x.copy.ops == st.ref && x.copy.staging == x.copy.staged)
  }

  ghost predicate Invariant<S(!new)>(f: Folding<S>, st: State<S>) {
    && UniqueIds(st.ref) && Ids(st.ref) <= st.used && st.acknowledged <= Ids(st.ref)
    && (forall p :: p in st.procs ==> CopyOk(f, st, p, st.procs[p]))
    && (forall p, q :: p in st.procs && q in st.procs && p != q ==>
          Ids(st.procs[p].copy.staged) !! Ids(st.procs[q].copy.staged))
    && (st.lock.Some? ==> st.lock.value in st.procs)
  }

  lemma UniqueAppend(a: seq<Op>, b: seq<Op>)
    requires UniqueIds(a) && UniqueIds(b) && Ids(a) !! Ids(b)
    ensures UniqueIds(a + b) && Ids(a + b) == Ids(a) + Ids(b)
  {
    forall i, j | 0 <= i < j < |a + b| ensures (a + b)[i].id != (a + b)[j].id {
      if i < |a| <= j {
        assert a[i].id in Ids(a) && b[j - |a|].id in Ids(b);
      }
    }
    forall x ensures x in Ids(a + b) <==> x in Ids(a) + Ids(b) {
      if x in Ids(a) { var op :| op in a && op.id == x; assert op in a + b; }
      if x in Ids(b) { var op :| op in b && op.id == x; assert op in a + b; }
    }
  }

  /** A process changes its own copy and nothing another relies on. */
  lemma CopyReplaced<S(!new)>(f: Folding<S>, st: State<S>, p: nat, x: Process<S>, lock: Option<nat>, used: set<nat>)
    requires Invariant(f, st) && st.used <= used
    requires var t := st.(procs := st.procs[p := x], lock := lock, used := used); CopyOk(f, t, p, x)
    requires forall q :: q in st.procs && q != p ==> (st.lock == Some(q) <==> lock == Some(q))
    requires lock.Some? ==> lock.value in st.procs || lock.value == p
    requires forall q :: q in st.procs && q != p ==> Ids(st.procs[q].copy.staged) !! Ids(x.copy.staged)
    ensures Invariant(f, st.(procs := st.procs[p := x], lock := lock, used := used))
  {
    hide Coherent, UniqueIds, Ids, Ends;
    var t := st.(procs := st.procs[p := x], lock := lock, used := used);
    forall q | q in t.procs ensures CopyOk(f, t, q, t.procs[q]) {
      if q != p { assert CopyOk(f, st, q, st.procs[q]); }
    }
  }

  lemma OneId(op: Op)
    ensures Ids([op]) == {op.id}
  {
    assert op in [op];
  }

  lemma AppendedCopy<S(!new)>(f: Folding<S>, st: State<S>, p: nat, op: Op)
    requires Enabled(f, st, Append(p, op)) && CopyOk(f, st, p, st.procs[p]) && Ids(st.ref) <= st.used
    ensures CopyOk(f, Next(f, st, Append(p, op)), p, Next(f, st, Append(p, op)).procs[p])
    ensures Ids(st.procs[p].copy.staged + [op]) == Ids(st.procs[p].copy.staged) + {op.id}
  {
    hide Coherent, UniqueIds, Ids, Ends;
    var x := st.procs[p];
    StepsCoherent(f, x.copy, op, [], Refused);
    OneId(op);
    EndsMore(x.copy.staging, x.copy.staged, [op]);
    UniqueAppend(x.copy.staged, [op]);
  }

  lemma AppendedOk<S(!new)>(f: Folding<S>, st: State<S>, p: nat, op: Op)
    requires Invariant(f, st) && Enabled(f, st, Append(p, op))
    ensures Invariant(f, Next(f, st, Append(p, op)))
  {
    hide CopyOk, UniqueIds;
    AppendedCopy(f, st, p, op);
    forall q | q in st.procs && q != p
      ensures Ids(st.procs[q].copy.staged) !! Ids(st.procs[p].copy.staged + [op])
    {
      UsedHas(f, st, q);
      OneId(op);
    }
    CopyReplaced(f, st, p, Next(f, st, Append(p, op)).procs[p], st.lock, st.used + {op.id});
  }

  lemma UsedHas<S(!new)>(f: Folding<S>, st: State<S>, q: nat)
    requires Invariant(f, st) && q in st.procs
    ensures Ids(st.procs[q].copy.staged) <= st.used
  {
    assert CopyOk(f, st, q, st.procs[q]);
  }

  lemma NoIds()
    ensures UniqueIds([]) && Ids([]) == {}
  {
  }

  lemma OpenedCoherent<S(!new)>(f: Folding<S>, ref: seq<Op>)
    ensures Coherent(f, Opened(ref))
  {
  }

  predicate Quiet(e: Event) { e.Acquire? || e.Rebase? || e.Reload? || e.Abandon? || e.Open? }

  lemma QuietCopy<S(!new)>(f: Folding<S>, st: State<S>, e: Event)
    requires Enabled(f, st, e) && Quiet(e) && (st.lock.Some? ==> st.lock.value in st.procs)
    requires e.p in st.procs ==> CopyOk(f, st, e.p, st.procs[e.p])
    ensures CopyOk(f, Next(f, st, e), e.p, Next(f, st, e).procs[e.p])
    ensures var staged := Next(f, st, e).procs[e.p].copy.staged; staged == [] || (e.p in st.procs && staged == st.procs[e.p].copy.staged)
    ensures var lock := Next(f, st, e).lock; lock == st.lock || {lock, st.lock} == {None, Some(e.p)}
  {
    hide Coherent, Fold, UniqueIds, Ids, Ends;
    OpenedCoherent(f, st.ref);
    EndsSelf([]);
    if e.p in st.procs { EndsSelf(st.procs[e.p].copy.staged); }
    NoIds();
    if e.p in st.procs {
      var c := st.procs[e.p].copy;
      StepsCoherent(f, c, Op(0, ""), st.ref, Refused);
      StepsCoherent(f, Reloaded(c, st.ref), Op(0, ""), st.ref, Refused);
    }
  }

  lemma QuietOk<S(!new)>(f: Folding<S>, st: State<S>, e: Event)
    requires Invariant(f, st) && Enabled(f, st, e) && Quiet(e)
    ensures Invariant(f, Next(f, st, e))
  {
    hide CopyOk, UniqueIds;
    QuietCopy(f, st, e);
    var t := Next(f, st, e);
    NoIds();
    CopyReplaced(f, st, e.p, t.procs[e.p], t.lock, st.used);
  }

  lemma CrashOk<S(!new)>(f: Folding<S>, st: State<S>, p: nat)
    requires Invariant(f, st) && p in st.procs
    ensures Invariant(f, Next(f, st, Crash(p)))
  {
    var t := Next(f, st, Crash(p));
    forall q | q in t.procs ensures CopyOk(f, t, q, t.procs[q]) {
      assert CopyOk(f, st, q, st.procs[q]);
    }
  }

  lemma CommittedCopyOk<S(!new)>(f: Folding<S>, st: State<S>, p: nat, c: Copy<S>, o: Outcome, handed: set<nat>)
    requires p in st.procs && st.lock == Some(p) && Possible(c, o)
    requires CopyOk(f, st, p, st.procs[p]) && UniqueIds(st.ref) && Ids(st.ref) <= st.used
    requires CopyOk(f, st.(used := st.used + handed), p, Process(c, Deciding)) || (c == st.procs[p].copy && c.staging == [])
    ensures var t := Committed(st, p, c, o, handed);
            && CopyOk(f, t, p, t.procs[p]) && UniqueIds(t.ref)
            && (if o.Written? then t.ref == st.ref + c.staged && Ids(t.ref) == Ids(st.ref) + Ids(c.staged) && c.staging == c.staged
                else t.ref == st.ref && t.procs[p].copy.staged == c.staged)
            && Ids(c.staged) <= t.used
  {
    hide Coherent, UniqueIds, Ids, Ends;
    StepsCoherent(f, c, Op(0, ""), [], o);
    if o.Written? { UniqueAppend(st.ref, c.staged); }
    if o.Broken? { EndsLess(c.staging, c.staged, o.j); }
    NoIds();
    EndsSelf([]);
  }

  /**
   The commit itself, from the copy the lock holder is about to write: on success the ref is
   what it was and the staged operations after it; otherwise the ref and the record stand.
   */
  lemma CommittedOk<S(!new)>(f: Folding<S>, st: State<S>, p: nat, c: Copy<S>, o: Outcome, handed: set<nat>)
    requires Invariant(f, st) && p in st.procs && st.lock == Some(p) && Possible(c, o)
    requires CopyOk(f, st.(used := st.used + handed), p, Process(c, Deciding)) || (c == st.procs[p].copy && c.staging == [])
    requires forall q :: q in st.procs && q != p ==> Ids(st.procs[q].copy.staged) !! Ids(c.staged)
    ensures var t := Committed(st, p, c, o, handed);
            && Invariant(f, t)
            && (if o.Written? then t.ref == st.ref + c.staged && t.acknowledged == st.acknowledged + Ids(c.staged)
                else t.ref == st.ref && t.acknowledged == st.acknowledged && t.procs[p].copy.staged == c.staged)
  {
    hide Coherent, UniqueIds, Ids, Ends;
    var t := Committed(st, p, c, o, handed);
    assert CopyOk(f, st, p, st.procs[p]);
    CommittedCopyOk(f, st, p, c, o, handed);
    forall q | q in t.procs ensures CopyOk(f, t, q, t.procs[q]) {
      if q != p {
        assert CopyOk(f, st, q, st.procs[q]);
        assert Ids(t.ref) <= Ids(st.ref) + Ids(c.staged);
      }
    }
    NoIds();
  }

  /** What a commit or an update would write: its record, with what it decided. */
  ghost function Writing<S>(f: Folding<S>, st: State<S>, e: Event): Copy<S>
    requires Enabled(f, st, e) && (e.Commit? || e.Decide?)
  {
    if e.Commit? then st.procs[e.p].copy else AppendedAll(f, st.procs[e.p].copy, e.ops)
  }

  lemma DecidedOk<S(!new)>(f: Folding<S>, st: State<S>, e: Event)
    requires Invariant(f, st) && Enabled(f, st, e) && e.Decide?
    ensures CopyOk(f, st.(used := st.used + Ids(e.ops)), e.p, Process(Writing(f, st, e), Deciding))
    ensures forall q :: q in st.procs && q != e.p ==> Ids(st.procs[q].copy.staged) !! Ids(Writing(f, st, e).staged)
  {
    hide Coherent, UniqueIds, Ids, Ends;
    var x := st.procs[e.p];
    assert CopyOk(f, st, e.p, x);
    EndsMore(x.copy.staging, x.copy.staged, e.ops);
    AppendedAllCoherent(f, x.copy, e.ops);
    UniqueAppend(x.copy.staged, e.ops);
    forall q | q in st.procs && q != e.p ensures Ids(st.procs[q].copy.staged) !! Ids(x.copy.staged + e.ops) {
      assert CopyOk(f, st, q, st.procs[q]);
    }
  }

  /**
   A commit that succeeds leaves the ref it found with exactly its staged operations after it,
   and acknowledges them; one that fails leaves the ref and keeps every staged operation.
   */
  lemma CommitExtends<S(!new)>(f: Folding<S>, st: State<S>, e: Event)
    requires Invariant(f, st) && Enabled(f, st, e) && (e.Commit? || e.Decide?)
    ensures var c, t := Writing(f, st, e), Next(f, st, e);
            && Invariant(f, t)
            && (if e.o.Written? then t.ref == st.ref + c.staged && t.acknowledged == st.acknowledged + Ids(c.staged)
                else t.ref == st.ref && t.acknowledged == st.acknowledged && t.procs[e.p].copy.staged == c.staged)
  {
    assert CopyOk(f, st, e.p, st.procs[e.p]);
    if e.Decide? {
      DecidedOk(f, st, e);
      CommittedOk(f, st, e.p, Writing(f, st, e), e.o, Ids(e.ops));
    } else {
      assert st.used + {} == st.used;
      CommittedOk(f, st, e.p, Writing(f, st, e), e.o, {});
    }
  }

  lemma StepSafe<S(!new)>(f: Folding<S>, st: State<S>, e: Event)
    requires Invariant(f, st) && Enabled(f, st, e)
    ensures Invariant(f, Next(f, st, e))
    ensures st.ref <= Next(f, st, e).ref && st.acknowledged <= Next(f, st, e).acknowledged
  {
    match e {
      case Append(p, op) => AppendedOk(f, st, p, op);
      case Commit(_, _) => CommitExtends(f, st, e);
      case Decide(_, _, _) => CommitExtends(f, st, e);
      case Crash(p) => CrashOk(f, st, p);
      case _ => QuietOk(f, st, e);
    }
  }

  lemma {:induction false} RunSafe<S(!new)>(f: Folding<S>, st: State<S>, events: seq<Event>)
    requires Invariant(f, st) && Legal(f, st, events)
    ensures Invariant(f, Run(f, st, events))
    ensures st.ref <= Run(f, st, events).ref && st.acknowledged <= Run(f, st, events).acknowledged
    decreases |events|
  {
    if events != [] {
      StepSafe(f, st, events[0]);
      RunSafe(f, Next(f, st, events[0]), events[1..]);
    }
  }

  /**
   Concurrent writers lose nothing: over any run the ref only extends, every operation whose
   commit succeeded is in it exactly once, and every cached snapshot is the fold of its copy.
   */
  lemma WritersLoseNothing<S(!new)>(f: Folding<S>, ref: seq<Op>, events: seq<Event>)
    requires UniqueIds(ref) && Legal(f, Initial(ref), events)
    ensures var st := Run(f, Initial(ref), events);
            && ref <= st.ref
            && (forall id :: id in st.acknowledged ==> exists i :: 0 <= i < |st.ref| && st.ref[i].id == id)
            && (forall i, j :: 0 <= i < j < |st.ref| ==> st.ref[i].id != st.ref[j].id)
            && (forall p :: p in st.procs ==> Coherent(f, st.procs[p].copy))
  {
    RunSafe(f, Initial(ref), events);
    var st := Run(f, Initial(ref), events);
    forall id | id in st.acknowledged ensures exists i :: 0 <= i < |st.ref| && st.ref[i].id == id {
      assert id in Ids(st.ref);
    }
    forall p | p in st.procs ensures Coherent(f, st.procs[p].copy) { assert CopyOk(f, st, p, st.procs[p]); }
  }

  // ---- what a failed commit leaves ----

  /**
   The entity's own word on whether it needs a commit is exact only as long as no commit broke
   in the middle: the record keeps the operations in hand, the staging area does not.
   */
  lemma BrokenCommitHidesStaged<S>(c: Copy<S>, i: nat, j: nat)
    requires c.staging == c.staged && i <= j <= |c.staging|
    ensures var d := CommittedCopy(c, Broken(i, j));
            && d.staged == c.staged && (d.staging == [] <==> j == |c.staged|)
            && (d.ops + d.staging == c.ops + c.staged <==> i == j)
  {
    var d := CommittedCopy(c, Broken(i, j));
    assert |d.ops + d.staging| == |c.ops| + i + (|c.staged| - j);
    if i == j { assert c.ops + c.staging[..i] + c.staging[i..] == c.ops + c.staged; }
  }

  /** Committing again after a break writes the whole record all the same: it is replayed on a fresh read. */
  lemma CommitAgainWritesAll<S>(c: Copy<S>, ref: seq<Op>, i: nat, j: nat)
    requires c.staging == c.staged && i <= j <= |c.staging| && c.staged != []
    requires UniqueIds(ref + c.staged)
    ensures var d := Rebased(CommittedCopy(c, Broken(i, j)), ref);
            Possible(d, Written) && CommittedRef(d, Written, ref) == ref + c.staged
  {
  }

  /** Without the re-read a commit erases what others wrote since: the ref survives only if the copy had all of it. */
  lemma WithoutRereadErases<S>(c: Copy<S>, ref: seq<Op>)
    requires Possible(c, Written) && c.ops <= ref && Ids(c.staging) !! Ids(ref)
    ensures ref <= CommittedRef(c, Written, ref) <==> c.ops == ref
  {
    if c.ops != ref {
      var k := |c.ops|;
      assert c.staging[0].id in Ids(c.staging) && ref[k].id in Ids(ref);
      assert (c.ops + c.staging)[k] == c.staging[0] != ref[k];
    }
  }
}
