/** Whole runs of the index. */
module IndexRuns {
  // Many processes, each with an index, sharing one index file and the refs: a refresh lists the hashes,
  // then reads entity by entity while other processes write.

  import opened Documents
  import opened Entities
  import opened Excerpts

  /** A process's index, and what its refresh in progress listed. */
  datatype Process<X> = Process(index: Index<X>, listed: map<Id, Ref>)

  datatype World<X> = World(refs: map<Id, Ref>, gone: set<Id>, processes: map<string, Process<X>>, file: Index<X>)

  datatype Event =
    | Created(id: Id, ops: Ref)
    | Extended(id: Id, ops: Ref)
    | Removed(p: string, id: Id)
    | Committed(p: string, id: Id, ops: Ref)
    | Listed(p: string)
    | LookedAt(p: string, id: Id)
    | SweptBy(p: string)
    | Saved(p: string)
    | Loaded(p: string)

  function With<X>(w: World<X>, p: string, index: Index<X>): World<X>
    requires p in w.processes
  {
    w.(processes := w.processes[p := w.processes[p].(index := index)])
  }

  predicate Enabled<X>(w: World<X>, e: Event) {
    match e
    case Created(id, ops) => id !in w.refs && id !in w.gone
    case Extended(id, ops) => id in w.refs
    case Removed(p, id) => p in w.processes && id in w.refs
    case Committed(p, id, ops) => p in w.processes && id in w.refs
    case LookedAt(p, id) => p in w.processes && id in w.processes[p].listed && id in w.refs
    case Listed(p) => p in w.processes
    case SweptBy(p) => p in w.processes
    case Saved(p) => p in w.processes
    case Loaded(p) => p in w.processes
  }

  /**
   One event. A commit notes its ref while it holds the write lock, so no other write comes
   between the two; a refresh holds no such lock, and reads after it listed.
   */
  function Step<X>(excerpt: Ref -> X, w: World<X>, e: Event): World<X>
    requires Enabled(w, e)
  {
    match e
    case Created(id, ops) => w.(refs := w.refs[id := ops])
    case Extended(id, ops) => w.(refs := w.refs[id := w.refs[id] + ops])
    case Removed(p, id) =>
      var x := w.processes[p].index;
      With(w.(refs := w.refs - {id}, gone := w.gone + {id}), p, Index(x.excerpts - {id}, x.refs - {id}))
    case Committed(p, id, ops) =>
      var ref := w.refs[id] + ops;
      With(w.(refs := w.refs[id := ref]), p, Noted(excerpt, w.processes[p].index, id, ref, Some(ref)))
    case Listed(p) => w.(processes := w.processes[p := w.processes[p].(listed := w.refs)])
    case LookedAt(p, id) =>
      var s := w.processes[p];
      With(w, p, Looked(excerpt, s.index, s.listed, map[id := Some(w.refs[id])], {id}))
    case SweptBy(p) => With(w, p, Swept(w.processes[p].index, w.processes[p].listed))
    case Saved(p) => w.(file := w.processes[p].index)
    case Loaded(p) => With(w, p, w.file)
  }

  // ---- what a recorded hash is worth ----

  /** The excerpt describes the history no shorter than the recorded one, and no longer than the ref's. */
  ghost predicate Behind<X(!new)>(excerpt: Ref -> X, recorded: Ref, x: X, now: Ref) {
    exists read: Ref :: recorded <= read <= now && x == excerpt(read)
  }

  ghost predicate Trusted<X(!new)>(excerpt: Ref -> X, x: Index<X>, refs: map<Id, Ref>, gone: set<Id>) {
    forall id :: id in x.refs ==>
      id in x.excerpts && if id in refs then Behind(excerpt, x.refs[id], x.excerpts[id], refs[id]) else id in gone
  }

  ghost predicate Past(listed: map<Id, Ref>, refs: map<Id, Ref>, gone: set<Id>) {
    forall id :: id in listed ==> if id in refs then listed[id] <= refs[id] else id in gone
  }

  ghost predicate Inv<X(!new)>(excerpt: Ref -> X, w: World<X>) {
    && w.refs.Keys !! w.gone
    && Trusted(excerpt, w.file, w.refs, w.gone)
    && forall p :: p in w.processes ==>
         Trusted(excerpt, w.processes[p].index, w.refs, w.gone) && Past(w.processes[p].listed, w.refs, w.gone)
  }

  ghost predicate Grown(refs: map<Id, Ref>, gone: set<Id>, refs': map<Id, Ref>, gone': set<Id>) {
    && gone <= gone' && refs'.Keys !! gone'
    && forall id :: id in refs ==> if id in refs' then refs[id] <= refs'[id] else id in gone'
  }

  lemma TrustKept<X(!new)>(excerpt: Ref -> X, x: Index<X>, refs: map<Id, Ref>, gone: set<Id>, refs': map<Id, Ref>, gone': set<Id>)
    requires Trusted(excerpt, x, refs, gone) && Grown(refs, gone, refs', gone')
    ensures Trusted(excerpt, x, refs', gone')
  {
    forall id | id in x.refs && id in refs' ensures Behind(excerpt, x.refs[id], x.excerpts[id], refs'[id]) {
      assert id in refs && refs[id] <= refs'[id];
      var read: Ref :| x.refs[id] <= read <= refs[id] && x.excerpts[id] == excerpt(read);
      assert x.refs[id] <= read <= refs'[id];
    }
  }

  lemma AllKept<X(!new)>(excerpt: Ref -> X, w: World<X>, refs: map<Id, Ref>, gone: set<Id>)
    requires Inv(excerpt, w) && Grown(w.refs, w.gone, refs, gone)
    ensures Inv(excerpt, w.(refs := refs, gone := gone))
  {
    hide Trusted;
    TrustKept(excerpt, w.file, w.refs, w.gone, refs, gone);
    forall p | p in w.processes
      ensures Trusted(excerpt, w.processes[p].index, refs, gone) && Past(w.processes[p].listed, refs, gone)
    {
      TrustKept(excerpt, w.processes[p].index, w.refs, w.gone, refs, gone);
    }
  }

  lemma Replaced<X(!new)>(excerpt: Ref -> X, w: World<X>, p: string, x: Index<X>)
    requires Inv(excerpt, w) && p in w.processes && Trusted(excerpt, x, w.refs, w.gone)
    ensures Inv(excerpt, With(w, p, x))
  {
    hide Trusted, Past;
  }

  lemma StepKeeps<X(!new)>(excerpt: Ref -> X, w: World<X>, e: Event)
    requires Inv(excerpt, w) && Enabled(w, e)
    ensures Inv(excerpt, Step(excerpt, w, e))
  {
    hide Inv, Trusted;
    match e
    case Created(id, ops) => CreatedKeeps(excerpt, w, id, ops);
    case Extended(id, ops) => ExtendedKeeps(excerpt, w, id, ops);
    case Removed(p, id) => RemovedKeeps(excerpt, w, p, id);
    case Committed(p, id, ops) => CommittedKeeps(excerpt, w, p, id, ops);
    case Listed(p) => ListedKeeps(excerpt, w, p);
    case LookedAt(p, id) => LookedKeeps(excerpt, w, p, id);
    case SweptBy(p) => SweptKeeps(excerpt, w, p);
    case Saved(p) => SavedKeeps(excerpt, w, p);
    case Loaded(p) => LoadedKeeps(excerpt, w, p);
  }

  lemma CreatedKeeps<X(!new)>(excerpt: Ref -> X, w: World<X>, id: Id, ops: Ref)
    requires Inv(excerpt, w) && Enabled(w, Created(id, ops))
    ensures Inv(excerpt, Step(excerpt, w, Created(id, ops)))
  {
    AllKept(excerpt, w, w.refs[id := ops], w.gone);
  }

  lemma ExtendedKeeps<X(!new)>(excerpt: Ref -> X, w: World<X>, id: Id, ops: Ref)
    requires Inv(excerpt, w) && id in w.refs
    ensures Inv(excerpt, w.(refs := w.refs[id := w.refs[id] + ops]))
  {
    AllKept(excerpt, w, w.refs[id := w.refs[id] + ops], w.gone);
  }

  lemma RemovedKeeps<X(!new)>(excerpt: Ref -> X, w: World<X>, p: string, id: Id)
    requires Inv(excerpt, w) && Enabled(w, Removed(p, id))
    ensures Inv(excerpt, Step(excerpt, w, Removed(p, id)))
  {
    var x := w.processes[p].index;
    AllKept(excerpt, w, w.refs - {id}, w.gone + {id});
    Replaced(excerpt, w.(refs := w.refs - {id}, gone := w.gone + {id}), p, Index(x.excerpts - {id}, x.refs - {id}));
  }

  lemma CommittedKeeps<X(!new)>(excerpt: Ref -> X, w: World<X>, p: string, id: Id, ops: Ref)
    requires Inv(excerpt, w) && Enabled(w, Committed(p, id, ops))
    ensures Inv(excerpt, Step(excerpt, w, Committed(p, id, ops)))
  {
    var ref := w.refs[id] + ops;
    var later := w.(refs := w.refs[id := ref]);
    ExtendedKeeps(excerpt, w, id, ops);
    var x := Noted(excerpt, w.processes[p].index, id, ref, Some(ref));
    assert Behind(excerpt, ref, excerpt(ref), ref) by { assert ref <= ref <= ref; }
    assert Trusted(excerpt, later.processes[p].index, later.refs, later.gone);
    assert Trusted(excerpt, x, later.refs, later.gone);
    Replaced(excerpt, later, p, x);
  }

  lemma ListedKeeps<X(!new)>(excerpt: Ref -> X, w: World<X>, p: string)
    requires Inv(excerpt, w) && p in w.processes
    ensures Inv(excerpt, Step(excerpt, w, Listed(p)))
  {
    hide Trusted;
  }

  lemma LookedKeeps<X(!new)>(excerpt: Ref -> X, w: World<X>, p: string, id: Id)
    requires Inv(excerpt, w) && Enabled(w, LookedAt(p, id))
    ensures Inv(excerpt, Step(excerpt, w, LookedAt(p, id)))
  {
    var s := w.processes[p];
    var x := Looked(excerpt, s.index, s.listed, map[id := Some(w.refs[id])], {id});
    assert Behind(excerpt, s.listed[id], excerpt(w.refs[id]), w.refs[id]) by {
      assert s.listed[id] <= w.refs[id] <= w.refs[id];
    }
    assert Trusted(excerpt, x, w.refs, w.gone);
    Replaced(excerpt, w, p, x);
  }

  lemma SweptKeeps<X(!new)>(excerpt: Ref -> X, w: World<X>, p: string)
    requires Inv(excerpt, w) && p in w.processes
    ensures Inv(excerpt, Step(excerpt, w, SweptBy(p)))
  {
    var x := Swept(w.processes[p].index, w.processes[p].listed);
    assert Trusted(excerpt, x, w.refs, w.gone);
    Replaced(excerpt, w, p, x);
  }

  lemma SavedKeeps<X(!new)>(excerpt: Ref -> X, w: World<X>, p: string)
    requires Inv(excerpt, w) && p in w.processes
    ensures Inv(excerpt, Step(excerpt, w, Saved(p)))
  {
    hide Trusted, Past;
  }

  lemma LoadedKeeps<X(!new)>(excerpt: Ref -> X, w: World<X>, p: string)
    requires Inv(excerpt, w) && p in w.processes
    ensures Inv(excerpt, Step(excerpt, w, Loaded(p)))
  {
    hide Trusted, Past;
    Replaced(excerpt, w, p, w.file);
  }

  /** A run: every event possible where it happens. */
  ghost predicate Run<X>(excerpt: Ref -> X, w: World<X>, events: seq<Event>)
    decreases |events|
  {
    events != [] ==> Enabled(w, events[0]) && Run(excerpt, Step(excerpt, w, events[0]), events[1..])
  }

  function After<X>(excerpt: Ref -> X, w: World<X>, events: seq<Event>): World<X>
    requires Run(excerpt, w, events)
    decreases |events|
  {
    if events == [] then w else After(excerpt, Step(excerpt, w, events[0]), events[1..])
  }

  lemma {:induction false} RunTrusted<X(!new)>(excerpt: Ref -> X, w: World<X>, events: seq<Event>)
    requires Inv(excerpt, w) && Run(excerpt, w, events)
    ensures Inv(excerpt, After(excerpt, w, events))
    decreases |events|
  {
    if events != [] {
      StepKeeps(excerpt, w, events[0]);
      RunTrusted(excerpt, Step(excerpt, w, events[0]), events[1..]);
    }
  }

  /** The full rebuild: every entity described as it is now. */
  function Rebuilt<X>(excerpt: Ref -> X, refs: map<Id, Ref>): Index<X> {
    Index(map id | id in refs :: excerpt(refs[id]), refs)
  }

  function ReadNow(refs: map<Id, Ref>): map<Id, Option<Ref>> { map id | id in refs :: Some(refs[id]) }

  /**
   After any run from empty indexes, however refreshes and writes interleaved: a recorded hash
   equal to the ref's proves its excerpt, so one refresh that no write interrupts makes any
   process's index, or the one in the file, the full rebuild, and the refresh after it finds
   nothing moved.
   */
  lemma RefreshIsRebuild<X(!new)>(excerpt: Ref -> X, ps: set<string>, events: seq<Event>, x: Index<X>)
    requires Run(excerpt, Empty(ps), events)
    requires var w := After(excerpt, Empty(ps), events); x == w.file || exists p :: p in w.processes && x == w.processes[p].index
    ensures var refs := After(excerpt, Empty<X>(ps), events).refs;
            && (forall id :: id in x.refs && id in refs && x.refs[id] == refs[id] ==>
                  id in x.excerpts && x.excerpts[id] == excerpt(refs[id]))
            && Refreshed(excerpt, x, refs, ReadNow(refs)) == Rebuilt(excerpt, refs)
            && Moved(Rebuilt(excerpt, refs).refs, refs) == {}
  {
    RunTrusted(excerpt, Empty(ps), events);
    var w := After(excerpt, Empty<X>(ps), events);
    TrustedRefresh(excerpt, x, w.refs, w.gone);
  }

  function Empty<X>(ps: set<string>): World<X> {
    World(map[], {}, map p | p in ps :: Process(Index(map[], map[]), map[]), Index(map[], map[]))
  }

  /** A refresh of an index whose unmoved excerpts are right. */
  lemma RebuiltIs<X>(excerpt: Ref -> X, x: Index<X>, refs: map<Id, Ref>)
    requires x.refs.Keys <= x.excerpts.Keys
    requires forall id :: id in x.refs && id in refs && x.refs[id] == refs[id] ==> x.excerpts[id] == excerpt(refs[id])
    ensures Refreshed(excerpt, x, refs, ReadNow(refs)) == Rebuilt(excerpt, refs)
  {
    var looked := Looked(excerpt, x, refs, ReadNow(refs), refs.Keys);
    var moved := refs.Keys * Moved(x.refs, refs);
    forall id | id in refs ensures id in looked.excerpts && looked.excerpts[id] == excerpt(refs[id]) {
      assert id in moved <==> !(id in x.refs && x.refs[id] == refs[id]);
    }
    assert Swept(looked, refs).excerpts == Rebuilt(excerpt, refs).excerpts;
    RecordedIs(x, refs, moved);
    assert Swept(looked, refs).refs == refs;
  }

  lemma RecordedIs<X>(x: Index<X>, refs: map<Id, Ref>, moved: set<Id>)
    requires x.refs.Keys <= x.excerpts.Keys && moved == refs.Keys * Moved(x.refs, refs)
    ensures forall y: set<Id> :: y >= x.excerpts.Keys ==> Patch(x.refs, moved, refs) - (y - refs.Keys) == refs
  {
  }

  lemma TrustedRefresh<X(!new)>(excerpt: Ref -> X, x: Index<X>, refs: map<Id, Ref>, gone: set<Id>)
    requires Trusted(excerpt, x, refs, gone)
    ensures forall id :: id in x.refs && id in refs && x.refs[id] == refs[id] ==>
              id in x.excerpts && x.excerpts[id] == excerpt(refs[id])
    ensures Refreshed(excerpt, x, refs, ReadNow(refs)) == Rebuilt(excerpt, refs)
  {
    forall id | id in x.refs && id in refs && x.refs[id] == refs[id]
      ensures x.excerpts[id] == excerpt(refs[id])
    {
      var read: Ref :| x.refs[id] <= read <= refs[id] && x.excerpts[id] == excerpt(read);
      assert read == refs[id];
    }
    RebuiltIs(excerpt, x, refs);
  }

  // ---- the order of reading and recording ----

  lemma Remainder(read: Ref, staging: Ref, now: Ref)
    requires read + staging == now
    ensures staging == [] || (staging[0] in staging && staging[0] in now)
  {
    assert staging == [] || now[|read|] == staging[0];
  }

  /**
   Noting a ref after staging, which holds no lock: the copy is described and the ref's hash of
   that moment recorded. The record is worth its hash exactly when the copy is the ref's own
   history, with nothing staged and nothing missed (for excerpts that tell histories apart).
   */
  lemma StagedNoteTrusted<X(!new)>(excerpt: Ref -> X, x: Index<X>, id: Id, read: Ref, staging: Ref, refs: map<Id, Ref>, gone: set<Id>)
    requires Trusted(excerpt, x, refs, gone) && id in refs && read <= refs[id]
    requires forall a: Ref, b: Ref :: excerpt(a) == excerpt(b) ==> a == b
    requires forall op :: op in staging ==> op !in refs[id]
    ensures Trusted(excerpt, Noted(excerpt, x, id, read + staging, Some(refs[id])), refs, gone)
            <==> staging == [] && read == refs[id]
  {
    var noted := Noted(excerpt, x, id, read + staging, Some(refs[id]));
    var now := refs[id];
    if Behind(excerpt, now, excerpt(read + staging), now) {
      var r: Ref :| now <= r <= now && excerpt(read + staging) == excerpt(r);
      assert r == now;
      Remainder(read, staging, now);
    }
    if staging == [] && read == now {
      assert read + staging == now && now <= now <= now;
      assert Behind(excerpt, now, excerpt(now), now);
    }
    assert noted.refs[id] == now && noted.excerpts[id] == excerpt(read + staging);
    assert Trusted(excerpt, noted, refs, gone) <==> Behind(excerpt, now, excerpt(read + staging), now);
  }
}
