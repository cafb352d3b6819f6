/** Whole runs of the sync. */
module Safety {
  // Local edits, pulls from other clones, and any number of rounds in flight at once, against reads
  // that show anything and writes answered in any way.

  import opened Order
  import opened Documents
  import opened SetMerge
  import opened Bases
  import opened Merging
  import opened MergeFacts
  import opened Check
  import opened Admit
  import opened Engine
  import opened EngineFacts

  /** What Jira has shown in a read or accepted in a write: forms of fields, digests of comments. */
  datatype Known = Known(fields: set<(string, Value)>, comments: set<(string, string)>)

  function Plus(a: Known, b: Known): Known { Known(a.fields + b.fields, a.comments + b.comments) }

  function ShownBy(d: Doc): Known {
    Known(set k | k in d.fields :: (k, Form(k, d.fields[k])), set c | c in d.comments :: (c.jid, c.text.digest))
  }

  /** What Jira's answers to a plan's writes accept. */
  function AcceptedBy(p: Plan, doc: Doc, a: Answers): Known {
    Known(set ch | ch in p.remote && ch.key in a.accepted :: (ch.key, SentForm(ch, doc)),
          set cw | cw in p.writes && LandedAs(cw, a).Some? :: (LandedAs(cw, a).value, cw.text.digest))
  }

  /** One clone of the repository: its issue, and the rounds it has in flight. */
  datatype Clone = Clone(store: Store, sessions: map<nat, Session>)

  datatype State = State(clones: map<nat, Clone>, known: Known)

  datatype Origin = Linked | Unlinked | Created(sent: map<string, Value>, at: int)

  datatype Event =
    | Edit(at: nat, local: Doc)
    | Pull(at: nat, from: nat, local: Doc, markers: seq<BaseState>)
    | Round(at: nat, sid: nat, start: Origin, read: Read, answers: Answers, reread: Option<Doc>)
    | Finish(at: nat, sid: nat, commit: Commit, newOp: string -> string)

  /** The base a round starts from: the current one, none, or a create's with what its POST sent. */
  function StartBase(markers: seq<BaseState>, start: Origin): Option<BaseState> {
    match start
    case Linked => Some(CurrentBase(markers))
    case Unlinked => None
    case Created(sent, at) => Some(EMPTY_BASE.(sent := sent, wrote := at, unmerged := true))
  }

  function StartKnown(start: Origin): Known {
    match start
    case Created(sent, _) => Known(set k | k in sent :: (k, sent[k]), {})
    case _ => Known({}, {})
  }

  function ReadKnown(c: Clone, e: Event): Known
    requires e.Round?
  {
    var b := StartBase(c.store.markers, e.start);
    var shown := Plus(ShownBy(e.read.doc), if e.reread.Some? then ShownBy(e.reread.value) else Known({}, {}));
    Plus(Plus(StartKnown(e.start), shown), AcceptedBy(FirstPlan(b, c.store.local, e.read), e.read.doc, e.answers))
  }

  function Begun(c: Clone, e: Event): Session
    requires e.Round?
  {
    BeginSpec(StartBase(c.store.markers, e.start), c.store.local, e.read, e.answers, e.reread)
  }

  /** A pull merges two histories: the operations of both and no other, in an order of its own. */
  ghost predicate Merges(markers: seq<BaseState>, mine: seq<BaseState>, theirs: seq<BaseState>) {
    forall m :: m in markers <==> m in mine || m in theirs
  }

  /** A pull leaves any document: it merges the operations of both. An event no clone can take changes nothing. */
  ghost function Next(st: State, e: Event): State {
    if e.at !in st.clones then st
    else
      var c := st.clones[e.at];
      match e
      case Edit(at, local) => st.(clones := st.clones[at := c.(store := c.store.(local := local))])
      case Pull(at, from, local, markers) =>
        if from in st.clones && Merges(markers, c.store.markers, st.clones[from].store.markers)
        then st.(clones := st.clones[at := c.(store := Store(local, markers))])
        else st
      case Round(at, sid, _, _, _, _) =>
        State(st.clones[at := c.(sessions := c.sessions[sid := Begun(c, e)])], Plus(st.known, ReadKnown(c, e)))
      case Finish(at, sid, commit, newOp) =>
        if sid in c.sessions
        then st.(clones := st.clones[at := Clone(CommitSpec(c.store, c.sessions[sid], commit, newOp), c.sessions - {sid})])
        else st
  }

  ghost function Run(st: State, events: seq<Event>): State {
    if events == [] then st else Next(Run(st, events[..|events| - 1]), events[|events| - 1])
  }

  /** Any number of clones, none of them synced yet. */
  function Initial(docs: map<nat, Doc>): State {
    State(map a | a in docs :: Clone(Store(docs[a], []), map[]), Known({}, {}))
  }

  // ---- every base is traced to Jira ----

  /** A form Jira showed or accepted, an unset one, or the one that equals neither side. */
  ghost predicate TracedForm(known: Known, k: string, v: Value) {
    (k, v) in known.fields || Unset(v) || v == UNKNOWN_BASE
  }

  ghost predicate TracedDigest(known: Known, jid: string, d: string) {
    (jid, d) in known.comments || d == "" || d == UNKNOWN_COMMENT
  }

  ghost predicate Traced(b: BaseState, known: Known) {
    && (forall k :: k in b.fields ==> TracedForm(known, k, b.fields[k]))
    && (forall k :: k in b.sent ==> (k, b.sent[k]) in known.fields)
    && (forall j :: j in b.comments ==> TracedDigest(known, j, b.comments[j]))
    && (forall j :: j in b.sentComments ==> (j, b.sentComments[j]) in known.comments)
  }

  ghost predicate Within(a: Known, b: Known) { a.fields <= b.fields && a.comments <= b.comments }

  lemma TracedMore(b: BaseState, a: Known, c: Known)
    requires Traced(b, a) && Within(a, c)
    ensures Traced(b, c)
  {
  }

  lemma FreshTraced(b: BaseState, local: Doc, remote: Doc, known: Known)
    requires Traced(b, known) && Within(ShownBy(remote), known)
    ensures Traced(FreshSpec(b, local, remote), known)
  {
    forall k | k in remote.fields ensures TracedForm(known, k, FreshValue(local, remote, k)) {
      assert (k, Form(k, remote.fields[k])) in ShownBy(remote).fields;
    }
  }

  lemma ConfirmTraced(b: BaseState, r: Read, known: Known)
    requires Traced(b, known)
    ensures Traced(ConfirmSpec(b, r), known)
  {
    var c := ConfirmSpec(b, r);
    forall k | k in c.fields ensures TracedForm(known, k, c.fields[k]) {
      assert FieldBase(b, r, k).Some? || k in b.fields;
    }
    forall j | j in c.comments ensures TracedDigest(known, j, c.comments[j]) {
      assert CommentBase(b, r, j).Some? || j in b.comments;
    }
  }

  lemma SettleTraced(b: Option<BaseState>, local: Doc, r: Read, known: Known)
    requires Traced(OrEmpty(b), known) && Within(ShownBy(r.doc), known)
    ensures Traced(OrEmpty(SettleBase(b, local, r)), known)
  {
    if b.Some? {
      FreshTraced(b.value, local, r.doc, known);
      ConfirmTraced(if b.value.unmerged then FreshSpec(b.value, local, r.doc) else b.value, r, known);
    }
  }

  ghost predicate TracedComments(m: map<string, string>, known: Known) {
    forall j :: j in m ==> TracedDigest(known, j, m[j])
  }

  lemma PlusTraced(p: Plan, jid: string, s: CommentStep, known: Known)
    requires TracedComments(p.base.comments, known) && (s.base.Some? ==> TracedDigest(known, jid, s.base.value))
    ensures TracedComments(PlusComment(p, jid, s).base.comments, known)
  {
  }

  lemma {:induction false} RemoteTraced(c: Ctx, p: Plan, rcs: seq<DocComment>, known: Known)
    requires forall rc :: rc in rcs ==> (rc.jid, rc.text.digest) in known.comments
    requires TracedComments(p.base.comments, known)
    ensures TracedComments(FoldRemote(c, p, rcs).base.comments, known)
  {
    if rcs != [] {
      var front, rc := rcs[..|rcs| - 1], rcs[|rcs| - 1];
      RemoteTraced(c, p, front, known);
      assert rc in rcs;
      PlusTraced(FoldRemote(c, p, front), rc.jid, StepRemote(c, rc), known);
    }
  }

  lemma {:induction false} LocalTraced(c: Ctx, p: Plan, lcs: seq<DocComment>, known: Known)
    requires TracedComments(p.base.comments, known)
    ensures TracedComments(FoldLocal(c, p, lcs).base.comments, known)
  {
    if lcs != [] {
      var front, lc := lcs[..|lcs| - 1], lcs[|lcs| - 1];
      LocalTraced(c, p, front, known);
      PlusTraced(FoldLocal(c, p, front), lc.jid, StepLocal(c, lc), known);
    }
  }

  /** A set merged with nothing to write is the set Jira holds. */
  lemma NothingToWrite(b: set<string>, l: set<string>, r: set<string>)
    requires MergeSetSpec(b, l, r).rAdd == [] && MergeSetSpec(b, l, r).rRem == []
    ensures Merged(b, l, r) == r
  {
    var m := Merged(b, l, r);
    assert Elems(Sorted(m - r)) == {} && Elems(Sorted(r - m)) == {};
    assert m - r == {} && r - m == {};
  }

  lemma StepTraced(c: Ctx, k: string, known: Known)
    requires Within(ShownBy(c.remote), known) && BODY !in c.multi
    requires k in c.remote.fields && StepField(c, k).base.Some?
    ensures TracedForm(known, k, StepField(c, k).base.value)
  {
    var rv := c.remote.fields[k];
    assert (k, Form(k, rv)) in ShownBy(c.remote).fields;
    if k in c.multi {
      NothingToWrite(SetOf(At(c.b.fields, k)), SetOf(At(c.local.fields, k)), SetOf(rv));
      if rv.Items? { assert k != BODY ==> Form(k, rv) == Items(SetOf(rv)); }
    }
  }

  lemma MergeTraced(c: Ctx, known: Known)
    requires Traced(c.b, known) && Within(ShownBy(c.remote), known) && BODY !in c.multi
    ensures Traced(MergeCtx(c).base, known)
  {
    var p := MergeCtx(c);
    forall k | k in p.base.fields ensures TracedForm(known, k, p.base.fields[k]) {
      MergeAt(c, k);
      if k in c.remote.fields && StepField(c, k).base.Some? { StepTraced(c, k, known); }
    }
    MergeAt(c, "");
    CommentsTraced(c, known);
  }

  lemma CommentsTraced(c: Ctx, known: Known)
    requires Traced(c.b, known) && Within(ShownBy(c.remote), known)
    ensures TracedComments(MergeCtx(c).base.comments, known)
  {
    var f := FoldFields(c, Start(c), FieldKeys(c.remote));
    FieldKeysDistinct(c.remote);
    FoldFieldsAt(c, Start(c), FieldKeys(c.remote), "");
    forall rc | rc in c.remote.comments ensures (rc.jid, rc.text.digest) in known.comments {
      assert (rc.jid, rc.text.digest) in ShownBy(c.remote).comments;
    }
    RemoteTraced(c, f, c.remote.comments, known);
    LocalTraced(c, FoldRemote(c, f, c.remote.comments), c.local.comments, known);
  }

  lemma {:induction false} WriteFieldsTraced(w: Written, p: Plan, n: nat, doc: Doc, a: Answers, known: Known)
    requires n <= |p.remote| && Traced(w.base, known) && Within(AcceptedBy(p, doc, a), known)
    ensures Traced(WriteFields(w, p.remote[..n], doc, a).base, known)
  {
    if n > 0 {
      WriteFieldsTraced(w, p, n - 1, doc, a, known);
      assert p.remote[..n][..n - 1] == p.remote[..n - 1];
      var ch := p.remote[n - 1];
      if ch.key in a.accepted {
        assert (ch.key, SentForm(ch, doc)) in AcceptedBy(p, doc, a).fields;
      }
    }
  }

  lemma {:induction false} WriteCommentsTraced(w: Written, p: Plan, n: nat, doc: Doc, a: Answers, known: Known)
    requires n <= |p.writes| && Traced(w.base, known) && Within(AcceptedBy(p, doc, a), known)
    ensures Traced(WriteComments(w, p.writes[..n], a).base, known)
  {
    if n > 0 {
      WriteCommentsTraced(w, p, n - 1, doc, a, known);
      assert p.writes[..n][..n - 1] == p.writes[..n - 1];
      var cw := p.writes[n - 1];
      if LandedAs(cw, a).Some? {
        assert (LandedAs(cw, a).value, cw.text.digest) in AcceptedBy(p, doc, a).comments;
      }
    }
  }

  // ---- the invariant of every run ----

  ghost predicate CloneOk(c: Clone, known: Known) {
    && (forall m :: m in c.store.markers ==> Traced(m, known))
    && (forall sid :: sid in c.sessions ==>
          Traced(c.sessions[sid].base, known) && Within(ShownBy(c.sessions[sid].doc), known))
  }

  ghost predicate Invariant(st: State) {
    forall a :: a in st.clones ==> CloneOk(st.clones[a], st.known)
  }

  /** The body is a text, never a list. */
  predicate Valid(e: Event) {
    match e
    case Round(_, _, _, read, _, _) => BODY !in read.multi
    case Finish(_, _, commit, _) => BODY !in commit.multi
    case _ => true
  }

  lemma {:induction false} CurrentTraced(markers: seq<BaseState>, known: Known)
    requires forall m :: m in markers ==> Traced(m, known)
    ensures Traced(CurrentBase(markers), known)
  {
    if markers != [] {
      CurrentTraced(markers[..|markers| - 1], known);
      assert markers[|markers| - 1] in markers;
    }
  }

  lemma BeginTraced(b: Option<BaseState>, local: Doc, r: Read, a: Answers, reread: Option<Doc>, known: Known)
    requires Traced(OrEmpty(b), known) && Within(ShownBy(r.doc), known)
    requires Within(AcceptedBy(FirstPlan(b, local, r), r.doc, a), known)
    requires reread.Some? ==> Within(ShownBy(reread.value), known)
    ensures var s := BeginSpec(b, local, r, a, reread); Traced(s.base, known) && Within(ShownBy(s.doc), known)
  {
    SettleTraced(b, local, r, known);
    var p := FirstPlan(b, local, r);
    var w := Written(OrEmpty(SettleBase(b, local, r)), map[], a.partial);
    WriteFieldsTraced(w, p, |p.remote|, r.doc, a, known);
    assert p.remote[..|p.remote|] == p.remote;
    WriteCommentsTraced(WriteFields(w, p.remote, r.doc, a), p, |p.writes|, r.doc, a, known);
    assert p.writes[..|p.writes|] == p.writes;
  }

  lemma StartTraced(markers: seq<BaseState>, start: Origin, known: Known)
    requires forall m :: m in markers ==> Traced(m, known)
    requires Within(StartKnown(start), known)
    ensures Traced(OrEmpty(StartBase(markers, start)), known)
  {
    CurrentTraced(markers, known);
    if start.Created? {
      forall k | k in start.sent ensures (k, start.sent[k]) in known.fields {
        assert (k, start.sent[k]) in StartKnown(start).fields;
      }
    }
  }

  lemma RoundTraced(c: Clone, e: Event, before: Known)
    requires CloneOk(c, before) && e.Round?
    ensures var known := Plus(before, ReadKnown(c, e));
            Traced(Begun(c, e).base, known) && Within(ShownBy(Begun(c, e).doc), known)
  {
    hide BeginSpec, FirstPlan, ShownBy, Traced, AcceptedBy, StartBase, StartKnown;
    var known := Plus(before, ReadKnown(c, e));
    forall m | m in c.store.markers ensures Traced(m, known) {
      TracedMore(m, before, known);
    }
    ReadWithin(c, e, known);
    StartTraced(c.store.markers, e.start, known);
    BeginTraced(StartBase(c.store.markers, e.start), c.store.local, e.read, e.answers, e.reread, known);
  }

  lemma ReadWithin(c: Clone, e: Event, known: Known)
    requires e.Round? && Within(ReadKnown(c, e), known)
    ensures Within(StartKnown(e.start), known) && Within(ShownBy(e.read.doc), known)
    ensures e.reread.Some? ==> Within(ShownBy(e.reread.value), known)
    ensures Within(AcceptedBy(FirstPlan(StartBase(c.store.markers, e.start), c.store.local, e.read), e.read.doc, e.answers), known)
  {
    hide FirstPlan, ShownBy, AcceptedBy, StartBase, StartKnown;
  }

  lemma PlanCtxTraced(s: Session, local: Doc, m: Commit, known: Known)
    requires Traced(s.base, known) && Within(ShownBy(s.doc), known)
    ensures var c := PlanCtx(s, local, m); Traced(c.b, known) && Within(ShownBy(c.remote), known)
  {
    var l := local.(comments := WithPairs(local.comments, s.pairs));
    SettleTraced(Some(s.base), l, ReadOf(s, m), known);
  }

  lemma CommitTraced(s: Session, local: Doc, m: Commit, known: Known)
    requires Traced(s.base, known) && Within(ShownBy(s.doc), known) && BODY !in m.multi
    ensures Traced(CommitPlan(s, local, m).plan.base, known)
  {
    var c := PlanCtx(s, local, m);
    PlanCtxTraced(s, local, m, known);
    MergeTraced(c, known);
    MergeAt(c, "");
    var p := SecondPlan(s, local, m);
    var b := CommitPlan(s, local, m).plan.base;
    var refused := Failing(Shape(m.checker), PlannedType(p.local, TypeOf(local)), p.local);
    assert b == p.base.(fields := RestoreAll(p.base.fields, Some(c.b), refused), retry := b.retry);
  }

  lemma CloneMore(c: Clone, a: Known, b: Known)
    requires CloneOk(c, a) && Within(a, b)
    ensures CloneOk(c, b)
  {
    hide Traced, ShownBy;
    forall m | m in c.store.markers ensures Traced(m, b) { TracedMore(m, a, b); }
    forall sid | sid in c.sessions ensures Traced(c.sessions[sid].base, b) { TracedMore(c.sessions[sid].base, a, b); }
  }

  /** One clone changed, and Jira showed more. */
  lemma CloneChanged(st: State, at: nat, c: Clone, known: Known)
    requires Invariant(st) && Within(st.known, known) && CloneOk(c, known)
    ensures Invariant(State(st.clones[at := c], known))
  {
    hide CloneOk;
    forall a | a in st.clones && a != at ensures CloneOk(st.clones[a], known) { CloneMore(st.clones[a], st.known, known); }
  }

  lemma RoundKeeps(st: State, e: Event)
    requires Invariant(st) && e.Round? && e.at in st.clones
    ensures Invariant(Next(st, e)) && Within(st.known, Next(st, e).known)
  {
    hide Traced, ShownBy, ReadKnown, Begun;
    var c := st.clones[e.at];
    var known := Plus(st.known, ReadKnown(c, e));
    RoundTraced(c, e, st.known);
    CloneMore(c, st.known, known);
    CloneChanged(st, e.at, c.(sessions := c.sessions[e.sid := Begun(c, e)]), known);
  }

  lemma FinishKeeps(st: State, e: Event)
    requires Invariant(st) && e.Finish? && e.at in st.clones && e.sid in st.clones[e.at].sessions && BODY !in e.commit.multi
    ensures Invariant(Next(st, e))
  {
    hide CommitPlan, ApplyLocal, Traced, ShownBy, SameBase, CurrentBase;
    var c := st.clones[e.at];
    var s := c.sessions[e.sid];
    CommitTraced(s, c.store.local, e.commit, st.known);
    CloneChanged(st, e.at, Clone(CommitSpec(c.store, s, e.commit, e.newOp), c.sessions - {e.sid}), st.known);
  }

  lemma NextKeeps(st: State, e: Event)
    requires Invariant(st) && Valid(e)
    ensures Invariant(Next(st, e)) && Within(st.known, Next(st, e).known)
  {
    hide Traced, ShownBy, ReadKnown, Begun, CommitSpec;
    if e.at in st.clones {
      var c := st.clones[e.at];
      match e {
        case Edit(_, _) =>
        case Pull(_, from, local, markers) =>
          if from in st.clones && Merges(markers, c.store.markers, st.clones[from].store.markers) {
            CloneChanged(st, e.at, c.(store := Store(local, markers)), st.known);
          }
        case Round(_, _, _, _, _, _) =>
          RoundKeeps(st, e);
        case Finish(_, sid, _, _) =>
          if sid in c.sessions { FinishKeeps(st, e); }
      }
    }
  }

  /**
   Whatever the clones do and Jira answers, every base in every clone is the unknown one, an
   unset one, or one Jira has shown or accepted.
   */
  lemma {:induction false} RunKeeps(docs: map<nat, Doc>, events: seq<Event>)
    requires forall e :: e in events ==> Valid(e)
    ensures Invariant(Run(Initial(docs), events))
  {
    hide Next, CloneOk, Valid;
    if events != [] {
      var front := events[..|events| - 1];
      RunKeeps(docs, front);
      assert events[|events| - 1] in events;
      NextKeeps(Run(Initial(docs), front), events[|events| - 1]);
    } else {
      InitialOk(docs);
    }
  }

  lemma InitialOk(docs: map<nat, Doc>)
    ensures Invariant(Initial(docs))
  {
  }

  // ---- no local edit is lost silently ----

  /**
   What may become of a scalar without saying so: it stays, or it was unset and had no base, or
   it was what the merge's own base has, which Jira showed or accepted.
   */
  ghost predicate NotLost(b: BaseState, known: Known, k: string, before: Value, after: Value, conflicts: set<Key>) {
    || after == before
    || Field(k) in conflicts
    || (k !in b.fields && Form(k, before) == Form(k, Null))
    || (k in b.fields && Form(k, before) == b.fields[k] && TracedForm(known, k, b.fields[k]))
  }

  lemma MergeReplaces(c: Ctx, k: string, known: Known)
    requires Traced(c.b, known) && k !in c.multi
    ensures var p := MergeCtx(c);
            NotLost(c.b, known, k, At(c.local.fields, k), At(ApplyFields(c.local.fields, p.local), k), p.conflicts)
  {
    hide MergeCtx, ApplyFields;
    MergeAt(c, k);
    if k in c.remote.fields && Field(k) !in Skipped(c.remote) {
      ScalarReplaces(c, k);
      if k in c.b.fields { assert TracedForm(known, k, c.b.fields[k]); }
    }
  }

  /** One scalar's step keeps the local value, reports it, or finds it equal to the base, or unset without one. */
  lemma ScalarReplaces(c: Ctx, k: string)
    requires k !in c.multi && Field(k) !in Skipped(c.remote)
    ensures var s, lv := StepField(c, k), At(c.local.fields, k);
            || ApplyKey(lv, s.local, k) == lv
            || s.conflicts == {Field(k)}
            || (k !in c.b.fields && Form(k, lv) == Form(k, Null))
            || (k in c.b.fields && Form(k, lv) == c.b.fields[k])
  {
    var s, lv := StepField(c, k), At(c.local.fields, k);
    if s.local != [] {
      assert s.local[..0] == [];
    }
  }

  function Refusals(s: Session, local: Doc, m: Commit): set<string> {
    var p := SecondPlan(s, local, m);
    Failing(Shape(m.checker), PlannedType(p.local, TypeOf(local)), p.local)
  }

  /** A commit leaves a field what its merge makes of it, or, refused, as it was. */
  lemma CommitField(s: Session, local: Doc, m: Commit, newOp: string -> string, k: string)
    ensures var after := ApplyLocal(local, CommitPlan(s, local, m).plan.local, newOp);
            if k in Refusals(s, local, m) && k != BODY then At(after.fields, k) == At(local.fields, k)
            else k !in Refusals(s, local, m) ==>
                 At(after.fields, k) == At(ApplyFields(local.fields, MergeCtx(PlanCtx(s, local, m)).local), k)
  {
    var a := CommitPlan(s, local, m);
    var p := SecondPlan(s, local, m);
    var v := At(local.fields, k);
    ApplyFieldsAt(local.fields, a.plan.local, k);
    ApplyFieldsAt(local.fields, MergeCtx(PlanCtx(s, local, m)).local, k);
    PairsTouchNoField(local.fields, MergeCtx(PlanCtx(s, local, m)).local, local.comments, s.pairs, k);
    if k in Refusals(s, local, m) {
      RefusedWhole(m.checker, p, TypeOf(local), SettleBase(Some(s.base), local.(comments := WithPairs(local.comments, s.pairs)), ReadOf(s, m)), k);
    } else {
      WithoutApplied(v, p.local, Refusals(s, local, m), k);
    }
  }

  lemma PlanChanges(s: Session, local: Doc, m: Commit, lc: LocalChange)
    requires lc in SecondPlan(s, local, m).local && IsFieldChange(lc)
    ensures lc in StepField(PlanCtx(s, local, m), lc.key).local
  {
    MergeFromSteps(PlanCtx(s, local, m));
    PairsHaveNoKey(local.comments, s.pairs);
  }

  lemma ScalarChange(c: Ctx, k: string, lc: LocalChange)
    requires lc in StepField(c, k).local && k !in c.multi
    ensures lc == SetField(k, At(c.remote.fields, k))
  {
  }

  /** The body is never refused, and no commit is: what admit keeps passes the commit's own check. */
  lemma CommitNeverRefused(s: Session, local: Doc, m: Commit)
    requires WellFormed(m.checker) && TYPE !in m.multi && BODY !in m.multi
    ensures CommitAccepts(m.checker, TypeOf(local), CommitPlan(s, local, m).plan.local)
    ensures BODY !in Refusals(s, local, m)
  {
    hide StepField, SettleBase, SettleDoc, MergeCtx, CommitAccepts;
    var p := SecondPlan(s, local, m);
    var c := PlanCtx(s, local, m);
    forall lc | lc in p.local && IsFieldChange(lc) && (lc.key == TYPE || lc.key == BODY)
      ensures lc == SetField(lc.key, At(c.remote.fields, lc.key))
    {
      PlanChanges(s, local, m, lc);
      ScalarChange(c, lc.key, lc);
    }
    AdmitSuffices(m.checker, p, TypeOf(local), SettleBase(Some(s.base), local.(comments := WithPairs(local.comments, s.pairs)), ReadOf(s, m)));
  }

  /** The clones' runs a statement is about: one clone's round, about to commit. */
  ghost predicate Committing(docs: map<nat, Doc>, events: seq<Event>, at: nat, sid: nat) {
    var st := Run(Initial(docs), events);
    && (forall e :: e in events ==> Valid(e))
    && at in st.clones && sid in st.clones[at].sessions
  }

  lemma SessionTraced(docs: map<nat, Doc>, events: seq<Event>, at: nat, sid: nat)
    requires Committing(docs, events, at, sid)
    ensures var st := Run(Initial(docs), events);
            Traced(st.clones[at].sessions[sid].base, st.known) && Within(ShownBy(st.clones[at].sessions[sid].doc), st.known)
  {
    hide Run, Traced, ShownBy;
    RunKeeps(docs, events);
    assert CloneOk(Run(Initial(docs), events).clones[at], Run(Initial(docs), events).known);
  }

  /**
   In any run of any clones, whatever reads showed and writes answered, a commit replaces a
   scalar's local value without a conflict note only when it is the value the commit's own base
   has, which Jira showed or accepted, or is unset with no base: a value set or cleared since
   the base is kept or reported.
   */
  lemma NoScalarLostSilently(docs: map<nat, Doc>, events: seq<Event>, at: nat, sid: nat, m: Commit, newOp: string -> string, k: string)
    requires Committing(docs, events, at, sid)
    requires k !in m.multi && BODY !in m.multi && TYPE !in m.multi && WellFormed(m.checker)
    ensures var st := Run(Initial(docs), events);
            var c, s := st.clones[at], st.clones[at].sessions[sid];
            var after := Next(st, Finish(at, sid, m, newOp)).clones[at];
            NotLost(PlanCtx(s, c.store.local, m).b, st.known, k, At(c.store.local.fields, k), At(after.store.local.fields, k),
                    CommitPlan(s, c.store.local, m).plan.conflicts)
  {
    hide CommitPlan, ApplyLocal, NotLost, Traced, ShownBy, Run, PlanCtx;
    var st := Run(Initial(docs), events);
    SessionTraced(docs, events, at, sid);
    ScalarKept(st.clones[at].sessions[sid], st.clones[at].store.local, m, newOp, k, st.known);
  }

  lemma ScalarKept(s: Session, local: Doc, m: Commit, newOp: string -> string, k: string, known: Known)
    requires Traced(s.base, known) && Within(ShownBy(s.doc), known)
    requires k !in m.multi && BODY !in m.multi && TYPE !in m.multi && WellFormed(m.checker)
    ensures NotLost(PlanCtx(s, local, m).b, known, k, At(local.fields, k),
                    At(ApplyLocal(local, CommitPlan(s, local, m).plan.local, newOp).fields, k),
                    CommitPlan(s, local, m).plan.conflicts)
  {
    hide MergeCtx, SettleBase, SettleDoc, Traced, ShownBy;
    var c := PlanCtx(s, local, m);
    PlanCtxTraced(s, local, m, known);
    MergeReplaces(c, k, known);
    CommitField(s, local, m, newOp, k);
    CommitNeverRefused(s, local, m);
  }

  /**
   A key a commit notes as a conflict keeps its local value exactly when admit refused Jira's:
   the note then names a key nothing was done to.
   */
  lemma ConflictKeptIffRefused(s: Session, local: Doc, m: Commit, newOp: string -> string, k: string)
    requires BODY !in m.multi && TYPE !in m.multi && WellFormed(m.checker)
    requires Field(k) in CommitPlan(s, local, m).plan.conflicts
    ensures var after := ApplyLocal(local, CommitPlan(s, local, m).plan.local, newOp);
            && (At(after.fields, k) == At(local.fields, k) <==> k in Refusals(s, local, m))
            && (k !in Refusals(s, local, m) ==> At(after.fields, k) == At(s.doc.fields, k))
  {
    hide MergeCtx, SettleBase, SettleDoc, StepField, ApplyLocal;
    var c := PlanCtx(s, local, m);
    MergeAt(c, k);
    ConflictTakes(c, k);
    CommitField(s, local, m, newOp, k);
    CommitNeverRefused(s, local, m);
    SettleShowsFields(Some(s.base), local.(comments := WithPairs(local.comments, s.pairs)), ReadOf(s, m));
  }

  lemma ConflictTakes(c: Ctx, k: string)
    requires StepField(c, k).conflicts != {}
    ensures var lv, rv := At(c.local.fields, k), At(c.remote.fields, k);
            lv != rv && ApplyKey(lv, StepField(c, k).local, k) == rv
  {
    var ch := StepField(c, k).local;
    assert ch == [SetField(k, At(c.remote.fields, k))] && ch[..0] == [];
  }

  /**
   In any run, an item leaves a list only when the commit's own base, a list Jira showed or
   accepted, has it and the read the commit follows does not: an item added since the base
   never leaves.
   */
  lemma NoItemLost(docs: map<nat, Doc>, events: seq<Event>, at: nat, sid: nat, m: Commit, newOp: string -> string, k: string, x: string)
    requires Committing(docs, events, at, sid)
    requires k in m.multi && BODY !in m.multi
    requires var st := Run(Initial(docs), events);
             && x in SetOf(At(st.clones[at].store.local.fields, k))
             && x !in SetOf(At(Next(st, Finish(at, sid, m, newOp)).clones[at].store.local.fields, k))
    ensures var st := Run(Initial(docs), events);
            var c, s := st.clones[at], st.clones[at].sessions[sid];
            var b := PlanCtx(s, c.store.local, m).b;
            && x !in SetOf(At(s.doc.fields, k))
            && k in b.fields && x in SetOf(b.fields[k]) && (k, b.fields[k]) in st.known.fields
  {
    hide CommitPlan, ApplyLocal, Traced, ShownBy, Run, PlanCtx;
    var st := Run(Initial(docs), events);
    SessionTraced(docs, events, at, sid);
    ItemKept(st.clones[at].sessions[sid], st.clones[at].store.local, m, newOp, k, x, st.known);
  }

  lemma ItemKept(s: Session, local: Doc, m: Commit, newOp: string -> string, k: string, x: string, known: Known)
    requires Traced(s.base, known) && Within(ShownBy(s.doc), known) && k in m.multi && k != BODY
    requires x in SetOf(At(local.fields, k))
    requires x !in SetOf(At(ApplyLocal(local, CommitPlan(s, local, m).plan.local, newOp).fields, k))
    ensures x !in SetOf(At(s.doc.fields, k))
    ensures var b := PlanCtx(s, local, m).b; k in b.fields && x in SetOf(b.fields[k]) && (k, b.fields[k]) in known.fields
  {
    hide MergeCtx, CommitPlan, SettleBase, SettleDoc, Traced;
    var c := PlanCtx(s, local, m);
    PlanCtxTraced(s, local, m, known);
    CommitField(s, local, m, newOp, k);
    ItemKeptByMerge(c, k, x, known);
    SettleShowsFields(Some(s.base), local.(comments := WithPairs(local.comments, s.pairs)), ReadOf(s, m));
  }

  lemma SettleShowsFields(b: Option<BaseState>, local: Doc, r: Read)
    ensures SettleDoc(b, local, r).fields == r.doc.fields && SettleDoc(b, local, r).comments == r.doc.comments
  {
  }

  lemma ItemKeptByMerge(c: Ctx, k: string, x: string, known: Known)
    requires Traced(c.b, known) && k in c.multi && x in SetOf(At(c.local.fields, k))
    requires x !in SetOf(At(ApplyFields(c.local.fields, MergeCtx(c).local), k))
    ensures x !in SetOf(At(c.remote.fields, k))
    ensures k in c.b.fields && x in SetOf(c.b.fields[k]) && (k, c.b.fields[k]) in known.fields
  {
    hide MergeCtx, SetStep, ScalarStep, Traced, ApplyFields;
    MergeAt(c, k);
    if k in c.remote.fields && Field(k) !in Skipped(c.remote) {
      SetStepApplied(c, k);
      ItemTraced(c.b, k, x, known);
    }
  }

  lemma ItemTraced(b: BaseState, k: string, x: string, known: Known)
    requires Traced(b, known) && x in SetOf(At(b.fields, k))
    ensures (k, At(b.fields, k)) in known.fields
  {
    assert TracedForm(known, k, b.fields[k]);
  }

  // ---- comments ----

  predicate Rewrites(lc: LocalChange) { lc.EditComment? || lc.Tombstone? }

  /**
   What a rewrite may replace without saying so: the text the merge's own base has, which Jira
   showed or accepted; no text, when an edit finds no base; any, when a comment that never had
   a base is gone from Jira.
   */
  ghost predicate SilentlyReplaced(b: BaseState, known: Known, lc: LocalChange, d: DocComment)
    requires Rewrites(lc)
  {
    var bd := CommentBaseOf(b, lc.jid);
    || (bd != "" && d.text.digest == bd && TracedDigest(known, lc.jid, bd))
    || (lc.EditComment? && bd == "" && d.text.digest == EMPTY_DIGEST)
    || (lc.Tombstone? && lc.jid !in b.comments)
  }

  /** A change that rewrites a comment names one paired with that Jira comment, and says so or may be silent. */
  ghost predicate CommentAccounted(c: Ctx, known: Known, conflicts: set<Key>, lc: LocalChange) {
    Rewrites(lc) ==>
      exists d :: d in c.local.comments && d.op == lc.op && d.jid == lc.jid &&
        (Comment(lc.jid) in conflicts || SilentlyReplaced(c.b, known, lc, d))
  }

  ghost predicate AllAccounted(c: Ctx, known: Known, p: Plan) {
    forall lc :: lc in p.local ==> CommentAccounted(c, known, p.conflicts, lc)
  }

  lemma StepsAccounted(c: Ctx, known: Known, rc: DocComment)
    requires Traced(c.b, known)
    ensures forall lc :: lc in StepRemote(c, rc).local ==> CommentAccounted(c, known, StepRemote(c, rc).conflicts, lc)
    ensures rc in c.local.comments ==>
            forall lc :: lc in StepLocal(c, rc).local ==> CommentAccounted(c, known, StepLocal(c, rc).conflicts, lc)
  {
    if Paired(c, rc).Some? {
      var d := Paired(c, rc).value;
      assert d in c.local.comments && d.jid == rc.jid;
    }
  }

  lemma PlusAccounted(c: Ctx, known: Known, p: Plan, jid: string, s: CommentStep)
    requires AllAccounted(c, known, p)
    requires forall lc :: lc in s.local ==> CommentAccounted(c, known, s.conflicts, lc)
    ensures AllAccounted(c, known, PlusComment(p, jid, s))
  {
    var q := PlusComment(p, jid, s);
    forall lc | lc in q.local ensures CommentAccounted(c, known, q.conflicts, lc) {
      assert lc in p.local || lc in s.local;
      assert CommentAccounted(c, known, p.conflicts, lc) || CommentAccounted(c, known, s.conflicts, lc);
    }
  }

  lemma {:induction false} RemoteAccounted(c: Ctx, known: Known, p: Plan, rcs: seq<DocComment>)
    requires Traced(c.b, known) && AllAccounted(c, known, p)
    ensures AllAccounted(c, known, FoldRemote(c, p, rcs))
  {
    if rcs != [] {
      hide Traced, AllAccounted, CommentAccounted, PlusComment, StepRemote;
      var front, rc := rcs[..|rcs| - 1], rcs[|rcs| - 1];
      RemoteAccounted(c, known, p, front);
      StepsAccounted(c, known, rc);
      PlusAccounted(c, known, FoldRemote(c, p, front), rc.jid, StepRemote(c, rc));
    }
  }

  lemma {:induction false} LocalAccounted(c: Ctx, known: Known, p: Plan, lcs: seq<DocComment>)
    requires Traced(c.b, known) && AllAccounted(c, known, p) && forall lc :: lc in lcs ==> lc in c.local.comments
    ensures AllAccounted(c, known, FoldLocal(c, p, lcs))
  {
    if lcs != [] {
      hide Traced, AllAccounted, CommentAccounted, PlusComment, StepLocal;
      var front, lc := lcs[..|lcs| - 1], lcs[|lcs| - 1];
      assert lc in lcs;
      LocalAccounted(c, known, p, front);
      StepsAccounted(c, known, lc);
      PlusAccounted(c, known, FoldLocal(c, p, front), lc.jid, StepLocal(c, lc));
    }
  }

  lemma {:induction false} FieldsRewriteNoComment(c: Ctx, p: Plan, keys: seq<string>)
    requires forall lc :: lc in p.local ==> !Rewrites(lc)
    ensures forall lc :: lc in FoldFields(c, p, keys).local ==> !Rewrites(lc)
  {
    if keys != [] {
      FieldsRewriteNoComment(c, p, keys[..|keys| - 1]);
      StepKeys(c, keys[|keys| - 1]);
    }
  }

  lemma MergeAccounted(c: Ctx, known: Known)
    requires Traced(c.b, known)
    ensures AllAccounted(c, known, MergeCtx(c))
  {
    var f := FoldFields(c, Start(c), FieldKeys(c.remote));
    FieldsRewriteNoComment(c, Start(c), FieldKeys(c.remote));
    RemoteAccounted(c, known, f, c.remote.comments);
    LocalAccounted(c, known, FoldRemote(c, f, c.remote.comments), c.local.comments);
  }

  /** In any run of any clones, a commit rewrites a comment's text silently only as SilentlyReplaced allows. */
  lemma NoCommentLostSilently(docs: map<nat, Doc>, events: seq<Event>, at: nat, sid: nat, m: Commit, lc: LocalChange)
    requires Committing(docs, events, at, sid)
    requires var c := Run(Initial(docs), events).clones[at];
             lc in CommitPlan(c.sessions[sid], c.store.local, m).plan.local
    ensures var st := Run(Initial(docs), events);
            var c, s := st.clones[at], st.clones[at].sessions[sid];
            CommentAccounted(PlanCtx(s, c.store.local, m), st.known, CommitPlan(s, c.store.local, m).plan.conflicts, lc)
  {
    hide CommitPlan, CommentAccounted, Traced, ShownBy, Run, PlanCtx;
    var st := Run(Initial(docs), events);
    SessionTraced(docs, events, at, sid);
    CommitAccounted(st.clones[at].sessions[sid], st.clones[at].store.local, m, st.known, lc);
  }

  lemma CommitAccounted(s: Session, local: Doc, m: Commit, known: Known, lc: LocalChange)
    requires Traced(s.base, known) && Within(ShownBy(s.doc), known)
    requires lc in CommitPlan(s, local, m).plan.local
    ensures CommentAccounted(PlanCtx(s, local, m), known, CommitPlan(s, local, m).plan.conflicts, lc)
  {
    hide Traced, CommentAccounted, MergeCtx, SettleBase, SettleDoc;
    var c := PlanCtx(s, local, m);
    PlanCtxTraced(s, local, m, known);
    MergeAccounted(c, known);
    WithoutHas(SecondPlan(s, local, m).local, Refusals(s, local, m));
    PairsHaveNoKey(local.comments, s.pairs);
    if lc.PairComment? { NotRewriting(c, known, CommitPlan(s, local, m).plan.conflicts, lc); }
  }

  lemma NotRewriting(c: Ctx, known: Known, conflicts: set<Key>, lc: LocalChange)
    requires !Rewrites(lc)
    ensures CommentAccounted(c, known, conflicts, lc)
  {
  }
}
