/** One undisturbed round converges. */
module Converge {
  import opened Order
  import opened Documents
  import opened SetMerge
  import opened Bases
  import opened Merging
  import opened MergeFacts
  import opened Check
  import opened Admit
  import opened Engine
  import opened EngineFacts
  import S = Safety

  /** A round over a base and a read, and the read that follows its writes. */
  datatype Undisturbed = Undisturbed(b: Option<BaseState>, local: Doc, read: Read, answers: Answers, reread: Doc)

  ghost function FirstCtx(u: Undisturbed): Ctx {
    CtxOf(SettleBase(u.b, u.local, u.read), u.local, SettleDoc(u.b, u.local, u.read), u.read.multi, true)
  }

  /** The read that follows shows what one key's write left in Jira. */
  ghost predicate ShowsWrite(multi: set<string>, before: Doc, after: Doc, remote: seq<Change>, k: string) {
    var s := Sent(remote, k);
    if s == [] then At(after.fields, k) == At(before.fields, k)
    else match s[|s| - 1]
      case SetTo(_, v) => Form(k, At(after.fields, k)) == Form(k, v)
      case Diff(_, add, remove) => SetOf(At(after.fields, k)) == Changed(SetOf(At(before.fields, k)), add, remove)
  }

  /**
   Jira took a scalar and shows a form of its own for it, or a later edit: the read that follows
   is no older than the write.
   */
  ghost predicate Echoed(u: Undisturbed, remote: seq<Change>, k: string) {
    k !in u.read.multi && Sent(remote, k) != [] && u.answers.before <= u.reread.updated
  }

  /** Jira accepts every write, and the read that follows shows it, or its echo; a list as written. */
  ghost predicate Accepting(u: Undisturbed) {
    var c := FirstCtx(u);
    var p := MergeCtx(c);
    && (forall k :: Sent(p.remote, k) != [] ==> k in u.answers.accepted)
    && u.reread.fields.Keys == u.read.doc.fields.Keys
    && u.reread.skip == u.read.doc.skip && u.reread.lossy == u.read.doc.lossy
    && (forall k :: ShowsWrite(u.read.multi, u.read.doc, u.reread, p.remote, k) || Echoed(u, p.remote, k))
    && BODY !in u.read.multi
  }

  /** And nothing from before is in flight once the read is settled with. */
  ghost predicate Quiet(u: Undisturbed) {
    Accepting(u) && FirstCtx(u).b.sent == map[] && FirstCtx(u).b.sentComments == map[]
  }

  /** A key the round leaves different on purpose: the type, or a body over a lossy Jira text. */
  ghost predicate Stuck(d: Doc, k: string) { k == TYPE || (k == BODY && d.lossy) }

  /** Local, Jira and base agree on a key, or it is stuck with Jira's value as its base. */
  ghost predicate AgreedKey(b: BaseState, local: Doc, remote: Doc, multi: set<string>, k: string) {
    var l, r := At(local.fields, k), At(remote.fields, k);
    && k in b.fields
    && (if k in multi then SetOf(l) == SetOf(r) && b.fields[k] == Items(SetOf(r))
        else b.fields[k] == Form(k, r) && (Form(k, l) == Form(k, r) || Stuck(remote, k)))
  }

  ghost predicate Agreed(b: BaseState, local: Doc, remote: Doc, multi: set<string>) {
    forall k :: k in remote.fields && Field(k) !in Skipped(remote) ==> AgreedKey(b, local, remote, multi, k)
  }

  // ---- agreement is a fixpoint ----

  lemma AgreedStep(c: Ctx, k: string)
    requires k in c.remote.fields && Field(k) !in Skipped(c.remote) ==> AgreedKey(c.b, c.local, c.remote, c.multi, k)
    requires k in c.remote.fields
    ensures var s := StepField(c, k);
            && s.local == [] && s.remote == [] && s.conflicts == {}
            && (s.base.Some? ==> k in c.b.fields && s.base.value == c.b.fields[k])
  {
    if k in c.multi && Field(k) !in Skipped(c.remote) {
      var x := SetOf(At(c.remote.fields, k));
      assert Merged(x, x, x) == x;
      assert x - x == {};
    }
  }

  lemma {:induction false} QuietFold(c: Ctx, p: Plan, keys: seq<string>)
    requires forall k :: k in keys ==> k in c.remote.fields
    requires Agreed(c.b, c.local, c.remote, c.multi) && p.base.fields == c.b.fields
    ensures var q := FoldFields(c, p, keys); q == p.(pending := q.pending)
  {
    if keys != [] {
      hide StepField, AgreedKey;
      var k := keys[|keys| - 1];
      assert k in keys;
      QuietFold(c, p, keys[..|keys| - 1]);
      AgreedStep(c, k);
    }
  }

  /** Once local, Jira and base agree, a merge changes no field on either side and keeps the base. */
  lemma AgreedIsQuiet(c: Ctx)
    requires Agreed(c.b, c.local, c.remote, c.multi)
    ensures var p := MergeCtx(c);
            && (forall lc :: lc in p.local ==> !IsFieldChange(lc))
            && p.remote == [] && (forall k :: Field(k) !in p.conflicts)
            && p.base.fields == c.b.fields
  {
    FieldKeysDistinct(c.remote);
    forall k | k in FieldKeys(c.remote) ensures k in c.remote.fields { assert k in Elems(FieldKeys(c.remote)); }
    QuietFold(c, Start(c), FieldKeys(c.remote));
    CommentsLeaveFields(c, FoldFields(c, Start(c), FieldKeys(c.remote)));
  }

  lemma CommentsLeaveFields(c: Ctx, f: Plan)
    ensures var p := FoldLocal(c, FoldRemote(c, f, c.remote.comments), c.local.comments);
            && p.remote == f.remote && p.base.fields == f.base.fields
            && (forall k :: Field(k) in p.conflicts <==> Field(k) in f.conflicts)
            && (forall lc :: lc in p.local && IsFieldChange(lc) ==> lc in f.local)
  {
    var r := FoldRemote(c, f, c.remote.comments);
    forall k ensures Field(k) in FoldLocal(c, r, c.local.comments).conflicts <==> Field(k) in f.conflicts {
      FoldRemoteAt(c, f, c.remote.comments, k);
      FoldLocalAt(c, r, c.local.comments, k);
    }
    FoldRemoteAt(c, f, c.remote.comments, "");
    FoldLocalAt(c, r, c.local.comments, "");
    RemoteAddsNoField(c, f, c.remote.comments);
    LocalAddsNoField(c, r, c.local.comments);
  }

  lemma {:induction false} RemoteAddsNoField(c: Ctx, p: Plan, rcs: seq<DocComment>)
    ensures forall lc :: lc in FoldRemote(c, p, rcs).local && IsFieldChange(lc) ==> lc in p.local
  {
    if rcs != [] {
      RemoteAddsNoField(c, p, rcs[..|rcs| - 1]);
      assert CommentOnly(StepRemote(c, rcs[|rcs| - 1]));
    }
  }

  lemma {:induction false} LocalAddsNoField(c: Ctx, p: Plan, lcs: seq<DocComment>)
    ensures forall lc :: lc in FoldLocal(c, p, lcs).local && IsFieldChange(lc) ==> lc in p.local
  {
    if lcs != [] {
      LocalAddsNoField(c, p, lcs[..|lcs| - 1]);
      assert CommentOnly(StepLocal(c, lcs[|lcs| - 1]));
    }
  }

  // ---- one round reaches it ----

  /** The base a settled write resolves to: the form written for a scalar, none for a list. */
  ghost function ConfirmedAt(c: Ctx, k: string): Option<Value> {
    var s := StepField(c, k).remote;
    if s != [] && k !in c.multi then Some(SentForm(s[0], c.remote)) else None
  }

  /** c2 merges a key again once its write landed: same local value, the base confirmed, and the read shows the write, or anything for a scalar. */
  ghost predicate FollowsKey(c1: Ctx, c2: Ctx, k: string) {
    && (Field(k) in Skipped(c2.remote) <==> Field(k) in Skipped(c1.remote)) && c2.remote.lossy == c1.remote.lossy
    && c1.exporting && c2.multi == c1.multi && BODY !in c1.multi
    && At(c2.local.fields, k) == At(c1.local.fields, k)
    && (ShowsWrite(c1.multi, c1.remote, c2.remote, StepField(c1, k).remote, k) || (k !in c1.multi && StepField(c1, k).remote != []))
    && (if ConfirmedAt(c1, k).Some? then k in c2.b.fields && c2.b.fields[k] == ConfirmedAt(c1, k).value
        else (k in c2.b.fields <==> k in c1.b.fields) && (k in c1.b.fields ==> c2.b.fields[k] == c1.b.fields[k]))
  }

  /** What a merge makes of a key agrees, or is stuck. */
  ghost predicate Settles(c: Ctx, k: string) {
    var s := StepField(c, k);
    var b := if s.base.Some? then s.base else if k in c.b.fields then Some(c.b.fields[k]) else None;
    var l := ApplyKey(At(c.local.fields, k), s.local, k);
    var r := At(c.remote.fields, k);
    b.Some? &&
    (if k in c.multi then SetOf(l) == SetOf(r) && b.value == Items(SetOf(r))
     else b.value == Form(k, r) && (Form(k, l) == Form(k, r) || Stuck(c.remote, k)))
  }

  lemma OneSent(ch: Change, k: string)
    requires ch.key == k
    ensures Sent([ch], k) == [ch]
  {
    assert [ch][..0] == [];
  }

  lemma TakesJira(c: Ctx, k: string)
    ensures ApplyKey(At(c.local.fields, k), [SetField(k, At(c.remote.fields, k))], k) == At(c.remote.fields, k)
  {
    var ch := [SetField(k, At(c.remote.fields, k))];
    assert ch[..0] == [];
  }

  /** A scalar written: the base is what was written, the local value too, so whatever Jira shows is taken. */
  lemma ScalarWritten(c1: Ctx, c2: Ctx, k: string)
    requires Field(k) !in Skipped(c1.remote) && k !in c1.multi && StepField(c1, k).remote != []
    requires FollowsKey(c1, c2, k)
    ensures Settles(c2, k)
  {
    hide ShowsWrite;
    TakesJira(c2, k);
    assert k in c2.b.fields && c2.b.fields[k] == Form(k, At(c2.local.fields, k));
  }

  /** A scalar not written: Jira shows what it showed. */
  lemma ScalarUnwritten(c1: Ctx, c2: Ctx, k: string)
    requires k in c1.remote.fields && Field(k) !in Skipped(c1.remote) && k !in c1.multi && StepField(c1, k).remote == []
    requires FollowsKey(c1, c2, k)
    ensures Settles(c2, k)
  {
    TakesJira(c2, k);
    assert At(c2.remote.fields, k) == At(c1.remote.fields, k);
    assert ConfirmedAt(c1, k).None?;
  }

  lemma SecondScalar(c1: Ctx, c2: Ctx, k: string)
    requires k in c1.remote.fields && Field(k) !in Skipped(c1.remote) && k !in c1.multi
    requires FollowsKey(c1, c2, k)
    ensures Settles(c2, k)
  {
    hide FollowsKey, Settles, StepField;
    if StepField(c1, k).remote != [] { ScalarWritten(c1, c2, k); } else { ScalarUnwritten(c1, c2, k); }
  }

  /** The set the read shows after the first merge's writes is the merged one. */
  lemma ShowsMerged(c1: Ctx, c2: Ctx, k: string)
    requires Field(k) !in Skipped(c1.remote) && k in c1.multi && FollowsKey(c1, c2, k)
    ensures SetOf(At(c2.remote.fields, k)) ==
            Merged(SetOf(At(c1.b.fields, k)), SetOf(At(c1.local.fields, k)), SetOf(At(c1.remote.fields, k)))
  {
    var b, l, r := SetOf(At(c1.b.fields, k)), SetOf(At(c1.local.fields, k)), SetOf(At(c1.remote.fields, k));
    var p := MergeSetSpec(b, l, r);
    MergeSetMeetsBothSides(b, l, r);
    OneSent(Diff(k, p.rAdd, p.rRem), k);
    if p.rAdd == [] && p.rRem == [] {
      assert Changed(r, [], []) == r;
    }
  }

  lemma SecondSet(c1: Ctx, c2: Ctx, k: string)
    requires k in c1.remote.fields && Field(k) !in Skipped(c1.remote) && k in c1.multi
    requires FollowsKey(c1, c2, k)
    ensures Settles(c2, k)
  {
    ShowsMerged(c1, c2, k);
    var b, l, r := SetOf(At(c1.b.fields, k)), SetOf(At(c1.local.fields, k)), SetOf(At(c1.remote.fields, k));
    MergeSetSettled(b, l, r);
    var m := Merged(b, l, r);
    assert m - m == {};
    SetStepApplied(c2, k);
  }

  /**
   The second merge of one key, from what the first wrote and the read shows: whatever the
   first decided, they agree now.
   */
  lemma SecondStep(c1: Ctx, c2: Ctx, k: string)
    requires k in c1.remote.fields && Field(k) !in Skipped(c1.remote)
    requires FollowsKey(c1, c2, k)
    ensures Settles(c2, k)
  {
    if k in c1.multi {
      SecondSet(c1, c2, k);
    } else {
      SecondScalar(c1, c2, k);
    }
  }

  /** The session the round leaves for the commit. */
  ghost function SessionOf(u: Undisturbed): Session {
    BeginSpec(u.b, u.local, u.read, u.answers, Some(u.reread))
  }

  ghost function CommitCtx(u: Undisturbed, m: Commit): Ctx { PlanCtx(SessionOf(u), u.local, m) }

  /** The keys admit refuses in the commit: some change of theirs fails the shape check under the type planned. */
  ghost function RefusedIn(u: Undisturbed, m: Commit): set<string> { S.Refusals(SessionOf(u), u.local, m) }

  /** The commit reads with the same list keys. */
  ghost predicate SameLists(u: Undisturbed, m: Commit) { m.multi == u.read.multi }

  /** The read shows the comments written, or is no older than they are. */
  ghost predicate CommentsHeld(u: Undisturbed, m: Commit) {
    var s := SessionOf(u);
    forall j :: j in s.base.sentComments ==> HeldComment(ReadOf(s, m), j, s.base.sentComments[j]) || Landed(s.base, ReadOf(s, m))
  }

  ghost predicate Undisturbing(u: Undisturbed, m: Commit) { SameLists(u, m) && CommentsHeld(u, m) }

  // ---- what the writes leave in the session ----

  ghost function Writing(u: Undisturbed): Written {
    WriteSpec(FirstCtx(u).b, MergeCtx(FirstCtx(u)), u.read.doc, u.answers)
  }

  lemma SessionIs(u: Undisturbed)
    ensures var s, w := SessionOf(u), Writing(u);
            && s.base == w.base
            && (if w.wrote then s.doc == u.reread && s.pairs == w.pairs && s.echo == NewlySent(Some(FirstCtx(u).b), w.base)
                else s.doc == u.read.doc && s.pairs == map[] && s.echo == {})
  {
    hide MergeCtx, WriteSpec, SettleBase, SettleDoc;
    SettledParts(u);
  }

  lemma SessionBase(u: Undisturbed)
    ensures var b := SessionOf(u).base;
            b == FirstCtx(u).b.(sent := b.sent, sentComments := b.sentComments, wrote := b.wrote) && !b.unmerged
  {
    hide MergeCtx, WriteSpec, SettleBase, SettleDoc, FirstCtx, BeginSpec;
    SessionIs(u);
    SettledParts(u);
    WriteAt(FirstCtx(u).b, MergeCtx(FirstCtx(u)), u.read.doc, u.answers, "");
  }

  lemma SessionReads(u: Undisturbed)
    requires Accepting(u)
    ensures var d := SessionOf(u).doc;
            d.fields.Keys == u.read.doc.fields.Keys && d.skip == u.read.doc.skip && d.lossy == u.read.doc.lossy
  {
    hide MergeCtx, WriteSpec, FirstCtx, BeginSpec, ShowsWrite;
    SessionIs(u);
  }

  /** What the first merge writes of a key. */
  ghost function Step1(u: Undisturbed, k: string): seq<Change> {
    Taken(FirstCtx(u), k, k in FirstCtx(u).remote.fields).remote
  }

  lemma Step1Is(u: Undisturbed, k: string)
    ensures Sent(MergeCtx(FirstCtx(u)).remote, k) == Step1(u, k) == Sent(Step1(u, k), k)
    ensures Step1(u, k) == [] || (|Step1(u, k)| == 1 && Step1(u, k)[0].key == k)
  {
    hide MergeCtx, FirstCtx, StepField;
    MergeAt(FirstCtx(u), k);
    StepKeys(FirstCtx(u), k);
    if Step1(u, k) != [] {
      assert Step1(u, k) == [Step1(u, k)[0]];
      OneSent(Step1(u, k)[0], k);
    }
  }

  /** A key with nothing in flight is sent exactly when the first merge writes it, in the form written. */
  lemma SentOn(u: Undisturbed, k: string)
    requires Accepting(u) && k !in FirstCtx(u).b.sent
    ensures var s, step := SessionOf(u), Step1(u, k);
            && (k in s.base.sent <==> step != [])
            && (k in s.base.sent ==>
                  && s.base.sent[k] == SentForm(step[0], u.read.doc) && s.base.wrote == u.answers.before
                  && Field(k) in s.echo && s.doc == u.reread)
  {
    hide MergeCtx, WriteSpec, FirstCtx, BeginSpec, ShowsWrite, Step1, SentForm;
    SessionIs(u);
    Step1Is(u, k);
    WriteAt(FirstCtx(u).b, MergeCtx(FirstCtx(u)), u.read.doc, u.answers, k);
  }

  /** What the commit's read shows of it. */
  lemma ReadShows(u: Undisturbed, k: string)
    requires Accepting(u)
    ensures var s, step := SessionOf(u), Step1(u, k);
            || ShowsWrite(u.read.multi, u.read.doc, s.doc, step, k)
            || (k !in u.read.multi && step != [] && u.answers.before <= u.reread.updated)
  {
    hide MergeCtx, WriteSpec, FirstCtx, BeginSpec, Step1;
    SessionIs(u);
    Step1Is(u, k);
    var c := FirstCtx(u);
    SameSent(u.read.multi, u.read.doc, u.reread, MergeCtx(c).remote, Step1(u, k), k);
    if !Writing(u).wrote { NoStepUnwritten(u, k); }
  }

  lemma SameSent(multi: set<string>, a: Doc, b: Doc, remote: seq<Change>, step: seq<Change>, k: string)
    requires Sent(remote, k) == Sent(step, k)
    ensures ShowsWrite(multi, a, b, remote, k) == ShowsWrite(multi, a, b, step, k)
  {
  }

  lemma NoStepUnwritten(u: Undisturbed, k: string)
    requires Accepting(u) && !Writing(u).wrote
    ensures Step1(u, k) == []
  {
    hide MergeCtx, WriteSpec, FirstCtx, BeginSpec, Step1, ShowsWrite, SentForm;
    Step1Is(u, k);
    WriteAt(FirstCtx(u).b, MergeCtx(FirstCtx(u)), u.read.doc, u.answers, k);
  }

  lemma SettledParts(u: Undisturbed)
    ensures FirstCtx(u).b == OrEmpty(SettleBase(u.b, u.local, u.read)) && !FirstCtx(u).b.unmerged
    ensures FirstCtx(u).remote == u.read.doc.(skip := FirstCtx(u).remote.skip) && u.read.doc.skip <= FirstCtx(u).remote.skip
    ensures FirstPlan(u.b, u.local, u.read) == MergeCtx(FirstCtx(u))
    ensures FirstCtx(u).b.sent == map[] && FirstCtx(u).b.sentComments == map[] ==> FirstCtx(u).remote == u.read.doc
  {
    hide MergeCtx;
    assert UnseenSkips(map[], map[]) == {};
  }

  /** A write still in flight is skipped, and nothing else is that the read does not skip. */
  lemma InFlightSkipped(u: Undisturbed, k: string)
    ensures Field(k) in Skipped(FirstCtx(u).remote) <==> Field(k) in Skipped(u.read.doc) || k in FirstCtx(u).b.sent
  {
    hide MergeCtx;
    var skips := FirstCtx(u).remote.skip;
    assert forall x :: x in skips <==> x in u.read.doc.skip || x in UnseenSkips(FirstCtx(u).b.sent, FirstCtx(u).b.sentComments) by {
      SettledSkips(u);
    }
    if k in FirstCtx(u).b.sent { assert Skip(Field(k), Unconfirmed, true) in skips; }
  }

  lemma SettledSkips(u: Undisturbed)
    ensures FirstCtx(u).remote.skip == u.read.doc.skip + UnseenSkips(FirstCtx(u).b.sent, FirstCtx(u).b.sentComments)
  {
    hide MergeCtx;
    assert UnseenSkips(map[], map[]) == {};
  }

  /** Every write of the round is shown or its echo trusted, so the commit's settle resolves it. */
  lemma Resolved(u: Undisturbed, m: Commit, k: string)
    requires Accepting(u) && SameLists(u, m) && k !in FirstCtx(u).b.sent
    ensures var s := SessionOf(u);
            k in s.base.sent ==>
              || HeldField(ReadOf(s, m), k, s.base.sent[k])
              || (k !in m.multi && Landed(s.base, ReadOf(s, m)) && Field(k) in s.echo)
  {
    hide BeginSpec, MergeCtx, FirstCtx, StepField;
    SentOn(u, k);
    ReadShows(u, k);
    Step1Is(u, k);
    if Step1(u, k) != [] {
      OneSent(Step1(u, k)[0], k);
      assert Step1(u, k) == [Step1(u, k)[0]];
      SentIsForm(FirstCtx(u), k);
      FirstReads(u);
    }
  }

  /** What a key writes, against what the merge's two sides hold. */
  lemma SentIsForm(c: Ctx, k: string)
    requires StepField(c, k).remote != []
    ensures var ch := StepField(c, k).remote[0];
            if k in c.multi then ch.Diff? else ch.SetTo?
  {
  }

  /** One key of a base settled with a read. */
  lemma SettledAt(b: BaseState, local: Doc, r: Read, k: string)
    requires !b.unmerged
    ensures var c := OrEmpty(SettleBase(Some(b), local, r));
            && (k in c.fields <==> k in b.fields || FieldBase(b, r, k).Some?)
            && (k in c.fields ==> c.fields[k] == if FieldBase(b, r, k).Some? then FieldBase(b, r, k).value else b.fields[k])
            && (k in c.sent <==> k in b.sent && KeptField(b, r, k)) && !c.unmerged
  {
  }

  lemma CommitBaseAt(u: Undisturbed, m: Commit, k: string)
    ensures var s, c := SessionOf(u), CommitCtx(u, m);
            && (k in c.b.fields <==> k in s.base.fields || FieldBase(s.base, ReadOf(s, m), k).Some?)
            && (k in c.b.fields ==>
                  c.b.fields[k] == if FieldBase(s.base, ReadOf(s, m), k).Some? then FieldBase(s.base, ReadOf(s, m), k).value else s.base.fields[k])
            && (k in c.b.sent <==> k in s.base.sent && KeptField(s.base, ReadOf(s, m), k)) && !c.b.unmerged
  {
    hide BeginSpec, MergeCtx, FieldBase, KeptField, SettleBase, SettleDoc;
    SessionBase(u);
    SettledAt(SessionOf(u).base, u.local.(comments := WithPairs(u.local.comments, SessionOf(u).pairs)), ReadOf(SessionOf(u), m), k);
  }

  /** What the commit's settle leaves in flight was in flight before the round. */
  lemma OldLeft(u: Undisturbed, m: Commit, f: string)
    requires Accepting(u) && SameLists(u, m)
    ensures f in CommitCtx(u, m).b.sent ==> f in FirstCtx(u).b.sent
  {
    hide BeginSpec, MergeCtx, FirstCtx, HeldField, CommitCtx;
    CommitBaseAt(u, m, f);
    if f !in FirstCtx(u).b.sent { Resolved(u, m, f); }
  }

  lemma CommitSkips(u: Undisturbed, m: Commit)
    ensures var s, c := SessionOf(u), CommitCtx(u, m);
            c.remote == s.doc.(skip := s.doc.skip + UnseenSkips(c.b.sent, c.b.sentComments))
  {
    hide BeginSpec, MergeCtx;
    SessionBase(u);
    assert UnseenSkips(map[], map[]) == {};
    var s := SessionOf(u);
    assert s.doc.skip + {} == s.doc.skip;
  }

  /** A key with no older write in flight: its write is confirmed, and the commit reads it as the first merge did. */
  lemma ConfirmedKey(u: Undisturbed, m: Commit, k: string)
    requires Accepting(u) && SameLists(u, m) && k !in FirstCtx(u).b.sent
    ensures var s, c := SessionOf(u), CommitCtx(u, m);
            && !c.b.unmerged && k !in c.b.sent
            && c.remote == s.doc.(skip := c.remote.skip)
            && (Field(k) in Skipped(c.remote) <==> Field(k) in Skipped(s.doc))
            && (if k in s.base.sent && k !in m.multi then k in c.b.fields && c.b.fields[k] == s.base.sent[k]
                else (k in c.b.fields <==> k in s.base.fields) && (k in c.b.fields ==> c.b.fields[k] == s.base.fields[k]))
  {
    hide BeginSpec, MergeCtx, HeldField, HeldComment, FirstCtx, CommitCtx;
    Resolved(u, m, k);
    OldLeft(u, m, k);
    CommitSkips(u, m);
    CommitBaseAt(u, m, k);
    var c := CommitCtx(u, m);
    forall x | x in c.remote.skip && x.key == Field(k) ensures x in SessionOf(u).doc.skip { }
  }

  /** With nothing in flight before, the commit's base has nothing in flight, and it merges the read as it is. */
  lemma Confirmed(u: Undisturbed, m: Commit, k: string)
    requires Quiet(u) && Undisturbing(u, m)
    ensures var s, b := SessionOf(u), CommitCtx(u, m).b;
            && b.sent == map[] && b.sentComments == map[] && !b.unmerged
            && CommitCtx(u, m).remote == s.doc
            && (if k in s.base.sent && k !in m.multi then k in b.fields && b.fields[k] == s.base.sent[k]
                else (k in b.fields <==> k in s.base.fields) && (k in b.fields ==> b.fields[k] == s.base.fields[k]))
  {
    hide BeginSpec, MergeCtx, HeldField, HeldComment, SettleBase, SettleDoc, Accepting, CommitCtx, FirstCtx;
    ConfirmedKey(u, m, k);
    CommitSkips(u, m);
    forall f ensures f !in CommitCtx(u, m).b.sent { OldLeft(u, m, f); }
    NoneHeldBack(u, m);
    assert UnseenSkips(map[], map[]) == {};
    assert SessionOf(u).doc.skip + {} == SessionOf(u).doc.skip;
  }

  lemma NoneHeldBack(u: Undisturbed, m: Commit)
    requires CommentsHeld(u, m)
    ensures CommitCtx(u, m).b.sentComments == map[]
  {
    hide BeginSpec, MergeCtx;
  }

  lemma RoundFollows(u: Undisturbed, m: Commit, k: string)
    requires Accepting(u) && SameLists(u, m) && k in u.read.doc.fields && Field(k) !in Skipped(FirstCtx(u).remote)
    ensures FollowsKey(FirstCtx(u), CommitCtx(u, m), k)
    ensures k in FirstCtx(u).remote.fields && k in CommitCtx(u, m).remote.fields && Field(k) !in Skipped(CommitCtx(u, m).remote)
  {
    hide BeginSpec, MergeCtx, StepField, SettleBase, SettleDoc, ShowsWrite, Accepting, FirstCtx, CommitCtx;
    InFlightSkipped(u, k);
    SentOn(u, k);
    ReadShows(u, k);
    SessionReads(u);
    SessionBase(u);
    SettledParts(u);
    ConfirmedKey(u, m, k);
    CommitReads(u, m);
    FirstReads(u);
    var c1, c2 := FirstCtx(u), CommitCtx(u, m);
    if ShowsWrite(u.read.multi, u.read.doc, SessionOf(u).doc, StepField(c1, k).remote, k) {
      SameShows(u.read.multi, u.read.doc, c1.remote, SessionOf(u).doc, c2.remote, StepField(c1, k).remote, k);
    }
    assert forall ch :: SentForm(ch, c1.remote) == SentForm(ch, u.read.doc);
  }

  /** What a read shows of a write does not depend on what it skips. */
  lemma SameShows(multi: set<string>, a: Doc, a2: Doc, b: Doc, b2: Doc, remote: seq<Change>, k: string)
    requires a2 == a.(skip := a2.skip) && b2 == b.(skip := b2.skip) && ShowsWrite(multi, a, b, remote, k)
    ensures ShowsWrite(multi, a2, b2, remote, k)
  {
  }

  lemma FirstReads(u: Undisturbed)
    requires Accepting(u)
    ensures BODY !in FirstCtx(u).multi && FirstCtx(u).multi == u.read.multi && FirstCtx(u).exporting && FirstCtx(u).local == u.local
  {
    hide MergeCtx, SettleBase, SettleDoc;
  }

  lemma CommitReads(u: Undisturbed, m: Commit)
    requires SameLists(u, m)
    ensures CommitCtx(u, m).multi == u.read.multi == m.multi && CommitCtx(u, m).local.fields == u.local.fields
    ensures !CommitCtx(u, m).exporting
    ensures CommitCtx(u, m) == PlanCtx(SessionOf(u), u.local, m)
  {
    hide BeginSpec, SettleBase, SettleDoc;
  }

  // ---- what admit makes of the commit's merge ----

  /** The plan committed: the merge's, without the refused keys, whose bases are the earlier ones. */
  lemma AdmittedIs(u: Undisturbed, m: Commit)
    ensures var p, q := CommitPlan(SessionOf(u), u.local, m).plan, MergeCtx(CommitCtx(u, m));
            && p.local == Without(q.local + PairChanges(u.local.comments, SessionOf(u).pairs), RefusedIn(u, m))
            && p.conflicts == q.conflicts && p.pending == q.pending
            && p.base == q.base.(fields := RestoreAll(q.base.fields, Some(CommitCtx(u, m).b), RefusedIn(u, m)),
                                 retry := q.base.retry + set k | k in RefusedIn(u, m) :: Field(k))
  {
    hide BeginSpec, MergeCtx, PairChanges, Without, RestoreAll, Failing, PlannedType;
    SomeBase(u, m);
  }

  lemma SomeBase(u: Undisturbed, m: Commit)
    ensures var s := SessionOf(u);
            var l := u.local.(comments := WithPairs(u.local.comments, s.pairs));
            SettleBase(Some(s.base), l, ReadOf(s, m)) == Some(CommitCtx(u, m).b)
  {
    hide BeginSpec, MergeCtx, ConfirmSpec, FreshSpec;
  }

  /** A refused key is one the commit's merge changes; the body is never. */
  lemma RefusedStep(u: Undisturbed, m: Commit, k: string)
    requires k in RefusedIn(u, m)
    ensures var c := CommitCtx(u, m); k in c.remote.fields && StepField(c, k).local != [] && Field(k) !in Skipped(c.remote)
    ensures BODY !in m.multi ==> k != BODY
  {
    hide BeginSpec, MergeCtx, StepField, SettleBase, SettleDoc, Failing, PlannedType;
    var lc := RefusedChange(u, m, k);
    S.PlanChanges(SessionOf(u), u.local, m, lc);
    MergeFromSteps(CommitCtx(u, m));
    PairsHaveNoKey(u.local.comments, SessionOf(u).pairs);
    SkippedStep(CommitCtx(u, m), k);
    if k == BODY && BODY !in m.multi { S.ScalarChange(CommitCtx(u, m), k, lc); }
  }

  lemma RefusedChange(u: Undisturbed, m: Commit, k: string) returns (lc: LocalChange)
    requires k in RefusedIn(u, m)
    ensures lc in SecondPlan(SessionOf(u), u.local, m).local && Checked(lc) && lc.key == k
  {
    hide BeginSpec, SecondPlan;
    lc :| lc in SecondPlan(SessionOf(u), u.local, m).local && Checked(lc) && lc.key == k;
  }

  lemma SkippedStep(c: Ctx, k: string)
    ensures Field(k) in Skipped(c.remote) ==> StepField(c, k) == NOTHING
  {
  }

  /** A key held back by a refusal: its local value and its base are as they were, and it is to be retried. */
  ghost predicate HeldBack(b: BaseState, prior: BaseState, before: Doc, after: Doc, k: string) {
    && At(after.fields, k) == At(before.fields, k) && Field(k) in b.retry
    && (k in b.fields <==> k in prior.fields) && (k in b.fields ==> b.fields[k] == prior.fields[k])
  }

  /** The document an undisturbed round leaves. */
  ghost function LocalAfter(u: Undisturbed, m: Commit, newOp: string -> string): Doc {
    ApplyLocal(u.local, CommitPlan(SessionOf(u), u.local, m).plan.local, newOp)
  }

  lemma KeyKept(u: Undisturbed, m: Commit, newOp: string -> string, k: string)
    requires k in RefusedIn(u, m) && BODY !in m.multi
    ensures HeldBack(CommitPlan(SessionOf(u), u.local, m).plan.base, CommitCtx(u, m).b, u.local, LocalAfter(u, m, newOp), k)
  {
    hide BeginSpec, MergeCtx, CommitPlan, CommitCtx, PairChanges, S.Refusals, ApplyLocal;
    RefusedStep(u, m, k);
    S.CommitField(SessionOf(u), u.local, m, newOp, k);
    AdmittedIs(u, m);
  }

  /** Agreement on a key looks at its value on both sides, its base, and whether the text is lossy. */
  lemma AgreedSame(b: BaseState, b2: BaseState, l: Doc, l2: Doc, r: Doc, r2: Doc, multi: set<string>, k: string)
    requires (k in b.fields <==> k in b2.fields) && (k in b.fields ==> b.fields[k] == b2.fields[k])
    requires At(l.fields, k) == At(l2.fields, k) && At(r.fields, k) == At(r2.fields, k) && r.lossy == r2.lossy
    ensures AgreedKey(b, l, r, multi, k) == AgreedKey(b2, l2, r2, multi, k)
  {
  }

  lemma KeySettles(u: Undisturbed, m: Commit, k: string)
    requires Accepting(u) && SameLists(u, m) && k in u.read.doc.fields && Field(k) !in Skipped(FirstCtx(u).remote)
    ensures Settles(CommitCtx(u, m), k)
  {
    hide FollowsKey, Settles, FirstCtx, CommitCtx, Accepting;
    RoundFollows(u, m, k);
    SecondStep(FirstCtx(u), CommitCtx(u, m), k);
  }

  lemma KeyAgrees(u: Undisturbed, m: Commit, newOp: string -> string, k: string)
    requires Accepting(u) && SameLists(u, m) && k in u.read.doc.fields && Field(k) !in Skipped(FirstCtx(u).remote)
    requires k !in RefusedIn(u, m)
    ensures AgreedKey(CommitPlan(SessionOf(u), u.local, m).plan.base, LocalAfter(u, m, newOp), SessionOf(u).doc, m.multi, k)
  {
    hide BeginSpec, MergeCtx, StepField, Accepting, SettleBase, SettleDoc, CommitPlan, PairChanges, CommitCtx, FirstCtx, S.Refusals, ApplyLocal;
    var c2 := CommitCtx(u, m);
    KeySettles(u, m, k);
    RoundFollows(u, m, k);
    AdmittedIs(u, m);
    CommitReads(u, m);
    CommitSkips(u, m);
    MergeAt(c2, k);
    S.CommitField(SessionOf(u), u.local, m, newOp, k);
  }

  lemma KeyStuck(u: Undisturbed, m: Commit, newOp: string -> string, k: string)
    requires SameLists(u, m) && BODY !in m.multi && k in RefusedIn(u, m)
    ensures !AgreedKey(CommitPlan(SessionOf(u), u.local, m).plan.base, LocalAfter(u, m, newOp), SessionOf(u).doc, m.multi, k)
  {
    hide BeginSpec, MergeCtx, StepField, SettleBase, SettleDoc, CommitPlan, CommitCtx, S.Refusals, ApplyLocal, AgreedKey;
    var c2 := CommitCtx(u, m);
    RefusedStep(u, m, k);
    KeyKept(u, m, newOp, k);
    CommitReads(u, m);
    CommitSkips(u, m);
    AgreedSame(CommitPlan(SessionOf(u), u.local, m).plan.base, c2.b, LocalAfter(u, m, newOp), c2.local, SessionOf(u).doc, c2.remote, m.multi, k);
    if AgreedKey(c2.b, c2.local, c2.remote, m.multi, k) { AgreedStep(c2, k); }
  }

  /**
   One undisturbed round, whatever older writes are still in flight: on a key Jira's document has
   and the first read, settled, does not skip, local, Jira and base agree (a type changed locally
   and a body over a lossy text keep Jira's value as their base) exactly when admit does not
   refuse it, and a refused key is held back; no write stays in flight that was not before.
   */
  lemma RoundConvergesBeside(u: Undisturbed, m: Commit, newOp: string -> string)
    requires Accepting(u) && SameLists(u, m)
    ensures var s, c := SessionOf(u), FirstCtx(u);
            var p, local := CommitPlan(s, u.local, m).plan, LocalAfter(u, m, newOp);
            && (forall k :: k in u.read.doc.fields && Field(k) !in Skipped(c.remote) ==>
                  (AgreedKey(p.base, local, s.doc, m.multi, k) <==> k !in RefusedIn(u, m)))
            && (forall k :: k in RefusedIn(u, m) ==> HeldBack(p.base, CommitCtx(u, m).b, u.local, local, k))
            && p.base.sent.Keys <= c.b.sent.Keys
            && (forall k :: k in p.base.sent ==> Field(k) in Skipped(c.remote))
  {
    hide BeginSpec, MergeCtx, StepField, Accepting, SettleBase, SettleDoc, AgreedKey, CommitPlan, CommitCtx, FirstCtx, HeldBack, RefusedIn, LocalAfter;
    var p, local := CommitPlan(SessionOf(u), u.local, m).plan, LocalAfter(u, m, newOp);
    FirstReads(u);
    forall k | k in u.read.doc.fields && Field(k) !in Skipped(FirstCtx(u).remote)
      ensures AgreedKey(p.base, local, SessionOf(u).doc, m.multi, k) <==> k !in RefusedIn(u, m)
    {
      if k in RefusedIn(u, m) { KeyStuck(u, m, newOp, k); } else { KeyAgrees(u, m, newOp, k); }
    }
    forall k | k in RefusedIn(u, m) ensures HeldBack(p.base, CommitCtx(u, m).b, u.local, local, k) { KeyKept(u, m, newOp, k); }
    SentStays(u, m);
    forall f | f in p.base.sent ensures f in FirstCtx(u).b.sent && Field(f) in Skipped(FirstCtx(u).remote) {
      OldLeft(u, m, f);
      InFlightSkipped(u, f);
    }
  }

  lemma SentStays(u: Undisturbed, m: Commit)
    ensures var b, c := CommitPlan(SessionOf(u), u.local, m).plan.base, CommitCtx(u, m);
            && b.sent == c.b.sent && b.sentComments == c.b.sentComments && !b.unmerged
            && b.retry == (set x | x in c.remote.skip && x.retry :: x.key) + (set k | k in RefusedIn(u, m) :: Field(k))
            && b.updated == c.remote.updated
  {
    hide BeginSpec, MergeCtx, CommitPlan, CommitCtx, RefusedIn, RestoreAll;
    AdmittedIs(u, m);
    MergeAt(CommitCtx(u, m), "");
  }

  /** The keys Jira's document has and the read does not skip agree, but the refused. */
  ghost predicate AgreedBut(b: BaseState, local: Doc, remote: Doc, multi: set<string>, refused: set<string>) {
    forall k :: k in remote.fields && Field(k) !in Skipped(remote) ==> (AgreedKey(b, local, remote, multi, k) <==> k !in refused)
  }

  /**
   With nothing in flight at the start: every key the read does not skip agrees exactly when it
   is not refused, nothing is left in flight, and what is retried is what the read itself
   retries and the refused.
   */
  lemma RoundConverges(u: Undisturbed, m: Commit, newOp: string -> string)
    requires Quiet(u) && Undisturbing(u, m)
    ensures var s := SessionOf(u);
            var p, local := CommitPlan(s, u.local, m).plan, LocalAfter(u, m, newOp);
            && AgreedBut(p.base, local, s.doc, m.multi, RefusedIn(u, m))
            && (forall k :: k in RefusedIn(u, m) ==> HeldBack(p.base, CommitCtx(u, m).b, u.local, local, k))
            && p.base.sent == map[] && p.base.sentComments == map[] && !p.base.unmerged
            && p.base.retry == (set x | x in u.read.doc.skip && x.retry :: x.key) + (set k | k in RefusedIn(u, m) :: Field(k))
  {
    hide BeginSpec, MergeCtx, StepField, CommentsHeld, Accepting, SettleBase, SettleDoc, AgreedKey, CommitPlan, CommitCtx, FirstCtx, HeldBack, RefusedIn, LocalAfter;
    RoundConvergesBeside(u, m, newOp);
    SettledParts(u);
    SessionReads(u);
    Confirmed(u, m, "");
    SentStays(u, m);
  }
}
