/** What a merge decides, in terms of the values it compares. */
module Outcomes {
  // The base, the local value and Jira's, key by key and comment by comment; nothing here names a step.

  import opened Order
  import opened Documents
  import opened SetMerge
  import opened Merging
  import opened MergeFacts
  import opened Engine
  import opened CommentFacts
  import opened CommentsOnce

  // ---- scalars ----

  /** The key is merged, as one value. */
  predicate IsScalar(c: Ctx, k: string) { k in c.remote.fields && Field(k) !in Skipped(c.remote) && k !in c.multi }

  function LocalForm(c: Ctx, k: string): Value { Form(k, At(c.local.fields, k)) }

  function JiraForm(c: Ctx, k: string): Value { Form(k, At(c.remote.fields, k)) }

  /** The base there is equals a form. */
  predicate BaseIs(c: Ctx, k: string, v: Value) { k in c.b.fields && c.b.fields[k] == v }

  /** What the merge leaves of a key: its local value, what is sent of it, whether it is noted, and its base. */
  ghost predicate Leaves(c: Ctx, k: string, local: Value, sent: seq<Change>, noted: bool, base: Option<Value>) {
    var p := MergeCtx(c);
    && At(ApplyFields(c.local.fields, p.local), k) == local && Sent(p.remote, k) == sent
    && (Field(k) in p.conflicts <==> noted)
    && (k in p.base.fields <==> base.Some?) && (base.Some? ==> k in p.base.fields && p.base.fields[k] == base.value)
  }

  function BaseAt(b: map<string, Value>, k: string): Option<Value> { if k in b then Some(b[k]) else None }

  lemma SetOne(v: Value, k: string, w: Value)
    ensures ApplyKey(v, [SetField(k, w)], k) == w
  {
    assert [SetField(k, w)][..0] == [];
  }

  /** Equal on both sides: nothing changes, and that is the base. */
  lemma EqualAgrees(c: Ctx, k: string)
    requires IsScalar(c, k) && LocalForm(c, k) == JiraForm(c, k)
    ensures Leaves(c, k, At(c.local.fields, k), [], false, Some(JiraForm(c, k)))
  {
    hide MergeCtx;
    MergeAt(c, k);
  }

  /** Jira's value to be written, but for what the merge does not write. */
  predicate Writable(c: Ctx, k: string) { k != TYPE && !(k == BODY && c.remote.lossy) }

  /**
   Jira left it alone and the local side did not: the local value stays, without a note, and is
   sent when the merge exports and may write the key; else that is pending. The base waits.
   */
  lemma LocalEditWins(c: Ctx, k: string)
    requires IsScalar(c, k) && BaseIs(c, k, JiraForm(c, k)) && LocalForm(c, k) != JiraForm(c, k)
    ensures Leaves(c, k, At(c.local.fields, k),
                   if Writable(c, k) && c.exporting then [SetTo(k, At(c.local.fields, k))] else [],
                   false, Some(c.b.fields[k]))
    ensures k == TYPE ==> Skip(Field(k), TypeChange, false) in MergeCtx(c).pending
    ensures k == BODY && c.remote.lossy ==> Skip(Field(k), LossyText, false) in MergeCtx(c).pending
    ensures Writable(c, k) && !c.exporting ==> Skip(Field(k), NotExported, false) in MergeCtx(c).pending
  {
    hide MergeCtx;
    MergeAt(c, k);
    if k == TYPE {
      assert Skip(Field(k), TypeChange, false) in StepField(c, k).pending;
    } else if k == BODY && c.remote.lossy {
      assert Skip(Field(k), LossyText, false) in StepField(c, k).pending;
    } else if !c.exporting {
      assert Skip(Field(k), NotExported, false) in StepField(c, k).pending;
    }
  }

  /** The local side left it alone and Jira did not: Jira's value is taken, without a note, and is the base. */
  lemma JiraEditTaken(c: Ctx, k: string)
    requires IsScalar(c, k) && BaseIs(c, k, LocalForm(c, k)) && LocalForm(c, k) != JiraForm(c, k)
    ensures Leaves(c, k, At(c.remote.fields, k), [], false, Some(JiraForm(c, k)))
  {
    hide MergeCtx;
    MergeAt(c, k);
    SetOne(At(c.local.fields, k), k, At(c.remote.fields, k));
  }

  /**
   Both differ from the base, or there is none: Jira's value is taken and is the base, with a
   note exactly when there is a base or the local value is set.
   */
  lemma JiraWinsConflict(c: Ctx, k: string)
    requires IsScalar(c, k) && LocalForm(c, k) != JiraForm(c, k)
    requires !BaseIs(c, k, LocalForm(c, k)) && !BaseIs(c, k, JiraForm(c, k))
    ensures Leaves(c, k, At(c.remote.fields, k), [], k in c.b.fields || LocalForm(c, k) != Form(k, Null), Some(JiraForm(c, k)))
  {
    hide MergeCtx;
    MergeAt(c, k);
    SetOne(At(c.local.fields, k), k, At(c.remote.fields, k));
  }

  /** A key the read skips, or Jira's document does not have, is as it was in every way. */
  lemma UnmergedStays(c: Ctx, k: string)
    requires k !in c.remote.fields || Field(k) in Skipped(c.remote)
    ensures Leaves(c, k, At(c.local.fields, k), [], false, BaseAt(c.b.fields, k))
  {
    hide MergeCtx;
    MergeAt(c, k);
  }

  // ---- lists ----

  predicate IsList(c: Ctx, k: string) { k in c.remote.fields && Field(k) !in Skipped(c.remote) && k in c.multi }

  function BaseItems(c: Ctx, k: string): set<string> { SetOf(At(c.b.fields, k)) }

  function LocalItems(c: Ctx, k: string): set<string> { SetOf(At(c.local.fields, k)) }

  function JiraItems(c: Ctx, k: string): set<string> { SetOf(At(c.remote.fields, k)) }

  /** An item is left when a side added it, or it was in the base and neither removed it. */
  predicate Remains(c: Ctx, k: string, x: string) {
    || (x !in BaseItems(c, k) && (x in LocalItems(c, k) || x in JiraItems(c, k)))
    || (x in BaseItems(c, k) && x in LocalItems(c, k) && x in JiraItems(c, k))
  }

  /**
   A list is never noted. The local side is left with exactly the items that remain; Jira is
   sent, when the merge exports, the difference that leaves it with them too; and they are the
   base when Jira has them already.
   */
  lemma ListMerged(c: Ctx, k: string)
    requires IsList(c, k)
    ensures var p := MergeCtx(c);
            var after := SetOf(At(ApplyFields(c.local.fields, p.local), k));
            && (forall x :: x in after <==> Remains(c, k, x)) && Field(k) !in p.conflicts
            && (if JiraItems(c, k) == after then Sent(p.remote, k) == [] && k in p.base.fields && p.base.fields[k] == Items(after)
                else
                  && BaseAt(p.base.fields, k) == BaseAt(c.b.fields, k)
                  && (if c.exporting then
                        exists add, remove :: Sent(p.remote, k) == [Diff(k, add, remove)] && Changed(JiraItems(c, k), add, remove) == after
                      else Sent(p.remote, k) == [] && Skip(Field(k), NotExported, false) in p.pending))
  {
    hide MergeCtx, StepField, Merged;
    MergeAt(c, k);
    SetStepApplied(c, k);
    ListStep(c, k);
    RemainsIs(c, k);
  }

  lemma RemainsIs(c: Ctx, k: string)
    ensures forall x :: x in Merged(BaseItems(c, k), LocalItems(c, k), JiraItems(c, k)) <==> Remains(c, k, x)
  {
  }

  lemma ListStep(c: Ctx, k: string)
    requires IsList(c, k)
    ensures var s, m := StepField(c, k), Merged(BaseItems(c, k), LocalItems(c, k), JiraItems(c, k));
            && s.conflicts == {}
            && (if JiraItems(c, k) == m then s.remote == [] && s.base == Some(Items(m))
                else
                  && s.base == None
                  && (if c.exporting then exists add, remove :: s.remote == [Diff(k, add, remove)] && Changed(JiraItems(c, k), add, remove) == m
                      else s.remote == [] && Skip(Field(k), NotExported, false) in s.pending))
  {
    hide Sorted, Merged, Changed;
    var b, l, r := BaseItems(c, k), LocalItems(c, k), JiraItems(c, k);
    var q := MergeSetSpec(b, l, r);
    MergeSetMeetsBothSides(b, l, r);
    NoDifference(r, q.merged);
    if r != q.merged && c.exporting { assert StepField(c, k).remote == [Diff(k, q.rAdd, q.rRem)]; }
  }

  lemma NoDifference(r: set<string>, m: set<string>)
    ensures Sorted(m - r) == [] && Sorted(r - m) == [] <==> r == m
  {
    assert Elems(Sorted(m - r)) == m - r && Elems(Sorted(r - m)) == r - m;
    if r == m { assert m - r == {} && r - m == {}; }
    if Sorted(m - r) == [] && Sorted(r - m) == [] { assert m - r == {} && r - m == {}; }
  }

  // ---- paired comments ----

  /** The Jira comment is merged with its local copy. */
  ghost predicate IsPaired(c: Ctx, rc: DocComment, d: DocComment) {
    LinkedIn(c) && rc in c.remote.comments && Paired(c, rc) == Some(d) && Comment(rc.jid) !in Skipped(c.remote)
  }

  /** The base there is of a comment not recorded as deleted. */
  predicate CommentBaseIs(c: Ctx, jid: string, digest: string) { digest != "" && CommentBaseOf(c.b, jid) == digest }

  predicate CommentBased(c: Ctx, jid: string) { CommentBaseOf(c.b, jid) != "" }

  /** The edit sent of a comment. */
  ghost predicate Edits(c: Ctx, rc: DocComment, d: DocComment) { CommentWrite(d.op, rc.jid, d.text) in MergeCtx(c).writes }

  ghost predicate Untouched(c: Ctx, rc: DocComment) { forall w :: w in MergeCtx(c).writes ==> w.jid != rc.jid }

  /** The steps of a paired comment, told by the merge. */
  lemma PairedSays(c: Ctx, rc: DocComment, d: DocComment)
    requires IsPaired(c, rc, d)
    ensures var s := StepRemote(c, rc);
            && ApplyOne(d, MergeCtx(c).local) == ApplyOne(d, s.local)
            && Carries(MergeCtx(c), s)
            && (forall w :: w in MergeCtx(c).writes && w.jid == rc.jid ==> w in s.writes)
  {
    hide MergeCtx, LinkedIn, StepRemote, StepLocal, Answerer, ByJid;
    HasJid(c, rc);
    AnswersIs(c, rc, d);
    MergeOne(c, d);
    AfterFrom(c, rc, d);
    MergeCarries(c);
    MergeFrom(c);
    SameRemote(c);
    forall x, w | x in c.remote.comments && w in StepRemote(c, x).writes ensures w.jid == x.jid { RemoteWrites(c, x, w); }
    forall x, w | w in StepLocal(c, x).writes ensures w.jid == "" { LocalWrites(c, x, w); }
  }

  lemma RemoteWrites(c: Ctx, x: DocComment, w: CommentWrite)
    requires w in StepRemote(c, x).writes
    ensures w.jid == x.jid
  {
  }

  lemma LocalWrites(c: Ctx, x: DocComment, w: CommentWrite)
    requires w in StepLocal(c, x).writes
    ensures w.jid == ""
  {
  }

  /** Equal texts: nothing changes. */
  lemma EqualTextsAgree(c: Ctx, rc: DocComment, d: DocComment)
    requires IsPaired(c, rc, d) && d.text.digest == rc.text.digest
    ensures ApplyOne(d, MergeCtx(c).local) == d && Untouched(c, rc)
  {
    hide MergeCtx, LinkedIn, Paired;
    PairedSays(c, rc, d);
    TextKept(c, rc, d);
  }

  lemma TextKept(c: Ctx, rc: DocComment, d: DocComment)
    requires Paired(c, rc) == Some(d) && Comment(rc.jid) !in Skipped(c.remote)
    requires d.text.digest == rc.text.digest || (CommentBaseIs(c, rc.jid, rc.text.digest) && d.text.digest != rc.text.digest)
    ensures StepRemote(c, rc).local == [] && ApplyOne(d, []) == d
    ensures d.text.digest == rc.text.digest ==> StepRemote(c, rc).writes == []
  {
    hide Paired;
  }

  /**
   Jira left the text alone and the local side did not: the local text stays and is written when
   the merge exports and Jira's text converts without loss; else that is pending.
   */
  lemma LocalTextWins(c: Ctx, rc: DocComment, d: DocComment)
    requires IsPaired(c, rc, d) && CommentBaseIs(c, rc.jid, rc.text.digest) && d.text.digest != rc.text.digest
    ensures ApplyOne(d, MergeCtx(c).local) == d
    ensures if c.exporting && rc.lossless then Edits(c, rc, d) else Untouched(c, rc)
    ensures !rc.lossless ==> Skip(Comment(rc.jid), LossyText, false) in MergeCtx(c).pending
    ensures rc.lossless && !c.exporting ==> Skip(Comment(rc.jid), NotExported, false) in MergeCtx(c).pending
  {
    hide MergeCtx, LinkedIn, Paired;
    PairedSays(c, rc, d);
    TextKept(c, rc, d);
    var s := StepRemote(c, rc);
    if c.exporting && rc.lossless { assert CommentWrite(d.op, rc.jid, d.text) in s.writes; }
    if !rc.lossless { assert Skip(Comment(rc.jid), LossyText, false) in s.pending; }
    if rc.lossless && !c.exporting { assert Skip(Comment(rc.jid), NotExported, false) in s.pending; }
  }

  /** In every other case Jira's text is taken. */
  lemma JiraTextTaken(c: Ctx, rc: DocComment, d: DocComment)
    requires IsPaired(c, rc, d) && d.text.digest != rc.text.digest && !CommentBaseIs(c, rc.jid, rc.text.digest)
    ensures ApplyOne(d, MergeCtx(c).local) == d.(text := rc.text) && Untouched(c, rc)
  {
    hide MergeCtx, LinkedIn, Paired;
    PairedSays(c, rc, d);
    HasJid(c, rc);
    TextTaken(c, rc, d);
    OneChange(d, EditComment(d.op, rc.jid, rc.text));
  }

  lemma TextTaken(c: Ctx, rc: DocComment, d: DocComment)
    requires Paired(c, rc) == Some(d) && Comment(rc.jid) !in Skipped(c.remote) && rc.text.digest != ""
    requires d.text.digest != rc.text.digest && !CommentBaseIs(c, rc.jid, rc.text.digest)
    ensures StepRemote(c, rc).local == [EditComment(d.op, rc.jid, rc.text)] && StepRemote(c, rc).writes == []
  {
    hide Paired;
  }

  /**
   A comment with one copy is noted exactly when the texts differ, neither is the base's, and
   there is a base or the local text is set. Its base is Jira's text afterwards, but for a local
   edit of what Jira left alone.
   */
  lemma CommentNoted(c: Ctx, rc: DocComment, d: DocComment)
    requires Well(c) && IsPaired(c, rc, d)
    ensures var l, r, p := d.text.digest, rc.text.digest, MergeCtx(c);
            && (Comment(rc.jid) in p.conflicts <==>
                  && l != r && !CommentBaseIs(c, rc.jid, l) && !CommentBaseIs(c, rc.jid, r)
                  && (CommentBased(c, rc.jid) || l != EMPTY_DIGEST))
            && (if CommentBaseIs(c, rc.jid, r) && l != r then CommentBaseOf(p.base, rc.jid) == r
                else rc.jid in p.base.comments && p.base.comments[rc.jid] == r)
  {
    hide MergeCtx, LinkedIn, OneCopy, Paired, Claims, StepLocal, StepRemote;
    HasJid(c, rc);
    MergeFrom(c);
    MergeCarries(c);
    SameRemote(c);
    RemoteBaseIs(c, rc);
    forall x ensures StepRemote(c, x).conflicts <= {Comment(x.jid)} { RemoteConflicts(c, x); }
    forall e ensures StepLocal(c, e).conflicts <= {Comment(e.jid)} { LocalConflicts(c, e); }
    forall e | e in c.local.comments && e.jid == rc.jid ensures StepLocal(c, e) == NO_COMMENT { CopyKeepsBase(c, rc, e); }
    NotedStep(c, rc, d);
  }

  lemma NotedStep(c: Ctx, rc: DocComment, d: DocComment)
    requires Paired(c, rc) == Some(d) && Comment(rc.jid) !in Skipped(c.remote) && rc.text.digest != ""
    ensures var l, r, s := d.text.digest, rc.text.digest, StepRemote(c, rc);
            && s.conflicts == (if l != r && !CommentBaseIs(c, rc.jid, l) && !CommentBaseIs(c, rc.jid, r)
                                  && (CommentBased(c, rc.jid) || l != EMPTY_DIGEST) then {Comment(rc.jid)} else {})
            && s.base == if CommentBaseIs(c, rc.jid, r) && l != r then None else Some(r)
  {
    hide Paired;
  }
}
