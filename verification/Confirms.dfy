/** What a read makes of the writes in flight, by its clock, and what the merge then decides. */
module Confirms {
  import opened Documents
  import opened Bases
  import opened SetMerge
  import opened Merging
  import opened MergeFacts
  import opened CommentFacts
  import opened CommentsOnce
  import opened Outcomes

  // ---- one write, one read ----

  /** The read was taken no earlier than the write. */
  predicate Reaches(b: BaseState, r: Read) { r.doc.updated >= b.wrote }

  /** It was taken before the write, and Jira's clock is within the window of the write. */
  predicate TooEarly(b: BaseState, r: Read) { r.doc.updated < b.wrote && r.now < b.wrote + r.window }

  predicate ShowsField(r: Read, k: string, v: Value) {
    if k in r.multi then SetOf(At(r.doc.fields, k)) == SetOf(v) else Form(k, At(r.doc.fields, k)) == v
  }

  predicate ShowsComment(r: Read, jid: string, digest: string) {
    var rc := ByJid(r.doc.comments, jid); rc.Some? && rc.value.text.digest == digest
  }

  /**
   A write the read does not show, taken too early, stays in flight and is pending to be retried,
   its base untouched. Any other is settled: the base of a list stays; that of a value is the one
   written if the read shows it or answers it, and otherwise equals neither side's.
   */
  lemma FieldConfirmed(b: BaseState, r: Read, k: string)
    requires k in b.sent
    ensures var after, v := ConfirmSpec(b, r), b.sent[k];
            if !ShowsField(r, k, v) && TooEarly(b, r) then
              && k in after.sent && after.sent[k] == v && BaseAt(after.fields, k) == BaseAt(b.fields, k)
              && Skip(Field(k), Unconfirmed, true) in ConfirmSkips(b, r)
            else
              && k !in after.sent && (forall s :: s in ConfirmSkips(b, r) ==> s.key != Field(k))
              && BaseAt(after.fields, k) ==
                   if k in r.multi then BaseAt(b.fields, k)
                   else if ShowsField(r, k, v) || (Reaches(b, r) && Field(k) in r.echo) then Some(v)
                   else Some(UNKNOWN_BASE)
  {
  }

  /** And of a comment: gone from a read that is not too early, it held what was written before it was deleted. */
  lemma CommentConfirmed(b: BaseState, r: Read, jid: string)
    requires jid in b.sentComments
    ensures var after, v := ConfirmSpec(b, r), b.sentComments[jid];
            if !ShowsComment(r, jid, v) && TooEarly(b, r) then
              && jid in after.sentComments && after.sentComments[jid] == v
              && (jid in after.comments <==> jid in b.comments) && (jid in b.comments ==> after.comments[jid] == b.comments[jid])
              && Skip(Comment(jid), Unconfirmed, true) in ConfirmSkips(b, r)
            else
              && jid !in after.sentComments && (forall s :: s in ConfirmSkips(b, r) ==> s.key != Comment(jid))
              && jid in after.comments
              && after.comments[jid] ==
                   if ShowsComment(r, jid, v) || ByJid(r.doc.comments, jid).None? || (Reaches(b, r) && Comment(jid) in r.echo) then v
                   else UNKNOWN_COMMENT
  {
  }

  /** Of what is not in flight a confirm changes nothing. */
  lemma OthersUnconfirmed(b: BaseState, r: Read, k: string)
    ensures k !in b.sent ==> BaseAt(ConfirmSpec(b, r).fields, k) == BaseAt(b.fields, k) && k !in ConfirmSpec(b, r).sent
    ensures k !in b.sentComments ==> k !in ConfirmSpec(b, r).sentComments && (k in ConfirmSpec(b, r).comments <==> k in b.comments)
    ensures k !in b.sentComments && k in b.comments ==> ConfirmSpec(b, r).comments[k] == b.comments[k]
  {
  }

  // ---- what the merge over the settled base decides ----

  function SettledCtx(b: BaseState, local: Doc, r: Read, exporting: bool): Ctx {
    CtxOf(SettleBase(Some(b), local, r), local, SettleDoc(Some(b), local, r), r.multi, exporting)
  }

  /** One value written, and a read that is not too early for it. */
  predicate Answered(b: BaseState, r: Read, k: string) {
    && k in b.sent && k in r.doc.fields && k !in r.multi && Field(k) !in Skipped(r.doc)
    && (ShowsField(r, k, b.sent[k]) || !TooEarly(b, r))
  }

  lemma AnsweredCtx(b: BaseState, local: Doc, r: Read, exporting: bool, k: string)
    requires Answered(b, r, k)
    ensures var c, v := SettledCtx(b, local, r, exporting), b.sent[k];
            && IsScalar(c, k) && LocalForm(c, k) == Form(k, At(local.fields, k)) && JiraForm(c, k) == Form(k, At(r.doc.fields, k))
            && c.local == local && c.remote.fields == r.doc.fields && c.remote.lossy == r.doc.lossy && c.exporting == exporting
            && k in c.b.fields
            && c.b.fields[k] == if ShowsField(r, k, v) || (Reaches(b, r) && Field(k) in r.echo) then v else UNKNOWN_BASE
  {
    hide ConfirmSpec, ConfirmSkips;
    var f := if b.unmerged then FreshSpec(b, local, r.doc) else b;
    assert f.sent == b.sent && f.wrote == b.wrote;
    FieldConfirmed(f, r, k);
    assert b.sent != map[];
    var c := SettledCtx(b, local, r, exporting);
    assert c.b == ConfirmSpec(f, r) && c.remote.skip == r.doc.skip + ConfirmSkips(f, r);
  }

  /** Shown, and edited here since: the edit stays, and is sent as any other. */
  lemma EditSinceWins(b: BaseState, local: Doc, r: Read, exporting: bool, k: string)
    requires Answered(b, r, k) && ShowsField(r, k, b.sent[k]) && Form(k, At(local.fields, k)) != b.sent[k]
    ensures Leaves(SettledCtx(b, local, r, exporting), k, At(local.fields, k),
                   if k != TYPE && !(k == BODY && r.doc.lossy) && exporting then [SetTo(k, At(local.fields, k))] else [],
                   false, Some(b.sent[k]))
  {
    hide Leaves, SettledCtx;
    AnsweredCtx(b, local, r, exporting, k);
    LocalEditWins(SettledCtx(b, local, r, exporting), k);
  }

  /** Answered by the read after it, and what Jira has instead: Jira's normal form of it is taken without a note. */
  lemma NormalFormTaken(b: BaseState, local: Doc, r: Read, exporting: bool, k: string)
    requires Answered(b, r, k) && !ShowsField(r, k, b.sent[k]) && Reaches(b, r) && Field(k) in r.echo
    requires Form(k, At(local.fields, k)) == b.sent[k]
    ensures Leaves(SettledCtx(b, local, r, exporting), k, At(r.doc.fields, k), [], false, Some(Form(k, At(r.doc.fields, k))))
  {
    hide Leaves, SettledCtx;
    AnsweredCtx(b, local, r, exporting, k);
    JiraEditTaken(SettledCtx(b, local, r, exporting), k);
  }

  /** Answered by no read of its own: where the sides differ Jira's is taken, and always noted. */
  lemma UnansweredNoted(b: BaseState, local: Doc, r: Read, exporting: bool, k: string)
    requires Answered(b, r, k) && !ShowsField(r, k, b.sent[k]) && !(Reaches(b, r) && Field(k) in r.echo)
    requires Form(k, At(local.fields, k)) != Form(k, At(r.doc.fields, k))
    requires UNKNOWN_BASE != Form(k, At(local.fields, k)) && UNKNOWN_BASE != Form(k, At(r.doc.fields, k))
    ensures Leaves(SettledCtx(b, local, r, exporting), k, At(r.doc.fields, k), [], true, Some(Form(k, At(r.doc.fields, k))))
  {
    hide Leaves, SettledCtx;
    AnsweredCtx(b, local, r, exporting, k);
    JiraWinsConflict(SettledCtx(b, local, r, exporting), k);
  }

  // ---- comments ----

  predicate CommentAnswered(b: BaseState, r: Read, jid: string) {
    jid in b.sentComments && (ShowsComment(r, jid, b.sentComments[jid]) || !TooEarly(b, r))
  }

  lemma CommentCtx(b: BaseState, local: Doc, r: Read, exporting: bool, jid: string)
    requires CommentAnswered(b, r, jid)
    ensures var c, v := SettledCtx(b, local, r, exporting), b.sentComments[jid];
            && c.local == local && c.remote.comments == r.doc.comments && c.exporting == exporting
            && (Comment(jid) in Skipped(c.remote) <==> Comment(jid) in Skipped(r.doc))
            && jid in c.b.comments
            && c.b.comments[jid] == if ShowsComment(r, jid, v) || ByJid(r.doc.comments, jid).None? || (Reaches(b, r) && Comment(jid) in r.echo)
                                    then v else UNKNOWN_COMMENT
  {
    hide ConfirmSpec, ConfirmSkips;
    var f := if b.unmerged then FreshSpec(b, local, r.doc) else b;
    assert f.sentComments == b.sentComments && f.wrote == b.wrote;
    CommentConfirmed(f, r, jid);
    assert b.sentComments != map[];
    var c := SettledCtx(b, local, r, exporting);
    assert c.b == ConfirmSpec(f, r) && c.remote.skip == r.doc.skip + ConfirmSkips(f, r);
  }

  /** A comment as it was written, that Jira has otherwise: Jira's text is taken, noted exactly when no read answered the write. */
  lemma CommentTextTaken(b: BaseState, local: Doc, r: Read, exporting: bool, rc: DocComment, d: DocComment)
    requires var c := SettledCtx(b, local, r, exporting); Well(c) && IsPaired(c, rc, d)
    requires CommentAnswered(b, r, rc.jid) && ByJid(r.doc.comments, rc.jid) == Some(rc)
    requires d.text.digest == b.sentComments[rc.jid] != rc.text.digest && b.sentComments[rc.jid] != ""
    requires UNKNOWN_COMMENT !in {d.text.digest, rc.text.digest}
    ensures var p := MergeCtx(SettledCtx(b, local, r, exporting));
            && ApplyOne(d, p.local) == d.(text := rc.text)
            && (Comment(rc.jid) in p.conflicts <==> !(Reaches(b, r) && Comment(rc.jid) in r.echo))
  {
    hide SettledCtx, Well, IsPaired, MergeCtx;
    CommentCtx(b, local, r, exporting, rc.jid);
    WellLinked(SettledCtx(b, local, r, exporting));
    JiraTextTaken(SettledCtx(b, local, r, exporting), rc, d);
    CommentNoted(SettledCtx(b, local, r, exporting), rc, d);
  }

  lemma WellLinked(c: Ctx)
    requires Well(c)
    ensures LinkedIn(c)
  {
  }

  /** A comment written, then deleted in Jira: tombstoned, and noted exactly when some copy is no longer as it was written. */
  lemma WrittenThenDeleted(b: BaseState, local: Doc, r: Read, exporting: bool, d: DocComment)
    requires var c := SettledCtx(b, local, r, exporting); LinkedIn(c) && Gone(c, d)
    requires CommentAnswered(b, r, d.jid) && ByJid(r.doc.comments, d.jid).None?
    ensures var c, v := SettledCtx(b, local, r, exporting), b.sentComments[d.jid];
            && After(c, d) == (if Shadowed(c, d) then d else d.(text := TOMBSTONE))
            && (Comment(d.jid) in MergeCtx(c).conflicts <==>
                  exists e :: e in local.comments && e.jid == d.jid && !Shadowed(c, e) && e.text.digest != v)
  {
    hide SettledCtx, LinkedIn, MergeCtx, Shadowed, After, Gone;
    CommentCtx(b, local, r, exporting, d.jid);
    GoneIsTombstoned(SettledCtx(b, local, r, exporting), d);
  }
}
