/** A stale read never undoes a write. */
module Stale {
  // What a round does with writes still in flight.

  import opened Order
  import opened Documents
  import opened SetMerge
  import opened Bases
  import opened Merging
  import opened MergeFacts
  import opened Engine
  import opened EngineFacts
  import opened CommentsOnce

  /** The base once settled, before the writes in flight are resolved. */
  function Based(b: BaseState, local: Doc, r: Read): BaseState {
    if b.unmerged then FreshSpec(b, local, r.doc) else b
  }

  /** The merge a round makes of a base and a read. */
  function RoundCtx(b: BaseState, local: Doc, r: Read, exporting: bool): Ctx {
    CtxOf(SettleBase(Some(b), local, r), local, SettleDoc(Some(b), local, r), r.multi, exporting)
  }

  /** A read older than the write, inside the window, that does not show it. */
  ghost predicate InFlight(b: BaseState, r: Read, k: string) {
    k in b.sent && Stale(b, r) && !HeldField(r, k, b.sent[k])
  }

  ghost predicate CommentInFlight(b: BaseState, r: Read, jid: string) {
    jid in b.sentComments && Stale(b, r) && !HeldComment(r, jid, b.sentComments[jid])
  }

  lemma InFlightSettled(b: BaseState, local: Doc, r: Read, k: string)
    requires InFlight(b, r, k)
    ensures var c := RoundCtx(b, local, r, true);
            && k in c.b.sent && c.b.sent[k] == b.sent[k]
            && (k in c.b.fields <==> k in b.fields) && (k in b.fields ==> c.b.fields[k] == b.fields[k])
            && Skip(Field(k), Unconfirmed, true) in c.remote.skip
  {
    var f := Based(b, local, r);
    assert KeptField(f, r, k) && FieldBase(f, r, k).None?;
  }

  /**
   While a write is in flight the merge leaves its key alone: no local change, no write, no
   conflict, the base it had, and the write stays remembered and retried.
   */
  lemma StaleKeyLeftAlone(b: BaseState, local: Doc, r: Read, k: string, exporting: bool)
    requires InFlight(b, r, k)
    ensures var p := MergeCtx(RoundCtx(b, local, r, exporting));
            && At(ApplyFields(local.fields, p.local), k) == At(local.fields, k)
            && Sent(p.remote, k) == [] && Field(k) !in p.conflicts
            && (k in p.base.fields <==> k in b.fields) && (k in b.fields ==> p.base.fields[k] == b.fields[k])
            && k in p.base.sent && p.base.sent[k] == b.sent[k] && Field(k) in p.base.retry
            && p.base.wrote == b.wrote
  {
    hide MergeCtx, SettleBase, SettleDoc;
    var c := RoundCtx(b, local, r, exporting);
    InFlightSettled(b, local, r, k);
    SettleKeepsClock(b, local, r);
    MergeAt(c, k);
    var s := Skip(Field(k), Unconfirmed, true);
    assert s in c.remote.skip && s.key in Skipped(c.remote);
  }

  lemma SettleKeepsClock(b: BaseState, local: Doc, r: Read)
    ensures SettleBase(Some(b), local, r).Some? && SettleBase(Some(b), local, r).value.wrote == b.wrote
  {
  }

  lemma CommentInFlightSettled(b: BaseState, local: Doc, r: Read, jid: string, exporting: bool)
    requires CommentInFlight(b, r, jid)
    ensures var c := RoundCtx(b, local, r, exporting);
            && jid in c.b.sentComments && c.b.sentComments[jid] == b.sentComments[jid]
            && (jid in c.b.comments <==> jid in b.comments) && (jid in b.comments ==> c.b.comments[jid] == b.comments[jid])
            && Skip(Comment(jid), Unconfirmed, true) in c.remote.skip
            && c.local == local && c.remote.comments == r.doc.comments
  {
    var f := Based(b, local, r);
    assert KeptComment(f, r, jid) && CommentBase(f, r, jid).None?;
    assert jid in UnseenComments(f, r);
  }

  /** The same for a comment: not edited, not taken for deleted, not written, its base kept. */
  lemma StaleCommentLeftAlone(b: BaseState, local: Doc, r: Read, d: DocComment, exporting: bool)
    requires CommentInFlight(b, r, d.jid) && d in local.comments && d.jid != ""
    requires Linked(local.comments, r.doc.comments)
    ensures var p := MergeCtx(RoundCtx(b, local, r, exporting));
            && (forall lc :: lc in p.local && !IsFieldChange(lc) ==> lc.jid != d.jid)
            && (forall w :: w in p.writes ==> w.jid != d.jid)
            && (d.jid in p.base.comments <==> d.jid in b.comments)
            && (d.jid in b.comments ==> p.base.comments[d.jid] == b.comments[d.jid])
            && d.jid in p.base.sentComments && Comment(d.jid) in p.base.retry
  {
    hide MergeCtx, SettleBase, SettleDoc, Linked;
    var c := RoundCtx(b, local, r, exporting);
    CommentInFlightSettled(b, local, r, d.jid, exporting);
    var s := Skip(Comment(d.jid), Unconfirmed, true);
    assert s in c.remote.skip && s.key in Skipped(c.remote);
    MergeAt(c, "");
    SkippedCommentLeftAlone(c, d);
  }

  /** A read at or after the write, or past the window, leaves nothing in flight. */
  lemma ReadSettlesAll(b: BaseState, local: Doc, r: Read, exporting: bool)
    requires !Stale(b, r)
    ensures var p := MergeCtx(RoundCtx(b, local, r, exporting)); p.base.sent == map[] && p.base.sentComments == map[]
  {
    hide MergeCtx;
    MergeAt(RoundCtx(b, local, r, exporting), "");
    var f := Based(b, local, r);
    assert UnseenFields(f, r) == map[] && UnseenComments(f, r) == map[];
  }

  /** Exactly the writes in flight outlive a round. */
  lemma SentAfterRound(b: BaseState, local: Doc, r: Read, exporting: bool, k: string)
    ensures k in MergeCtx(RoundCtx(b, local, r, exporting)).base.sent <==> InFlight(b, r, k)
  {
    hide MergeCtx;
    MergeAt(RoundCtx(b, local, r, exporting), "");
    assert k in UnseenFields(Based(b, local, r), r) <==> InFlight(b, r, k);
  }

  // ---- across runs: the marker that remembers the write ----

  /** No earlier marker has a greater clock than the i-th, no later one as great a clock. */
  ghost predicate NonePasses(markers: seq<BaseState>, i: nat)
    requires i < |markers|
  {
    && (forall j :: 0 <= j < i ==> markers[j].updated <= markers[i].updated)
    && (forall j :: i < j < |markers| ==> markers[j].updated < markers[i].updated)
  }

  /** The current base is a marker no other has passed, the last of those. */
  lemma {:induction false} CurrentIsLatest(markers: seq<BaseState>)
    requires markers != []
    ensures exists i :: 0 <= i < |markers| && CurrentBase(markers) == markers[i] && NonePasses(markers, i)
  {
    var n := |markers| - 1;
    if n > 0 {
      CurrentIsLatest(markers[..n]);
      var i :| 0 <= i < n && CurrentBase(markers[..n]) == markers[..n][i] && NonePasses(markers[..n], i);
      var k := if markers[i].updated <= markers[n].updated then n else i;
      assert CurrentBase(markers) == markers[k];
      forall j | 0 <= j < n ensures markers[j].updated <= markers[i].updated { assert markers[..n][j] == markers[j]; }
      forall j | i < j < n ensures markers[j].updated < markers[i].updated { assert markers[..n][j] == markers[j]; }
      assert NonePasses(markers, k);
    } else {
      assert NonePasses(markers, 0);
    }
  }

  /**
   The next run starts from the marker a round commits exactly when the read's clock has not
   fallen behind the current base's (or the two markers are one): a marker that fell behind
   is recorded and never read.
   */
  lemma NextRunRemembers(markers: seq<BaseState>, b: BaseState, local: Doc, r: Read, exporting: bool)
    requires markers != [] && b == CurrentBase(markers)
    ensures var p := MergeCtx(RoundCtx(b, local, r, exporting));
            CurrentBase(markers + [p.base]) == p.base <==> (b.updated <= r.doc.updated || p.base == b)
  {
    hide MergeCtx, SettleBase, SettleDoc;
    var c := RoundCtx(b, local, r, exporting);
    var p := MergeCtx(c);
    MergeAt(c, "");
    SettleKeepsDoc(b, local, r);
    assert (markers + [p.base])[..|markers|] == markers;
  }

  lemma SettleKeepsDoc(b: BaseState, local: Doc, r: Read)
    ensures SettleDoc(Some(b), local, r) == r.doc.(skip := SettleDoc(Some(b), local, r).skip)
  {
  }

  const TITLE := "title"

  /** Jira at clock 10 (a lagging replica), while the issue was last synced at 20. */
  const LAGGING := Doc("1", "P-1", 10, false, map[TITLE := Str("old")], {}, [])

  const SYNCED := BaseState("1", "P-1", 20, map[TITLE := Str("old")], map[], {}, "", map[], map[], 0, false)

  /** A base with a write of the title in flight. */
  const WRITTEN := SYNCED.(updated := 10, sent := map[TITLE := Str("new")], wrote := 30, retry := {Field(TITLE)})

  lemma LaggingWrites(local: Doc, r: Read, a: Answers, c: Ctx)
    requires local == LAGGING.(fields := map[TITLE := Str("new")]) && r == Read(LAGGING, {}, {}, 35, 600)
    requires a == Answers({TITLE}, {}, map[], false, 30) && c == CtxOf(Some(SYNCED), local, LAGGING, {}, true)
    ensures Sent(FirstPlan(Some(SYNCED), local, r).remote, TITLE) == [SetTo(TITLE, Str("new"))]
    ensures InFlight(BeginSpec(Some(SYNCED), local, r, a, Some(LAGGING)).base, r, TITLE)
    ensures var first := BeginSpec(Some(SYNCED), local, r, a, Some(LAGGING));
            first.base.updated == SYNCED.updated
  {
    hide MergeCtx, WriteSpec;
    MergeAt(c, TITLE);
    WriteAt(SYNCED, MergeCtx(c), LAGGING, a, TITLE);
  }

  /**
   Two runs against a replica that lags behind the base: the first writes the title and
   records the write in flight, the second starts from the older marker, has no write in
   flight, and writes the title again although nothing has shown the first write.
   */
  lemma LaggingReadForgetsWrite()
    ensures var local := LAGGING.(fields := map[TITLE := Str("new")]);
            var r := Read(LAGGING, {}, {}, 35, 600);
            var first := BeginSpec(Some(SYNCED), local, r, Answers({TITLE}, {}, map[], false, 30), Some(LAGGING));
            var marker := MergeCtx(RoundCtx(first.base, local, Read(LAGGING, {}, first.echo, 35, 600), false)).base;
            && InFlight(first.base, r, TITLE)
            && TITLE in marker.sent
            && CurrentBase([SYNCED, marker]) == SYNCED
            && Sent(FirstPlan(Some(CurrentBase([SYNCED, marker])), local, r).remote, TITLE) == [SetTo(TITLE, Str("new"))]
  {
    hide MergeCtx, WriteSpec;
    var local := LAGGING.(fields := map[TITLE := Str("new")]);
    var r := Read(LAGGING, {}, {}, 35, 600);
    var a := Answers({TITLE}, {}, map[], false, 30);
    var c := CtxOf(Some(SYNCED), local, LAGGING, {}, true);
    var first := BeginSpec(Some(SYNCED), local, r, a, Some(LAGGING));
    LaggingWrites(local, r, a, c);
    var r2 := Read(LAGGING, {}, first.echo, 35, 600);
    StaleKeyLeftAlone(first.base, local, r2, TITLE, false);
    MergeAt(RoundCtx(first.base, local, r2, false), TITLE);
    var marker := MergeCtx(RoundCtx(first.base, local, r2, false)).base;
    assert [SYNCED, marker][..1] == [SYNCED];
  }
}
