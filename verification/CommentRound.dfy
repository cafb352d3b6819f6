/** An undisturbed round's comments: what Jira shows of its writes, and where they leave the commit. */
module CommentRound {
  import opened Order
  import opened Documents
  import opened Bases
  import opened Merging
  import opened MergeFacts
  import opened Engine
  import opened EngineFacts
  import opened CommentFacts
  import opened CommentsOnce
  import opened Converge

  // ---- what a read shows after the writes ----

  /** x is rc with the text written to it, if one was. */
  ghost predicate Rewritten(ws: seq<CommentWrite>, rc: DocComment, x: DocComment) {
    && x.jid == rc.jid && x.op == rc.op && x.lossless == rc.lossless
    && (forall w :: w in ws && w.jid == rc.jid ==> x.text.digest == w.text.digest)
    && ((forall w :: w in ws ==> w.jid != rc.jid) ==> x.text.digest == rc.text.digest)
  }

  /** x is the comment a write created; its property names the operation it exports. */
  ghost predicate Posted(a: Answers, w: CommentWrite, x: DocComment) {
    w.jid == "" && w.op in a.created && x.jid == a.created[w.op] && x.op == w.op && x.text.digest == w.text.digest
  }

  ghost predicate WasThere(before: seq<DocComment>, ws: seq<CommentWrite>, x: DocComment) {
    exists rc :: rc in before && Rewritten(ws, rc, x)
  }

  ghost predicate WasPosted(ws: seq<CommentWrite>, a: Answers, x: DocComment) { exists w :: w in ws && Posted(a, w, x) }

  ghost predicate Shows(before: seq<DocComment>, after: seq<DocComment>, ws: seq<CommentWrite>, a: Answers) {
    && (forall i, j :: 0 <= i < j < |after| ==> after[i].jid != after[j].jid)
    && (forall rc :: rc in before ==> exists x :: x in after && Rewritten(ws, rc, x))
    && (forall w :: w in ws && w.jid == "" ==> exists x :: x in after && Posted(a, w, x))
    && (forall x :: x in after ==> WasThere(before, ws, x) || WasPosted(ws, a, x))
  }

  /** Jira gives each comment it creates an id of its own. */
  ghost predicate NewIds(c: Ctx, ws: seq<CommentWrite>, a: Answers) {
    && (forall w :: w in ws && w.jid == "" && w.op in a.created ==>
          var j := a.created[w.op];
          && j != "" && (forall rc :: rc in c.remote.comments ==> rc.jid != j) && (forall d :: d in c.local.comments ==> d.jid != j))
    && (forall w, v :: w in ws && v in ws && w.jid == v.jid == "" && w.op in a.created && v.op in a.created && w.op != v.op ==>
          a.created[w.op] != a.created[v.op])
  }

  /** Pairings are facts before the round, Jira accepts every comment write, and the read that follows shows them. */
  ghost predicate QuietComments(u: Undisturbed) {
    var c := FirstCtx(u);
    var ws := MergeCtx(c).writes;
    && Well(c) && (forall d :: d in u.local.comments ==> d.text.digest != "")
    && (forall w :: w in ws ==> LandedAs(w, u.answers).Some?)
    && NewIds(c, ws, u.answers) && Shows(u.read.doc.comments, u.reread.comments, ws, u.answers)
  }

  // ---- what the writes leave in the session ----

  ghost predicate PairsAre(ws: seq<CommentWrite>, a: Answers, pairs: map<string, string>) {
    && (forall op :: op in pairs <==> exists w :: w in ws && w.jid == "" && w.op == op && op in a.created)
    && (forall op :: op in pairs && op in a.created ==> pairs[op] == a.created[op])
  }

  ghost predicate SentAre(ws: seq<CommentWrite>, a: Answers, sent: map<string, string>) {
    && (forall j :: j in sent ==> exists w :: w in ws && LandedAs(w, a) == Some(j) && sent[j] == w.text.digest)
    && (forall w :: w in ws && LandedAs(w, a).Some? ==> LandedAs(w, a).value in sent)
  }

  lemma {:induction false} PairsWritten(w0: Written, ws: seq<CommentWrite>, a: Answers)
    requires w0.pairs == map[]
    ensures PairsAre(ws, a, WriteComments(w0, ws, a).pairs)
  {
    if ws != [] {
      var front, w := ws[..|ws| - 1], ws[|ws| - 1];
      PairsWritten(w0, front, a);
      assert forall v :: v in ws <==> v in front || v == w;
    }
  }

  lemma {:induction false} SentWritten(w0: Written, ws: seq<CommentWrite>, a: Answers)
    requires w0.base.sentComments == map[]
    ensures SentAre(ws, a, WriteComments(w0, ws, a).base.sentComments)
  {
    if ws != [] {
      hide LandedAs;
      var front, w := ws[..|ws| - 1], ws[|ws| - 1];
      SentWritten(w0, front, a);
      assert forall v :: v in ws <==> v in front || v == w;
    }
  }

  lemma {:induction false} WroteSome(w0: Written, ws: seq<CommentWrite>, a: Answers)
    ensures var q := WriteComments(w0, ws, a);
            && q.base.comments == w0.base.comments
            && (q.wrote <==> w0.wrote || exists w :: w in ws && LandedAs(w, a).Some?)
  {
    if ws != [] {
      hide LandedAs;
      var front, w := ws[..|ws| - 1], ws[|ws| - 1];
      WroteSome(w0, front, a);
      assert forall v :: v in ws <==> v in front || v == w;
    }
  }

  /** What the session of an undisturbed round holds of its comments. */
  ghost predicate Wrote(u: Undisturbed) {
    var c, s := FirstCtx(u), SessionOf(u);
    var ws := MergeCtx(c).writes;
    && PairsAre(ws, u.answers, s.pairs) && SentAre(ws, u.answers, s.base.sentComments)
    && s.base.comments == c.b.comments && Shows(c.remote.comments, s.doc.comments, ws, u.answers)
  }

  lemma SessionWrote(u: Undisturbed)
    requires Quiet(u) && QuietComments(u)
    ensures Wrote(u) && FirstCtx(u).remote == u.read.doc
  {
    hide MergeCtx, SettleBase, SettleDoc, LinkedIn, OneCopy, Shows, NewIds, PairsAre, SentAre, ShowsWrite;
    var c := FirstCtx(u);
    var p := MergeCtx(c);
    SettledParts(u);
    var w0 := Written(c.b, map[], u.answers.partial);
    FieldsLeaveComments(w0, p.remote, u.read.doc, u.answers);
    var w1 := WriteFields(w0, p.remote, u.read.doc, u.answers);
    PairsWritten(w1, p.writes, u.answers);
    SentWritten(w1, p.writes, u.answers);
    WroteSome(w1, p.writes, u.answers);
    var q := WriteComments(w1, p.writes, u.answers);
    assert q == WriteSpec(c.b, p, u.read.doc, u.answers);
    if p.writes != [] { SomeLanded(p.writes, u.answers); }
    if !q.wrote {
      NothingShown(c, u.answers);
      NothingPaired(q.pairs, u.answers);
    }
  }

  lemma SomeLanded(ws: seq<CommentWrite>, a: Answers)
    requires ws != [] && forall w :: w in ws ==> LandedAs(w, a).Some?
    ensures exists w :: w in ws && LandedAs(w, a).Some?
  {
    assert ws[0] in ws;
  }

  lemma NothingPaired(pairs: map<string, string>, a: Answers)
    requires PairsAre([], a, pairs)
    ensures pairs == map[]
  {
  }

  lemma {:induction false} FieldsLeaveComments(w: Written, remote: seq<Change>, doc: Doc, a: Answers)
    ensures var q := WriteFields(w, remote, doc, a);
            q.base.comments == w.base.comments && q.base.sentComments == w.base.sentComments && q.pairs == w.pairs
  {
    if remote != [] { FieldsLeaveComments(w, remote[..|remote| - 1], doc, a); }
  }

  lemma NothingShown(c: Ctx, a: Answers)
    requires LinkedIn(c)
    ensures Shows(c.remote.comments, c.remote.comments, [], a)
  {
    forall x | x in c.remote.comments ensures WasThere(c.remote.comments, [], x) { assert Rewritten([], x, x); }
  }

  // ---- which comments a merge writes ----

  /** A draft is written exactly when no Jira comment claims it; an edit is of a paired comment whose text the local one gives. */
  ghost predicate WriteOf(c: Ctx, w: CommentWrite) {
    if w.jid == "" then exists d :: d in c.local.comments && Unposted(c, d) && w == CommentWrite(d.op, "", d.text)
    else exists rc :: rc in c.remote.comments && EditOf(c, rc, w)
  }

  ghost predicate EditOf(c: Ctx, rc: DocComment, w: CommentWrite) {
    && rc.jid == w.jid && Comment(rc.jid) !in Skipped(c.remote) && rc.lossless && Paired(c, rc).Some?
    && w == CommentWrite(Paired(c, rc).value.op, rc.jid, Paired(c, rc).value.text)
    && !InJira(c, rc)
  }

  lemma WriteIs(c: Ctx, w: CommentWrite)
    requires LinkedIn(c) && w in MergeCtx(c).writes
    ensures WriteOf(c, w) && c.exporting
  {
    hide MergeCtx, LinkedIn, Claims, ByJid, ByOp;
    MergeFrom(c);
    if rc :| rc in c.remote.comments && w in StepRemote(c, rc).writes {
      HasJid(c, rc);
      assert EditOf(c, rc, w);
    } else {
      var d :| d in c.local.comments && w in StepLocal(c, d).writes;
      forall rc | rc in c.remote.comments ensures !Claims(c, rc, d) {
        if Claims(c, rc, d) { ClaimedSkipped(c, rc, d); }
      }
      assert Unposted(c, d);
    }
  }

  lemma EditIn(c: Ctx, rc: DocComment)
    requires LinkedIn(c) && rc in c.remote.comments && c.exporting && Paired(c, rc).Some? && !InJira(c, rc)
    ensures CommentWrite(Paired(c, rc).value.op, rc.jid, Paired(c, rc).value.text) in MergeCtx(c).writes
  {
    hide MergeCtx;
    MergeCarries(c);
    var s := StepRemote(c, rc);
    assert Carries(MergeCtx(c), s);
    assert CommentWrite(Paired(c, rc).value.op, rc.jid, Paired(c, rc).value.text) in s.writes;
  }

  // ---- the commit's comments ----

  /** c2 is c1's comments once the writes landed: those posted paired, and the read after them. */
  ghost predicate Landed2(c1: Ctx, c2: Ctx, a: Answers, pairs: map<string, string>) {
    var ws := MergeCtx(c1).writes;
    && Well(c1) && c1.exporting && (forall d :: d in c1.local.comments ==> d.text.digest != "")
    && (forall w :: w in ws ==> LandedAs(w, a).Some?) && NewIds(c1, ws, a) && PairsAre(ws, a, pairs)
    && Shows(c1.remote.comments, c2.remote.comments, ws, a)
    && c2.local.comments == WithPairs(c1.local.comments, pairs) && Skipped(c2.remote) == Skipped(c1.remote)
  }

  /** What became of one local comment: paired if it was posted, untouched if not. */
  lemma PairedLocal(c1: Ctx, c2: Ctx, a: Answers, pairs: map<string, string>, i: nat)
    requires Landed2(c1, c2, a, pairs) && i < |c1.local.comments|
    ensures var d, e := c1.local.comments[i], c2.local.comments[i];
            if Unposted(c1, d)
            then d.op in a.created && e == d.(jid := a.created[d.op]) && CommentWrite(d.op, "", d.text) in MergeCtx(c1).writes
            else e == d && d.op !in pairs
  {
    hide MergeCtx, LinkedIn, OneCopy, Shows, NewIds, Unclaimed;
    var d := c1.local.comments[i];
    if Unposted(c1, d) {
      DraftWritten(c1, d);
      assert LandedAs(CommentWrite(d.op, "", d.text), a).Some?;
    } else if d.op in pairs {
      var w :| w in MergeCtx(c1).writes && w.jid == "" && w.op == d.op;
      WriteIs(c1, w);
      var x :| x in c1.local.comments && Unposted(c1, x) && w == CommentWrite(x.op, "", x.text);
      SameOp(c1, x, d);
    }
  }

  /** A comment with a Jira id in the first read has it still. */
  lemma KeptCopy(c1: Ctx, c2: Ctx, a: Answers, pairs: map<string, string>, rc: DocComment)
    requires Landed2(c1, c2, a, pairs) && rc in c1.remote.comments
    ensures HasCopy(c2.local.comments, rc) <==> HasCopy(c1.local.comments, rc)
    ensures Paired(c1, rc).Some? <==> HasCopy(c1.local.comments, rc)
    ensures Paired(c2, rc).Some? <==> HasCopy(c2.local.comments, rc)
  {
    hide MergeCtx, OneCopy, Shows, Unposted;
    HasJid(c1, rc);
    if d :| d in c1.local.comments && d.jid == rc.jid {
      var i :| 0 <= i < |c1.local.comments| && c1.local.comments[i] == d;
      PairedLocal(c1, c2, a, pairs, i);
      UnpostedIs(c1, d);
      assert c2.local.comments[i] == d;
    }
    if e :| e in c2.local.comments && e.jid == rc.jid {
      var i :| 0 <= i < |c2.local.comments| && c2.local.comments[i] == e;
      PairedLocal(c1, c2, a, pairs, i);
      CreatedNew(c1, c2, a, pairs, c1.local.comments[i], rc);
      assert c1.local.comments[i] in c1.local.comments;
    }
  }

  lemma UnpostedIs(c: Ctx, d: DocComment)
    ensures Unposted(c, d) ==> d.jid == "" && !d.note
  {
  }

  lemma CreatedNew(c1: Ctx, c2: Ctx, a: Answers, pairs: map<string, string>, d: DocComment, rc: DocComment)
    requires Landed2(c1, c2, a, pairs) && rc in c1.remote.comments
    ensures CommentWrite(d.op, "", d.text) in MergeCtx(c1).writes && d.op in a.created ==> a.created[d.op] != rc.jid
  {
    hide MergeCtx, LinkedIn, OneCopy, Shows;
  }

  ghost predicate FromLocal(c1: Ctx, c2: Ctx, a: Answers, x: DocComment) {
    exists i :: 0 <= i < |c1.local.comments| && PostedFrom(c1, c2, a, i, x)
  }

  /** A comment in the second read was in the first, or was posted from a local one. */
  lemma ShownIs(c1: Ctx, c2: Ctx, a: Answers, pairs: map<string, string>, x: DocComment)
    requires Landed2(c1, c2, a, pairs) && x in c2.remote.comments
    ensures WasThere(c1.remote.comments, MergeCtx(c1).writes, x) || FromLocal(c1, c2, a, x)
  {
    hide MergeCtx, LinkedIn, OneCopy, Unposted, NewIds, PairsAre, WasThere, FromLocal, PostedFrom, Rewritten;
    if !WasThere(c1.remote.comments, MergeCtx(c1).writes, x) {
      assert WasPosted(MergeCtx(c1).writes, a, x);
      var w :| w in MergeCtx(c1).writes && Posted(a, w, x);
      PostedIs(c1, c2, a, pairs, w, x);
    }
  }

  lemma PostedIs(c1: Ctx, c2: Ctx, a: Answers, pairs: map<string, string>, w: CommentWrite, x: DocComment)
    requires Landed2(c1, c2, a, pairs) && w in MergeCtx(c1).writes && Posted(a, w, x)
    ensures FromLocal(c1, c2, a, x)
  {
    hide MergeCtx, LinkedIn, OneCopy, Unposted, PairsAre, Shows;
    WriteIs(c1, w);
    var d :| d in c1.local.comments && Unposted(c1, d) && w == CommentWrite(d.op, "", d.text);
    var i :| 0 <= i < |c1.local.comments| && c1.local.comments[i] == d;
    PairedLocal(c1, c2, a, pairs, i);
    assert PostedFrom(c1, c2, a, i, x);
  }

  /** x is the i-th local comment posted, and paired with it now. */
  ghost predicate PostedFrom(c1: Ctx, c2: Ctx, a: Answers, i: int, x: DocComment) {
    && 0 <= i < |c1.local.comments| && i < |c2.local.comments|
    && Unposted(c1, c1.local.comments[i]) && c2.local.comments[i] == c1.local.comments[i].(jid := x.jid)
    && x.jid != "" && x.op == c1.local.comments[i].op && x.text.digest == c1.local.comments[i].text.digest
    && (forall rc :: rc in c1.remote.comments ==> rc.jid != x.jid) && (forall d :: d in c1.local.comments ==> d.jid != x.jid)
  }

  lemma PostedNew(c1: Ctx, c2: Ctx, a: Answers, pairs: map<string, string>, i: nat)
    requires Landed2(c1, c2, a, pairs) && i < |c1.local.comments| && Unposted(c1, c1.local.comments[i])
    ensures var d, e := c1.local.comments[i], c2.local.comments[i];
            && e.jid != "" && (forall rc :: rc in c1.remote.comments ==> rc.jid != e.jid)
            && (forall x :: x in c1.local.comments ==> x.jid != e.jid)
  {
    hide MergeCtx, LinkedIn, OneCopy, Unposted, Shows;
    PairedLocal(c1, c2, a, pairs, i);
    var w := CommentWrite(c1.local.comments[i].op, "", c1.local.comments[i].text);
    assert w in MergeCtx(c1).writes && w.jid == "" && w.op in a.created;
  }

  /** What the second read shows of a comment is one comment of the first, its id and operation the same. */
  lemma HasKept(c1: Ctx, c2: Ctx, a: Answers, pairs: map<string, string>, rc: DocComment, x: DocComment)
    requires Landed2(c1, c2, a, pairs) && rc in c1.remote.comments && x.jid == rc.jid
    ensures HasCopy(c2.local.comments, x) <==> HasCopy(c1.local.comments, rc)
    ensures Paired(c2, x).Some? <==> HasCopy(c1.local.comments, rc)
  {
    hide MergeCtx, LinkedIn, OneCopy, Shows, NewIds, PairsAre;
    KeptCopy(c1, c2, a, pairs, rc);
    assert Paired(c2, x) == Paired(c2, rc);
  }

  // the rules the commit's comments are to keep, one by one

  lemma CommitOps(c1: Ctx, c2: Ctx, a: Answers, pairs: map<string, string>, i: nat)
    requires Landed2(c1, c2, a, pairs) && i < |c1.local.comments|
    ensures var d, e := c1.local.comments[i], c2.local.comments[i];
            && e.op == d.op && e.note == d.note && e.text == d.text && d in c1.local.comments && e.op != "" && (e.note ==> e.jid == "")
  {
    hide MergeCtx, OneCopy, Shows, NewIds, Unposted;
    PairedLocal(c1, c2, a, pairs, i);
    UnpostedIs(c1, c1.local.comments[i]);
    assert c1.local.comments[i] in c1.local.comments;
  }

  lemma ShownRules(c1: Ctx, c2: Ctx, a: Answers, pairs: map<string, string>, x: DocComment)
    requires Landed2(c1, c2, a, pairs) && x in c2.remote.comments
    ensures x.jid != "" && x.text.digest != ""
  {
    hide MergeCtx, OneCopy, Shows, NewIds, PairsAre, Unposted;
    ShownIs(c1, c2, a, pairs, x);
    if k :| 0 <= k < |c1.local.comments| && PostedFrom(c1, c2, a, k, x) {
    } else {
      var ws := MergeCtx(c1).writes;
      var rc :| rc in c1.remote.comments && Rewritten(ws, rc, x);
      if w :| w in ws && w.jid == rc.jid {
        WriteIs(c1, w);
        var y :| y in c1.remote.comments && EditOf(c1, y, w);
        assert Paired(c1, y).value in c1.local.comments;
      }
    }
  }

  lemma CommitLinked(c1: Ctx, c2: Ctx, a: Answers, pairs: map<string, string>)
    requires Landed2(c1, c2, a, pairs)
    ensures LinkedIn(c2) && LinkedIn(Seen(c1, c2))
  {
    hide MergeCtx, NewIds, PairsAre, Unposted, OneCopy;
    var L, R := c2.local.comments, c2.remote.comments;
    assert |L| == |c1.local.comments|;
    forall i, j | 0 <= i < j < |L| ensures L[i].op != L[j].op {
      CommitOps(c1, c2, a, pairs, i);
      CommitOps(c1, c2, a, pairs, j);
      OpsApart(c1, i, j);
    }
    forall d | d in L ensures d.op != "" && (d.note ==> d.jid == "") {
      var i :| 0 <= i < |L| && L[i] == d;
      CommitOps(c1, c2, a, pairs, i);
    }
    forall x | x in R ensures x.jid != "" && x.text.digest != "" { ShownRules(c1, c2, a, pairs, x); }
  }

  /** The first merge's comments beside the read that follows its writes. */
  ghost function Seen(c1: Ctx, c2: Ctx): Ctx { c1.(remote := c2.remote) }

  /** The commit's comments are linked, and of two copies of a Jira comment the earlier is shadowed still. */
  lemma CommitWell(c1: Ctx, c2: Ctx, a: Answers, pairs: map<string, string>)
    requires Landed2(c1, c2, a, pairs)
    ensures Well(c2)
  {
    hide MergeCtx, LinkedIn, NewIds, PairsAre, HasCopy, Unposted, Shows, Live, Shadowed;
    CommitLinked(c1, c2, a, pairs);
    var L := c2.local.comments;
    forall i, j | 0 <= i < j < |L| && L[i].jid == L[j].jid && Live(c2, L[i].jid) ensures Shadowed(c2, L[i]) {
      var x := LiveIs(c2, L[i].jid);
      LiveCopies(c1, c2, a, pairs, i, j, x);
    }
  }

  lemma OneCopyOf(c: Ctx, i: nat, j: nat, rc: DocComment)
    requires OneCopy(c) && i < j < |c.local.comments| && rc in c.remote.comments && Comment(rc.jid) !in Skipped(c.remote)
    requires c.local.comments[i].jid == c.local.comments[j].jid == rc.jid
    ensures Shadowed(c, c.local.comments[i])
  {
    assert Live(c, rc.jid);
  }

  lemma LiveCopies(c1: Ctx, c2: Ctx, a: Answers, pairs: map<string, string>, i: nat, j: nat, x: DocComment)
    requires Landed2(c1, c2, a, pairs) && LinkedIn(c2) && i < j < |c2.local.comments| && x in c2.remote.comments
    requires Comment(x.jid) !in Skipped(c2.remote) && c2.local.comments[i].jid == c2.local.comments[j].jid == x.jid
    ensures Shadowed(c2, c2.local.comments[i])
  {
    hide MergeCtx, NewIds, LinkedIn, OneCopy, PairsAre, HasCopy, Unposted, Shows, Shadows, WasThere;
    ShownRules(c1, c2, a, pairs, x);
    var d, e := c1.local.comments[i], c1.local.comments[j];
    assert d in c1.local.comments && e in c1.local.comments;
    CopyCame(c1, c2, a, pairs, i, x);
    CopyCame(c1, c2, a, pairs, j, x);
    if Unposted(c1, d) && Unposted(c1, e) { CreatedApart(c1, c2, a, pairs, i, j); }
    assert d.jid == e.jid == x.jid;
    var rc := WasOf(c1, c2, a, pairs, x, d);
    OneCopyOf(c1, i, j, rc);
    var s :| s in c1.remote.comments && Shadows(c1, s, d);
    PairedLocal(c1, c2, a, pairs, i);
    ShadowLands(c1, c2, a, pairs, i, s);
  }

  /** A comment shown that had a copy before was there before. */
  lemma WasOf(c1: Ctx, c2: Ctx, a: Answers, pairs: map<string, string>, x: DocComment, d: DocComment) returns (rc: DocComment)
    requires Landed2(c1, c2, a, pairs) && x in c2.remote.comments && d in c1.local.comments && d.jid == x.jid
    ensures rc in c1.remote.comments && Rewritten(MergeCtx(c1).writes, rc, x)
  {
    hide MergeCtx, NewIds, LinkedIn, OneCopy, PairsAre, Unposted, Shows, Rewritten;
    ShownIs(c1, c2, a, pairs, x);
    rc :| rc in c1.remote.comments && Rewritten(MergeCtx(c1).writes, rc, x);
  }

  /** What the second read shows of a comment of the first. */
  lemma ShownOf(c1: Ctx, c2: Ctx, a: Answers, pairs: map<string, string>, s: DocComment) returns (y: DocComment)
    requires Landed2(c1, c2, a, pairs) && s in c1.remote.comments
    ensures y in c2.remote.comments && Rewritten(MergeCtx(c1).writes, s, y)
    ensures y.jid == s.jid && y.op == s.op
    ensures Paired(c2, y).Some? <==> Paired(c1, s).Some?
  {
    hide MergeCtx, NewIds, LinkedIn, OneCopy, PairsAre, Unposted, HasCopy;
    y :| y in c2.remote.comments && Rewritten(MergeCtx(c1).writes, s, y);
    HasKept(c1, c2, a, pairs, s, y);
    KeptCopy(c1, c2, a, pairs, s);
  }

  lemma ShadowLands(c1: Ctx, c2: Ctx, a: Answers, pairs: map<string, string>, i: nat, s: DocComment)
    requires Landed2(c1, c2, a, pairs) && LinkedIn(c2) && i < |c1.local.comments| && i < |c2.local.comments|
    requires s in c1.remote.comments && Shadows(c1, s, c1.local.comments[i]) && c2.local.comments[i] == c1.local.comments[i]
    ensures Shadowed(c2, c2.local.comments[i])
  {
    hide MergeCtx, NewIds, LinkedIn, OneCopy, PairsAre, Unposted, HasCopy, Shows, Landed2, Paired, Named;
    var d := c1.local.comments[i];
    var y := ShownOf(c1, c2, a, pairs, s);
    NamedIs(c1, c2, s, y, d);
    assert Shadows(c2, y, d);
  }

  /** A Jira comment names the same local comment in both, when there. */
  lemma NamedIs(c1: Ctx, c2: Ctx, s: DocComment, y: DocComment, d: DocComment)
    requires LinkedIn(c2) && y in c2.remote.comments && y.op == s.op && d in c2.local.comments && Named(c1, s) == Some(d)
    ensures Named(c2, y) == Some(d)
  {
    hide LinkedIn;
    ClaimsIs(c2, y, d);
  }

  /** A copy after the writes is one from before, or the comment posted. */
  lemma CopyCame(c1: Ctx, c2: Ctx, a: Answers, pairs: map<string, string>, i: nat, x: DocComment)
    requires Landed2(c1, c2, a, pairs) && i < |c1.local.comments|
    ensures c2.local.comments[i].jid == x.jid ==>
              if Unposted(c1, c1.local.comments[i])
              then forall d :: d in c1.local.comments ==> d.jid != x.jid
              else c1.local.comments[i].jid == x.jid
  {
    hide MergeCtx, LinkedIn, OneCopy, NewIds, PairsAre, HasCopy, Unposted, Shows;
    PairedLocal(c1, c2, a, pairs, i);
    if Unposted(c1, c1.local.comments[i]) { PostedNew(c1, c2, a, pairs, i); }
  }

  lemma CreatedApart(c1: Ctx, c2: Ctx, a: Answers, pairs: map<string, string>, i: nat, j: nat)
    requires Landed2(c1, c2, a, pairs) && i < j < |c1.local.comments|
    requires Unposted(c1, c1.local.comments[i]) && Unposted(c1, c1.local.comments[j])
    ensures c2.local.comments[i].jid != c2.local.comments[j].jid
  {
    hide MergeCtx, LinkedIn, OneCopy, PairsAre, HasCopy, Unposted, Shows;
    PairedLocal(c1, c2, a, pairs, i);
    PairedLocal(c1, c2, a, pairs, j);
    OpsApart(c1, i, j);
    var w := CommentWrite(c1.local.comments[i].op, "", c1.local.comments[i].text);
    var v := CommentWrite(c1.local.comments[j].op, "", c1.local.comments[j].text);
    assert w in MergeCtx(c1).writes && v in MergeCtx(c1).writes && w.op != v.op;
  }

  // ---- what is left to write ----

  /** No draft is left that Jira lacks. */
  lemma CommitDrafts(c1: Ctx, c2: Ctx, a: Answers, pairs: map<string, string>)
    requires Landed2(c1, c2, a, pairs)
    ensures DraftsInJira(c2)
  {
    hide MergeCtx, LinkedIn, OneCopy, NewIds, PairsAre, HasCopy, Unclaimed, Landed2, Claims;
    CommitLinked(c1, c2, a, pairs);
    forall e | e in c2.local.comments && e.jid == "" && !e.note ensures !Unclaimed(c2, e) {
      var i :| 0 <= i < |c2.local.comments| && c2.local.comments[i] == e;
      DraftClaimed(c1, c2, a, pairs, i);
    }
  }

  lemma DraftClaimed(c1: Ctx, c2: Ctx, a: Answers, pairs: map<string, string>, i: nat)
    requires Landed2(c1, c2, a, pairs) && LinkedIn(c2) && i < |c2.local.comments|
    requires c2.local.comments[i].jid == "" && !c2.local.comments[i].note
    ensures !Unclaimed(c2, c2.local.comments[i])
  {
    hide MergeCtx, LinkedIn, OneCopy, NewIds, PairsAre, HasCopy, Claims, Shows, Paired, Named;
    var d, e := c1.local.comments[i], c2.local.comments[i];
    assert d in c1.local.comments;
    PairedLocal(c1, c2, a, pairs, i);
    if Unposted(c1, d) { PostedNew(c1, c2, a, pairs, i); }
    var rc := AnswererOf(c1, d);
    ClaimsIs(c1, rc, d);
    HasJid(c1, rc);
    var x := ShownOf(c1, c2, a, pairs, rc);
    ClaimsIs(c2, x, e);
  }

  /**
   A post a run never paired, found again in Jira, whose text is the local one's (or is not to
   be written): the round that pairs it takes Jira's digest for its base, so an edit since is
   written by the next.
   */
  ghost predicate FoundAsPosted(c: Ctx, rc: DocComment) {
    || Comment(rc.jid) in Skipped(c.remote) || !rc.lossless || Paired(c, rc).Some?
    || (Named(c, rc).Some? && CommentsOnce.Answers(c, rc, Named(c, rc).value) ==> Named(c, rc).value.text.digest == rc.text.digest)
  }

  /** c2's base holds of a comment nothing was written to what c1's does. */
  ghost predicate SameBases(c1: Ctx, c2: Ctx, a: Answers) {
    forall jid :: (forall w :: w in MergeCtx(c1).writes ==> LandedAs(w, a) != Some(jid)) ==>
      CommentBaseOf(c2.b, jid) == CommentBaseOf(c1.b, jid)
  }

  lemma PostedInJira(c1: Ctx, c2: Ctx, a: Answers, pairs: map<string, string>, x: DocComment, i: nat)
    requires Landed2(c1, c2, a, pairs) && x in c2.remote.comments && PostedFrom(c1, c2, a, i, x)
    ensures InJira(c2, x) && FoundAsPosted(Seen(c1, c2), x)
  {
    hide MergeCtx, LinkedIn, OneCopy, NewIds, PairsAre, Shows, Unposted, CommentsOnce.Answers;
    var L := c2.local.comments;
    forall k | i < k < |L| ensures L[k].jid != x.jid {
      CopyCame(c1, c2, a, pairs, k, x);
      assert c1.local.comments[k] in c1.local.comments;
      if Unposted(c1, c1.local.comments[k]) { CreatedApart(c1, c2, a, pairs, i, k); }
    }
    LastCopyIs(L, i);
    assert Paired(c2, x) == Some(L[i]);
    CommitOps(c1, c2, a, pairs, i);
    CommitLinked(c1, c2, a, pairs);
    ClaimsIs(Seen(c1, c2), x, c1.local.comments[i]);
  }

  lemma KeptInJira(c1: Ctx, c2: Ctx, a: Answers, pairs: map<string, string>, rc: DocComment, x: DocComment)
    requires Landed2(c1, c2, a, pairs) && SameBases(c1, c2, a)
    requires rc in c1.remote.comments && x in c2.remote.comments && Rewritten(MergeCtx(c1).writes, rc, x)
    ensures InJira(c2, x) <==> FoundAsPosted(Seen(c1, c2), x)
  {
    hide MergeCtx, LinkedIn, OneCopy, NewIds, PairsAre, Shows, Unposted, HasCopy, CommentsOnce.Answers, Named;
    if Comment(rc.jid) !in Skipped(c1.remote) && rc.lossless {
      HasKept(c1, c2, a, pairs, rc, x);
      KeptCopy(c1, c2, a, pairs, rc);
      assert Paired(Seen(c1, c2), x) == Paired(c1, rc);
      if Paired(c1, rc).Some? {
        KeptPaired(c1, c2, a, pairs, rc, x);
      } else {
        KeptNamed(c1, c2, a, pairs, rc, x);
      }
    }
  }

  /** Nothing is written under a Jira comment's id unless the local one gives its text. */
  lemma Unwritten(c1: Ctx, c2: Ctx, a: Answers, pairs: map<string, string>, rc: DocComment)
    requires Landed2(c1, c2, a, pairs) && rc in c1.remote.comments && (Paired(c1, rc).None? || InJira(c1, rc))
    ensures forall w :: w in MergeCtx(c1).writes ==> w.jid != rc.jid && LandedAs(w, a) != Some(rc.jid)
  {
    hide MergeCtx, LinkedIn, OneCopy, PairsAre, Shows, Unposted, HasCopy, InJira;
    HasJid(c1, rc);
    SameRemote(c1);
    forall w | w in MergeCtx(c1).writes ensures w.jid != rc.jid && LandedAs(w, a) != Some(rc.jid) { WriteIs(c1, w); }
  }

  lemma KeptPaired(c1: Ctx, c2: Ctx, a: Answers, pairs: map<string, string>, rc: DocComment, x: DocComment)
    requires Landed2(c1, c2, a, pairs) && SameBases(c1, c2, a)
    requires rc in c1.remote.comments && x in c2.remote.comments && Rewritten(MergeCtx(c1).writes, rc, x)
    requires Comment(rc.jid) !in Skipped(c1.remote) && rc.lossless && Paired(c1, rc).Some?
    ensures InJira(c2, x)
  {
    hide MergeCtx, LinkedIn, OneCopy, NewIds, PairsAre, Shows, Unposted, HasCopy, ByJid;
    HasJid(c1, rc);
    SamePaired(c1, c2, a, pairs, rc);
    if InJira(c1, rc) {
      Unwritten(c1, c2, a, pairs, rc);
    } else {
      EditIn(c1, rc);
    }
  }

  /** A Jira comment of the first read stays paired with the copy it was paired with. */
  lemma SamePaired(c1: Ctx, c2: Ctx, a: Answers, pairs: map<string, string>, rc: DocComment)
    requires Landed2(c1, c2, a, pairs) && rc in c1.remote.comments && Paired(c1, rc).Some?
    ensures Paired(c2, rc) == Paired(c1, rc)
  {
    hide MergeCtx, LinkedIn, OneCopy, NewIds, PairsAre, Shows, Unposted, HasCopy;
    HasJid(c1, rc);
    var cs, L := c1.local.comments, c2.local.comments;
    var i := ByJidLast(cs, rc.jid);
    PairedLocal(c1, c2, a, pairs, i);
    UnpostedIs(c1, cs[i]);
    assert cs[i] in cs;
    forall k | i < k < |L| ensures L[k].jid != rc.jid { CopyCame(c1, c2, a, pairs, k, rc); }
    LastCopyIs(L, i);
  }

  lemma KeptNamed(c1: Ctx, c2: Ctx, a: Answers, pairs: map<string, string>, rc: DocComment, x: DocComment)
    requires Landed2(c1, c2, a, pairs) && rc in c1.remote.comments && x in c2.remote.comments && Rewritten(MergeCtx(c1).writes, rc, x)
    requires Comment(rc.jid) !in Skipped(c1.remote) && rc.lossless
    requires Paired(c1, rc).None? && Paired(c2, x).None? && Paired(Seen(c1, c2), x).None?
    ensures InJira(c2, x) <==> FoundAsPosted(Seen(c1, c2), x)
  {
    hide MergeCtx, OneCopy, LinkedIn, NewIds, PairsAre, Shows, Unposted, HasCopy, CommentsOnce.Answers, Paired;
    CommitLinked(c1, c2, a, pairs);
    SameNamed(c1, c2, a, pairs, x.op);
    if Named(c2, x).Some? { SameAnswer(c1, c2, a, pairs, rc, x); }
  }

  /** The same comment answers for the local one named, in the commit and beside the second read. */
  lemma SameAnswer(c1: Ctx, c2: Ctx, a: Answers, pairs: map<string, string>, rc: DocComment, x: DocComment)
    requires Landed2(c1, c2, a, pairs) && LinkedIn(c2) && LinkedIn(Seen(c1, c2))
    requires rc in c1.remote.comments && x in c2.remote.comments && Rewritten(MergeCtx(c1).writes, rc, x)
    requires Paired(c1, rc).None? && Paired(c2, x).None? && Paired(Seen(c1, c2), x).None?
    requires Named(c2, x).Some? && Named(Seen(c1, c2), x).Some?
    ensures CommentsOnce.Answers(c2, x, Named(c2, x).value) <==> CommentsOnce.Answers(Seen(c1, c2), x, Named(Seen(c1, c2), x).value)
  {
    hide MergeCtx, OneCopy, LinkedIn, NewIds, PairsAre, Shows, Unposted, HasCopy, Landed2, Claims, Paired, Answerer;
    var d := Named(Seen(c1, c2), x).value;
    var i :| 0 <= i < |c1.local.comments| && c1.local.comments[i] == d;
    NamedKept(c1, c2, a, pairs, rc, x, i);
    forall y | y in c2.remote.comments ensures Claims(c2, y, d) <==> Claims(Seen(c1, c2), y, d) {
      SameClaim(c1, c2, a, pairs, y, d);
    }
    SameAnswerer(c2, Seen(c1, c2), c2.remote.comments, d);
  }

  /** A local comment that a Jira comment without a copy names is not posted, and so is as it was. */
  lemma NamedKept(c1: Ctx, c2: Ctx, a: Answers, pairs: map<string, string>, rc: DocComment, x: DocComment, i: nat)
    requires Landed2(c1, c2, a, pairs) && LinkedIn(c2) && i < |c1.local.comments|
    requires rc in c1.remote.comments && Paired(c1, rc).None? && x in c2.remote.comments && x.op == rc.op == c1.local.comments[i].op
    ensures !Unposted(c1, c1.local.comments[i])
    ensures i < |c2.local.comments| && c2.local.comments[i] == c1.local.comments[i]
    ensures Named(c2, x) == Some(c1.local.comments[i])
  {
    hide MergeCtx, OneCopy, LinkedIn, NewIds, PairsAre, Shows, HasCopy, Claims, Paired, Named;
    var d := c1.local.comments[i];
    ClaimsIs(c1, rc, d);
    assert !Unposted(c1, d);
    PairedLocal(c1, c2, a, pairs, i);
    assert c2.local.comments[i] in c2.local.comments;
    ClaimsIs(c2, x, d);
  }

  lemma SameClaim(c1: Ctx, c2: Ctx, a: Answers, pairs: map<string, string>, y: DocComment, d: DocComment)
    requires Landed2(c1, c2, a, pairs) && LinkedIn(c2) && LinkedIn(Seen(c1, c2)) && y in c2.remote.comments
    requires d in c1.local.comments && d in c2.local.comments && !Unposted(c1, d)
    ensures Claims(c2, y, d) <==> Claims(Seen(c1, c2), y, d)
  {
    hide MergeCtx, OneCopy, LinkedIn, NewIds, PairsAre, Shows, Unposted, HasCopy, Claims, Named, ByJid;
    ClaimsIs(c2, y, d);
    ClaimsIs(Seen(c1, c2), y, d);
    ShownIs(c1, c2, a, pairs, y);
    if k :| 0 <= k < |c1.local.comments| && PostedFrom(c1, c2, a, k, y) {
      SameOp(c1, c1.local.comments[k], d);
      PairedBeside(c1, c2, y);
    } else {
      var rc :| rc in c1.remote.comments && Rewritten(MergeCtx(c1).writes, rc, y);
      SameJid(c1, c2, a, pairs, rc, y);
    }
  }

  /** Beside the second read a comment just posted has no copy yet. */
  lemma PairedBeside(c1: Ctx, c2: Ctx, y: DocComment)
    requires y.jid != "" && forall d :: d in c1.local.comments ==> d.jid != y.jid
    ensures Paired(Seen(c1, c2), y).None?
  {
  }

  lemma SameJid(c1: Ctx, c2: Ctx, a: Answers, pairs: map<string, string>, rc: DocComment, y: DocComment)
    requires Landed2(c1, c2, a, pairs) && rc in c1.remote.comments && y.jid == rc.jid
    ensures Paired(Seen(c1, c2), y) == Paired(c1, rc)
    ensures Paired(c1, rc).Some? ==> Paired(c2, y) == Paired(c1, rc)
    ensures Paired(c1, rc).None? ==> Paired(c2, y).None?
  {
    hide MergeCtx, OneCopy, LinkedIn, NewIds, PairsAre, Shows, Unposted, HasCopy;
    HasKept(c1, c2, a, pairs, rc, y);
    KeptCopy(c1, c2, a, pairs, rc);
    if Paired(c1, rc).Some? { SamePaired(c1, c2, a, pairs, rc); }
  }

  lemma {:induction false} SameAnswerer(c: Ctx, e: Ctx, rcs: seq<DocComment>, d: DocComment)
    requires forall y :: y in rcs ==> (Claims(c, y, d) <==> Claims(e, y, d))
    ensures Answerer(c, rcs, d) == Answerer(e, rcs, d)
  {
    hide Claims;
    if rcs != [] {
      assert rcs[|rcs| - 1] in rcs;
      SameAnswerer(c, e, rcs[..|rcs| - 1], d);
    }
  }

  /** The comment an operation names keeps its text. */
  lemma SameNamed(c1: Ctx, c2: Ctx, a: Answers, pairs: map<string, string>, op: string)
    requires Landed2(c1, c2, a, pairs) && LinkedIn(c2)
    ensures var d, e := ByOp(c1.local.comments, op), ByOp(c2.local.comments, op);
            (d.Some? <==> e.Some?) && (d.Some? ==> d.value.text == e.value.text)
  {
    hide MergeCtx, OneCopy, LinkedIn, NewIds, PairsAre, Shows, Unposted;
    var d, e := ByOp(c1.local.comments, op), ByOp(c2.local.comments, op);
    if d.Some? {
      var i :| 0 <= i < |c1.local.comments| && c1.local.comments[i] == d.value;
      CommitOps(c1, c2, a, pairs, i);
      assert c2.local.comments[i] in c2.local.comments;
      SameOp(c2, c2.local.comments[i], e.value);
    }
    if e.Some? {
      var i :| 0 <= i < |c2.local.comments| && c2.local.comments[i] == e.value;
      CommitOps(c1, c2, a, pairs, i);
      assert c1.local.comments[i] in c1.local.comments;
    }
  }

  /** Once the writes landed Jira holds every comment, but for a post found again with an edit since. */
  lemma CommitInJira(c1: Ctx, c2: Ctx, a: Answers, pairs: map<string, string>)
    requires Landed2(c1, c2, a, pairs) && SameBases(c1, c2, a)
    ensures Well(c2) && DraftsInJira(c2)
    ensures CommentsInJira(c2) <==> forall x :: x in c2.remote.comments ==> FoundAsPosted(Seen(c1, c2), x)
  {
    hide MergeCtx, OneCopy, LinkedIn, NewIds, PairsAre, Unposted, InJira, FoundAsPosted, DraftsInJira, PostedFrom, Rewritten, HasCopy;
    CommitWell(c1, c2, a, pairs);
    CommitDrafts(c1, c2, a, pairs);
    forall x | x in c2.remote.comments ensures InJira(c2, x) <==> FoundAsPosted(Seen(c1, c2), x) {
      ShownIs(c1, c2, a, pairs, x);
      if i :| 0 <= i < |c1.local.comments| && PostedFrom(c1, c2, a, i, x) {
        PostedInJira(c1, c2, a, pairs, x, i);
      } else {
        var rc :| rc in c1.remote.comments && Rewritten(MergeCtx(c1).writes, rc, x);
        KeptInJira(c1, c2, a, pairs, rc, x);
      }
    }
  }
}
