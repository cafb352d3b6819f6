/** The round after an undisturbed one. */
module NextRound {
  // It changes nothing on either side and writes no marker: a key refused is refused again, and stays.

  import opened Order
  import opened Documents
  import opened SetMerge
  import opened Bases
  import opened Merging
  import opened MergeFacts
  import opened Check
  import opened Admit
  import opened Engine
  import opened EngineFacts
  import opened CommentFacts
  import opened CommentsOnce
  import opened Converge
  import opened CommentRound
  import S = Safety

  // ---- pairing the comments posted, before the merge or after it ----

  lemma {:induction false} PairLater(d: DocComment, ch: seq<LocalChange>, jid: string)
    requires forall lc :: lc in ch && lc.PairComment? ==> lc.op != d.op
    ensures ApplyOne(d.(jid := jid), ch) == ApplyOne(d, ch).(jid := jid)
  {
    if ch != [] {
      assert ch[|ch| - 1] in ch;
      PairLater(d, ch[..|ch| - 1], jid);
    }
  }

  lemma {:induction false} PairTargets(cs: seq<DocComment>, pairs: map<string, string>, op: string)
    requires forall x :: x in cs ==> x.op != op
    ensures forall lc :: lc in PairChanges(cs, pairs) ==> !Targets(lc, op)
  {
    if cs != [] {
      assert cs[|cs| - 1] in cs;
      PairTargets(cs[..|cs| - 1], pairs, op);
    }
  }

  /** Among the changes that pair the comments created, one comment's own. */
  lemma {:induction false} PairsApplied(e: DocComment, d: DocComment, cs: seq<DocComment>, pairs: map<string, string>)
    requires forall i, j :: 0 <= i < j < |cs| ==> cs[i].op != cs[j].op
    requires d in cs && e.op == d.op
    ensures ApplyOne(e, PairChanges(cs, pairs)) == if d.jid == "" && d.op in pairs then e.(jid := pairs[d.op]) else e
  {
    var n := |cs| - 1;
    var front, c := cs[..n], cs[n];
    var tail := if c.jid == "" && c.op in pairs then [PairComment(c.op, pairs[c.op])] else [];
    ApplyOneConcat(e, PairChanges(front, pairs), tail);
    if d == c {
      PairTargets(front, pairs, d.op);
      ApplyOneElsewhere(e, PairChanges(front, pairs));
      if tail != [] { OneChange(e, tail[0]); }
    } else {
      assert d in front;
      PairsApplied(e, d, front, pairs);
      ApplyOneOp(e, PairChanges(front, pairs));
      ApplyOneElsewhere(ApplyOne(e, PairChanges(front, pairs)), tail);
    }
  }

  lemma {:induction false} PairsImportNone(ch: seq<LocalChange>, cs: seq<DocComment>, pairs: map<string, string>, newOp: string -> string)
    ensures Imports(ch + PairChanges(cs, pairs), newOp) == Imports(ch, newOp)
  {
    PairsHaveNoKey(cs, pairs);
    ImportsConcat(ch, PairChanges(cs, pairs), newOp);
    NoImports(PairChanges(cs, pairs), newOp);
  }

  ghost predicate PairsKnown(pairs: map<string, string>) { forall op :: op in pairs ==> pairs[op] != "" }

  /** No comment is paired twice: a merge pairs only comments its document has unpaired. */
  lemma PairedOnce(c: Ctx, cs: seq<DocComment>, pairs: map<string, string>, d: DocComment)
    requires LinkedIn(c) && c.local.comments == WithPairs(cs, pairs) && PairsKnown(pairs)
    requires d in cs && d.jid == "" && d.op in pairs
    ensures forall lc :: lc in MergeCtx(c).local && lc.PairComment? ==> lc.op != d.op
  {
    hide MergeCtx, LinkedIn, WithPairs, StepRemote, StepLocal, PairsKnown;
    MergeFrom(c);
    var e := PairedIn(c, cs, pairs, d);
    forall x ensures forall lc :: lc in StepLocal(c, x).local ==> !lc.PairComment? { NoPairs(c, x); }
    forall lc | lc in MergeCtx(c).local && lc.PairComment? ensures lc.op != d.op {
      assert !IsFieldChange(lc);
      var rc :| rc in c.remote.comments && lc in StepRemote(c, rc).local;
      PairsUnpaired(c, rc, lc, e);
    }
  }

  lemma PairedIn(c: Ctx, cs: seq<DocComment>, pairs: map<string, string>, d: DocComment) returns (e: DocComment)
    requires c.local.comments == WithPairs(cs, pairs) && PairsKnown(pairs) && d in cs && d.jid == "" && d.op in pairs
    ensures e in c.local.comments && e.op == d.op && e.jid != ""
  {
    var i :| 0 <= i < |cs| && cs[i] == d;
    e := c.local.comments[i];
  }

  lemma PairsUnpaired(c: Ctx, rc: DocComment, lc: LocalChange, e: DocComment)
    requires LinkedIn(c) && e in c.local.comments && e.jid != "" && lc in StepRemote(c, rc).local && lc.PairComment?
    ensures lc.op != e.op
  {
    var d := Named(c, rc).value;
    assert lc.op == d.op && d.jid == "" && d in c.local.comments;
    SameOp(c, d, e);
  }

  lemma NoPairs(c: Ctx, x: DocComment)
    ensures forall lc :: lc in StepLocal(c, x).local ==> !lc.PairComment?
  {
  }

  lemma PairBesideMerge(c: Ctx, cs: seq<DocComment>, pairs: map<string, string>, i: nat)
    requires LinkedIn(c) && c.local.comments == WithPairs(cs, pairs) && PairsKnown(pairs) && i < |cs|
    ensures ApplyOne(cs[i], MergeCtx(c).local + PairChanges(cs, pairs)) == ApplyOne(WithPairs(cs, pairs)[i], MergeCtx(c).local)
  {
    hide MergeCtx, LinkedIn;
    var d, ch := cs[i], MergeCtx(c).local;
    OpsDistinct(c, cs, pairs);
    ApplyOneConcat(d, ch, PairChanges(cs, pairs));
    ApplyOneOp(d, ch);
    PairsApplied(ApplyOne(d, ch), d, cs, pairs);
    if d.jid == "" && d.op in pairs {
      PairedOnce(c, cs, pairs, d);
      PairLater(d, ch, pairs[d.op]);
    }
  }

  lemma OpsDistinct(c: Ctx, cs: seq<DocComment>, pairs: map<string, string>)
    requires LinkedIn(c) && c.local.comments == WithPairs(cs, pairs)
    ensures forall i, j :: 0 <= i < j < |cs| ==> cs[i].op != cs[j].op
  {
    forall i, j | 0 <= i < j < |cs| ensures cs[i].op != cs[j].op {
      assert c.local.comments[i].op == cs[i].op && c.local.comments[j].op == cs[j].op;
    }
  }

  /** The commit's comments are what the merge leaves of the comments with the new ones paired. */
  lemma CommitLeaves(c: Ctx, cs: seq<DocComment>, pairs: map<string, string>, newOp: string -> string)
    requires LinkedIn(c) && FreshIds(c, newOp) && c.local.comments == WithPairs(cs, pairs) && PairsKnown(pairs)
    ensures ApplyComments(cs, MergeCtx(c).local + PairChanges(cs, pairs), newOp) == Left(c, newOp)
  {
    hide MergeCtx, LinkedIn, FreshIds, SparesImports, Left;
    var ch := MergeCtx(c).local + PairChanges(cs, pairs);
    CommitSpares(c, cs, pairs, newOp);
    ApplyCommentsIs(cs, ch, newOp);
    MergeSpares(c, newOp);
    ApplyCommentsIs(c.local.comments, MergeCtx(c).local, newOp);
    MergeLeaves(c, newOp);
    PairsImportNone(MergeCtx(c).local, cs, pairs, newOp);
    forall i | 0 <= i < |cs| ensures ApplyOne(cs[i], ch) == ApplyOne(WithPairs(cs, pairs)[i], MergeCtx(c).local) {
      PairBesideMerge(c, cs, pairs, i);
    }
  }

  lemma CommitSpares(c: Ctx, cs: seq<DocComment>, pairs: map<string, string>, newOp: string -> string)
    requires FreshIds(c, newOp) && c.local.comments == WithPairs(cs, pairs)
    ensures forall lc :: lc in MergeCtx(c).local + PairChanges(cs, pairs) ==> SparesImports(lc, newOp)
  {
    hide MergeCtx;
    MergeSpares(c, newOp);
    forall lc | lc in PairChanges(cs, pairs) ensures SparesImports(lc, newOp) {
      forall j ensures !Targets(lc, newOp(j)) {
        forall x | x in cs ensures x.op != newOp(j) {
          var i :| 0 <= i < |cs| && cs[i] == x;
          assert WithPairs(cs, pairs)[i].op == x.op && WithPairs(cs, pairs)[i] in c.local.comments;
        }
        PairTargets(cs, pairs, newOp(j));
      }
    }
  }

  /** A refused field change is no comment's. */
  lemma {:induction false} WithoutComments(cs: seq<DocComment>, ch: seq<LocalChange>, refused: set<string>, newOp: string -> string)
    ensures ApplyComments(cs, Without(ch, refused), newOp) == ApplyComments(cs, ch, newOp)
  {
    if ch != [] {
      var front, lc := ch[..|ch| - 1], ch[|ch| - 1];
      WithoutComments(cs, front, refused, newOp);
      var kept := Without(front, refused);
      assert (kept + [lc])[..|kept|] == kept && kept + [] == kept;
    }
  }

  /** The issue as one undisturbed round leaves it, read again by the next. */
  ghost function NextCtx(u: Undisturbed, m: Commit, newOp: string -> string, r: Read, exporting: bool): Ctx {
    var p, local := CommitPlan(SessionOf(u), u.local, m).plan, LocalAfter(u, m, newOp);
    CtxOf(SettleBase(Some(p.base), local, r), local, SettleDoc(Some(p.base), local, r), r.multi, exporting)
  }

  lemma NextCtxIs(u: Undisturbed, m: Commit, newOp: string -> string, r: Read, exporting: bool)
    requires Converge.Quiet(u) && Undisturbing(u, m)
    requires r.doc == SessionOf(u).doc && r.multi == m.multi
    ensures NextCtx(u, m, newOp, r, exporting) ==
            Ctx(CommitPlan(SessionOf(u), u.local, m).plan.base, LocalAfter(u, m, newOp), r.doc, m.multi, exporting)
  {
    hide BeginSpec, MergeCtx, CommentsHeld, Accepting, CommitPlan, LocalAfter, AgreedBut, HeldBack, RefusedIn, CommitCtx;
    RoundConverges(u, m, newOp);
  }

  // ---- the round's comment writes land ----

  lemma ByJidOf(cs: seq<DocComment>, x: DocComment)
    requires x in cs && forall i, j :: 0 <= i < j < |cs| ==> cs[i].jid != cs[j].jid
    ensures ByJid(cs, x.jid) == Some(x)
  {
    var i :| 0 <= i < |cs| && cs[i] == x;
    var r := ByJid(cs, x.jid);
    var j :| 0 <= j < |cs| && cs[j] == r.value;
  }

  /** The read shows every comment write, so the commit's settle confirms them all. */
  lemma WritesHeld(u: Undisturbed, m: Commit)
    requires Converge.Quiet(u) && QuietComments(u)
    ensures CommentsHeld(u, m)
  {
    hide BeginSpec, MergeCtx, LinkedIn, OneCopy, NewIds, Accepting, PairsAre, Landed;
    var s, c := SessionOf(u), FirstCtx(u);
    var ws := MergeCtx(c).writes;
    SessionWrote(u);
    forall j | j in s.base.sentComments ensures HeldComment(ReadOf(s, m), j, s.base.sentComments[j]) {
      var w :| w in ws && LandedAs(w, u.answers) == Some(j) && s.base.sentComments[j] == w.text.digest;
      WriteIs(c, w);
      if w.jid == "" {
        var x :| x in s.doc.comments && Posted(u.answers, w, x);
        ByJidOf(s.doc.comments, x);
      } else {
        var rc :| rc in c.remote.comments && EditOf(c, rc, w);
        var x :| x in s.doc.comments && Rewritten(ws, rc, x);
        ByJidOf(s.doc.comments, x);
      }
    }
  }

  lemma CommitBases(u: Undisturbed, m: Commit, jid: string)
    requires SessionOf(u).base.comments == FirstCtx(u).b.comments && jid !in SessionOf(u).base.sentComments
    ensures CommentBaseOf(CommitCtx(u, m).b, jid) == CommentBaseOf(FirstCtx(u).b, jid)
  {
    hide BeginSpec, MergeCtx, FirstCtx;
    SessionBase(u);
  }

  /** The commit's merge is over the first one's comments, with its writes landed. */
  lemma RoundLands(u: Undisturbed, m: Commit)
    requires Converge.Quiet(u) && QuietComments(u) && SameLists(u, m)
    ensures Undisturbing(u, m)
    ensures Landed2(FirstCtx(u), CommitCtx(u, m), u.answers, SessionOf(u).pairs)
    ensures SameBases(FirstCtx(u), CommitCtx(u, m), u.answers)
  {
    hide BeginSpec, MergeCtx, Well, NewIds, Accepting, PairsAre, Shows, CommentsHeld, SettleBase, SettleDoc, CommitCtx, FirstCtx;
    WritesHeld(u, m);
    SessionWrote(u);
    Confirmed(u, m, "");
    SessionReads(u);
    FirstReads(u);
    CommitPairs(u, m);
    BasesSame(u, m);
  }

  lemma BasesSame(u: Undisturbed, m: Commit)
    requires Wrote(u)
    ensures SameBases(FirstCtx(u), CommitCtx(u, m), u.answers)
  {
    hide BeginSpec, MergeCtx, Shows, CommitCtx, FirstCtx, PairsAre;
    forall jid | forall w :: w in MergeCtx(FirstCtx(u)).writes ==> LandedAs(w, u.answers) != Some(jid)
      ensures CommentBaseOf(CommitCtx(u, m).b, jid) == CommentBaseOf(FirstCtx(u).b, jid)
    {
      CommitBases(u, m, jid);
    }
  }

  lemma CommitPairs(u: Undisturbed, m: Commit)
    ensures CommitCtx(u, m).local.comments == WithPairs(u.local.comments, SessionOf(u).pairs)
  {
    hide BeginSpec, SettleBase, SettleDoc;
  }

  lemma PairsNew(c1: Ctx, c2: Ctx, a: Answers, pairs: map<string, string>)
    requires Landed2(c1, c2, a, pairs)
    ensures PairsKnown(pairs)
  {
    hide MergeCtx, LinkedIn, OneCopy, Shows;
  }

  /** Ids new to the first merge are new to the commit's. */
  lemma FreshStays(c1: Ctx, c2: Ctx, a: Answers, pairs: map<string, string>, newOp: string -> string)
    requires Landed2(c1, c2, a, pairs) && FreshIds(c1, newOp)
    ensures FreshIds(c2, newOp)
  {
    hide MergeCtx, LinkedIn, OneCopy, Shows, NewIds, PairsAre, Unposted;
    forall d, j | d in c2.local.comments ensures d.op != newOp(j) {
      var i :| 0 <= i < |c2.local.comments| && c2.local.comments[i] == d;
      CommitOps(c1, c2, a, pairs, i);
    }
    forall x, j | x in c2.remote.comments ensures x.op != newOp(j) {
      ShownIs(c1, c2, a, pairs, x);
      if i :| 0 <= i < |c1.local.comments| && PostedFrom(c1, c2, a, i, x) { CommitOps(c1, c2, a, pairs, i); }
    }
  }

  /** What a round asks for and gets: accepted writes, shown by the read, and nobody else at work. */
  ghost predicate QuietRound(u: Undisturbed, m: Commit, newOp: string -> string) {
    Converge.Quiet(u) && QuietComments(u) && SameLists(u, m) && FreshIds(FirstCtx(u), newOp)
  }

  /** The first merge's comments beside the read that follows its writes. */
  ghost function Reread(u: Undisturbed): Ctx { FirstCtx(u).(remote := SessionOf(u).doc) }

  /** Each post found again by the second read has the local text, or is not to be written. */
  ghost predicate AllAsPosted(u: Undisturbed) {
    forall x :: x in SessionOf(u).doc.comments ==> FoundAsPosted(Reread(u), x)
  }

  /** Where the commit's merge stands, and what the comments come to. */
  lemma CommitStands(u: Undisturbed, m: Commit, newOp: string -> string)
    requires QuietRound(u, m, newOp)
    ensures var c2 := CommitCtx(u, m);
            && Undisturbing(u, m) && Well(c2) && FreshIds(c2, newOp) && PairsKnown(SessionOf(u).pairs) && DraftsInJira(c2)
            && (CommentsInJira(c2) <==> AllAsPosted(u))
            && LocalAfter(u, m, newOp).comments == Left(c2, newOp) && c2.remote == SessionOf(u).doc
  {
    hide BeginSpec, MergeCtx, Well, Accepting, QuietComments, FreshIds, Landed2, SameBases, CommitCtx, CommitPlan,
         FoundAsPosted, CommentsInJira, DraftsInJira, Left, CommentsHeld, SettleBase, SettleDoc, FirstCtx, RefusedIn;
    var c1, c2, pairs := FirstCtx(u), CommitCtx(u, m), SessionOf(u).pairs;
    RoundLands(u, m);
    Confirmed(u, m, "");
    CommitInJira(c1, c2, u.answers, pairs);
    PairsNew(c1, c2, u.answers, pairs);
    FreshStays(c1, c2, u.answers, pairs, newOp);
    CommitPairs(u, m);
    assert LinkedIn(c2) by { WellLinked(c2); }
    CommitLeaves(c2, u.local.comments, pairs, newOp);
    AdmittedIs(u, m);
    WithoutComments(u.local.comments, MergeCtx(c2).local + PairChanges(u.local.comments, pairs), RefusedIn(u, m), newOp);
  }

  lemma WellLinked(c: Ctx)
    requires Well(c)
    ensures LinkedIn(c)
  {
  }

  /**
   One undisturbed round converges in its comments. A Jira comment has a local copy exactly when
   the commit's merge has or gives it one; two only if the read skips it or a Jira comment
   without a copy names the earlier; and every local comment that is no note has its Jira
   comment, or that is gone and the read skips it, or it is a tombstone, or an edit of one,
   reported, or a Jira comment without a copy names it.
   */
  lemma CommentsConverge(u: Undisturbed, m: Commit, newOp: string -> string)
    requires QuietRound(u, m, newOp)
    ensures var p, c := CommitPlan(SessionOf(u), u.local, m).plan, CommitCtx(u, m);
            var after, remote := LocalAfter(u, m, newOp).comments, SessionOf(u).doc.comments;
            && (forall rc :: rc in remote ==> (HasCopy(after, rc) <==> Copied(c, rc)))
            && (forall i, j, rc :: 0 <= i < j < |after| && rc in remote && after[i].jid == after[j].jid == rc.jid ==>
                  Comment(rc.jid) in Skipped(u.read.doc) || NamedElse(c, after[i]))
            && (forall x :: x in after && !x.note ==>
                  && x.jid != ""
                  && (|| (exists rc :: rc in remote && rc.jid == x.jid)
                      || Comment(x.jid) in Skipped(u.read.doc) || IsTombstone(x.text)
                      || Skip(Comment(x.jid), DeletedInJira, false) in p.pending || NamedElse(c, x)))
  {
    hide BeginSpec, MergeCtx, Well, Accepting, QuietComments, FreshIds, CommitPlan, FoundAsPosted, Copied, LocalAfter,
         CommentsInJira, Left, CommentsHeld, SettleBase, SettleDoc, FirstCtx, CommitCtx, HasCopy, NamedElse;
    var c2 := CommitCtx(u, m);
    CommitStands(u, m, newOp);
    Confirmed(u, m, "");
    SessionReads(u);
    assert LinkedIn(c2) by { WellLinked(c2); }
    LeftStandsAll(c2, newOp);
    PlanPending(u, m);
    forall i, j, rc | 0 <= i < j < |Left(c2, newOp)| && rc in c2.remote.comments && Left(c2, newOp)[i].jid == Left(c2, newOp)[j].jid == rc.jid
                      && Comment(rc.jid) !in Skipped(c2.remote)
      ensures NamedElse(c2, Left(c2, newOp)[i])
    {
      EarlierNamed(c2, newOp, i, j, rc);
    }
  }

  lemma EarlierNamed(c: Ctx, newOp: string -> string, i: nat, j: nat, rc: DocComment)
    requires Well(c) && i < j < |Left(c, newOp)| && rc in c.remote.comments && Comment(rc.jid) !in Skipped(c.remote)
    requires Left(c, newOp)[i].jid == Left(c, newOp)[j].jid == rc.jid
    ensures NamedElse(c, Left(c, newOp)[i])
  {
    hide LinkedIn, OneCopy, Left, Shadowed, After;
    LeftCopies(c, newOp, i, j, rc);
    OneCopyOf(c, i, j, rc);
    LeftAt(c, newOp, i);
    AfterIs(c, c.local.comments[i]);
    ShadowNames(c, c.local.comments[i]);
  }

  lemma PlanPending(u: Undisturbed, m: Commit)
    ensures CommitPlan(SessionOf(u), u.local, m).plan.pending == MergeCtx(CommitCtx(u, m)).pending
  {
    hide BeginSpec, MergeCtx, SettleBase, SettleDoc;
  }

  lemma LeftStandsAll(c: Ctx, newOp: string -> string)
    requires LinkedIn(c) && DraftsInJira(c)
    ensures forall rc :: rc in c.remote.comments ==> (HasCopy(Left(c, newOp), rc) <==> Copied(c, rc))
    ensures forall x :: x in Left(c, newOp) && !x.note ==> x.jid != "" && Stands(c, MergeCtx(c), x)
  {
    hide MergeCtx, LinkedIn, Left, HasCopy, Stands, Copied;
    forall rc | rc in c.remote.comments ensures HasCopy(Left(c, newOp), rc) <==> Copied(c, rc) { CopiesLeft(c, newOp, rc); }
    forall x | x in Left(c, newOp) && !x.note ensures x.jid != "" && Stands(c, MergeCtx(c), x) {
      LeftStands(c, newOp, x);
      NoDraftLeft(c, newOp, x);
    }
  }

  lemma NoDraftLeft(c: Ctx, newOp: string -> string, x: DocComment)
    requires LinkedIn(c) && DraftsInJira(c) && x in Left(c, newOp) && !x.note
    ensures x.jid != ""
  {
    hide LinkedIn, Left, Imported, After, Claims;
    LeftIs(c, newOp, x);
    if d :| d in c.local.comments && x == After(c, d) {
      AfterIs(c, d);
      if d.jid == "" {
        var rc := AnswererOf(c, d);
        DraftPaired(c, rc, d);
      } else {
        PairingStays(c, d);
      }
    } else {
      var rc :| rc in c.remote.comments && Imported(c, rc) && x == ImportOf(rc, newOp);
      HasJid(c, rc);
    }
  }

  // ---- the next merge ----

  lemma {:induction false} FieldsCarried(c: Ctx, p: Plan, keys: seq<string>)
    ensures forall lc :: lc in p.local ==> lc in FoldFields(c, p, keys).local
    ensures forall k, lc :: k in keys && lc in StepField(c, k).local ==> lc in FoldFields(c, p, keys).local
  {
    hide StepField;
    if keys != [] {
      FieldsCarried(c, p, keys[..|keys| - 1]);
      assert forall k :: k in keys <==> k in keys[..|keys| - 1] || k == keys[|keys| - 1];
    }
  }

  lemma {:induction false} RemoteKeepsLocal(c: Ctx, p: Plan, rcs: seq<DocComment>)
    ensures forall lc :: lc in p.local ==> lc in FoldRemote(c, p, rcs).local
  {
    if rcs != [] { RemoteKeepsLocal(c, p, rcs[..|rcs| - 1]); }
  }

  lemma {:induction false} LocalKeepsLocal(c: Ctx, p: Plan, lcs: seq<DocComment>)
    ensures forall lc :: lc in p.local ==> lc in FoldLocal(c, p, lcs).local
  {
    if lcs != [] { LocalKeepsLocal(c, p, lcs[..|lcs| - 1]); }
  }

  /** A merge's field changes are exactly those its keys' steps ask for. */
  lemma FieldChangesAre(c: Ctx, lc: LocalChange)
    requires IsFieldChange(lc)
    ensures lc in MergeCtx(c).local <==> lc.key in c.remote.fields && lc in StepField(c, lc.key).local
  {
    hide StepField, StepRemote, StepLocal;
    MergeFromSteps(c);
    FieldKeysDistinct(c.remote);
    assert lc.key in FieldKeys(c.remote) <==> lc.key in Elems(FieldKeys(c.remote));
    var f := FoldFields(c, Start(c), FieldKeys(c.remote));
    FieldsCarried(c, Start(c), FieldKeys(c.remote));
    RemoteKeepsLocal(c, f, c.remote.comments);
    LocalKeepsLocal(c, FoldRemote(c, f, c.remote.comments), c.local.comments);
  }

  lemma NothingSent(remote: seq<Change>)
    ensures (forall k :: Sent(remote, k) == []) ==> remote == []
  {
    if remote != [] { LastSent(remote); }
  }

  lemma LastSent(remote: seq<Change>)
    requires remote != []
    ensures Sent(remote, remote[|remote| - 1].key) != []
  {
  }

  /** A step that changes the local side and settles its key repeats when the change is not made. */
  lemma RepeatedStep(c2: Ctx, c3: Ctx, k: string)
    requires Settles(c2, k) && StepField(c2, k).local != []
    requires c3.remote == c2.remote && c3.multi == c2.multi && At(c3.local.fields, k) == At(c2.local.fields, k)
    requires (k in c3.b.fields <==> k in c2.b.fields) && (k in c3.b.fields ==> c3.b.fields[k] == c2.b.fields[k])
    ensures StepField(c3, k) == StepField(c2, k) && StepField(c3, k).remote == []
  {
    if k in c2.multi { SettledSet(c2, k); }
  }

  lemma SettledSet(c: Ctx, k: string)
    requires Settles(c, k) && StepField(c, k).local != [] && k in c.multi
    ensures var p := MergeSetSpec(SetOf(At(c.b.fields, k)), SetOf(At(c.local.fields, k)), SetOf(At(c.remote.fields, k)));
            p.rAdd == [] && p.rRem == []
  {
    SetStepApplied(c, k);
    var r := SetOf(At(c.remote.fields, k));
    assert r - r == {};
  }

  /** What the round and the next one read: a refused key's step repeats, any other key's does nothing. */
  lemma NextKey(u: Undisturbed, m: Commit, newOp: string -> string, r: Read, exporting: bool, k: string)
    requires Converge.Quiet(u) && Undisturbing(u, m) && r.doc == SessionOf(u).doc && r.multi == m.multi
    ensures var c2, c3 := CommitCtx(u, m), NextCtx(u, m, newOp, r, exporting);
            var step := StepField(c3, k);
            if k in RefusedIn(u, m) then k in c3.remote.fields && step == StepField(c2, k) && step.remote == []
            else k in c3.remote.fields ==>
              && step.local == [] && step.remote == [] && step.conflicts == {}
              && (step.base.Some? ==> k in c3.b.fields && step.base.value == c3.b.fields[k])
  {
    hide BeginSpec, MergeCtx, StepField, CommitPlan, CommitCtx, FirstCtx, LocalAfter, NextCtx, RefusedIn, Settles, AgreedKey, CommentsHeld, Accepting;
    var c2, c3 := CommitCtx(u, m), NextCtx(u, m, newOp, r, exporting);
    NextCtxIs(u, m, newOp, r, exporting);
    RoundConverges(u, m, newOp);
    Confirmed(u, m, k);
    CommitReads(u, m);
    if k in RefusedIn(u, m) {
      RefusedStep(u, m, k);
      SessionReads(u);
      SettledParts(u);
      KeySettles(u, m, k);
      RepeatedStep(c2, c3, k);
    } else if k in c3.remote.fields {
      AgreedStep(c3, k);
    }
  }

  /** The next merge writes no field, and changes exactly the refused keys, as the commit's merge did. */
  lemma NextFields(u: Undisturbed, m: Commit, newOp: string -> string, r: Read, exporting: bool)
    requires Converge.Quiet(u) && Undisturbing(u, m) && r.doc == SessionOf(u).doc && r.multi == m.multi
    ensures var c2, q := CommitCtx(u, m), MergeCtx(NextCtx(u, m, newOp, r, exporting));
            && q.remote == []
            && (forall lc :: IsFieldChange(lc) ==> (lc in q.local <==> lc.key in RefusedIn(u, m) && lc in MergeCtx(c2).local))
            && (forall k :: Field(k) in q.conflicts <==> k in RefusedIn(u, m) && Field(k) in MergeCtx(c2).conflicts)
  {
    hide BeginSpec, MergeCtx, StepField, CommitPlan, CommitCtx, FirstCtx, LocalAfter, NextCtx, RefusedIn, CommentsHeld, Accepting;
    var c2, c3 := CommitCtx(u, m), NextCtx(u, m, newOp, r, exporting);
    forall k ensures Sent(MergeCtx(c3).remote, k) == [] { NextKey(u, m, newOp, r, exporting, k); MergeAt(c3, k); }
    NothingSent(MergeCtx(c3).remote);
    forall lc | IsFieldChange(lc) ensures lc in MergeCtx(c3).local <==> lc.key in RefusedIn(u, m) && lc in MergeCtx(c2).local {
      NextKey(u, m, newOp, r, exporting, lc.key);
      FieldChangesAre(c3, lc);
      FieldChangesAre(c2, lc);
      if lc.key in RefusedIn(u, m) { RefusedStep(u, m, lc.key); }
    }
    forall k ensures Field(k) in MergeCtx(c3).conflicts <==> k in RefusedIn(u, m) && Field(k) in MergeCtx(c2).conflicts {
      NextKey(u, m, newOp, r, exporting, k);
      MergeAt(c3, k);
      MergeAt(c2, k);
      if k in RefusedIn(u, m) { RefusedStep(u, m, k); }
    }
  }

  /** And its comments are as they were. */
  lemma NextComments(u: Undisturbed, m: Commit, newOp: string -> string, r: Read, exporting: bool)
    requires QuietRound(u, m, newOp) && r.doc == SessionOf(u).doc && r.multi == m.multi
    ensures var c := NextCtx(u, m, newOp, r, exporting);
            Undisturbing(u, m) && SilentPlan(c, MergeCtx(c)) && (MergeCtx(c).writes == [] <==> !exporting || AllAsPosted(u))
  {
    hide BeginSpec, MergeCtx, CommentsHeld, Accepting, QuietComments, CommitPlan, Well, FreshIds, CommentsInJira, Left,
         SettleBase, SettleDoc, NextCtx, CommitCtx, PairsKnown, AllAsPosted, DraftsInJira, FirstCtx, LocalAfter, SilentPlan, RefusedIn;
    var c2, c3 := CommitCtx(u, m), NextCtx(u, m, newOp, r, exporting);
    CommitStands(u, m, newOp);
    NextCtxIs(u, m, newOp, r, exporting);
    AdmittedIs(u, m);
    CommentsSyncOnce(c2, c3, newOp);
  }

  /**
   The round after an undisturbed one, Jira unchanged, merges to nothing but the changes of the
   keys refused, which it asks for again and whose conflicts it notes again; it writes no field
   to Jira, and no comment but one edited since a run posted it without pairing it: that one is
   written, and only if there is one.
   */
  lemma NextRoundIsQuiet(u: Undisturbed, m: Commit, newOp: string -> string, r: Read, exporting: bool)
    requires QuietRound(u, m, newOp)
    requires r.doc == SessionOf(u).doc && r.multi == m.multi
    ensures var p, q := CommitPlan(SessionOf(u), u.local, m).plan, MergeCtx(NextCtx(u, m, newOp, r, exporting));
            && (forall lc :: lc in q.local <==> IsFieldChange(lc) && lc.key in RefusedIn(u, m) && lc in MergeCtx(CommitCtx(u, m)).local)
            && q.remote == []
            && (forall x :: x in q.conflicts <==> x.Field? && x.name in RefusedIn(u, m) && x in p.conflicts)
            && (q.writes == [] <==> !exporting || AllAsPosted(u))
  {
    hide BeginSpec, MergeCtx, CommentsHeld, Accepting, QuietComments, CommitPlan, FreshIds, NextCtx, CommitCtx, AllAsPosted, FirstCtx, RefusedIn, LocalAfter;
    NextComments(u, m, newOp, r, exporting);
    NextFields(u, m, newOp, r, exporting);
    AdmittedIs(u, m);
  }

  // ---- the same keys are refused again ----

  ghost predicate HasType(local: seq<LocalChange>) { exists lc :: lc in local && SetsType(lc) }

  /** The type the commit's changes leave, as admit reads it. */
  lemma TypePlanned(u: Undisturbed, m: Commit)
    requires TYPE !in m.multi
    ensures var c2, local := CommitCtx(u, m), SecondPlan(SessionOf(u), u.local, m).local;
            && PlannedType(local, TypeOf(u.local)) ==
               (if HasType(local) then StringValue(At(c2.remote.fields, TYPE)).GetOr("") else TypeOf(u.local))
            && (HasType(local) <==> TYPE in c2.remote.fields && StepField(c2, TYPE).local != [])
  {
    hide BeginSpec, MergeCtx, StepField, SettleBase, SettleDoc, PlannedType;
    var c2, local := CommitCtx(u, m), SecondPlan(SessionOf(u), u.local, m).local;
    var v := At(c2.remote.fields, TYPE);
    forall lc | lc in local && SetsType(lc) ensures lc.value == v {
      S.PlanChanges(SessionOf(u), u.local, m, lc);
      S.ScalarChange(c2, TYPE, lc);
    }
    TypesRead(local, TypeOf(u.local), v);
    PairsHaveNoKey(u.local.comments, SessionOf(u).pairs);
    TypeSets(c2);
  }

  /** A merge sets the type exactly when the type's step does. */
  lemma TypeSets(c: Ctx)
    requires TYPE !in c.multi
    ensures HasType(MergeCtx(c).local) <==> TYPE in c.remote.fields && StepField(c, TYPE).local != []
    ensures StepField(c, TYPE).local != [] ==> StepField(c, TYPE).local == [SetField(TYPE, At(c.remote.fields, TYPE))]
    ensures forall lc :: lc in MergeCtx(c).local && SetsType(lc) ==> lc.value == At(c.remote.fields, TYPE)
  {
    hide MergeCtx;
    var lc := SetField(TYPE, At(c.remote.fields, TYPE));
    FieldChangesAre(c, lc);
    forall x | x in MergeCtx(c).local && SetsType(x) ensures x == lc { FieldChangesAre(c, x); }
  }

  lemma SameType(u: Undisturbed, m: Commit, newOp: string -> string, r: Read, exporting: bool)
    requires Converge.Quiet(u) && Undisturbing(u, m) && r.doc == SessionOf(u).doc && r.multi == m.multi && TYPE !in m.multi
    ensures PlannedType(MergeCtx(NextCtx(u, m, newOp, r, exporting)).local, TypeOf(LocalAfter(u, m, newOp))) ==
            PlannedType(SecondPlan(SessionOf(u), u.local, m).local, TypeOf(u.local))
  {
    hide BeginSpec, MergeCtx, StepField, CommitPlan, CommitCtx, FirstCtx, LocalAfter, NextCtx, RefusedIn, CommentsHeld, Accepting, SecondPlan, PlannedType;
    var c2, c3, after := CommitCtx(u, m), NextCtx(u, m, newOp, r, exporting), LocalAfter(u, m, newOp);
    NextCtxIs(u, m, newOp, r, exporting);
    CommitReads(u, m);
    Confirmed(u, m, TYPE);
    TypePlanned(u, m);
    TypeSets(c2);
    TypeSets(c3);
    TypesRead(MergeCtx(c3).local, TypeOf(after), At(c3.remote.fields, TYPE));
    NextKey(u, m, newOp, r, exporting, TYPE);
    if TYPE in RefusedIn(u, m) {
      RefusedStep(u, m, TYPE);
    } else {
      TypeLeft(u, m, newOp);
    }
  }

  /** The type an unrefused commit leaves in the document. */
  lemma TypeLeft(u: Undisturbed, m: Commit, newOp: string -> string)
    requires TYPE !in RefusedIn(u, m) && TYPE !in m.multi
    ensures var c2 := CommitCtx(u, m);
            At(LocalAfter(u, m, newOp).fields, TYPE) ==
            if TYPE in c2.remote.fields && StepField(c2, TYPE).local != [] then At(c2.remote.fields, TYPE) else At(u.local.fields, TYPE)
  {
    hide BeginSpec, MergeCtx, StepField, CommitPlan, SettleBase, SettleDoc, ApplyLocal, ApplyFields;
    var c2 := CommitCtx(u, m);
    S.CommitField(SessionOf(u), u.local, m, newOp, TYPE);
    MergeAt(c2, TYPE);
    TypeSets(c2);
    TakesJira(c2, TYPE);
  }

  /** The keys the next commit refuses are those this one did. */
  lemma RefusedAgain(u: Undisturbed, m: Commit, newOp: string -> string, r: Read)
    requires Converge.Quiet(u) && Undisturbing(u, m) && r.doc == SessionOf(u).doc && r.multi == m.multi && TYPE !in m.multi
    ensures var q := MergeCtx(NextCtx(u, m, newOp, r, false));
            Failing(Shape(m.checker), PlannedType(q.local, TypeOf(LocalAfter(u, m, newOp))), q.local) == RefusedIn(u, m)
  {
    hide BeginSpec, MergeCtx, StepField, CommitPlan, CommitCtx, FirstCtx, LocalAfter, NextCtx, CommentsHeld, Accepting, PlannedType, SecondPlan;
    SameType(u, m, newOp, r, false);
    NextFields(u, m, newOp, r, false);
    var ck, t := Shape(m.checker), PlannedType(SecondPlan(SessionOf(u), u.local, m).local, TypeOf(u.local));
    var q, local := MergeCtx(NextCtx(u, m, newOp, r, false)), SecondPlan(SessionOf(u), u.local, m).local;
    forall lc | IsFieldChange(lc) ensures lc in local <==> lc in MergeCtx(CommitCtx(u, m)).local { PlanFieldChange(u, m, lc); }
    FailingSame(ck, t, local, q.local, RefusedIn(u, m));
  }

  lemma PlanFieldChange(u: Undisturbed, m: Commit, lc: LocalChange)
    requires IsFieldChange(lc)
    ensures lc in SecondPlan(SessionOf(u), u.local, m).local <==> lc in MergeCtx(CommitCtx(u, m)).local
  {
    hide BeginSpec, MergeCtx, SettleBase, SettleDoc;
    PairsHaveNoKey(u.local.comments, SessionOf(u).pairs);
  }

  /** Of a batch, the changes of the keys that fail fail alone as they did together. */
  lemma FailingSame(ck: Checker, t: string, local: seq<LocalChange>, some: seq<LocalChange>, refused: set<string>)
    requires refused == Failing(ck, t, local)
    requires forall lc :: IsFieldChange(lc) ==> (lc in some <==> lc.key in refused && lc in local)
    ensures Failing(ck, t, some) == refused
  {
    forall k | k in refused ensures k in Failing(ck, t, some) {
      var lc :| lc in local && Checked(lc) && !Passes(ck, t, lc) && lc.key == k;
      assert lc in some;
    }
  }

  /** So the next commit changes nothing and records the same base. */
  lemma NextAdmits(u: Undisturbed, m: Commit, newOp: string -> string, r: Read)
    requires QuietRound(u, m, newOp) && r.doc == SessionOf(u).doc && r.multi == m.multi && TYPE !in m.multi
    ensures var p, q := CommitPlan(SessionOf(u), u.local, m).plan, MergeCtx(NextCtx(u, m, newOp, r, false));
            var a := AdmitSpec(m.checker, q, TypeOf(LocalAfter(u, m, newOp)), Some(p.base));
            a.plan.local == [] && a.plan.base == p.base
  {
    hide BeginSpec, MergeCtx, CommentsHeld, Accepting, QuietComments, CommitPlan, FreshIds, NextCtx, CommitCtx, AllAsPosted, FirstCtx,
         RefusedIn, LocalAfter, Failing, PlannedType, SilentPlan, StepField;
    var p, q := CommitPlan(SessionOf(u), u.local, m).plan, MergeCtx(NextCtx(u, m, newOp, r, false));
    NextComments(u, m, newOp, r, false);
    RefusedAgain(u, m, newOp, r);
    NextRoundIsQuiet(u, m, newOp, r, false);
    NextLocalRefused(u, m, newOp, r);
    NextBase(u, m, newOp, r);
  }

  lemma NextLocalRefused(u: Undisturbed, m: Commit, newOp: string -> string, r: Read)
    requires QuietRound(u, m, newOp) && r.doc == SessionOf(u).doc && r.multi == m.multi
    ensures Without(MergeCtx(NextCtx(u, m, newOp, r, false)).local, RefusedIn(u, m)) == []
  {
    hide BeginSpec, MergeCtx, CommentsHeld, QuietComments, CommitPlan, FreshIds, NextCtx, CommitCtx, AllAsPosted, FirstCtx, RefusedIn;
    var local := MergeCtx(NextCtx(u, m, newOp, r, false)).local;
    NextRoundIsQuiet(u, m, newOp, r, false);
    WithoutHas(local, RefusedIn(u, m));
    forall lc | lc in local ensures Checked(lc) { RefusedStep(u, m, lc.key); }
    NoChange(Without(local, RefusedIn(u, m)));
  }

  lemma NoChange(ch: seq<LocalChange>)
    ensures (forall lc :: lc !in ch) ==> ch == []
  {
    if ch != [] { assert ch[0] in ch; }
  }

  /** The base the next merge records, a refused key's restored, is the one there was. */
  lemma NextBase(u: Undisturbed, m: Commit, newOp: string -> string, r: Read)
    requires QuietRound(u, m, newOp) && r.doc == SessionOf(u).doc && r.multi == m.multi
    ensures var p, q := CommitPlan(SessionOf(u), u.local, m).plan, MergeCtx(NextCtx(u, m, newOp, r, false));
            q.base.(fields := RestoreAll(q.base.fields, Some(p.base), RefusedIn(u, m)),
                    retry := q.base.retry + set k | k in RefusedIn(u, m) :: Field(k)) == p.base
  {
    hide BeginSpec, MergeCtx, CommentsHeld, Accepting, QuietComments, CommitPlan, FreshIds, NextCtx, CommitCtx, AllAsPosted, FirstCtx,
         RefusedIn, LocalAfter, StepField;
    var p, c3 := CommitPlan(SessionOf(u), u.local, m).plan, NextCtx(u, m, newOp, r, false);
    NextComments(u, m, newOp, r, false);
    NextCtxIs(u, m, newOp, r, false);
    NextFieldsBase(u, m, newOp, r);
    Confirmed(u, m, "");
    AdmittedIs(u, m);
    MergeAt(CommitCtx(u, m), "");
    MergeAt(c3, "");
  }

  lemma NextFieldsBase(u: Undisturbed, m: Commit, newOp: string -> string, r: Read)
    requires Converge.Quiet(u) && Undisturbing(u, m) && r.doc == SessionOf(u).doc && r.multi == m.multi
    ensures var p, q := CommitPlan(SessionOf(u), u.local, m).plan, MergeCtx(NextCtx(u, m, newOp, r, false));
            RestoreAll(q.base.fields, Some(p.base), RefusedIn(u, m)) == p.base.fields
  {
    hide BeginSpec, MergeCtx, CommentsHeld, Accepting, CommitPlan, NextCtx, CommitCtx, FirstCtx, RefusedIn, LocalAfter, StepField;
    var p, c3 := CommitPlan(SessionOf(u), u.local, m).plan, NextCtx(u, m, newOp, r, false);
    NextCtxIs(u, m, newOp, r, false);
    forall k
      ensures k !in RefusedIn(u, m) ==> (k in MergeCtx(c3).base.fields <==> k in p.base.fields)
      ensures k !in RefusedIn(u, m) && k in p.base.fields ==> MergeCtx(c3).base.fields[k] == p.base.fields[k]
    {
      NextKey(u, m, newOp, r, false, k);
      MergeAt(c3, k);
    }
  }

  // ---- the next run, from the marker it finds ----

  /** A merge does not look at the clock of its base. */
  lemma ClockUnread(c: Ctx, v: int)
    ensures MergeCtx(c.(b := c.b.(updated := v))) == MergeCtx(c)
  {
    var d := c.(b := c.b.(updated := v));
    assert Start(d) == Start(c);
    FieldsClock(c, v, Start(c), FieldKeys(c.remote));
    RemoteClock(c, v, FoldFields(c, Start(c), FieldKeys(c.remote)), c.remote.comments);
    LocalClock(c, v, FoldRemote(c, FoldFields(c, Start(c), FieldKeys(c.remote)), c.remote.comments), c.local.comments);
  }

  lemma {:induction false} FieldsClock(c: Ctx, v: int, p: Plan, keys: seq<string>)
    ensures FoldFields(c.(b := c.b.(updated := v)), p, keys) == FoldFields(c, p, keys)
  {
    if keys != [] {
      FieldsClock(c, v, p, keys[..|keys| - 1]);
      assert StepField(c.(b := c.b.(updated := v)), keys[|keys| - 1]) == StepField(c, keys[|keys| - 1]);
    }
  }

  lemma {:induction false} RemoteClock(c: Ctx, v: int, p: Plan, rcs: seq<DocComment>)
    ensures FoldRemote(c.(b := c.b.(updated := v)), p, rcs) == FoldRemote(c, p, rcs)
  {
    if rcs != [] {
      RemoteClock(c, v, p, rcs[..|rcs| - 1]);
      assert StepRemote(c.(b := c.b.(updated := v)), rcs[|rcs| - 1]) == StepRemote(c, rcs[|rcs| - 1]);
    }
  }

  lemma {:induction false} LocalClock(c: Ctx, v: int, p: Plan, lcs: seq<DocComment>)
    ensures FoldLocal(c.(b := c.b.(updated := v)), p, lcs) == FoldLocal(c, p, lcs)
  {
    if lcs != [] {
      hide Done;
      LocalClock(c, v, p, lcs[..|lcs| - 1]);
      var d := c.(b := c.b.(updated := v));
      assert Done(d) == Done(c) by { SameDone(c, v); }
      assert StepLocal(d, lcs[|lcs| - 1]) == StepLocal(c, lcs[|lcs| - 1]);
    }
  }

  lemma SameDone(c: Ctx, v: int)
    ensures Done(c.(b := c.b.(updated := v))) == Done(c)
  {
    var d := c.(b := c.b.(updated := v));
    assert forall rc :: DoneBy(d, rc) == DoneBy(c, rc);
  }

  /** The store an undisturbed round commits to, and the marker the next run finds in it. */
  ghost function AfterRound(st: Store, u: Undisturbed, m: Commit, newOp: string -> string): Store {
    CommitSpec(st, SessionOf(u), m, newOp)
  }

  /** The current base after the round is the one it committed, its clock aside when it said nothing new. */
  lemma MarkerFound(st: Store, u: Undisturbed, m: Commit, newOp: string -> string)
    requires Converge.Quiet(u) && Undisturbing(u, m) && st.local == u.local
    requires st.markers == [] || CurrentBase(st.markers).updated <= SessionOf(u).doc.updated
    ensures var p, cur := CommitPlan(SessionOf(u), u.local, m).plan, CurrentBase(AfterRound(st, u, m, newOp).markers);
            cur == p.base.(updated := cur.updated) && SameBase(cur, p.base)
  {
    hide BeginSpec, MergeCtx, CommentsHeld, Accepting, CommitPlan, ApplyLocal, CommitCtx, SettleBase, SettleDoc, RefusedIn, FirstCtx;
    var p := CommitPlan(SessionOf(u), u.local, m).plan;
    Confirmed(u, m, "");
    SentStays(u, m);
    assert p.base.updated == SessionOf(u).doc.updated;
    if !SameBase(CurrentBase(st.markers), p.base) {
      assert (st.markers + [p.base])[..|st.markers|] == st.markers;
    }
  }

  /** What the next run merges: the issue as the round left it, over the marker it finds. */
  ghost function NextRun(st: Store, u: Undisturbed, m: Commit, newOp: string -> string, r: Read, exporting: bool): Ctx {
    var after := AfterRound(st, u, m, newOp);
    var cur := Some(CurrentBase(after.markers));
    CtxOf(SettleBase(cur, after.local, r), after.local, SettleDoc(cur, after.local, r), r.multi, exporting)
  }

  lemma NextRunIs(st: Store, u: Undisturbed, m: Commit, newOp: string -> string, r: Read, exporting: bool)
    requires Converge.Quiet(u) && Undisturbing(u, m) && st.local == u.local
    requires st.markers == [] || CurrentBase(st.markers).updated <= SessionOf(u).doc.updated
    requires r.doc == SessionOf(u).doc && r.multi == m.multi
    ensures var after := AfterRound(st, u, m, newOp);
            var cur := CurrentBase(after.markers);
            && cur.sent == map[] && cur.sentComments == map[] && !cur.unmerged && after.local == LocalAfter(u, m, newOp)
            && NextRun(st, u, m, newOp, r, exporting) == Ctx(cur, after.local, r.doc, m.multi, exporting)
            && MergeCtx(NextRun(st, u, m, newOp, r, exporting)) == MergeCtx(NextCtx(u, m, newOp, r, exporting))
  {
    hide BeginSpec, MergeCtx, CommentsHeld, Accepting, CommitPlan, ApplyLocal, CommitCtx, AgreedBut, HeldBack, CurrentBase, RefusedIn, FirstCtx;
    RoundConverges(u, m, newOp);
    MarkerFound(st, u, m, newOp);
    NextCtxIs(u, m, newOp, r, exporting);
    var cur := CurrentBase(AfterRound(st, u, m, newOp).markers);
    ClockUnread(NextCtx(u, m, newOp, r, exporting), cur.updated);
  }

  /**
   The next run leaves everything as it is, document and markers, whatever it is answered, and
   whatever was refused: given a read whose clock is not behind the marker the round found, the
   same schema, and no comment edited since it was posted unpaired.
   */
  lemma NextRunChangesNothing(st: Store, u: Undisturbed, m: Commit, newOp: string -> string, r: Read,
                              a: Answers, reread: Option<Doc>, m2: Commit)
    requires QuietRound(u, m, newOp) && TYPE !in m.multi && st.local == u.local
    requires st.markers == [] || CurrentBase(st.markers).updated <= SessionOf(u).doc.updated
    requires AllAsPosted(u)
    requires r.doc == SessionOf(u).doc && r.multi == m.multi == m2.multi && m2.checker == m.checker && !a.partial
    ensures var after := AfterRound(st, u, m, newOp);
            CommitSpec(after, BeginSpec(Some(CurrentBase(after.markers)), after.local, r, a, reread), m2, newOp) == after
  {
    hide BeginSpec, MergeCtx, CommentsHeld, Accepting, QuietComments, CommitPlan, FreshIds, AllAsPosted, RefusedIn, LocalAfter,
         SettleBase, SettleDoc, NextCtx, CommitCtx, FirstCtx, ApplyLocal, CurrentBase, NextRun, CommitSpec, SameBase, AfterRound, AdmitSpec;
    var after, p := AfterRound(st, u, m, newOp), CommitPlan(SessionOf(u), u.local, m).plan;
    RoundLands(u, m);
    NextRoundIsQuiet(u, m, newOp, r, true);
    NextRunIs(st, u, m, newOp, r, true);
    NextRunIs(st, u, m, newOp, r, false);
    MarkerFound(st, u, m, newOp);
    NothingBegun(CurrentBase(after.markers), after.local, r, a, reread);
    NextAdmits(u, m, newOp, r);
    SamePrior(m.checker, MergeCtx(NextCtx(u, m, newOp, r, false)), TypeOf(after.local), p.base, CurrentBase(after.markers));
    NothingCommitted(after, CurrentBase(after.markers), r, m2, newOp);
  }

  /** Admit looks at the fields of the earlier base alone. */
  lemma SamePrior(ck: Checker, q: Plan, typ: string, b: BaseState, b2: BaseState)
    requires b2.fields == b.fields
    ensures AdmitSpec(ck, q, typ, Some(b)) == AdmitSpec(ck, q, typ, Some(b2))
  {
  }

  /** A round with nothing to write begins with the base and the read it had. */
  lemma NothingBegun(b: BaseState, local: Doc, r: Read, a: Answers, reread: Option<Doc>)
    requires b.sent == map[] && b.sentComments == map[] && !b.unmerged && !a.partial
    requires var q := MergeCtx(Ctx(b, local, r.doc, r.multi, true)); q.remote == [] && q.writes == []
    ensures BeginSpec(Some(b), local, r, a, reread) == Session(b, r.doc, {}, map[], false)
  {
    hide MergeCtx;
    assert FirstPlan(Some(b), local, r) == MergeCtx(Ctx(b, local, r.doc, r.multi, true));
  }

  /** A commit with nothing to change and the base there is leaves the store. */
  lemma NothingCommitted(st: Store, b: BaseState, r: Read, m: Commit, newOp: string -> string)
    requires b == CurrentBase(st.markers) && b.sent == map[] && b.sentComments == map[] && !b.unmerged && r.multi == m.multi
    requires var a := AdmitSpec(m.checker, MergeCtx(Ctx(b, st.local, r.doc, m.multi, false)), TypeOf(st.local), Some(b));
             a.plan.local == [] && SameBase(b, a.plan.base)
    ensures CommitSpec(st, Session(b, r.doc, {}, map[], false), m, newOp) == st
  {
    hide MergeCtx, CurrentBase, SameBase, AdmitSpec;
    var s := Session(b, r.doc, {}, map[], false);
    var q := MergeCtx(Ctx(b, st.local, r.doc, m.multi, false));
    assert WithPairs(st.local.comments, map[]) == st.local.comments;
    NoPairChanges(st.local.comments);
    assert SecondPlan(s, st.local, m) == q.(local := q.local) == q;
  }

  lemma {:induction false} NoPairChanges(cs: seq<DocComment>)
    ensures PairChanges(cs, map[]) == []
  {
    if cs != [] { NoPairChanges(cs[..|cs| - 1]); }
  }
}
