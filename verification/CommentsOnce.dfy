/** Comments sync exactly once. */
module CommentsOnce {
  import opened Order
  import opened Documents
  import opened Merging
  import opened MergeFacts
  import opened Engine
  import opened CommentFacts

  ghost predicate HasCopy(local: seq<DocComment>, rc: DocComment) { exists d :: d in local && d.jid == rc.jid }

  /**
   Ids are ids: operations are distinct, and so are Jira's comments; a note is never paired. What
   a comment's property names is left open: nothing, a draft, a note, or a comment paired with
   another, as a post repeated behind a lagging read leaves it.
   */
  ghost predicate Linked(local: seq<DocComment>, remote: seq<DocComment>) {
    && (forall i, j :: 0 <= i < j < |local| ==> local[i].op != local[j].op)
    && (forall i, j :: 0 <= i < j < |remote| ==> remote[i].jid != remote[j].jid)
    && (forall d :: d in local ==> d.op != "")
    && (forall rc :: rc in remote ==> rc.jid != "" && rc.text.digest != "")
    && (forall d :: d in local && d.note ==> d.jid == "")
  }

  ghost predicate LinkedIn(c: Ctx) { Linked(c.local.comments, c.remote.comments) }

  /** Jira has the comment, and the read does not skip it. */
  ghost predicate Live(c: Ctx, jid: string) {
    Comment(jid) !in Skipped(c.remote) && exists rc :: rc in c.remote.comments && rc.jid == jid
  }

  /** A Jira comment without a copy names a local one paired with another Jira comment, or a note. */
  ghost predicate Shadows(c: Ctx, x: DocComment, d: DocComment) {
    Paired(c, x).None? && Named(c, x) == Some(d) && (d.jid != "" || d.note)
  }

  ghost predicate Shadowed(c: Ctx, d: DocComment) { exists x :: x in c.remote.comments && Shadows(c, x, d) }

  /** Of two copies of a Jira comment in the read, not skipped, the earlier is shadowed. */
  ghost predicate OneCopy(c: Ctx) {
    var cs := c.local.comments;
    forall i, j :: 0 <= i < j < |cs| && cs[i].jid == cs[j].jid && Live(c, cs[i].jid) ==> Shadowed(c, cs[i])
  }

  ghost predicate Well(c: Ctx) { LinkedIn(c) && OneCopy(c) }

  // ---- which Jira comment answers for a local one ----

  /** A Jira comment claims the local one paired with it, else the draft its property names. */
  ghost predicate Claims(c: Ctx, rc: DocComment, d: DocComment) {
    Paired(c, rc) == Some(d) || (Paired(c, rc).None? && Named(c, rc) == Some(d) && d.jid == "" && !d.note)
  }

  ghost function Answerer(c: Ctx, rcs: seq<DocComment>, d: DocComment): (r: Option<DocComment>)
    ensures r.Some? ==> r.value in rcs && Claims(c, r.value, d)
    ensures r.None? ==> forall rc :: rc in rcs ==> !Claims(c, rc, d)
  {
    if rcs == [] then None
    else if Claims(c, rcs[|rcs| - 1], d) then Some(rcs[|rcs| - 1])
    else Answerer(c, rcs[..|rcs| - 1], d)
  }

  /** The last that claims a local comment answers for it. */
  ghost predicate Answers(c: Ctx, rc: DocComment, d: DocComment) { Answerer(c, c.remote.comments, d) == Some(rc) }

  ghost predicate Unclaimed(c: Ctx, d: DocComment) { forall rc :: rc in c.remote.comments ==> !Claims(c, rc, d) }

  lemma UnclaimedIs(c: Ctx, d: DocComment)
    ensures Unclaimed(c, d) <==> Answerer(c, c.remote.comments, d).None?
    ensures Unclaimed(c, d) <==> forall rc :: rc in c.remote.comments ==> !Answers(c, rc, d)
  {
    hide Claims;
  }

  /** The copy a Jira comment is paired with is the last one. */
  lemma {:induction false} ByJidLast(cs: seq<DocComment>, jid: string) returns (j: nat)
    requires ByJid(cs, jid).Some?
    ensures j < |cs| && ByJid(cs, jid) == Some(cs[j]) && cs[j].jid == jid
    ensures forall i :: j < i < |cs| ==> cs[i].jid != jid
  {
    var n := |cs| - 1;
    if cs[n].jid == jid { j := n; } else { j := ByJidLast(cs[..n], jid); }
  }

  lemma LastCopyIs(cs: seq<DocComment>, j: nat)
    requires j < |cs| && forall i :: j < i < |cs| ==> cs[i].jid != cs[j].jid
    ensures ByJid(cs, cs[j].jid) == Some(cs[j])
  {
    var k := ByJidLast(cs, cs[j].jid);
    assert k == j;
  }

  lemma ByOpIs(cs: seq<DocComment>, d: DocComment)
    requires d in cs
    requires forall i, j :: 0 <= i < j < |cs| ==> cs[i].op != cs[j].op
    ensures ByOp(cs, d.op) == Some(d)
  {
    var i :| 0 <= i < |cs| && cs[i] == d;
    var r := ByOp(cs, d.op);
    var j :| 0 <= j < |cs| && cs[j] == r.value;
  }

  lemma ClaimsIs(c: Ctx, rc: DocComment, d: DocComment)
    requires LinkedIn(c) && rc in c.remote.comments && d in c.local.comments
    ensures Claims(c, rc, d) <==> Paired(c, rc) == Some(d) || (d.jid == "" && !d.note && d.op == rc.op && Paired(c, rc).None?)
    ensures Paired(c, rc) == Some(d) ==> d.jid == rc.jid != ""
    ensures d.jid == rc.jid ==> Paired(c, rc).Some?
    ensures d.op == rc.op <==> Named(c, rc) == Some(d)
  {
    if d.op == rc.op { ByOpIs(c.local.comments, d); }
  }

  /** Later in Jira's list, a comment without a copy names the same draft. */
  ghost predicate NamedLater(c: Ctx, rc: DocComment) {
    exists i, j :: 0 <= i < j < |c.remote.comments| && c.remote.comments[i] == rc
                   && c.remote.comments[j].op == rc.op && Paired(c, c.remote.comments[j]).None?
  }

  /**
   Which Jira comment answers for a local one: the one paired with it; for a draft, the last of
   those without a copy whose property names it.
   */
  lemma AnswersIs(c: Ctx, rc: DocComment, d: DocComment)
    requires LinkedIn(c) && rc in c.remote.comments && d in c.local.comments
    ensures Answers(c, rc, d) <==>
              || Paired(c, rc) == Some(d)
              || (d.jid == "" && !d.note && d.op == rc.op && Paired(c, rc).None? && !NamedLater(c, rc))
  {
    hide Claims, LinkedIn, Paired, Named;
    var rcs := c.remote.comments;
    var j :| 0 <= j < |rcs| && rcs[j] == rc;
    forall i, k | 0 <= i < k < |rcs| ensures rcs[i] != rcs[k] { JidsApart(c, i, k); }
    AnswererLast(c, rcs, d, j);
    ClaimsIs(c, rc, d);
    forall k | j < k < |rcs| && Claims(c, rc, d) ensures Claims(c, rcs[k], d) <==> rcs[k].op == rc.op && Paired(c, rc).None? && Paired(c, rcs[k]).None? {
      ClaimsIs(c, rcs[k], d);
      JidsApart(c, j, k);
    }
    forall i | 0 <= i < |rcs| && rcs[i] == rc ensures i == j { OnePlace(c, i, j); }
  }

  lemma JidsApart(c: Ctx, i: nat, j: nat)
    requires LinkedIn(c) && i < j < |c.remote.comments|
    ensures c.remote.comments[i].jid != c.remote.comments[j].jid
  {
  }

  lemma OnePlace(c: Ctx, i: nat, j: nat)
    requires LinkedIn(c) && i < |c.remote.comments| && j < |c.remote.comments| && c.remote.comments[i] == c.remote.comments[j]
    ensures i == j
  {
  }

  lemma {:induction false} AnswererLast(c: Ctx, rcs: seq<DocComment>, d: DocComment, j: nat)
    requires j < |rcs| && forall i, k :: 0 <= i < k < |rcs| ==> rcs[i] != rcs[k]
    ensures Answerer(c, rcs, d) == Some(rcs[j]) <==> Claims(c, rcs[j], d) && forall k :: j < k < |rcs| ==> !Claims(c, rcs[k], d)
  {
    var n := |rcs| - 1;
    if j < n && !Claims(c, rcs[n], d) { AnswererLast(c, rcs[..n], d, j); }
  }

  lemma SameOp(c: Ctx, x: DocComment, d: DocComment)
    requires LinkedIn(c) && x in c.local.comments && d in c.local.comments
    ensures x.op == d.op ==> x == d
  {
    if x.op == d.op {
      ByOpIs(c.local.comments, x);
      ByOpIs(c.local.comments, d);
    }
  }

  lemma SameRemote(c: Ctx)
    requires LinkedIn(c)
    ensures forall a, b :: a in c.remote.comments && b in c.remote.comments && a.jid == b.jid ==> a == b
  {
  }

  /** The local comments passed over once Jira's have been visited. */
  lemma DoneIs(c: Ctx, d: DocComment)
    requires LinkedIn(c) && d in c.local.comments
    ensures d.op in Done(c) <==> !Unclaimed(c, d) || Shadowed(c, d)
  {
    hide LinkedIn, Paired, Named;
    forall rc ensures d.op in DoneBy(c, rc) <==> Claims(c, rc, d) || Shadows(c, rc, d) { DoneByIs(c, rc, d); }
    if d.op in Done(c) {
      var rc :| rc in c.remote.comments && d.op in DoneBy(c, rc);
    }
  }

  lemma DoneByIs(c: Ctx, rc: DocComment, d: DocComment)
    requires LinkedIn(c) && d in c.local.comments
    ensures d.op in DoneBy(c, rc) <==> Claims(c, rc, d) || Shadows(c, rc, d)
  {
    if Paired(c, rc).Some? { SameOp(c, Paired(c, rc).value, d); }
    if Named(c, rc).Some? { SameOp(c, Named(c, rc).value, d); }
  }

  /** The changes of the Jira comments visited that target one local comment. */
  ghost function RemoteTo(c: Ctx, rcs: seq<DocComment>, d: DocComment): seq<LocalChange> {
    match Answerer(c, rcs, d)
    case Some(rc) => StepRemote(c, rc).local
    case None => []
  }

  /** What the merge makes of one local comment. */
  ghost function ChangesTo(c: Ctx, d: DocComment): seq<LocalChange> {
    if Answerer(c, c.remote.comments, d).Some? then RemoteTo(c, c.remote.comments, d) else StepLocal(c, d).local
  }

  lemma ChangesFrom(c: Ctx, rc: DocComment, d: DocComment)
    requires LinkedIn(c) && rc in c.remote.comments && d in c.local.comments && Answers(c, rc, d)
    ensures ChangesTo(c, d) == StepRemote(c, rc).local && StepLocal(c, d) == NO_COMMENT && Claims(c, rc, d)
  {
    hide LinkedIn, Claims, StepRemote, Done;
    DoneIs(c, d);
  }

  lemma StepTargets(c: Ctx, rc: DocComment, d: DocComment)
    requires LinkedIn(c) && d in c.local.comments && !Claims(c, rc, d)
    ensures forall lc :: lc in StepRemote(c, rc).local ==> !Targets(lc, d.op)
  {
    if Paired(c, rc).Some? { SameOp(c, Paired(c, rc).value, d); }
    if Named(c, rc).Some? { SameOp(c, Named(c, rc).value, d); }
  }

  lemma LastIsNew(c: Ctx, rcs: seq<DocComment>)
    requires LinkedIn(c) && rcs <= c.remote.comments && rcs != []
    ensures rcs[|rcs| - 1] !in rcs[..|rcs| - 1]
  {
  }

  lemma OneChange(d: DocComment, lc: LocalChange)
    ensures ApplyOne(d, [lc]) ==
            if !Targets(lc, d.op) then d else if lc.PairComment? then d.(jid := lc.jid) else d.(text := lc.text)
  {
    assert [lc][..0] == [] && ApplyOne(d, []) == d;
  }

  /** What a claiming Jira comment does, it does whatever those before it did. */
  lemma LastClaim(c: Ctx, rc: DocComment, y: DocComment, d: DocComment)
    requires LinkedIn(c) && rc in c.remote.comments && y in c.remote.comments && d in c.local.comments
    requires rc != y && Claims(c, rc, d) && Claims(c, y, d)
    ensures ApplyOne(ApplyOne(d, StepRemote(c, y).local), StepRemote(c, rc).local) == ApplyOne(d, StepRemote(c, rc).local)
  {
    ClaimsIs(c, rc, d);
    ClaimsIs(c, y, d);
    SameRemote(c);
    OneChange(d, PairComment(d.op, y.jid));
    OneChange(d, PairComment(d.op, rc.jid));
    OneChange(d.(jid := y.jid), PairComment(d.op, rc.jid));
  }

  lemma {:induction false} FoldRemoteOne(c: Ctx, p: Plan, rcs: seq<DocComment>, d: DocComment)
    requires LinkedIn(c) && rcs <= c.remote.comments && d in c.local.comments && ApplyOne(d, p.local) == d
    ensures ApplyOne(d, FoldRemote(c, p, rcs).local) == ApplyOne(d, RemoteTo(c, rcs, d))
  {
    hide LinkedIn, Claims, StepRemote;
    if rcs != [] {
      var front, rc := rcs[..|rcs| - 1], rcs[|rcs| - 1];
      FoldRemoteOne(c, p, front, d);
      ApplyOneConcat(d, FoldRemote(c, p, front).local, StepRemote(c, rc).local);
      ApplyOneOp(d, FoldRemote(c, p, front).local);
      if Claims(c, rc, d) {
        LastIsNew(c, rcs);
        if Answerer(c, front, d).Some? { LastClaim(c, rc, Answerer(c, front, d).value, d); }
      } else {
        StepTargets(c, rc, d);
        ApplyOneElsewhere(ApplyOne(d, FoldRemote(c, p, front).local), StepRemote(c, rc).local);
      }
    }
  }

  lemma LocalOthers(c: Ctx, lcs: seq<DocComment>, d: DocComment)
    requires LinkedIn(c) && lcs <= c.local.comments && lcs != [] && d in c.local.comments
    ensures if d == lcs[|lcs| - 1] then d !in lcs[..|lcs| - 1] else d.op != lcs[|lcs| - 1].op
  {
    var i :| 0 <= i < |c.local.comments| && c.local.comments[i] == d;
  }

  lemma LocalTargets(c: Ctx, d: DocComment, op: string)
    requires op != d.op
    ensures forall lc :: lc in StepLocal(c, d).local ==> !Targets(lc, op)
  {
  }

  lemma {:induction false} FoldLocalOne(c: Ctx, p: Plan, lcs: seq<DocComment>, d: DocComment)
    requires LinkedIn(c) && lcs <= c.local.comments && d in c.local.comments
    ensures ApplyOne(d, FoldLocal(c, p, lcs).local) ==
            ApplyOne(ApplyOne(d, p.local), if d in lcs then StepLocal(c, d).local else [])
  {
    if lcs != [] {
      hide LinkedIn, StepLocal;
      var n := |lcs| - 1;
      var front, lc := lcs[..n], lcs[n];
      FoldLocalOne(c, p, front, d);
      ApplyOneConcat(d, FoldLocal(c, p, front).local, StepLocal(c, lc).local);
      ApplyOneOp(d, FoldLocal(c, p, front).local);
      assert forall x :: x in lcs <==> x in front || x == lc;
      LocalOthers(c, lcs, d);
      if d != lc {
        LocalTargets(c, lc, d.op);
        ApplyOneElsewhere(ApplyOne(d, FoldLocal(c, p, front).local), StepLocal(c, lc).local);
      }
    }
  }

  lemma {:induction false} FieldsTargetNone(c: Ctx, p: Plan, keys: seq<string>)
    requires forall lc :: lc in p.local ==> IsFieldChange(lc)
    ensures forall lc :: lc in FoldFields(c, p, keys).local ==> IsFieldChange(lc)
    ensures FoldFields(c, p, keys).base.comments == p.base.comments
  {
    if keys != [] {
      FieldsTargetNone(c, p, keys[..|keys| - 1]);
      StepKeys(c, keys[|keys| - 1]);
    }
  }

  function AfterFields(c: Ctx): Plan { FoldFields(c, Start(c), FieldKeys(c.remote)) }

  /** What one local comment becomes. */
  ghost function After(c: Ctx, d: DocComment): DocComment { ApplyOne(d, ChangesTo(c, d)) }

  lemma MergeOne(c: Ctx, d: DocComment)
    requires LinkedIn(c) && d in c.local.comments
    ensures ApplyOne(d, MergeCtx(c).local) == After(c, d)
  {
    hide LinkedIn, Claims, StepRemote, StepLocal, FieldKeys, FoldFields;
    var f := AfterFields(c);
    var rcs, lcs := c.remote.comments, c.local.comments;
    FieldsTargetNone(c, Start(c), FieldKeys(c.remote));
    ApplyOneElsewhere(d, f.local);
    FoldRemoteOne(c, f, rcs, d);
    FoldLocalOne(c, FoldRemote(c, f, rcs), lcs, d);
    if rc :| rc in rcs && Answers(c, rc, d) { ChangesFrom(c, rc, d); }
  }

  // ---- imports ----

  predicate Imported(c: Ctx, rc: DocComment) { Paired(c, rc).None? && Named(c, rc).None? }

  function ImportedFrom(c: Ctx, rcs: seq<DocComment>, newOp: string -> string): seq<DocComment> {
    if rcs == [] then []
    else
      var rc := rcs[|rcs| - 1];
      ImportedFrom(c, rcs[..|rcs| - 1], newOp) +
      (if Imported(c, rc) then [DocComment(newOp(rc.jid), rc.jid, rc.text, true, false)] else [])
  }

  lemma {:induction false} ImportsConcat(a: seq<LocalChange>, b: seq<LocalChange>, newOp: string -> string)
    ensures Imports(a + b, newOp) == Imports(a, newOp) + Imports(b, newOp)
  {
    if b == [] {
      assert a + b == a;
    } else {
      ImportsConcat(a, b[..|b| - 1], newOp);
      assert (a + b)[..|a + b| - 1] == a + b[..|b| - 1];
    }
  }

  lemma {:induction false} NoImports(ch: seq<LocalChange>, newOp: string -> string)
    requires forall lc :: lc in ch ==> !lc.AddComment?
    ensures Imports(ch, newOp) == []
  {
    if ch != [] {
      assert ch[|ch| - 1] in ch;
      NoImports(ch[..|ch| - 1], newOp);
    }
  }

  lemma StepImports(c: Ctx, rc: DocComment, newOp: string -> string)
    ensures Imports(StepRemote(c, rc).local, newOp) ==
            if Imported(c, rc) then [DocComment(newOp(rc.jid), rc.jid, rc.text, true, false)] else []
  {
    var ch := StepRemote(c, rc).local;
    if Imported(c, rc) {
      assert ch == [AddComment(rc.jid, rc.text)] && ch[..0] == [];
    } else {
      NoImports(ch, newOp);
    }
  }

  lemma {:induction false} FoldRemoteImports(c: Ctx, p: Plan, rcs: seq<DocComment>, newOp: string -> string)
    ensures Imports(FoldRemote(c, p, rcs).local, newOp) == Imports(p.local, newOp) + ImportedFrom(c, rcs, newOp)
  {
    hide StepRemote, Imported;
    if rcs != [] {
      var front, rc := rcs[..|rcs| - 1], rcs[|rcs| - 1];
      FoldRemoteImports(c, p, front, newOp);
      ImportsConcat(FoldRemote(c, p, front).local, StepRemote(c, rc).local, newOp);
      StepImports(c, rc, newOp);
    }
  }

  lemma {:induction false} FoldLocalImports(c: Ctx, p: Plan, lcs: seq<DocComment>, newOp: string -> string)
    ensures Imports(FoldLocal(c, p, lcs).local, newOp) == Imports(p.local, newOp)
  {
    if lcs != [] {
      var front, lc := lcs[..|lcs| - 1], lcs[|lcs| - 1];
      FoldLocalImports(c, p, front, newOp);
      ImportsConcat(FoldLocal(c, p, front).local, StepLocal(c, lc).local, newOp);
      NoImports(StepLocal(c, lc).local, newOp);
    }
  }

  /** The local comments a merge leaves: each in place, then one import per Jira comment with no local copy. */
  ghost function Left(c: Ctx, newOp: string -> string): seq<DocComment> {
    seq(|c.local.comments|, i requires 0 <= i < |c.local.comments| => After(c, c.local.comments[i]))
    + ImportedFrom(c, c.remote.comments, newOp)
  }

  /** The ids of imports are new, one per Jira comment. */
  ghost predicate FreshIds(c: Ctx, newOp: string -> string) {
    && (forall i, j :: newOp(i) == newOp(j) ==> i == j)
    && (forall j :: newOp(j) != "")
    && (forall d, j :: d in c.local.comments ==> d.op != newOp(j))
    && (forall rc, j :: rc in c.remote.comments ==> rc.op != newOp(j))
  }

  lemma {:induction false} RemoteSpares(c: Ctx, p: Plan, rcs: seq<DocComment>, newOp: string -> string)
    requires FreshIds(c, newOp) && forall lc :: lc in p.local ==> SparesImports(lc, newOp)
    ensures forall lc :: lc in FoldRemote(c, p, rcs).local ==> SparesImports(lc, newOp)
  {
    if rcs != [] {
      RemoteSpares(c, p, rcs[..|rcs| - 1], newOp);
    }
  }

  lemma {:induction false} LocalSpares(c: Ctx, p: Plan, lcs: seq<DocComment>, newOp: string -> string)
    requires FreshIds(c, newOp) && lcs <= c.local.comments
    requires forall lc :: lc in p.local ==> SparesImports(lc, newOp)
    ensures forall lc :: lc in FoldLocal(c, p, lcs).local ==> SparesImports(lc, newOp)
  {
    if lcs != [] {
      LocalSpares(c, p, lcs[..|lcs| - 1], newOp);
      assert lcs[|lcs| - 1] in c.local.comments;
    }
  }

  lemma FieldSpares(lc: LocalChange, newOp: string -> string)
    requires IsFieldChange(lc)
    ensures SparesImports(lc, newOp)
  {
  }

  lemma MergeSpares(c: Ctx, newOp: string -> string)
    requires FreshIds(c, newOp)
    ensures forall lc :: lc in MergeCtx(c).local ==> SparesImports(lc, newOp)
  {
    hide StepRemote, StepLocal, FieldKeys, FoldFields, FreshIds, SparesImports;
    var f := AfterFields(c);
    FieldsTargetNone(c, Start(c), FieldKeys(c.remote));
    forall lc | lc in f.local ensures SparesImports(lc, newOp) { FieldSpares(lc, newOp); }
    RemoteSpares(c, f, c.remote.comments, newOp);
    LocalSpares(c, FoldRemote(c, f, c.remote.comments), c.local.comments, newOp);
  }

  lemma MergeImports(c: Ctx, newOp: string -> string)
    ensures Imports(MergeCtx(c).local, newOp) == ImportedFrom(c, c.remote.comments, newOp)
  {
    hide StepRemote, StepLocal, FieldKeys, FoldFields, Imported;
    var f := AfterFields(c);
    FieldsTargetNone(c, Start(c), FieldKeys(c.remote));
    NoImports(f.local, newOp);
    FoldRemoteImports(c, f, c.remote.comments, newOp);
    FoldLocalImports(c, FoldRemote(c, f, c.remote.comments), c.local.comments, newOp);
  }

  lemma MergeLeaves(c: Ctx, newOp: string -> string)
    requires LinkedIn(c) && FreshIds(c, newOp)
    ensures ApplyComments(c.local.comments, MergeCtx(c).local, newOp) == Left(c, newOp)
  {
    hide LinkedIn, MergeCtx, After, FreshIds, SparesImports;
    var lcs := c.local.comments;
    MergeSpares(c, newOp);
    MergeImports(c, newOp);
    ApplyCommentsIs(lcs, MergeCtx(c).local, newOp);
    forall i | 0 <= i < |lcs| ensures ApplyOne(lcs[i], MergeCtx(c).local) == After(c, lcs[i]) {
      MergeOne(c, lcs[i]);
    }
  }

  // ---- the base of each comment ----

  /** The digest a map holds for a comment after one step. */
  ghost predicate BaseStep(m: map<string, string>, n: map<string, string>, jid: string, step: Option<string>) {
    && (jid in n <==> jid in m || step.Some?)
    && (jid in n ==> n[jid] == if step.Some? then step.value else m[jid])
  }

  ghost function RemoteBase(c: Ctx, rcs: seq<DocComment>, jid: string): Option<string> {
    if exists rc :: rc in rcs && rc.jid == jid
    then var rc :| rc in rcs && rc.jid == jid; StepRemote(c, rc).base
    else None
  }

  /** A local comment's step records nothing but a deletion. */
  ghost function LocalBase(c: Ctx, lcs: seq<DocComment>, jid: string): Option<string> {
    if exists d :: d in lcs && d.jid == jid && StepLocal(c, d).base.Some? then Some("") else None
  }

  lemma DeletionOnly(c: Ctx, d: DocComment)
    ensures StepLocal(c, d).base.Some? ==> StepLocal(c, d).base == Some("")
  {
  }

  lemma GoneUnclaimed(c: Ctx, d: DocComment)
    requires LinkedIn(c) && d in c.local.comments && d.jid != ""
    requires forall rc :: rc in c.remote.comments ==> rc.jid != d.jid
    ensures Unclaimed(c, d)
  {
    forall rc | rc in c.remote.comments ensures !Claims(c, rc, d) { ClaimsIs(c, rc, d); }
  }

  lemma {:induction false} FoldRemoteBase(c: Ctx, p: Plan, rcs: seq<DocComment>, jid: string)
    requires LinkedIn(c) && rcs <= c.remote.comments
    ensures BaseStep(p.base.comments, FoldRemote(c, p, rcs).base.comments, jid, RemoteBase(c, rcs, jid))
  {
    hide LinkedIn, StepRemote;
    if rcs != [] {
      var front, rc := rcs[..|rcs| - 1], rcs[|rcs| - 1];
      FoldRemoteBase(c, p, front, jid);
      LastIsNew(c, rcs);
      SameRemote(c);
      assert forall x :: x in rcs <==> x in front || x == rc;
      assert rc.jid == jid ==> RemoteBase(c, front, jid) == None && RemoteBase(c, rcs, jid) == StepRemote(c, rc).base;
      assert rc.jid != jid ==> RemoteBase(c, rcs, jid) == RemoteBase(c, front, jid);
    }
  }

  lemma {:induction false} FoldLocalBase(c: Ctx, p: Plan, lcs: seq<DocComment>, jid: string)
    ensures BaseStep(p.base.comments, FoldLocal(c, p, lcs).base.comments, jid, LocalBase(c, lcs, jid))
  {
    hide StepLocal;
    if lcs != [] {
      var front, lc := lcs[..|lcs| - 1], lcs[|lcs| - 1];
      FoldLocalBase(c, p, front, jid);
      DeletionOnly(c, lc);
      assert forall x :: x in lcs <==> x in front || x == lc;
      assert LocalBase(c, lcs, jid) == if lc.jid == jid && StepLocal(c, lc).base.Some? then Some("") else LocalBase(c, front, jid);
    }
  }

  lemma HasJid(c: Ctx, rc: DocComment)
    requires LinkedIn(c) && rc in c.remote.comments
    ensures rc.jid != "" && rc.text.digest != ""
  {
  }

  lemma PairedIffCopy(c: Ctx, rc: DocComment)
    requires rc.jid != ""
    ensures Paired(c, rc).Some? <==> HasCopy(c.local.comments, rc)
  {
  }

  /** Of the copies of a Jira comment in the read, the one paired and the shadowed are passed over. */
  lemma CopyRests(c: Ctx, rc: DocComment, i: nat)
    requires Well(c) && rc in c.remote.comments && i < |c.local.comments| && c.local.comments[i].jid == rc.jid
    requires Comment(rc.jid) !in Skipped(c.remote)
    ensures Paired(c, rc) == Some(c.local.comments[i]) || Shadowed(c, c.local.comments[i])
  {
    hide Shadowed;
    var cs := c.local.comments;
    assert cs[i] in cs;
    var j := ByJidLast(cs, rc.jid);
    assert Live(c, rc.jid);
    assert i <= j;
  }

  lemma CopyKeepsBase(c: Ctx, rc: DocComment, d: DocComment)
    requires Well(c) && rc in c.remote.comments && d in c.local.comments && d.jid == rc.jid
    ensures StepLocal(c, d) == NO_COMMENT
  {
    hide OneCopy, LinkedIn, Shadowed, Paired, Done;
    HasJid(c, rc);
    var i :| 0 <= i < |c.local.comments| && c.local.comments[i] == d;
    if Comment(rc.jid) !in Skipped(c.remote) {
      CopyRests(c, rc, i);
      DoneIs(c, d);
      assert Paired(c, rc) == Some(d) ==> Claims(c, rc, d);
    }
  }

  /** The base of a Jira comment is what its own step says. */
  lemma RemoteBaseIs(c: Ctx, rc: DocComment)
    requires Well(c) && rc in c.remote.comments
    ensures BaseStep(c.b.comments, MergeCtx(c).base.comments, rc.jid, StepRemote(c, rc).base)
  {
    hide StepRemote, StepLocal, StepField, FieldKeys, FoldFields, LinkedIn, OneCopy;
    var f := AfterFields(c);
    FieldsTargetNone(c, Start(c), FieldKeys(c.remote));
    FoldRemoteBase(c, f, c.remote.comments, rc.jid);
    FoldLocalBase(c, FoldRemote(c, f, c.remote.comments), c.local.comments, rc.jid);
    SameRemote(c);
    forall d | d in c.local.comments && d.jid == rc.jid ensures StepLocal(c, d).base == None { CopyKeepsBase(c, rc, d); }
  }

  /** The base of a comment gone from Jira records a deletion exactly when a copy's step does. */
  lemma GoneBase(c: Ctx, jid: string)
    requires LinkedIn(c) && forall rc :: rc in c.remote.comments ==> rc.jid != jid
    ensures BaseStep(c.b.comments, MergeCtx(c).base.comments, jid, LocalBase(c, c.local.comments, jid))
  {
    hide StepRemote, StepLocal, StepField, FieldKeys, FoldFields, LinkedIn, LocalBase;
    var f := AfterFields(c);
    FieldsTargetNone(c, Start(c), FieldKeys(c.remote));
    FoldRemoteBase(c, f, c.remote.comments, jid);
    FoldLocalBase(c, FoldRemote(c, f, c.remote.comments), c.local.comments, jid);
  }

  // ---- after a merge ----

  lemma AfterIs(c: Ctx, d: DocComment)
    requires LinkedIn(c) && d in c.local.comments
    ensures After(c, d).op == d.op && After(c, d).note == d.note
    ensures forall rc :: rc in c.remote.comments && Answers(c, rc, d) ==> After(c, d).jid == rc.jid
    ensures Unclaimed(c, d) ==> After(c, d).jid == d.jid
  {
    hide LinkedIn, Claims, StepRemote, StepLocal;
    ApplyOneOp(d, ChangesTo(c, d));
    UnclaimedIs(c, d);
    if rc :| rc in c.remote.comments && Answers(c, rc, d) {
      ChangesFrom(c, rc, d);
      AnsweredAfter(c, rc, d);
    } else {
      UnclaimedAfter(c, d);
    }
  }

  lemma AnsweredAfter(c: Ctx, rc: DocComment, d: DocComment)
    requires LinkedIn(c) && rc in c.remote.comments && d in c.local.comments && Claims(c, rc, d)
    ensures var e := ApplyOne(d, StepRemote(c, rc).local);
            && e.jid == rc.jid
            && e.text == (if d.jid == rc.jid && StepRemote(c, rc).local != [] then rc.text else d.text)
  {
    ClaimsIs(c, rc, d);
    var ch := StepRemote(c, rc).local;
    if ch != [] {
      assert ch == [ch[0]];
      OneChange(d, ch[0]);
    }
  }

  lemma UnclaimedAfter(c: Ctx, d: DocComment)
    requires Unclaimed(c, d)
    ensures After(c, d) == if StepLocal(c, d).local == [] then d else d.(text := TOMBSTONE)
  {
    hide Claims;
    UnclaimedIs(c, d);
    assert ChangesTo(c, d) == StepLocal(c, d).local;
    var ch := StepLocal(c, d).local;
    if ch != [] {
      assert ch == [ch[0]];
      OneChange(d, ch[0]);
    }
  }

  /** A comment paired already, or a note, keeps its Jira id through a merge. */
  lemma PairingStays(c: Ctx, d: DocComment)
    requires LinkedIn(c) && d in c.local.comments && (d.jid != "" || d.note)
    ensures After(c, d).jid == d.jid
  {
    hide LinkedIn, Claims, After;
    AfterIs(c, d);
    UnclaimedIs(c, d);
    if rc :| rc in c.remote.comments && Answers(c, rc, d) { ClaimsIs(c, rc, d); }
  }

  /** A draft some Jira comment claims is paired by the merge. */
  lemma DraftPaired(c: Ctx, rc: DocComment, d: DocComment)
    requires LinkedIn(c) && rc in c.remote.comments && d in c.local.comments && Claims(c, rc, d)
    ensures After(c, d).jid != ""
  {
    hide LinkedIn, Claims, After;
    AfterIs(c, d);
    UnclaimedIs(c, d);
    var x :| x in c.remote.comments && Answers(c, x, d);
    HasJid(c, x);
  }

  function ImportOf(rc: DocComment, newOp: string -> string): DocComment {
    DocComment(newOp(rc.jid), rc.jid, rc.text, true, false)
  }

  ghost predicate DistinctJids(xs: seq<DocComment>) {
    forall i, j :: 0 <= i < j < |xs| ==> xs[i].jid != xs[j].jid
  }

  /** The imports are one per Jira comment without a local copy. */
  lemma {:induction false} ImportedIs(c: Ctx, rcs: seq<DocComment>, newOp: string -> string)
    ensures forall x :: x in ImportedFrom(c, rcs, newOp) <==> exists rc :: rc in rcs && Imported(c, rc) && x == ImportOf(rc, newOp)
  {
    if rcs != [] {
      hide Imported;
      var front, rc := rcs[..|rcs| - 1], rcs[|rcs| - 1];
      ImportedIs(c, front, newOp);
      assert forall x :: x in rcs <==> x in front || x == rc;
    }
  }

  lemma {:induction false} ImportedDistinct(c: Ctx, rcs: seq<DocComment>, newOp: string -> string)
    requires LinkedIn(c) && rcs <= c.remote.comments
    ensures DistinctJids(ImportedFrom(c, rcs, newOp))
  {
    if rcs != [] {
      hide Imported, LinkedIn;
      var front, rc := rcs[..|rcs| - 1], rcs[|rcs| - 1];
      ImportedDistinct(c, front, newOp);
      ImportedIs(c, front, newOp);
      LastJidIsNew(c, rcs);
      assert forall x :: x in ImportedFrom(c, front, newOp) ==> x.jid != rc.jid;
    }
  }

  lemma LastJidIsNew(c: Ctx, rcs: seq<DocComment>)
    requires LinkedIn(c) && rcs <= c.remote.comments && rcs != []
    ensures forall x :: x in rcs[..|rcs| - 1] ==> x.jid != rcs[|rcs| - 1].jid
  {
  }

  /** Whether a comment left is one there was, or an import. */
  lemma LeftIs(c: Ctx, newOp: string -> string, x: DocComment)
    requires LinkedIn(c)
    ensures x in Left(c, newOp) <==>
            || (exists d :: d in c.local.comments && x == After(c, d))
            || (exists rc :: rc in c.remote.comments && Imported(c, rc) && x == ImportOf(rc, newOp))
  {
    hide LinkedIn, After, Imported;
    ImportedIs(c, c.remote.comments, newOp);
    var kept := seq(|c.local.comments|, i requires 0 <= i < |c.local.comments| => After(c, c.local.comments[i]));
    assert Left(c, newOp) == kept + ImportedFrom(c, c.remote.comments, newOp);
    if d :| d in c.local.comments && x == After(c, d) {
      var i :| 0 <= i < |c.local.comments| && c.local.comments[i] == d;
      assert kept[i] == x;
    }
    if x in kept {
      var i :| 0 <= i < |kept| && kept[i] == x;
      assert c.local.comments[i] in c.local.comments;
    }
  }

  /** Two comments left with the id of a Jira comment in the read were two copies before. */
  lemma AfterJids(c: Ctx, d: DocComment, e: DocComment, rc: DocComment)
    requires LinkedIn(c) && d in c.local.comments && e in c.local.comments && d.op != e.op && rc in c.remote.comments
    requires After(c, d).jid == After(c, e).jid == rc.jid
    ensures d.jid == e.jid == rc.jid
  {
    hide After, Claims, LinkedIn;
    AfterCame(c, d, rc);
    AfterCame(c, e, rc);
  }

  /** A comment left with a Jira id had it, or the Jira comment has no copy, its property names it and it answers. */
  lemma AfterCame(c: Ctx, d: DocComment, rc: DocComment)
    requires LinkedIn(c) && d in c.local.comments && rc in c.remote.comments && After(c, d).jid == rc.jid
    ensures d.jid == rc.jid || (d.jid == "" && d.op == rc.op && Paired(c, rc).None? && Answers(c, rc, d))
    ensures d.jid == rc.jid ==> Paired(c, rc).Some?
    ensures d.op == rc.op ==> Named(c, rc) == Some(d)
  {
    hide After, Claims, LinkedIn;
    AfterIs(c, d);
    ClaimsIs(c, rc, d);
    SameRemote(c);
    UnclaimedIs(c, d);
    if x :| x in c.remote.comments && Answers(c, x, d) { assert x == rc; }
  }

  lemma ImportIsNew(c: Ctx, d: DocComment, rc: DocComment)
    requires LinkedIn(c) && d in c.local.comments && rc in c.remote.comments && Imported(c, rc)
    ensures After(c, d).jid != rc.jid
  {
    hide After, LinkedIn;
    if After(c, d).jid == rc.jid { AfterCame(c, d, rc); }
  }

  lemma ImportAt(c: Ctx, newOp: string -> string, k: nat) returns (rc: DocComment)
    requires k < |ImportedFrom(c, c.remote.comments, newOp)|
    ensures rc in c.remote.comments && Imported(c, rc) && ImportedFrom(c, c.remote.comments, newOp)[k] == ImportOf(rc, newOp)
  {
    hide Imported;
    ImportedIs(c, c.remote.comments, newOp);
    var x := ImportedFrom(c, c.remote.comments, newOp)[k];
    assert x in ImportedFrom(c, c.remote.comments, newOp);
    rc :| rc in c.remote.comments && Imported(c, rc) && x == ImportOf(rc, newOp);
  }

  lemma OpsApart(c: Ctx, i: nat, j: nat)
    requires LinkedIn(c) && i < j < |c.local.comments|
    ensures c.local.comments[i].op != c.local.comments[j].op
  {
  }

  lemma LeftOps(c: Ctx, newOp: string -> string, i: nat, j: nat)
    requires LinkedIn(c) && FreshIds(c, newOp) && i < j < |Left(c, newOp)|
    ensures Left(c, newOp)[i].op != Left(c, newOp)[j].op
  {
    hide Imported, After, ImportedFrom, LinkedIn;
    var lcs := c.local.comments;
    var n := |lcs|;
    if j < n {
      AfterIs(c, lcs[i]);
      AfterIs(c, lcs[j]);
      OpsApart(c, i, j);
    } else {
      var rc := ImportAt(c, newOp, j - n);
      if i < n {
        AfterIs(c, lcs[i]);
      } else {
        var rc2 := ImportAt(c, newOp, i - n);
        ImportedDistinct(c, c.remote.comments, newOp);
      }
    }
  }

  /** Two comments left with the id of a Jira comment in the read are two copies there were. */
  lemma LeftCopies(c: Ctx, newOp: string -> string, i: nat, j: nat, rc: DocComment)
    requires LinkedIn(c) && i < j < |Left(c, newOp)| && rc in c.remote.comments
    requires Left(c, newOp)[i].jid == Left(c, newOp)[j].jid == rc.jid
    ensures j < |c.local.comments| && c.local.comments[i].jid == c.local.comments[j].jid == rc.jid
  {
    hide Imported, After, ImportedFrom, LinkedIn;
    var lcs := c.local.comments;
    var n := |lcs|;
    if j < n {
      OpsApart(c, i, j);
      AfterJids(c, lcs[i], lcs[j], rc);
    } else {
      var rc1 := ImportAt(c, newOp, j - n);
      if i < n {
        ImportIsNew(c, lcs[i], rc1);
      } else {
        var rc2 := ImportAt(c, newOp, i - n);
        ImportedDistinct(c, c.remote.comments, newOp);
      }
      assert false;
    }
  }

  lemma LeftRules(c: Ctx, newOp: string -> string, x: DocComment)
    requires LinkedIn(c) && FreshIds(c, newOp) && x in Left(c, newOp)
    ensures x.op != "" && (x.note ==> x.jid == "")
  {
    hide Left, After, Imported;
    LeftIs(c, newOp, x);
    if d :| d in c.local.comments && x == After(c, d) {
      AfterIs(c, d);
      if d.note { PairingStays(c, d); }
    }
  }

  /** The merge leaves the Jira comment a local copy: it has one, or names none, or answers for the draft it names. */
  ghost predicate Copied(c: Ctx, rc: DocComment) {
    Paired(c, rc).Some? || Named(c, rc).None? || Answers(c, rc, Named(c, rc).value)
  }

  lemma CopiedIs(c: Ctx, rc: DocComment)
    requires LinkedIn(c) && rc in c.remote.comments
    ensures Copied(c, rc) <==>
              || Paired(c, rc).Some? || Named(c, rc).None?
              || (Named(c, rc).value.jid == "" && !Named(c, rc).value.note && !NamedLater(c, rc))
  {
    hide LinkedIn, Answers, NamedLater;
    if Named(c, rc).Some? {
      AnswersIs(c, rc, Named(c, rc).value);
      ClaimsIs(c, rc, Named(c, rc).value);
    }
  }

  lemma CopiesLeft(c: Ctx, newOp: string -> string, rc: DocComment)
    requires LinkedIn(c) && rc in c.remote.comments
    ensures HasCopy(Left(c, newOp), rc) <==> Copied(c, rc)
  {
    hide Left, LinkedIn, Answers, After;
    if Copied(c, rc) { var i := CopyAt(c, newOp, rc); }
    if x :| x in Left(c, newOp) && x.jid == rc.jid {
      LeftIs(c, newOp, x);
      SameRemote(c);
      if d :| d in c.local.comments && x == After(c, d) { AfterCame(c, d, rc); }
    }
  }

  /** The local comment a Jira comment has after a merge, and where. */
  lemma CopyAt(c: Ctx, newOp: string -> string, rc: DocComment) returns (i: nat)
    requires LinkedIn(c) && rc in c.remote.comments && Copied(c, rc)
    ensures i < |Left(c, newOp)| && Left(c, newOp)[i].jid == rc.jid
    ensures Imported(c, rc) ==> Left(c, newOp)[i] == ImportOf(rc, newOp)
    ensures Paired(c, rc).Some? ==>
              && Left(c, newOp)[i] == After(c, Paired(c, rc).value)
              && forall k :: i < k < |c.local.comments| ==> c.local.comments[k].jid != rc.jid
    ensures Paired(c, rc).None? && Named(c, rc).Some? ==> Left(c, newOp)[i] == After(c, Named(c, rc).value)
  {
    hide LinkedIn, Claims, After, Left;
    if Imported(c, rc) {
      LeftIs(c, newOp, ImportOf(rc, newOp));
      i :| 0 <= i < |Left(c, newOp)| && Left(c, newOp)[i] == ImportOf(rc, newOp);
    } else if Paired(c, rc).Some? {
      i := ByJidLast(c.local.comments, rc.jid);
      LeftAt(c, newOp, i);
      ClaimsIs(c, rc, Paired(c, rc).value);
      PairingStays(c, Paired(c, rc).value);
    } else {
      var d := Named(c, rc).value;
      i :| 0 <= i < |c.local.comments| && c.local.comments[i] == d;
      LeftAt(c, newOp, i);
      AfterIs(c, d);
    }
  }

  lemma LeftAt(c: Ctx, newOp: string -> string, i: nat)
    requires i < |c.local.comments|
    ensures i < |Left(c, newOp)| && Left(c, newOp)[i] == After(c, c.local.comments[i])
  {
    hide After, ImportedFrom;
  }

  lemma LeftLinked(c: Ctx, newOp: string -> string)
    requires LinkedIn(c) && FreshIds(c, newOp)
    ensures Linked(Left(c, newOp), c.remote.comments)
  {
    hide Left, FreshIds;
    var xs := Left(c, newOp);
    forall i, j | 0 <= i < j < |xs| ensures xs[i].op != xs[j].op { LeftOps(c, newOp, i, j); }
    forall x | x in xs ensures x.op != "" && (x.note ==> x.jid == "") { LeftRules(c, newOp, x); }
  }

  lemma SameLive(c: Ctx, c2: Ctx, newOp: string -> string, jid: string)
    requires Follows(c, c2, newOp)
    ensures Live(c2, jid) == Live(c, jid)
  {
  }

  /** What a merge leaves is linked still. */
  lemma StillLinked(c: Ctx, c2: Ctx, newOp: string -> string)
    requires LinkedIn(c) && FreshIds(c, newOp) && Follows(c, c2, newOp)
    ensures LinkedIn(c2)
  {
    hide LinkedIn, FreshIds, MergeCtx, Left;
    LeftLinked(c, newOp);
    LinkedHolds(c, c2, newOp);
  }

  /** A Jira comment is paired after a merge exactly when the merge left it a copy. */
  lemma PairedAfter(c: Ctx, c2: Ctx, newOp: string -> string, rc: DocComment)
    requires LinkedIn(c) && Follows(c, c2, newOp) && rc in c.remote.comments
    ensures Paired(c2, rc).Some? <==> Copied(c, rc)
  {
    hide LinkedIn, MergeCtx, Left, Paired, HasCopy, Copied;
    HasJid(c, rc);
    PairedIffCopy(c2, rc);
    CopiesLeft(c, newOp, rc);
  }

  /** A comment paired already, or a note, is shadowed after a merge exactly when it was before. */
  lemma ShadowStays(c: Ctx, c2: Ctx, newOp: string -> string, i: nat)
    requires LinkedIn(c) && FreshIds(c, newOp) && Follows(c, c2, newOp) && i < |c.local.comments|
    requires c.local.comments[i].jid != "" || c.local.comments[i].note
    ensures i < |c2.local.comments| && c2.local.comments[i] == After(c, c.local.comments[i])
    ensures Shadowed(c2, c2.local.comments[i]) <==> Shadowed(c, c.local.comments[i])
  {
    hide LinkedIn, FreshIds, MergeCtx, Left, Paired, Named, After, Copied;
    var d := c.local.comments[i];
    LeftAt(c, newOp, i);
    StillLinked(c, c2, newOp);
    AfterIs(c, d);
    PairingStays(c, d);
    forall x | x in c.remote.comments ensures Shadows(c, x, d) <==> Shadows(c2, x, After(c, d)) {
      ShadowKept(c, c2, newOp, i, x);
    }
  }

  lemma ShadowKept(c: Ctx, c2: Ctx, newOp: string -> string, i: nat, x: DocComment)
    requires LinkedIn(c) && LinkedIn(c2) && Follows(c, c2, newOp) && x in c.remote.comments
    requires i < |c.local.comments| && i < |c2.local.comments| && c2.local.comments[i] == After(c, c.local.comments[i])
    requires var d, e := c.local.comments[i], c2.local.comments[i];
             e.op == d.op && e.jid == d.jid && e.note == d.note && (d.jid != "" || d.note)
    ensures Shadows(c, x, c.local.comments[i]) <==> Shadows(c2, x, c2.local.comments[i])
  {
    hide LinkedIn, MergeCtx, Left, Paired, Named, After;
    var d, e := c.local.comments[i], c2.local.comments[i];
    PairedAfter(c, c2, newOp, x);
    ClaimsIs(c, x, d);
    ClaimsIs(c2, x, e);
  }

  /** What a merge leaves is linked still, and has one copy of each Jira comment, but for the shadowed, exactly when there was. */
  lemma LeftWell(c: Ctx, c2: Ctx, newOp: string -> string)
    requires LinkedIn(c) && FreshIds(c, newOp) && Follows(c, c2, newOp)
    ensures LinkedIn(c2) && (OneCopy(c2) <==> OneCopy(c))
  {
    hide LinkedIn, FreshIds, Live, MergeCtx, After, Left, Shadowed;
    StillLinked(c, c2, newOp);
    var xs, lcs := c2.local.comments, c.local.comments;
    if OneCopy(c) {
      forall i, j | 0 <= i < j < |xs| && xs[i].jid == xs[j].jid && Live(c2, xs[i].jid) ensures Shadowed(c2, xs[i]) {
        SameLive(c, c2, newOp, xs[i].jid);
        var rc := LiveIs(c, xs[i].jid);
        HasJid(c, rc);
        LeftCopies(c, newOp, i, j, rc);
        ShadowStays(c, c2, newOp, i);
      }
    }
    if OneCopy(c2) {
      forall i, j | 0 <= i < j < |lcs| && lcs[i].jid == lcs[j].jid && Live(c, lcs[i].jid) ensures Shadowed(c, lcs[i]) {
        SameLive(c, c2, newOp, lcs[i].jid);
        var rc := LiveIs(c, lcs[i].jid);
        HasJid(c, rc);
        CopyStays(c, c2, newOp, i, rc);
        CopyStays(c, c2, newOp, j, rc);
        ShadowStays(c, c2, newOp, i);
      }
    }
  }

  lemma LinkedHolds(c: Ctx, c2: Ctx, newOp: string -> string)
    requires Follows(c, c2, newOp) && Linked(Left(c, newOp), c.remote.comments)
    ensures LinkedIn(c2)
  {
  }

  lemma LiveIs(c: Ctx, jid: string) returns (rc: DocComment)
    requires Live(c, jid)
    ensures rc in c.remote.comments && rc.jid == jid && Comment(jid) !in Skipped(c.remote)
  {
    rc :| rc in c.remote.comments && rc.jid == jid;
  }

  /** A copy of a Jira comment stays one. */
  lemma CopyStays(c: Ctx, c2: Ctx, newOp: string -> string, i: nat, rc: DocComment)
    requires LinkedIn(c) && Follows(c, c2, newOp) && i < |c.local.comments| && rc in c.remote.comments
    requires c.local.comments[i].jid == rc.jid
    ensures i < |c2.local.comments| && c2.local.comments[i].jid == rc.jid
  {
    hide MergeCtx, After, LinkedIn, Left;
    HasJid(c, rc);
    LeftAt(c, newOp, i);
    PairingStays(c, c.local.comments[i]);
  }

  /** c2 merges what c left, over the base c recorded, with the same Jira comments. */
  ghost predicate Follows(c: Ctx, c2: Ctx, newOp: string -> string) {
    && c2.b.comments == MergeCtx(c).base.comments && c2.local.comments == Left(c, newOp)
    && c2.remote.comments == c.remote.comments && Skipped(c2.remote) == Skipped(c.remote)
  }

  /** A step that changes no local comment, reports none, and records nothing new. */
  ghost predicate Silent(c: Ctx, jid: string, s: CommentStep) {
    && s.local == [] && s.conflicts == {}
    && (s.base.Some? ==> jid in c.b.comments && c.b.comments[jid] == s.base.value)
  }

  /**
   A Jira comment holds its local copy's text, or it will not be written: the read skips it, its
   text is lossy, or the local one takes Jira's.
   */
  ghost predicate InJira(c: Ctx, rc: DocComment) {
    || Comment(rc.jid) in Skipped(c.remote) || !rc.lossless
    || (if Paired(c, rc).Some? then
          var bd := CommentBaseOf(c.b, rc.jid);
          !Decide(bd, bd != "", Paired(c, rc).value.text.digest, rc.text.digest, EMPTY_DIGEST).0.Give?
        else Named(c, rc).Some? && Answers(c, rc, Named(c, rc).value) ==> Named(c, rc).value.text.digest == rc.text.digest)
  }

  /** Every local comment to export has its Jira comment. */
  ghost predicate DraftsInJira(c: Ctx) {
    forall d :: d in c.local.comments && d.jid == "" && !d.note ==> !Unclaimed(c, d)
  }

  ghost predicate CommentsInJira(c: Ctx) {
    DraftsInJira(c) && forall rc :: rc in c.remote.comments ==> InJira(c, rc)
  }

  /** After a merge a Jira comment is paired with the copy the merge left it. */
  lemma PairedNext(c: Ctx, c2: Ctx, newOp: string -> string, rc: DocComment) returns (x: DocComment)
    requires LinkedIn(c) && Follows(c, c2, newOp) && rc in c.remote.comments && Copied(c, rc)
    ensures x in Left(c, newOp) && x.jid == rc.jid && Paired(c2, rc) == Some(x)
    ensures Imported(c, rc) ==> x == ImportOf(rc, newOp)
    ensures Paired(c, rc).Some? ==> x == After(c, Paired(c, rc).value)
    ensures Paired(c, rc).None? && Named(c, rc).Some? ==> x == After(c, Named(c, rc).value)
  {
    hide LinkedIn, MergeCtx, Left, After, Copied, Named;
    var i := CopyAt(c, newOp, rc);
    var xs, lcs := Left(c, newOp), c.local.comments;
    HasJid(c, rc);
    assert forall k :: 0 <= k < |lcs| ==> lcs[k] in lcs;
    forall k | i < k < |xs| ensures xs[k].jid != rc.jid {
      if xs[k].jid == rc.jid { LeftCopies(c, newOp, i, k, rc); }
    }
    LastCopyIs(xs, i);
    x := xs[i];
  }

  /** A Jira comment has nothing more to change once merged; it is written exactly when it lacks its copy's text. */
  ghost predicate Rested(c: Ctx, c2: Ctx, rc: DocComment) {
    var s := StepRemote(c2, rc);
    Silent(c2, rc.jid, s) && (s.writes == [] <==> InJira(c, rc) || !c2.exporting)
  }

  lemma RemoteSilent(c: Ctx, c2: Ctx, newOp: string -> string, rc: DocComment)
    requires Well(c) && FreshIds(c, newOp) && Follows(c, c2, newOp) && rc in c.remote.comments
    ensures Rested(c, c2, rc)
  {
    hide MergeCtx, Left, StepRemote, After, LinkedIn, OneCopy, FreshIds, Answers, Paired, Named, Rested;
    if !Copied(c, rc) {
      UncopiedSilent(c, c2, newOp, rc);
    } else {
      var x := PairedNext(c, c2, newOp, rc);
      if Comment(rc.jid) in Skipped(c.remote) {
        SkippedSilent(c, c2, newOp, rc, x);
      } else {
        RemoteBaseIs(c, rc);
        if Paired(c, rc).Some? {
          PairedSilent(c, c2, rc, Paired(c, rc).value, x);
        } else if Named(c, rc).Some? {
          NamedSilent(c, c2, rc, Named(c, rc).value, x);
        } else {
          ImportSilent(c, c2, rc, x);
        }
      }
    }
  }

  /** A Jira comment the merge leaves without a copy is passed over by the next one. */
  lemma UncopiedSilent(c: Ctx, c2: Ctx, newOp: string -> string, rc: DocComment)
    requires LinkedIn(c) && FreshIds(c, newOp) && Follows(c, c2, newOp) && rc in c.remote.comments && !Copied(c, rc)
    ensures Rested(c, c2, rc) && StepRemote(c2, rc) == NO_COMMENT
  {
    hide MergeCtx, Left, After, LinkedIn, FreshIds;
    var d := Named(c, rc).value;
    var i :| 0 <= i < |c.local.comments| && c.local.comments[i] == d;
    LeftAt(c, newOp, i);
    StillLinked(c, c2, newOp);
    PairedAfter(c, c2, newOp, rc);
    AfterIs(c, d);
    assert After(c, d) in c2.local.comments;
    ClaimsIs(c2, rc, After(c, d));
    if d.jid != "" || d.note { PairingStays(c, d); } else { DraftPaired(c, rc, d); }
  }

  lemma SkippedSilent(c: Ctx, c2: Ctx, newOp: string -> string, rc: DocComment, x: DocComment)
    requires Follows(c, c2, newOp) && Comment(rc.jid) in Skipped(c.remote) && LinkedIn(c) && rc in c.remote.comments
    requires x in c2.local.comments && x.jid == rc.jid
    ensures Rested(c, c2, rc)
  {
    HasJid(c, rc);
    assert Paired(c2, rc).Some?;
  }

  lemma PairedSilent(c: Ctx, c2: Ctx, rc: DocComment, d: DocComment, x: DocComment)
    requires LinkedIn(c) && rc in c.remote.comments && Paired(c, rc) == Some(d) && x == After(c, d) && Paired(c2, rc) == Some(x)
    requires Skipped(c2.remote) == Skipped(c.remote) && Comment(rc.jid) !in Skipped(c.remote)
    requires BaseStep(c.b.comments, c2.b.comments, rc.jid, StepRemote(c, rc).base)
    ensures Rested(c, c2, rc)
  {
    hide LinkedIn, DoneBy, Done, ByJid, ByOp, StepLocal, Answerer, ChangesTo;
    AnswersIs(c, rc, d);
    ClaimsIs(c, rc, d);
    ChangesFrom(c, rc, d);
    AnsweredAfter(c, rc, d);
    AfterFrom(c, rc, d);
  }

  lemma AfterFrom(c: Ctx, rc: DocComment, d: DocComment)
    requires LinkedIn(c) && rc in c.remote.comments && d in c.local.comments && Answers(c, rc, d)
    ensures After(c, d) == ApplyOne(d, StepRemote(c, rc).local)
  {
    hide LinkedIn, Answers, StepRemote, StepLocal;
    ChangesFrom(c, rc, d);
  }

  lemma NamedSilent(c: Ctx, c2: Ctx, rc: DocComment, d: DocComment, x: DocComment)
    requires LinkedIn(c) && rc in c.remote.comments && Paired(c, rc).None? && Named(c, rc) == Some(d) && x == After(c, d)
    requires Answers(c, rc, d) && x.jid == rc.jid
    requires Paired(c2, rc) == Some(x) && Skipped(c2.remote) == Skipped(c.remote) && Comment(rc.jid) !in Skipped(c.remote)
    requires BaseStep(c.b.comments, c2.b.comments, rc.jid, StepRemote(c, rc).base)
    ensures Rested(c, c2, rc)
  {
    hide LinkedIn, ByJid, ByOp, Done, StepLocal, Answerer, ChangesTo, After;
    ChangesFrom(c, rc, d);
    AnsweredAfter(c, rc, d);
    AfterFrom(c, rc, d);
    ClaimsIs(c, rc, d);
    HasJid(c, rc);
  }

  lemma ImportSilent(c: Ctx, c2: Ctx, rc: DocComment, x: DocComment)
    requires LinkedIn(c) && rc in c.remote.comments && Imported(c, rc) && x.text == rc.text && Paired(c2, rc) == Some(x)
    requires Skipped(c2.remote) == Skipped(c.remote) && Comment(rc.jid) !in Skipped(c.remote)
    requires BaseStep(c.b.comments, c2.b.comments, rc.jid, StepRemote(c, rc).base)
    ensures Rested(c, c2, rc)
  {
  }

  lemma ClaimedSkipped(c: Ctx, rc: DocComment, d: DocComment)
    requires rc in c.remote.comments && Claims(c, rc, d)
    ensures StepLocal(c, d) == NO_COMMENT
  {
    assert d.op in DoneBy(c, rc);
    assert d.op in Done(c);
  }

  /** A local comment to export that no Jira comment claims. */
  ghost predicate Unposted(c: Ctx, d: DocComment) { d.jid == "" && !d.note && Unclaimed(c, d) }

  /** So does a local comment: an answered one stays answered, a tombstone stays one. */
  lemma LocalSilent(c: Ctx, c2: Ctx, newOp: string -> string, x: DocComment)
    requires Well(c) && FreshIds(c, newOp) && Follows(c, c2, newOp) && x in Left(c, newOp)
    ensures Silent(c2, x.jid, StepLocal(c2, x)) && (DraftsInJira(c) ==> StepLocal(c2, x).writes == [])
  {
    hide MergeCtx, Left, StepRemote, LinkedIn, OneCopy, FreshIds, DraftsInJira, After, Done;
    LeftIs(c, newOp, x);
    if rc :| rc in c.remote.comments && rc.jid == x.jid {
      LeftWell(c, c2, newOp);
      CopyKeepsBase(c2, rc, x);
    } else {
      var d :| d in c.local.comments && x == After(c, d);
      GoneSilent(c, c2, newOp, d);
    }
  }

  lemma GoneSilent(c: Ctx, c2: Ctx, newOp: string -> string, d: DocComment)
    requires LinkedIn(c) && FreshIds(c, newOp) && Follows(c, c2, newOp) && d in c.local.comments
    requires forall rc :: rc in c.remote.comments ==> rc.jid != After(c, d).jid
    ensures Silent(c2, After(c, d).jid, StepLocal(c2, After(c, d)))
    ensures DraftsInJira(c) ==> StepLocal(c2, After(c, d)).writes == []
  {
    hide MergeCtx, Left, StepRemote, StepLocal, LinkedIn, FreshIds, Claims, After;
    AfterIs(c, d);
    UnclaimedIs(c, d);
    assert Unclaimed(c, d);
    UnclaimedAfter(c, d);
    DoneIs(c, d);
    var i :| 0 <= i < |c.local.comments| && c.local.comments[i] == d;
    if d.jid == "" {
      DraftSilent(c, c2, d);
    } else {
      GoneBase(c, d.jid);
      ShadowStays(c, c2, newOp, i);
      StillLinked(c, c2, newOp);
      DoneIs(c2, After(c, d));
      assert d.op in Done(c) ==> After(c, d).op in Done(c2);
      GoneRests(c, c2, d);
    }
  }

  lemma DraftSilent(c: Ctx, c2: Ctx, d: DocComment)
    requires Unclaimed(c, d) && d in c.local.comments && d.jid == "" && After(c, d) == if StepLocal(c, d).local == [] then d else d.(text := TOMBSTONE)
    ensures Silent(c2, After(c, d).jid, StepLocal(c2, After(c, d)))
    ensures DraftsInJira(c) ==> StepLocal(c2, After(c, d)).writes == []
  {
    hide Claims, After, Done;
  }

  /** A gone comment's second step has nothing left to do. */
  lemma GoneRests(c: Ctx, c2: Ctx, d: DocComment)
    requires d.jid != "" && d in c.local.comments && Skipped(c2.remote) == Skipped(c.remote)
    requires d.op in Done(c) ==> d.op in Done(c2)
    requires BaseStep(c.b.comments, c2.b.comments, d.jid, LocalBase(c, c.local.comments, d.jid))
    requires After(c, d) == if StepLocal(c, d).local == [] then d else d.(text := TOMBSTONE)
    ensures Silent(c2, After(c, d).jid, StepLocal(c2, After(c, d))) && StepLocal(c2, After(c, d)).writes == []
  {
    hide After, Done;
    var step := LocalBase(c, c.local.comments, d.jid);
    assert StepLocal(c, d).base.Some? ==> step == Some("");
    assert step == None || step == Some("");
  }

  /** A comment no Jira comment claims goes unclaimed again, and is written if it may be. */
  lemma UnpostedStays(c: Ctx, c2: Ctx, newOp: string -> string, d: DocComment)
    requires LinkedIn(c) && FreshIds(c, newOp) && Follows(c, c2, newOp) && d in c.local.comments && Unposted(c, d)
    ensures After(c, d) == d && d in c2.local.comments
    ensures c2.exporting ==> StepLocal(c2, d).writes != []
  {
    hide MergeCtx, Left, StepRemote, LinkedIn, FreshIds, After, Claims, Done;
    UnclaimedAfter(c, d);
    DraftSteps(c, d);
    LeftIs(c, newOp, d);
    StillLinked(c, c2, newOp);
    forall rc | rc in c2.remote.comments ensures !Claims(c2, rc, d) {
      PairedAfter(c, c2, newOp, rc);
      ClaimsIs(c, rc, d);
      ClaimsIs(c2, rc, d);
    }
    DoneIs(c2, d);
    DraftSteps(c2, d);
  }

  lemma DraftSteps(c: Ctx, d: DocComment)
    requires d.jid == "" && !d.note
    ensures StepLocal(c, d).local == []
    ensures d.op !in Done(c) && c.exporting ==> StepLocal(c, d).writes == [CommentWrite(d.op, "", d.text)]
  {
    hide Done;
  }

  // ---- the guarantees ----

  /** What a plan does to comments comes from its steps. */
  ghost predicate CommentsFrom(c: Ctx, p: Plan) {
    && (forall lc :: lc in p.local && !IsFieldChange(lc) ==>
          || (exists rc :: rc in c.remote.comments && lc in StepRemote(c, rc).local)
          || (exists d :: d in c.local.comments && lc in StepLocal(c, d).local))
    && (forall w :: w in p.writes ==>
          || (exists rc :: rc in c.remote.comments && w in StepRemote(c, rc).writes)
          || (exists d :: d in c.local.comments && w in StepLocal(c, d).writes))
    && (forall x :: x in p.conflicts && !x.Field? ==>
          || (exists rc :: rc in c.remote.comments && x in StepRemote(c, rc).conflicts)
          || (exists d :: d in c.local.comments && x in StepLocal(c, d).conflicts))
  }

  lemma {:induction false} RemoteFrom(c: Ctx, p: Plan, rcs: seq<DocComment>)
    requires CommentsFrom(c, p) && rcs <= c.remote.comments
    ensures CommentsFrom(c, FoldRemote(c, p, rcs))
  {
    hide StepRemote, StepLocal;
    if rcs != [] {
      RemoteFrom(c, p, rcs[..|rcs| - 1]);
      assert rcs[|rcs| - 1] in c.remote.comments;
    }
  }

  lemma {:induction false} LocalFrom(c: Ctx, p: Plan, lcs: seq<DocComment>)
    requires CommentsFrom(c, p) && lcs <= c.local.comments
    ensures CommentsFrom(c, FoldLocal(c, p, lcs))
  {
    hide StepRemote, StepLocal;
    if lcs != [] {
      LocalFrom(c, p, lcs[..|lcs| - 1]);
      assert lcs[|lcs| - 1] in c.local.comments;
    }
  }

  lemma {:induction false} FieldsWriteNone(c: Ctx, p: Plan, keys: seq<string>)
    requires p.writes == [] && forall x :: x in p.conflicts ==> x.Field?
    ensures FoldFields(c, p, keys).writes == [] && forall x :: x in FoldFields(c, p, keys).conflicts ==> x.Field?
  {
    if keys != [] {
      FieldsWriteNone(c, p, keys[..|keys| - 1]);
      StepKeys(c, keys[|keys| - 1]);
    }
  }

  lemma MergeFrom(c: Ctx)
    ensures CommentsFrom(c, MergeCtx(c))
  {
    hide StepRemote, StepLocal, StepField;
    var f := AfterFields(c);
    FieldsTargetNone(c, Start(c), FieldKeys(c.remote));
    FieldsWriteNone(c, Start(c), FieldKeys(c.remote));
    RemoteFrom(c, f, c.remote.comments);
    LocalFrom(c, FoldRemote(c, f, c.remote.comments), c.local.comments);
  }

  /** A step's every effect is the plan's. */
  ghost predicate Carries(p: Plan, s: CommentStep) {
    && (forall lc :: lc in s.local ==> lc in p.local) && (forall w :: w in s.writes ==> w in p.writes)
    && s.conflicts <= p.conflicts && s.pending <= p.pending
  }

  lemma {:induction false} RemoteCarried(c: Ctx, p: Plan, rcs: seq<DocComment>)
    ensures forall s :: Carries(p, s) ==> Carries(FoldRemote(c, p, rcs), s)
    ensures forall rc :: rc in rcs ==> Carries(FoldRemote(c, p, rcs), StepRemote(c, rc))
  {
    hide StepRemote;
    if rcs != [] {
      RemoteCarried(c, p, rcs[..|rcs| - 1]);
      assert forall rc :: rc in rcs <==> rc in rcs[..|rcs| - 1] || rc == rcs[|rcs| - 1];
    }
  }

  lemma {:induction false} LocalCarried(c: Ctx, p: Plan, lcs: seq<DocComment>)
    ensures forall s :: Carries(p, s) ==> Carries(FoldLocal(c, p, lcs), s)
    ensures forall d :: d in lcs ==> Carries(FoldLocal(c, p, lcs), StepLocal(c, d))
  {
    hide StepLocal;
    if lcs != [] {
      LocalCarried(c, p, lcs[..|lcs| - 1]);
      assert forall d :: d in lcs <==> d in lcs[..|lcs| - 1] || d == lcs[|lcs| - 1];
    }
  }

  /** Every comment's step is in the merge. */
  lemma MergeCarries(c: Ctx)
    ensures forall rc :: rc in c.remote.comments ==> Carries(MergeCtx(c), StepRemote(c, rc))
    ensures forall d :: d in c.local.comments ==> Carries(MergeCtx(c), StepLocal(c, d))
  {
    hide StepRemote, StepLocal, FoldFields, FieldKeys, Carries;
    RemoteCarried(c, AfterFields(c), c.remote.comments);
    LocalCarried(c, FoldRemote(c, AfterFields(c), c.remote.comments), c.local.comments);
  }

  /** Some Jira comment without a copy before the merge names the comment. */
  ghost predicate NamedElse(c: Ctx, x: DocComment) {
    exists rc :: rc in c.remote.comments && rc.op == x.op && Paired(c, rc).None?
  }

  /**
   Where a local comment that is no note stands after a merge: it has its Jira comment; or it is
   a draft, written or pending; or its Jira comment is gone, and the read skips it, or it is a
   tombstone, or an edit of one, reported, or another Jira comment names it.
   */
  ghost predicate Stands(c: Ctx, p: Plan, x: DocComment) {
    if x.jid == "" then
      if c.exporting then CommentWrite(x.op, "", x.text) in p.writes else Skip(Draft(x.op), NotExported, false) in p.pending
    else
      || (exists rc :: rc in c.remote.comments && rc.jid == x.jid)
      || Comment(x.jid) in Skipped(c.remote) || IsTombstone(x.text) || Skip(Comment(x.jid), DeletedInJira, false) in p.pending
      || NamedElse(c, x)
  }

  lemma AfterStands(c: Ctx, d: DocComment)
    requires LinkedIn(c) && d in c.local.comments && !d.note
    ensures Stands(c, MergeCtx(c), After(c, d))
  {
    hide MergeCtx, LinkedIn, StepRemote, After, Claims, NamedElse;
    AfterIs(c, d);
    UnclaimedIs(c, d);
    MergeCarries(c);
    if rc :| rc in c.remote.comments && Answers(c, rc, d) {
      HasJid(c, rc);
    } else {
      DoneIs(c, d);
      UnclaimedAfter(c, d);
      assert Carries(MergeCtx(c), StepLocal(c, d));
      if Shadowed(c, d) { ShadowNames(c, d); } else { UnansweredStands(c, MergeCtx(c), d); }
    }
  }

  lemma ShadowNames(c: Ctx, d: DocComment)
    requires LinkedIn(c) && d in c.local.comments && Shadowed(c, d)
    ensures NamedElse(c, d) && StepLocal(c, d) == NO_COMMENT
  {
    hide LinkedIn, Paired, Named, Done;
    DoneIs(c, d);
    var x :| x in c.remote.comments && Shadows(c, x, d);
    ClaimsIs(c, x, d);
  }

  lemma UnansweredStands(c: Ctx, p: Plan, d: DocComment)
    requires d.op !in Done(c) && !d.note && Carries(p, StepLocal(c, d))
    ensures Stands(c, p, if StepLocal(c, d).local == [] then d else d.(text := TOMBSTONE))
  {
    var s := StepLocal(c, d);
    if d.jid == "" {
      if c.exporting { assert CommentWrite(d.op, "", d.text) in s.writes; } else { assert Skip(Draft(d.op), NotExported, false) in s.pending; }
    } else if d.jid in c.b.comments && CommentBaseOf(c.b, d.jid) == "" && !IsTombstone(d.text)
              && Comment(d.jid) !in Skipped(c.remote) {
      assert Skip(Comment(d.jid), DeletedInJira, false) in s.pending;
    }
  }

  /**
   Comments sync once. After a merge a Jira comment has a local copy exactly when it had one, or
   its property names no local comment, or names a draft and no later one without a copy does;
   and every local comment that is no note stands. When no Jira comment has a second copy, a
   further merge over the base recorded changes no comment, and writes none exactly when Jira
   holds them all.
   */
  lemma CommentsSyncOnce(c: Ctx, c2: Ctx, newOp: string -> string)
    requires Well(c) && FreshIds(c, newOp) && Follows(c, c2, newOp)
    ensures var left := ApplyComments(c.local.comments, MergeCtx(c).local, newOp);
            && left == c2.local.comments && Well(c2)
            && (forall rc :: rc in c.remote.comments ==> (HasCopy(left, rc) <==> Copied(c, rc)))
            && (forall x :: x in left && !x.note ==> Stands(c, MergeCtx(c), x))
    ensures SilentPlan(c2, MergeCtx(c2))
    ensures MergeCtx(c2).writes == [] <==> CommentsInJira(c) || !c2.exporting
  {
    hide StepRemote, StepLocal, MergeCtx, Left, LinkedIn, OneCopy, FreshIds, Silent, InJira, DraftsInJira, HasCopy, Stands, Copied;
    MergeLeaves(c, newOp);
    LeftWell(c, c2, newOp);
    forall rc | rc in c.remote.comments ensures HasCopy(c2.local.comments, rc) <==> Copied(c, rc) { CopiesLeft(c, newOp, rc); }
    forall x | x in c2.local.comments && !x.note ensures Stands(c, MergeCtx(c), x) { LeftStands(c, newOp, x); }
    forall rc | rc in c.remote.comments ensures Rested(c, c2, rc) { RemoteSilent(c, c2, newOp, rc); }
    forall x | x in c2.local.comments
      ensures Silent(c2, x.jid, StepLocal(c2, x)) && (DraftsInJira(c) ==> StepLocal(c2, x).writes == [])
    {
      LocalSilent(c, c2, newOp, x);
    }
    SilentMerge(c2);
    NextWrites(c, c2, newOp);
  }

  /** The copies a merge of any comments whose ids are ids leaves. */
  lemma CopiesAre(c: Ctx, newOp: string -> string, rc: DocComment)
    requires LinkedIn(c) && FreshIds(c, newOp) && rc in c.remote.comments
    ensures HasCopy(ApplyComments(c.local.comments, MergeCtx(c).local, newOp), rc) <==>
              || Paired(c, rc).Some? || Named(c, rc).None?
              || (Named(c, rc).value.jid == "" && !Named(c, rc).value.note && !NamedLater(c, rc))
  {
    hide MergeCtx, LinkedIn, FreshIds, Left, HasCopy, Copied, NamedLater;
    MergeLeaves(c, newOp);
    CopiesLeft(c, newOp, rc);
    CopiedIs(c, rc);
  }

  lemma LeftStands(c: Ctx, newOp: string -> string, x: DocComment)
    requires LinkedIn(c) && x in Left(c, newOp) && !x.note
    ensures Stands(c, MergeCtx(c), x)
  {
    hide Left, After, MergeCtx, LinkedIn, Imported;
    LeftIs(c, newOp, x);
    if d :| d in c.local.comments && x == After(c, d) {
      AfterIs(c, d);
      AfterStands(c, d);
    } else {
      var rc :| rc in c.remote.comments && Imported(c, rc) && x == ImportOf(rc, newOp);
      HasJid(c, rc);
    }
  }

  lemma WritesCarried(p: Plan, s: CommentStep)
    requires Carries(p, s) && s.writes != []
    ensures p.writes != []
  {
    assert s.writes[0] in p.writes;
  }

  lemma NextWrites(c: Ctx, c2: Ctx, newOp: string -> string)
    requires Well(c) && FreshIds(c, newOp) && Follows(c, c2, newOp)
    requires forall rc :: rc in c.remote.comments ==> Rested(c, c2, rc)
    requires forall x :: x in c2.local.comments && DraftsInJira(c) ==> StepLocal(c2, x).writes == []
    ensures MergeCtx(c2).writes == [] <==> CommentsInJira(c) || !c2.exporting
  {
    hide StepRemote, MergeCtx, Left, LinkedIn, OneCopy, FreshIds, InJira, Done, Unclaimed;
    MergeFrom(c2);
    MergeCarries(c2);
    var ws := MergeCtx(c2).writes;
    assert ws == [] || ws[0] in ws;
    if ws == [] && c2.exporting {
      forall rc | rc in c.remote.comments ensures InJira(c, rc) {
        if StepRemote(c2, rc).writes != [] { WritesCarried(MergeCtx(c2), StepRemote(c2, rc)); }
      }
      forall d | d in c.local.comments && d.jid == "" && !d.note ensures !Unclaimed(c, d) {
        if Unposted(c, d) {
          UnpostedStays(c, c2, newOp, d);
          WritesCarried(MergeCtx(c2), StepLocal(c2, d));
        }
      }
    }
  }

  /** A plan that so far changes fields alone and keeps the base of every comment. */
  ghost predicate SilentPlan(c: Ctx, p: Plan) {
    && (forall lc :: lc in p.local ==> IsFieldChange(lc))
    && (forall x :: x in p.conflicts ==> x.Field?)
    && p.base.comments == c.b.comments
  }

  lemma PlusSilent(c: Ctx, p: Plan, jid: string, s: CommentStep)
    requires SilentPlan(c, p) && Silent(c, jid, s)
    ensures SilentPlan(c, PlusComment(p, jid, s))
  {
  }

  lemma {:induction false} FieldsSilent(c: Ctx, p: Plan, keys: seq<string>)
    requires SilentPlan(c, p)
    ensures SilentPlan(c, FoldFields(c, p, keys))
  {
    if keys != [] {
      FieldsSilent(c, p, keys[..|keys| - 1]);
      StepKeys(c, keys[|keys| - 1]);
    }
  }

  lemma {:induction false} RemoteFoldSilent(c: Ctx, p: Plan, rcs: seq<DocComment>)
    requires SilentPlan(c, p) && forall rc :: rc in rcs ==> Silent(c, rc.jid, StepRemote(c, rc))
    ensures SilentPlan(c, FoldRemote(c, p, rcs))
  {
    hide SilentPlan, Silent, StepRemote;
    if rcs != [] {
      var front, rc := rcs[..|rcs| - 1], rcs[|rcs| - 1];
      assert rc in rcs;
      RemoteFoldSilent(c, p, front);
      PlusSilent(c, FoldRemote(c, p, front), rc.jid, StepRemote(c, rc));
    }
  }

  lemma {:induction false} LocalFoldSilent(c: Ctx, p: Plan, lcs: seq<DocComment>)
    requires SilentPlan(c, p) && forall d :: d in lcs ==> Silent(c, d.jid, StepLocal(c, d))
    ensures SilentPlan(c, FoldLocal(c, p, lcs))
  {
    hide SilentPlan, Silent, StepLocal;
    if lcs != [] {
      var front, d := lcs[..|lcs| - 1], lcs[|lcs| - 1];
      assert d in lcs;
      LocalFoldSilent(c, p, front);
      PlusSilent(c, FoldLocal(c, p, front), d.jid, StepLocal(c, d));
    }
  }

  lemma SilentMerge(c: Ctx)
    requires forall rc :: rc in c.remote.comments ==> Silent(c, rc.jid, StepRemote(c, rc))
    requires forall d :: d in c.local.comments ==> Silent(c, d.jid, StepLocal(c, d))
    ensures SilentPlan(c, MergeCtx(c))
  {
    hide Silent, StepRemote, StepLocal;
    FieldsSilent(c, Start(c), FieldKeys(c.remote));
    RemoteFoldSilent(c, AfterFields(c), c.remote.comments);
    LocalFoldSilent(c, FoldRemote(c, AfterFields(c), c.remote.comments), c.local.comments);
  }

  /** Every Jira comment whose property names the operation is paired with some local comment. */
  ghost predicate AllNamersPaired(c: Ctx, op: string) {
    forall x :: x in c.remote.comments && x.op == op ==> Paired(c, x).Some?
  }

  /** The merge writes the operation as a new comment. */
  ghost predicate Posts(c: Ctx, op: string) { exists w :: w in MergeCtx(c).writes && w.op == op && w.jid == "" }

  /**
   A draft is posted exactly when each Jira comment that names it, if any, is paired with another
   local comment: not yet posted, posted by a run that never committed its pairing and not shown
   by a lagging read, or imported by another clone. Else it is paired with one that names it and
   has no copy, its text untouched.
   */
  lemma RepairedOrReposted(c: Ctx, d: DocComment)
    requires LinkedIn(c) && d in c.local.comments && d.jid == "" && !d.note && c.exporting
    ensures Posts(c, d.op) <==> AllNamersPaired(c, d.op)
    ensures !AllNamersPaired(c, d.op) ==>
              exists rc :: rc in c.remote.comments && rc.op == d.op && Paired(c, rc).None? && After(c, d) == d.(jid := rc.jid)
  {
    hide MergeCtx, LinkedIn, StepRemote, StepLocal, Claims, Paired, Done, After;
    forall x | x in c.remote.comments ensures Claims(c, x, d) <==> x.op == d.op && Paired(c, x).None? {
      ClaimsIs(c, x, d);
      HasJid(c, x);
    }
    if AllNamersPaired(c, d.op) {
      DraftWritten(c, d);
    } else {
      assert !Unclaimed(c, d);
      RepairedNotPosted(c, d);
    }
  }

  lemma RepairedNotPosted(c: Ctx, d: DocComment)
    requires LinkedIn(c) && d in c.local.comments && d.jid == "" && !d.note && !Unclaimed(c, d)
    ensures exists rc :: rc in c.remote.comments && rc.op == d.op && Paired(c, rc).None? && After(c, d) == d.(jid := rc.jid)
    ensures !Posts(c, d.op)
  {
    hide MergeCtx, LinkedIn, Claims, Paired, Named, Done, Answerer, After;
    UnclaimedIs(c, d);
    var rc := AnswererOf(c, d);
    ClaimsIs(c, rc, d);
    HasJid(c, rc);
    PairStep(c, rc, d);
    AfterFrom(c, rc, d);
    OneChange(d, PairComment(d.op, rc.jid));
    ChangesFrom(c, rc, d);
    NotPosted(c, d);
  }

  lemma PairStep(c: Ctx, rc: DocComment, d: DocComment)
    requires Claims(c, rc, d) && d.jid == "" && Paired(c, rc).None?
    ensures StepRemote(c, rc).local == [PairComment(d.op, rc.jid)]
  {
  }

  lemma AnswererOf(c: Ctx, d: DocComment) returns (rc: DocComment)
    requires !Unclaimed(c, d)
    ensures rc in c.remote.comments && Claims(c, rc, d) && Answers(c, rc, d)
  {
    hide Claims;
    UnclaimedIs(c, d);
    rc := Answerer(c, c.remote.comments, d).value;
  }

  lemma NotPosted(c: Ctx, d: DocComment)
    requires LinkedIn(c) && d in c.local.comments && StepLocal(c, d).writes == []
    ensures !Posts(c, d.op)
  {
    hide MergeCtx, LinkedIn, Done;
    MergeFrom(c);
    forall x | x in c.local.comments ensures x.op == d.op ==> x == d { SameOp(c, x, d); }
    forall rc, w | rc in c.remote.comments && w in StepRemote(c, rc).writes ensures w.jid != "" { HasJid(c, rc); }
  }

  lemma DraftWritten(c: Ctx, d: DocComment)
    requires LinkedIn(c) && d in c.local.comments && d.jid == "" && !d.note && c.exporting && Unclaimed(c, d)
    ensures CommentWrite(d.op, "", d.text) in MergeCtx(c).writes && Posts(c, d.op)
  {
    hide MergeCtx, Claims, Done, LinkedIn;
    MergeCarries(c);
    DoneIs(c, d);
    assert CommentWrite(d.op, "", d.text) in StepLocal(c, d).writes && Carries(MergeCtx(c), StepLocal(c, d));
  }

  /** The comment was edited since its base. */
  predicate Edited(c: Ctx, d: DocComment) { d.jid in c.b.comments && d.text.digest != c.b.comments[d.jid] }

  /** Gone from a read that does not skip it, and not recorded as gone before. */
  ghost predicate Gone(c: Ctx, d: DocComment) {
    && d in c.local.comments && d.jid != "" && Comment(d.jid) !in Skipped(c.remote)
    && (forall rc :: rc in c.remote.comments ==> rc.jid != d.jid)
    && !(d.jid in c.b.comments && c.b.comments[d.jid] == "")
  }

  /**
   A comment gone from Jira becomes a tombstone and its deletion is recorded, with a conflict
   exactly when a copy was edited since the base: unless another Jira comment names it, for then
   it is taken as visited and stays.
   */
  lemma GoneIsTombstoned(c: Ctx, d: DocComment)
    requires LinkedIn(c) && Gone(c, d)
    ensures After(c, d) == if Shadowed(c, d) then d else d.(text := TOMBSTONE)
    ensures BaseStep(c.b.comments, MergeCtx(c).base.comments, d.jid,
                     if exists e :: e in c.local.comments && e.jid == d.jid && !Shadowed(c, e) then Some("") else None)
    ensures Comment(d.jid) in MergeCtx(c).conflicts <==>
              exists e :: e in c.local.comments && e.jid == d.jid && !Shadowed(c, e) && Edited(c, e)
  {
    hide MergeCtx, LinkedIn, After, StepRemote, StepLocal, Shadowed, Edited;
    GoneUnclaimed(c, d);
    GoneStep(c, d);
    UnclaimedAfter(c, d);
    GoneBase(c, d.jid);
    GoneRecorded(c, d);
    GoneConflicts(c, d);
  }

  lemma GoneRecorded(c: Ctx, d: DocComment)
    requires LinkedIn(c) && Gone(c, d)
    ensures LocalBase(c, c.local.comments, d.jid) ==
            if exists e :: e in c.local.comments && e.jid == d.jid && !Shadowed(c, e) then Some("") else None
  {
    hide LinkedIn, StepLocal, Shadowed;
    forall e | e in c.local.comments && e.jid == d.jid ensures StepLocal(c, e).base == if Shadowed(c, e) then None else Some("") {
      GoneStep(c, e);
    }
  }

  lemma GoneStep(c: Ctx, d: DocComment)
    requires LinkedIn(c) && Gone(c, d)
    ensures var s := StepLocal(c, d);
            if Shadowed(c, d) then s == NO_COMMENT
            else s.local != [] && s.base == Some("") && s.conflicts == if Edited(c, d) then {Comment(d.jid)} else {}
  {
    hide LinkedIn, Shadowed, Claims, Done;
    GoneUnclaimed(c, d);
    DoneIs(c, d);
    NotNoteWith(c, d);
  }

  lemma GoneConflicts(c: Ctx, d: DocComment)
    requires LinkedIn(c) && Gone(c, d)
    ensures Comment(d.jid) in MergeCtx(c).conflicts <==>
              exists e :: e in c.local.comments && e.jid == d.jid && !Shadowed(c, e) && Edited(c, e)
  {
    hide MergeCtx, LinkedIn, StepRemote, StepLocal, Edited, Shadowed;
    MergeFrom(c);
    MergeCarries(c);
    forall rc ensures StepRemote(c, rc).conflicts <= {Comment(rc.jid)} { RemoteConflicts(c, rc); }
    forall e ensures StepLocal(c, e).conflicts <= {Comment(e.jid)} { LocalConflicts(c, e); }
    forall e | e in c.local.comments && e.jid == d.jid
      ensures StepLocal(c, e).conflicts == if !Shadowed(c, e) && Edited(c, e) then {Comment(d.jid)} else {}
    {
      GoneStep(c, e);
    }
    if e :| e in c.local.comments && e.jid == d.jid && !Shadowed(c, e) && Edited(c, e) {
      assert Carries(MergeCtx(c), StepLocal(c, e));
    }
  }

  lemma RemoteConflicts(c: Ctx, rc: DocComment)
    ensures StepRemote(c, rc).conflicts <= {Comment(rc.jid)}
  {
  }

  lemma LocalConflicts(c: Ctx, d: DocComment)
    ensures StepLocal(c, d).conflicts <= {Comment(d.jid)}
  {
  }

  ghost predicate NotAbout(s: CommentStep, jid: string) {
    (forall lc :: lc in s.local ==> !IsFieldChange(lc) && lc.jid != jid) && (forall w :: w in s.writes ==> w.jid != jid)
  }

  lemma SkippedSteps(c: Ctx, d: DocComment, x: DocComment)
    requires LinkedIn(c) && d in c.local.comments && d.jid != "" && Comment(d.jid) in Skipped(c.remote)
    ensures x in c.remote.comments ==> NotAbout(StepRemote(c, x), d.jid)
    ensures x in c.remote.comments && x.jid == d.jid ==> StepRemote(c, x).base == None
    ensures NotAbout(StepLocal(c, x), d.jid)
    ensures StepLocal(c, d).base == None
  {
    if x in c.remote.comments { ClaimsIs(c, x, d); }
  }

  /** A comment the read skips is left alone: no change, no write, the base it had. */
  lemma SkippedCommentLeftAlone(c: Ctx, d: DocComment)
    requires LinkedIn(c) && d in c.local.comments && d.jid != "" && Comment(d.jid) in Skipped(c.remote)
    ensures var p := MergeCtx(c);
            && (forall lc :: lc in p.local && !IsFieldChange(lc) ==> lc.jid != d.jid)
            && (forall w :: w in p.writes ==> w.jid != d.jid)
            && BaseStep(c.b.comments, p.base.comments, d.jid, None)
  {
    hide MergeCtx, StepRemote, StepLocal, LinkedIn;
    MergeFrom(c);
    forall x ensures x in c.remote.comments ==> NotAbout(StepRemote(c, x), d.jid) { SkippedSteps(c, d, x); }
    forall x ensures NotAbout(StepLocal(c, x), d.jid) { SkippedSteps(c, d, x); }
    SkippedSteps(c, d, d);
    SkippedBase(c, d);
  }

  lemma SkippedBase(c: Ctx, d: DocComment)
    requires LinkedIn(c) && d in c.local.comments && d.jid != "" && Comment(d.jid) in Skipped(c.remote)
    ensures BaseStep(c.b.comments, MergeCtx(c).base.comments, d.jid, None)
  {
    hide StepRemote, StepLocal, StepField, FieldKeys, FoldFields, LinkedIn;
    var f := AfterFields(c);
    FieldsTargetNone(c, Start(c), FieldKeys(c.remote));
    FoldRemoteBase(c, f, c.remote.comments, d.jid);
    FoldLocalBase(c, FoldRemote(c, f, c.remote.comments), c.local.comments, d.jid);
    forall e | e in c.local.comments && e.jid == d.jid ensures StepLocal(c, e).base == None { SkippedSteps(c, e, e); }
    forall rc | rc in c.remote.comments && rc.jid == d.jid ensures StepRemote(c, rc).base == None { SkippedSteps(c, d, rc); }
  }

  // ---- two local copies of one Jira comment ----

  /**
   A copy of a Jira comment in the read that is not the one paired and that no other names is
   never left in peace: it becomes a tombstone, or, one already, the comment it copies gets a
   base again.
   */
  lemma ExtraCopySpeaks(c: Ctx, rc: DocComment, d: DocComment)
    requires LinkedIn(c) && rc in c.remote.comments && d in c.local.comments && d.jid == rc.jid
    requires Comment(rc.jid) !in Skipped(c.remote) && Paired(c, rc) != Some(d) && !Shadowed(c, d)
    ensures !SilentPlan(c, MergeCtx(c))
  {
    hide MergeCtx, LinkedIn, StepRemote, Claims, Shadowed, Done, Paired;
    HasJid(c, rc);
    NotNoteWith(c, d);
    ClaimsIs(c, rc, d);
    SameRemote(c);
    forall x | x in c.remote.comments ensures !Claims(c, x, d) { ClaimsIs(c, x, d); }
    DoneIs(c, d);
    MergeCarries(c);
    assert Carries(MergeCtx(c), StepLocal(c, d));
    if StepLocal(c, d).local != [] {
      assert StepLocal(c, d).local[0] in StepLocal(c, d).local;
    } else {
      RevivesBase(c, rc);
    }
  }

  lemma NotNoteWith(c: Ctx, d: DocComment)
    requires LinkedIn(c) && d in c.local.comments && d.jid != ""
    ensures !d.note
  {
  }

  /** A Jira comment with a copy and recorded as deleted gets a base. */
  lemma RevivesBase(c: Ctx, rc: DocComment)
    requires LinkedIn(c) && rc in c.remote.comments && Paired(c, rc).Some? && Comment(rc.jid) !in Skipped(c.remote)
    requires rc.jid in c.b.comments && c.b.comments[rc.jid] == ""
    ensures rc.jid in MergeCtx(c).base.comments && MergeCtx(c).base.comments[rc.jid] == rc.text.digest != ""
  {
    hide StepField, FieldKeys, FoldFields, StepRemote, StepLocal, LinkedIn, Paired;
    var f := AfterFields(c);
    FieldsTargetNone(c, Start(c), FieldKeys(c.remote));
    FoldRemoteBase(c, f, c.remote.comments, rc.jid);
    SameRemote(c);
    HasJid(c, rc);
    RevivingStep(c, rc);
    forall d: DocComment | d.jid == rc.jid ensures StepLocal(c, d).base == None { DeletedStep(c, rc, d); }
    FoldLocalBase(c, FoldRemote(c, f, c.remote.comments), c.local.comments, rc.jid);
  }

  lemma RevivingStep(c: Ctx, rc: DocComment)
    requires LinkedIn(c) && rc in c.remote.comments && Paired(c, rc).Some? && Comment(rc.jid) !in Skipped(c.remote)
    requires rc.jid in c.b.comments && c.b.comments[rc.jid] == ""
    ensures StepRemote(c, rc).base == Some(rc.text.digest) && rc.text.digest != ""
  {
  }

  lemma DeletedStep(c: Ctx, rc: DocComment, d: DocComment)
    requires d.jid == rc.jid != "" && rc.jid in c.b.comments && c.b.comments[rc.jid] == ""
    ensures StepLocal(c, d).base == None
  {
  }

  /**
   Exactly when comments settle: whatever the ids are, a further merge is silent if and only if
   of two local copies of a Jira comment in the read the earlier is named by a Jira comment
   without a copy.
   */
  lemma SilentIffOneCopy(c: Ctx, c2: Ctx, newOp: string -> string)
    requires LinkedIn(c) && FreshIds(c, newOp) && Follows(c, c2, newOp)
    ensures c2.local.comments == ApplyComments(c.local.comments, MergeCtx(c).local, newOp)
    ensures SilentPlan(c2, MergeCtx(c2)) <==> OneCopy(c)
  {
    hide MergeCtx, LinkedIn, FreshIds, Left, SilentPlan, Live, Shadowed;
    MergeLeaves(c, newOp);
    LeftWell(c, c2, newOp);
    if OneCopy(c) {
      CommentsSyncOnce(c, c2, newOp);
    } else {
      var xs := c2.local.comments;
      var i, j :| 0 <= i < j < |xs| && xs[i].jid == xs[j].jid && Live(c2, xs[i].jid) && !Shadowed(c2, xs[i]);
      var rc := LiveIs(c2, xs[i].jid);
      HasJid(c2, rc);
      EarlierUnpaired(c2, rc, i, j);
      ExtraCopySpeaks(c2, rc, xs[i]);
    }
  }

  lemma EarlierUnpaired(c: Ctx, rc: DocComment, i: nat, j: nat)
    requires LinkedIn(c) && rc.jid != "" && i < j < |c.local.comments|
    requires c.local.comments[i].jid == c.local.comments[j].jid == rc.jid
    ensures Paired(c, rc) != Some(c.local.comments[i])
  {
    var cs := c.local.comments;
    assert cs[i] in cs;
    var k := ByJidLast(cs, rc.jid);
    assert i < k;
    OpsApart(c, i, k);
  }

  // ---- a Jira comment never copied ----

  /**
   A post repeated behind a lagging read: d was posted as rc, then again, and paired with the
   second; both then in Jira, or the second deleted there. rc is not imported, and a deletion of
   the second is not seen: no merge changes a comment or the base of one.
   */
  lemma RepostNeverCopied(c: Ctx, rc: DocComment, d: DocComment, newOp: string -> string)
    requires c.remote.comments == [rc] && c.local.comments == [d] && rc.op == d.op != ""
    requires rc.jid != "" && rc.text.digest != "" && d.jid != "" && d.jid != rc.jid && !d.note && FreshIds(c, newOp)
    ensures StepRemote(c, rc) == NO_COMMENT && StepLocal(c, d) == NO_COMMENT
    ensures var left := ApplyComments(c.local.comments, MergeCtx(c).local, newOp); left == [d] && !HasCopy(left, rc)
    ensures MergeCtx(c).base.comments == c.b.comments && MergeCtx(c).writes == []
  {
    hide MergeCtx, Done, FreshIds, LinkedIn, Paired, Named;
    LoneShadow(c, rc, d);
    DoneIs(c, d);
    MergeLeaves(c, newOp);
    AfterLone(c, rc, d, newOp);
    SilentMerge(c);
    MergeFrom(c);
    NoneIn(MergeCtx(c).writes);
  }

  lemma LoneShadow(c: Ctx, rc: DocComment, d: DocComment)
    requires c.remote.comments == [rc] && c.local.comments == [d] && rc.op == d.op != ""
    requires rc.jid != "" && rc.text.digest != "" && d.jid != "" && d.jid != rc.jid && !d.note
    ensures LinkedIn(c) && Shadows(c, rc, d)
  {
    ByOpIs(c.local.comments, d);
  }

  lemma NoneIn(ws: seq<CommentWrite>)
    ensures (forall w :: w !in ws) ==> ws == []
  {
    if ws != [] { assert ws[0] in ws; }
  }

  lemma AfterLone(c: Ctx, rc: DocComment, d: DocComment, newOp: string -> string)
    requires LinkedIn(c) && c.remote.comments == [rc] && c.local.comments == [d] && Shadows(c, rc, d) && StepLocal(c, d) == NO_COMMENT
    ensures Left(c, newOp) == [d]
  {
    hide LinkedIn, StepLocal;
    UnclaimedAfter(c, d);
    assert c.remote.comments[..0] == [];
    assert ImportedFrom(c, c.remote.comments, newOp) == [];
  }

  /** One Jira comment and two local copies of it, as two clones that both imported it leave. */
  ghost predicate TwoCopies(c: Ctx, rc: DocComment, d: DocComment, e: DocComment) {
    && c.remote.comments == [rc] && c.local.comments == [d, e] && d.op != e.op
    && rc.jid != "" && d.jid == rc.jid == e.jid && !d.note && !e.note
    && rc.op != d.op && rc.op != e.op
    && Comment(rc.jid) !in Skipped(c.remote)
    && e.text.digest == rc.text.digest != ""
  }

  lemma TwoCopiesSteps(c: Ctx, rc: DocComment, d: DocComment, e: DocComment)
    requires TwoCopies(c, rc, d, e)
    ensures Paired(c, rc) == Some(e) && StepLocal(c, e) == NO_COMMENT
    ensures StepRemote(c, rc).local == [] && StepRemote(c, rc).base == Some(rc.text.digest)
  {
    var lcs := c.local.comments;
    assert lcs[..1] == [d] && lcs[..1][..0] == [];
    assert Paired(c, rc) == Some(e) by { assert lcs[|lcs| - 1] == e; }
    assert e.op in Done(c) by { assert e.op in DoneBy(c, rc); }
  }

  lemma TwoCopiesMerge(c: Ctx, rc: DocComment, d: DocComment, e: DocComment)
    requires TwoCopies(c, rc, d, e)
    ensures var p := MergeCtx(c);
            && rc.jid in p.base.comments
            && p.base.comments[rc.jid] == StepLocal(c, d).base.GetOr(rc.text.digest)
            && p.local == AfterFields(c).local + StepLocal(c, d).local
  {
    hide StepField, FieldKeys, FoldFields, StepLocal, StepRemote;
    var f := AfterFields(c);
    FieldsTargetNone(c, Start(c), FieldKeys(c.remote));
    var rcs, lcs := c.remote.comments, c.local.comments;
    TwoCopiesSteps(c, rc, d, e);
    assert lcs[..1] == [d] && lcs[..1][..0] == [] && rcs[..0] == [];
    assert FoldRemote(c, f, rcs) == PlusComment(f, rc.jid, StepRemote(c, rc));
    assert FoldLocal(c, FoldRemote(c, f, rcs), lcs[..1]) == PlusComment(FoldRemote(c, f, rcs), d.jid, StepLocal(c, d));
  }

  /**
   The property fails when two local comments share a Jira id. Once both sides and the base
   agree, a merge turns the copy it does not pair into a tombstone and records the comment as
   deleted; the next finds it alive again; and the one after that makes the tombstone again.
   */
  lemma TwoCopiesFlap(c: Ctx, rc: DocComment, d: DocComment, e: DocComment)
    requires TwoCopies(c, rc, d, e) && rc.jid in c.b.comments
    ensures var p := MergeCtx(c);
            rc.jid in p.base.comments &&
            if c.b.comments[rc.jid] != ""
            then Tombstone(d.op, rc.jid, TOMBSTONE) in p.local && p.base.comments[rc.jid] == ""
            else (forall lc :: lc in p.local ==> IsFieldChange(lc)) && p.base.comments[rc.jid] == rc.text.digest
  {
    hide StepField, FieldKeys, FoldFields, MergeCtx, StepLocal, TwoCopies;
    FieldsTargetNone(c, Start(c), FieldKeys(c.remote));
    TwoCopiesMerge(c, rc, d, e);
    ExtraCopy(c, rc, d, e);
    var t := Tombstone(d.op, rc.jid, TOMBSTONE);
    if c.b.comments[rc.jid] != "" {
      assert t in StepLocal(c, d).local;
    }
  }

  lemma ExtraCopy(c: Ctx, rc: DocComment, d: DocComment, e: DocComment)
    requires TwoCopies(c, rc, d, e) && rc.jid in c.b.comments
    ensures if c.b.comments[rc.jid] != ""
            then StepLocal(c, d).local == [Tombstone(d.op, rc.jid, TOMBSTONE)] && StepLocal(c, d).base == Some("")
            else StepLocal(c, d).local == [] && StepLocal(c, d).base == None
  {
    assert ByJid(c.local.comments, rc.jid) == Some(e) by { assert c.local.comments[1] == e; }
    assert d.op !in Done(c);
  }
}
