/** What a run records: the writes that landed, what its second read answers, the base, and when a marker is written. */
module Records {
  import opened Documents
  import opened Order
  import opened Bases
  import opened Merging
  import opened MergeFacts
  import opened Check
  import opened Admit
  import opened Engine

  // ---- the writes that landed ----

  ghost predicate FieldAccepted(remote: seq<Change>, a: Answers, ch: Change, k: string) { ch in remote && ch.key == k && k in a.accepted }

  /** The form of what was written: the value, or the items Jira had with the difference made. */
  ghost predicate FormOf(ch: Change, doc: Doc, v: Value) {
    match ch
    case SetTo(k, w) => v == Form(k, w)
    case Diff(k, add, remove) => v.Items? && forall x :: x in v.items <==> (x in SetOf(At(doc.fields, k)) || x in add) && x !in remove
  }

  lemma FormIs(ch: Change, doc: Doc)
    ensures FormOf(ch, doc, SentForm(ch, doc))
  {
  }

  /** A comment's write landed: an edit Jira accepted, or a post it answered with the new comment's id. */
  ghost predicate CommentLanded(writes: seq<CommentWrite>, a: Answers, cw: CommentWrite, jid: string) {
    cw in writes && if cw.jid == "" then cw.op in a.created && a.created[cw.op] == jid else cw.jid == jid && jid in a.edited
  }

  /** A field accepted is in flight in the form written; of any other what was remembered stays. */
  ghost predicate FieldTold(was: map<string, Value>, now: map<string, Value>, remote: seq<Change>, doc: Doc, a: Answers, k: string) {
    if exists ch :: FieldAccepted(remote, a, ch, k)
    then k in now && exists ch :: FieldAccepted(remote, a, ch, k) && FormOf(ch, doc, now[k])
    else (k in now <==> k in was) && (k in now ==> now[k] == was[k])
  }

  ghost predicate CommentTold(was: map<string, string>, now: map<string, string>, writes: seq<CommentWrite>, a: Answers, jid: string) {
    if exists cw :: CommentLanded(writes, a, cw, jid)
    then jid in now && exists cw :: CommentLanded(writes, a, cw, jid) && now[jid] == cw.text.digest
    else (jid in now <==> jid in was) && (jid in now ==> now[jid] == was[jid])
  }

  ghost predicate SomeField(remote: seq<Change>, a: Answers) { exists ch :: ch in remote && ch.key in a.accepted }

  ghost predicate SomeComment(writes: seq<CommentWrite>, a: Answers) { exists cw, jid :: CommentLanded(writes, a, cw, jid) }

  lemma {:induction false} FieldsRecorded(w: Written, remote: seq<Change>, doc: Doc, a: Answers, k: string)
    ensures var q := WriteFields(w, remote, doc, a);
            && FieldTold(w.base.sent, q.base.sent, remote, doc, a, k)
            && (q.wrote <==> w.wrote || SomeField(remote, a)) && q.base.wrote == (if SomeField(remote, a) then a.before else w.base.wrote)
            && q.pairs == w.pairs && q.base == w.base.(sent := q.base.sent, wrote := q.base.wrote)
  {
    hide FormOf, SentForm;
    if remote != [] {
      var n := |remote| - 1;
      FieldsRecorded(w, remote[..n], doc, a, k);
      FormIs(remote[n], doc);
      assert forall ch :: ch in remote <==> ch in remote[..n] || ch == remote[n];
      assert forall ch :: FieldAccepted(remote, a, ch, k)
               <==> FieldAccepted(remote[..n], a, ch, k) || (ch == remote[n] && ch.key == k && k in a.accepted);
    }
  }

  lemma LandedMore(writes: seq<CommentWrite>, cw: CommentWrite, a: Answers)
    ensures forall x, jid :: CommentLanded(writes + [cw], a, x, jid)
              <==> CommentLanded(writes, a, x, jid) || (x == cw && LandedAs(cw, a) == Some(jid))
  {
  }

  lemma {:induction false} CommentsRecorded(w: Written, writes: seq<CommentWrite>, a: Answers, jid: string)
    ensures var q := WriteComments(w, writes, a);
            && CommentTold(w.base.sentComments, q.base.sentComments, writes, a, jid)
            && (q.wrote <==> w.wrote || SomeComment(writes, a)) && q.base.wrote == (if SomeComment(writes, a) then a.before else w.base.wrote)
            && q.base == w.base.(sentComments := q.base.sentComments, wrote := q.base.wrote)
  {
    hide CommentLanded, LandedAs, CommentTold, SomeComment;
    if writes == [] {
      NoneLanded(w.base.sentComments, a, jid);
    } else {
      var n := |writes| - 1;
      CommentsRecorded(w, writes[..n], a, jid);
      assert writes == writes[..n] + [writes[n]];
      LandedMore(writes[..n], writes[n], a);
      SomeMore(writes, a);
      ToldMore(w.base.sentComments, WriteComments(w, writes[..n], a).base.sentComments, WriteComments(w, writes, a).base.sentComments,
               writes, a, jid);
    }
  }

  lemma SomeMore(writes: seq<CommentWrite>, a: Answers)
    requires writes != []
    requires forall x, jid :: CommentLanded(writes, a, x, jid)
               <==> CommentLanded(writes[..|writes| - 1], a, x, jid) || (x == writes[|writes| - 1] && LandedAs(writes[|writes| - 1], a) == Some(jid))
    ensures SomeComment(writes, a) <==> SomeComment(writes[..|writes| - 1], a) || LandedAs(writes[|writes| - 1], a).Some?
  {
    hide CommentLanded, LandedAs;
    var front, last := writes[..|writes| - 1], writes[|writes| - 1];
    if SomeComment(front, a) {
      var x, jid :| CommentLanded(front, a, x, jid);
      assert CommentLanded(writes, a, x, jid);
    }
    if LandedAs(last, a).Some? { assert CommentLanded(writes, a, last, LandedAs(last, a).value); }
  }

  lemma ToldMore(was: map<string, string>, mid: map<string, string>, now: map<string, string>,
                 writes: seq<CommentWrite>, a: Answers, jid: string)
    requires writes != [] && CommentTold(was, mid, writes[..|writes| - 1], a, jid)
    requires var r := LandedAs(writes[|writes| - 1], a); now == if r.Some? then mid[r.value := writes[|writes| - 1].text.digest] else mid
    requires forall x, jid :: CommentLanded(writes, a, x, jid)
               <==> CommentLanded(writes[..|writes| - 1], a, x, jid) || (x == writes[|writes| - 1] && LandedAs(writes[|writes| - 1], a) == Some(jid))
    ensures CommentTold(was, now, writes, a, jid)
  {
    hide CommentLanded, LandedAs;
    var front, last := writes[..|writes| - 1], writes[|writes| - 1];
    if LandedAs(last, a) == Some(jid) {
      assert CommentLanded(writes, a, last, jid) && now[jid] == last.text.digest;
    } else if exists x :: CommentLanded(front, a, x, jid) {
      var x :| CommentLanded(front, a, x, jid) && mid[jid] == x.text.digest;
      assert CommentLanded(writes, a, x, jid);
    }
  }

  lemma NoneLanded(was: map<string, string>, a: Answers, jid: string)
    ensures CommentTold(was, was, [], a, jid) && !SomeComment([], a)
  {
  }

  /** A post is paired with the id Jira answered. */
  lemma {:induction false} PostsPaired(w: Written, writes: seq<CommentWrite>, a: Answers, op: string)
    ensures var q := WriteComments(w, writes, a).pairs;
            if op in a.created && exists cw :: cw in writes && cw.jid == "" && cw.op == op then op in q && q[op] == a.created[op]
            else (op in q <==> op in w.pairs) && (op in q ==> q[op] == w.pairs[op])
  {
    if writes != [] {
      var n := |writes| - 1;
      PostsPaired(w, writes[..n], a, op);
      assert forall cw :: cw in writes <==> cw in writes[..n] || cw == writes[n];
    }
  }

  /**
   A base remembers, beside the writes it had in flight, exactly the ones that landed, each in
   its form and with Jira's clock before them; and nothing else in it changes.
   */
  lemma LandedRemembered(b: BaseState, p: Plan, doc: Doc, a: Answers, k: string, jid: string, op: string)
    ensures var q, some := WriteSpec(b, p, doc, a), SomeField(p.remote, a) || SomeComment(p.writes, a);
            && FieldTold(b.sent, q.base.sent, p.remote, doc, a, k) && CommentTold(b.sentComments, q.base.sentComments, p.writes, a, jid)
            && (q.wrote <==> a.partial || some) && q.base.wrote == (if some then a.before else b.wrote)
            && q.base == b.(sent := q.base.sent, sentComments := q.base.sentComments, wrote := q.base.wrote)
            && (op in q.pairs <==> op in a.created && exists cw :: cw in p.writes && cw.jid == "" && cw.op == op)
            && (op in q.pairs ==> q.pairs[op] == a.created[op])
  {
    hide FieldTold, CommentTold, SomeField, SomeComment, WriteFields, WriteComments;
    var w := Written(b, map[], a.partial);
    FieldsRecorded(w, p.remote, doc, a, k);
    CommentsRecorded(WriteFields(w, p.remote, doc, a), p.writes, a, jid);
    PostsPaired(WriteFields(w, p.remote, doc, a), p.writes, a, op);
  }

  // ---- what the second read answers ----

  /**
   The read that follows answers exactly the writes of this run: none that was in flight before
   it, and none at all when it failed or nothing was written.
   */
  lemma AnswersOwnWrites(b: Option<BaseState>, local: Doc, r: Read, a: Answers, reread: Option<Doc>)
    ensures var s, before := BeginSpec(b, local, r, a, reread), OrEmpty(SettleBase(b, local, r));
            var wrote := WriteSpec(before, FirstPlan(b, local, r), r.doc, a).wrote;
            && (forall k :: Field(k) in s.echo <==> wrote && reread.Some? && k in s.base.sent && k !in before.sent)
            && (forall jid :: Comment(jid) in s.echo <==> wrote && reread.Some? && jid in s.base.sentComments && jid !in before.sentComments)
            && (s.unread <==> wrote && reread.None?)
            && s.doc == (if wrote && reread.Some? then reread.value else r.doc)
  {
    hide SettleBase, WriteSpec, FirstPlan;
  }

  /** A comment that has its Jira id keeps it; one a run posted takes the id answered; nothing else of either changes. */
  lemma PostsTakeTheirIds(cs: seq<DocComment>, pairs: map<string, string>, i: nat)
    requires i < |cs|
    ensures |WithPairs(cs, pairs)| == |cs|
    ensures var d := WithPairs(cs, pairs)[i];
            && (cs[i].jid != "" ==> d == cs[i]) && d == cs[i].(jid := d.jid)
            && (cs[i].jid == "" ==> d.jid == if cs[i].op in pairs then pairs[cs[i].op] else "")
  {
  }

  /** And the operations that record it are exactly those of the comments that take one. */
  lemma {:induction false} PairsRecorded(cs: seq<DocComment>, pairs: map<string, string>)
    ensures forall lc :: lc in PairChanges(cs, pairs) <==>
              && lc.PairComment? && lc.op in pairs && lc.jid == pairs[lc.op] && exists c :: c in cs && c.op == lc.op && c.jid == ""
  {
    if cs != [] {
      var n := |cs| - 1;
      PairsRecorded(cs[..n], pairs);
      assert forall c :: c in cs <==> c in cs[..n] || c == cs[n];
    }
  }

  // ---- the base a merge leaves ----

  lemma {:induction false} FieldsKeepRest(c: Ctx, p: Plan, keys: seq<string>)
    ensures var q := FoldFields(c, p, keys); q.base == p.base.(fields := q.base.fields) && p.pending <= q.pending
  {
    hide StepField;
    if keys != [] { FieldsKeepRest(c, p, keys[..|keys| - 1]); }
  }

  lemma {:induction false} RemoteKeepsRest(c: Ctx, p: Plan, rcs: seq<DocComment>)
    ensures var q := FoldRemote(c, p, rcs); q.base == p.base.(comments := q.base.comments) && p.pending <= q.pending
  {
    hide StepRemote;
    if rcs != [] { RemoteKeepsRest(c, p, rcs[..|rcs| - 1]); }
  }

  lemma {:induction false} LocalKeepsRest(c: Ctx, p: Plan, lcs: seq<DocComment>)
    ensures var q := FoldLocal(c, p, lcs); q.base == p.base.(comments := q.base.comments) && p.pending <= q.pending
  {
    hide StepLocal;
    if lcs != [] { LocalKeepsRest(c, p, lcs[..|lcs| - 1]); }
  }

  /** Whatever the read skips is pending. */
  lemma SkipsPend(c: Ctx)
    ensures c.remote.skip <= MergeCtx(c).pending
  {
    hide FoldFields, FoldRemote, FoldLocal;
    var f := FoldFields(c, Start(c), FieldKeys(c.remote));
    FieldsKeepRest(c, Start(c), FieldKeys(c.remote));
    RemoteKeepsRest(c, f, c.remote.comments);
    LocalKeepsRest(c, FoldRemote(c, f, c.remote.comments), c.local.comments);
  }

  /** The base is of the issue read, as of its clock; it retries exactly what the read says to, and forgets nothing in flight. */
  lemma BaseIsOfTheRead(c: Ctx)
    ensures var q := MergeCtx(c).base;
            && q.id == c.remote.id && q.key == c.remote.key && q.updated == c.remote.updated
            && q.gone == "" && !q.unmerged && q.sent == c.b.sent && q.sentComments == c.b.sentComments && q.wrote == c.b.wrote
            && forall key :: key in q.retry <==> exists s :: s in c.remote.skip && s.retry && s.key == key
  {
    hide FoldFields, FoldRemote, FoldLocal;
    var f := FoldFields(c, Start(c), FieldKeys(c.remote));
    FieldsKeepRest(c, Start(c), FieldKeys(c.remote));
    RemoteKeepsRest(c, f, c.remote.comments);
    LocalKeepsRest(c, FoldRemote(c, f, c.remote.comments), c.local.comments);
  }

  // ---- the order of the changes ----

  /** A change of the type, if there is one, comes before every other. */
  ghost predicate TypeLeads(ch: seq<LocalChange>) { forall i :: 0 < i < |ch| ==> !SetsType(ch[i]) }

  lemma LeadsMore(a: seq<LocalChange>, b: seq<LocalChange>)
    requires TypeLeads(a) && forall lc :: lc in b ==> !SetsType(lc)
    ensures TypeLeads(a + b)
  {
  }

  lemma OthersSetNoType(c: Ctx, k: string)
    requires k != TYPE
    ensures forall lc :: lc in StepField(c, k).local ==> !SetsType(lc)
  {
    hide StepField;
    StepKeys(c, k);
  }

  lemma TypeStepLeads(c: Ctx)
    requires TYPE !in c.multi
    ensures TypeLeads(StepField(c, TYPE).local)
  {
  }

  lemma {:induction false} FieldsLead(c: Ctx, p: Plan, keys: seq<string>)
    requires TYPE !in c.multi && p.local == [] && forall i :: 0 < i < |keys| ==> keys[i] != TYPE
    ensures TypeLeads(FoldFields(c, p, keys).local)
  {
    hide StepField, TypeLeads;
    if keys == [] {
      assert TypeLeads([]) by { NoneLead(); }
    } else {
      var n := |keys| - 1;
      FieldsLead(c, p, keys[..n]);
      if n == 0 {
        if keys[0] == TYPE { TypeStepLeads(c); } else { OthersSetNoType(c, keys[0]); LeadsMore([], StepField(c, keys[0]).local); }
        assert [] + StepField(c, keys[0]).local == StepField(c, keys[0]).local;
      } else {
        OthersSetNoType(c, keys[n]);
        LeadsMore(FoldFields(c, p, keys[..n]).local, StepField(c, keys[n]).local);
      }
    }
  }

  lemma NoneLead()
    ensures TypeLeads([])
  {
  }

  lemma {:induction false} RemoteLeads(c: Ctx, p: Plan, rcs: seq<DocComment>)
    requires TypeLeads(p.local)
    ensures TypeLeads(FoldRemote(c, p, rcs).local)
  {
    hide TypeLeads;
    if rcs != [] {
      RemoteLeads(c, p, rcs[..|rcs| - 1]);
      LeadsMore(FoldRemote(c, p, rcs[..|rcs| - 1]).local, StepRemote(c, rcs[|rcs| - 1]).local);
    }
  }

  lemma {:induction false} LocalLeads(c: Ctx, p: Plan, lcs: seq<DocComment>)
    requires TypeLeads(p.local)
    ensures TypeLeads(FoldLocal(c, p, lcs).local)
  {
    hide TypeLeads;
    if lcs != [] {
      LocalLeads(c, p, lcs[..|lcs| - 1]);
      LeadsMore(FoldLocal(c, p, lcs[..|lcs| - 1]).local, StepLocal(c, lcs[|lcs| - 1]).local);
    }
  }

  /** The type is changed before anything else, so what follows is of the type it leaves. */
  lemma TypeComesFirst(c: Ctx)
    requires TYPE !in c.multi
    ensures TypeLeads(MergeCtx(c).local)
  {
    hide FoldFields, FoldRemote, FoldLocal, TypeLeads, Sorted;
    var f := FoldFields(c, Start(c), FieldKeys(c.remote));
    TypeKeyFirst(c.remote);
    FieldsLead(c, Start(c), FieldKeys(c.remote));
    RemoteLeads(c, f, c.remote.comments);
    LocalLeads(c, FoldRemote(c, f, c.remote.comments), c.local.comments);
  }

  lemma TypeKeyFirst(d: Doc)
    ensures var keys := FieldKeys(d); forall i :: 0 < i < |keys| ==> keys[i] != TYPE
  {
    hide Sorted;
    var rest := Sorted(d.fields.Keys - {TYPE});
    assert Elems(rest) == d.fields.Keys - {TYPE};
    forall i | 0 <= i < |rest| ensures rest[i] != TYPE { assert rest[i] in Elems(rest); }
  }

  // ---- markers ----

  /** A commit writes a marker exactly when its base says something the current one does not, clocks aside. */
  lemma MarkerWhenNews(st: Store, s: Session, m: Commit, newOp: string -> string)
    ensures var after, old_, q := CommitSpec(st, s, m, newOp), CurrentBase(st.markers), CommitPlan(s, st.local, m).plan.base;
            if && old_.id == q.id && old_.key == q.key && old_.fields == q.fields && old_.comments == q.comments && old_.retry == q.retry
               && old_.gone == q.gone && old_.sent == q.sent && old_.sentComments == q.sentComments && old_.wrote == q.wrote
               && old_.unmerged == q.unmerged
            then after.markers == st.markers else after.markers == st.markers + [q]
  {
    hide CommitPlan, CurrentBase;
  }
}
