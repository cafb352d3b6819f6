/** Every commit agrees or reports. */
module Agreement {
  // After every commit of every run, a key agrees on all sides or is reported pending.

  import opened Order
  import opened Documents
  import opened SetMerge
  import opened Bases
  import opened Merging
  import opened MergeFacts
  import opened Check
  import opened Admit
  import opened Engine
  import opened EngineFacts
  import opened Safety

  ghost predicate Names(pending: set<Skip>, k: string) { exists x :: x in pending && x.key == Field(k) }

  /** Local, Jira and base hold the same form of a key. */
  ghost predicate Agrees(l: Value, r: Value, base: Value, multi: bool, k: string) {
    if multi then SetOf(l) == SetOf(r) && base == Items(SetOf(r)) else base == Form(k, r) == Form(k, l)
  }

  ghost predicate StepAgrees(c: Ctx, k: string) {
    var s := StepField(c, k);
    s.base.Some? && Agrees(ApplyKey(At(c.local.fields, k), s.local, k), At(c.remote.fields, k), s.base.value, k in c.multi, k)
  }

  lemma NamesIt(pending: set<Skip>, reason: Reason, k: string)
    requires Skip(Field(k), reason, false) in pending
    ensures Names(pending, k)
  {
    assert Skip(Field(k), reason, false).key == Field(k);
  }

  lemma SetAgreesOrPends(c: Ctx, k: string)
    requires k in c.multi && !c.exporting && Field(k) !in Skipped(c.remote)
    ensures StepAgrees(c, k) || Names(StepField(c, k).pending, k)
  {
    SetStepApplied(c, k);
    var b, l, r := SetOf(At(c.b.fields, k)), SetOf(At(c.local.fields, k)), SetOf(At(c.remote.fields, k));
    var p := MergeSetSpec(b, l, r);
    if p.rAdd == [] && p.rRem == [] {
      NothingToWrite(b, l, r);
    } else {
      NamesIt(StepField(c, k).pending, NotExported, k);
    }
  }

  lemma ScalarAgreesOrPends(c: Ctx, k: string)
    requires k !in c.multi && !c.exporting && Field(k) !in Skipped(c.remote)
    ensures StepAgrees(c, k) || Names(StepField(c, k).pending, k)
  {
    var lv, rv := At(c.local.fields, k), At(c.remote.fields, k);
    var ch := [SetField(k, rv)];
    assert ApplyKey(lv, ch, k) == rv by { assert ch[..0] == [] && ApplyKey(lv, [], k) == lv; }
    if ScalarDecision(c, k).0.Give? {
      NamesIt(StepField(c, k).pending,
              if k == TYPE then TypeChange else if k == BODY && c.remote.lossy then LossyText else NotExported, k);
    }
  }

  lemma SkipNamed(d: Doc, k: string)
    requires Field(k) in Skipped(d)
    ensures Names(d.skip, k)
  {
  }

  /** What a commit reports pending. */
  function Pending(a: Admitted): set<Skip> { a.plan.pending + a.pending }

  lemma MoreNamed(a: set<Skip>, b: set<Skip>, k: string)
    requires Names(a, k) && a <= b
    ensures Names(b, k)
  {
  }

  /** The merge of a commit, key by key. */
  lemma MergeAgreesOrPends(c: Ctx, k: string)
    requires k in c.remote.fields && !c.exporting
    ensures var p := MergeCtx(c);
            || Names(p.pending, k)
            || (k in p.base.fields
                && Agrees(At(ApplyFields(c.local.fields, p.local), k), At(c.remote.fields, k), p.base.fields[k], k in c.multi, k))
  {
    hide MergeCtx, StepField, Names;
    MergeAt(c, k);
    if Field(k) in Skipped(c.remote) {
      SkipNamed(c.remote, k);
      MoreNamed(c.remote.skip, MergeCtx(c).pending, k);
    } else {
      if k in c.multi { SetAgreesOrPends(c, k); } else { ScalarAgreesOrPends(c, k); }
      if Names(StepField(c, k).pending, k) { MoreNamed(StepField(c, k).pending, MergeCtx(c).pending, k); }
    }
  }

  lemma RefusedNamed(s: Session, local: Doc, m: Commit, k: string)
    requires k in Refusals(s, local, m)
    ensures Names(Pending(CommitPlan(s, local, m)), k)
  {
    hide SecondPlan;
    var x := Skip(Field(k), ShapeRefused, true);
    assert x in CommitPlan(s, local, m).pending && x.key == Field(k);
  }

  lemma AdmittedParts(s: Session, local: Doc, m: Commit, k: string)
    requires k !in Refusals(s, local, m)
    ensures var a, q := CommitPlan(s, local, m), MergeCtx(PlanCtx(s, local, m));
            && q.pending <= Pending(a)
            && (k in q.base.fields ==> k in a.plan.base.fields && a.plan.base.fields[k] == q.base.fields[k])
  {
    hide MergeCtx, SettleBase, SettleDoc;
  }

  /**
   A key Jira's document has is either reported pending, or local, Jira and base agree on it
   once the commit is in.
   */
  lemma EachKeyAgreesOrPends(s: Session, local: Doc, m: Commit, newOp: string -> string, k: string)
    requires k in s.doc.fields && BODY !in m.multi && TYPE !in m.multi && WellFormed(m.checker)
    ensures var a := CommitPlan(s, local, m);
            var after := ApplyLocal(local, a.plan.local, newOp);
            || Names(Pending(a), k)
            || (k in a.plan.base.fields
                && Agrees(At(after.fields, k), At(s.doc.fields, k), a.plan.base.fields[k], k in m.multi, k))
  {
    hide MergeCtx, CommitPlan, Names, SettleBase, SettleDoc, ApplyLocal;
    var c := PlanCtx(s, local, m);
    SettleShowsFields(Some(s.base), local.(comments := WithPairs(local.comments, s.pairs)), ReadOf(s, m));
    CommitNeverRefused(s, local, m);
    CommitField(s, local, m, newOp, k);
    if k in Refusals(s, local, m) {
      RefusedNamed(s, local, m, k);
    } else {
      AdmittedParts(s, local, m, k);
      MergeAgreesOrPends(c, k);
      if Names(MergeCtx(c).pending, k) { MoreNamed(MergeCtx(c).pending, Pending(CommitPlan(s, local, m)), k); }
    }
  }
}
