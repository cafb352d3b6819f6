/** What one undisturbed round leaves on both sides. */
module RoundOutcomes {
  // In terms of the base, the local document and Jira's as the round found them.

  import opened Order
  import opened Documents
  import opened SetMerge
  import opened Bases
  import opened Merging
  import opened MergeFacts
  import opened Admit
  import opened Engine
  import opened EngineFacts
  import opened Converge
  import opened Outcomes
  import S = Safety

  /** A key of the round: Jira's document has it, and the read, settled, does not skip it. */
  ghost predicate InRound(u: Undisturbed, m: Commit, k: string) {
    Accepting(u) && SameLists(u, m) && k in u.read.doc.fields && Field(k) !in Skipped(FirstCtx(u).remote)
  }

  /** What Jira holds of a key in the end, as the commit read it. */
  ghost function JiraAfter(u: Undisturbed, k: string): Value { At(SessionOf(u).doc.fields, k) }

  ghost function LocalEnd(u: Undisturbed, m: Commit, newOp: string -> string, k: string): Value {
    At(LocalAfter(u, m, newOp).fields, k)
  }

  lemma FirstHas(u: Undisturbed, m: Commit, k: string)
    requires InRound(u, m, k)
    ensures var c := FirstCtx(u);
            && k in c.remote.fields && c.multi == u.read.multi == m.multi && c.exporting && c.local == u.local
            && c.remote.fields == u.read.doc.fields && c.remote.lossy == u.read.doc.lossy && k !in c.b.sent
  {
    hide MergeCtx, SettleBase, SettleDoc, Accepting;
    FirstReads(u);
    SettledParts(u);
    InFlightSkipped(u, k);
  }

  /** What the first merge sends of a key is what the round writes of it. */
  lemma SentIs(u: Undisturbed, k: string)
    ensures Sent(MergeCtx(FirstCtx(u)).remote, k) == Step1(u, k)
  {
    hide MergeCtx, FirstCtx, Step1;
    Step1Is(u, k);
  }

  /**
   A local edit of a value Jira left alone reaches Jira: once the read shows the write both
   sides hold it, nothing of it is refused, and it is the base.
   */
  lemma LocalEditLands(u: Undisturbed, m: Commit, newOp: string -> string, k: string)
    requires InRound(u, m, k) && k !in m.multi && Writable(FirstCtx(u), k)
    requires BaseIs(FirstCtx(u), k, Form(k, At(u.read.doc.fields, k)))
    requires Form(k, At(u.local.fields, k)) != Form(k, At(u.read.doc.fields, k))
    requires Form(k, At(u.reread.fields, k)) == Form(k, At(u.local.fields, k))
    ensures Form(k, JiraAfter(u, k)) == Form(k, At(u.local.fields, k)) && LocalEnd(u, m, newOp, k) == At(u.local.fields, k)
    ensures k !in RefusedIn(u, m)
    ensures BaseIs(FirstCtx(u).(b := CommitPlan(SessionOf(u), u.local, m).plan.base), k, Form(k, At(u.local.fields, k)))
  {
    hide MergeCtx, FirstCtx, CommitCtx, BeginSpec, Accepting, CommitPlan, LocalAfter, SettleBase, SettleDoc, RefusedIn, StepField, Step1;
    var c1, c2 := FirstCtx(u), CommitCtx(u, m);
    FirstHas(u, m, k);
    LocalEditWins(c1, k);
    SentIs(u, k);
    SentOn(u, k);
    ConfirmedKey(u, m, k);
    CommitReads(u, m);
    SessionReads(u);
    RoundFollows(u, m, k);
    AgreeingStep(c2, k);
    EqualAgrees(c2, k);
    if k in RefusedIn(u, m) { RefusedStep(u, m, k); }
    S.CommitField(SessionOf(u), u.local, m, newOp, k);
    CommitLeaves(u, m, newOp, k);
    AdmittedBase(u, m, k);
  }

  /** Equal values are no change. */
  lemma AgreeingStep(c: Ctx, k: string)
    requires IsScalar(c, k) && LocalForm(c, k) == JiraForm(c, k)
    ensures StepField(c, k).local == []
  {
  }

  /** An unrefused key ends as the commit's merge leaves it. */
  lemma CommitLeaves(u: Undisturbed, m: Commit, newOp: string -> string, k: string)
    requires k !in RefusedIn(u, m)
    ensures LocalEnd(u, m, newOp, k) == At(ApplyFields(u.local.fields, MergeCtx(CommitCtx(u, m)).local), k)
  {
    hide MergeCtx, BeginSpec, CommitPlan, ApplyLocal, S.Refusals, ApplyFields;
    S.CommitField(SessionOf(u), u.local, m, newOp, k);
  }

  lemma AdmittedBase(u: Undisturbed, m: Commit, k: string)
    requires k !in RefusedIn(u, m)
    ensures var b, q := CommitPlan(SessionOf(u), u.local, m).plan.base.fields, MergeCtx(CommitCtx(u, m)).base.fields;
            (k in b <==> k in q) && (k in b ==> b[k] == q[k])
  {
    hide MergeCtx, CommitCtx, CommitPlan, RefusedIn;
    AdmittedIs(u, m);
  }

  /**
   In every other case, the two differing, both sides end with Jira's value, and it is the base:
   the local edit of a value both changed gives way, unless admit refuses the key.
   */
  lemma JiraValueLands(u: Undisturbed, m: Commit, newOp: string -> string, k: string)
    requires InRound(u, m, k) && k !in m.multi && k !in RefusedIn(u, m)
    requires !BaseIs(FirstCtx(u), k, Form(k, At(u.read.doc.fields, k)))
    requires Form(k, At(u.local.fields, k)) != Form(k, At(u.read.doc.fields, k))
    ensures JiraAfter(u, k) == At(u.read.doc.fields, k) == LocalEnd(u, m, newOp, k)
    ensures BaseIs(FirstCtx(u).(b := CommitPlan(SessionOf(u), u.local, m).plan.base), k, Form(k, At(u.read.doc.fields, k)))
  {
    hide MergeCtx, FirstCtx, CommitCtx, BeginSpec, Accepting, CommitPlan, LocalAfter, SettleBase, SettleDoc, RefusedIn, StepField, Step1;
    var c1, c2 := FirstCtx(u), CommitCtx(u, m);
    FirstHas(u, m, k);
    NothingSent(c1, k);
    SentIs(u, k);
    SentOn(u, k);
    ReadShows(u, k);
    ConfirmedKey(u, m, k);
    CommitReads(u, m);
    RoundFollows(u, m, k);
    SessionBase(u);
    Takes(c2, k);
    CommitLeaves(u, m, newOp, k);
    AdmittedBase(u, m, k);
  }

  lemma NothingSent(c: Ctx, k: string)
    requires IsScalar(c, k) && !BaseIs(c, k, JiraForm(c, k)) && LocalForm(c, k) != JiraForm(c, k)
    ensures Sent(MergeCtx(c).remote, k) == []
  {
    hide MergeCtx;
    Takes(c, k);
  }

  /** Jira's value is taken. */
  lemma Takes(c: Ctx, k: string)
    requires IsScalar(c, k) && !BaseIs(c, k, JiraForm(c, k)) && LocalForm(c, k) != JiraForm(c, k)
    ensures exists noted :: Leaves(c, k, At(c.remote.fields, k), [], noted, Some(JiraForm(c, k)))
  {
    hide MergeCtx, Leaves;
    if BaseIs(c, k, LocalForm(c, k)) { JiraEditTaken(c, k); } else { JiraWinsConflict(c, k); }
  }

  /** Both sides of a list end with exactly the items that remain, and they are its base, unless admit refuses the key. */
  lemma ListLands(u: Undisturbed, m: Commit, newOp: string -> string, k: string)
    requires InRound(u, m, k) && k in m.multi && k !in RefusedIn(u, m)
    ensures forall x :: x in SetOf(JiraAfter(u, k)) <==> Remains(FirstCtx(u), k, x)
    ensures SetOf(LocalEnd(u, m, newOp, k)) == SetOf(JiraAfter(u, k))
    ensures BaseIs(FirstCtx(u).(b := CommitPlan(SessionOf(u), u.local, m).plan.base), k, Items(SetOf(JiraAfter(u, k))))
  {
    hide MergeCtx, FirstCtx, CommitCtx, BeginSpec, Accepting, CommitPlan, LocalAfter, SettleBase,
         SettleDoc, RefusedIn, StepField, Merged, FollowsKey;
    var c1, c2 := FirstCtx(u), CommitCtx(u, m);
    FirstHas(u, m, k);
    RoundFollows(u, m, k);
    ConfirmedKey(u, m, k);
    assert FollowsKey(c1, c2, k) && k in c1.multi;
    ShowsMerged(c1, c2, k);
    RemainsIs(c1, k);
    KeyAgrees(u, m, newOp, k);
  }
}
