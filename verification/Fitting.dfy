/** What a value must be for a field to hold it, and that a commit writes nothing else. */
module Fitting {
  import opened Documents
  import opened Bases
  import opened Merging
  import opened MergeFacts
  import opened Check
  import opened Admit
  import opened Engine

  /**
   One value of a field: strings and literals as its kind has them, known identities and issues;
   and, when the policy is asked, listed values and allowed types.
   */
  ghost predicate FitsOne(ck: Checker, f: FieldDef, x: Value, policy: bool) {
    && (f.kind !in {Bool, Number} ==> x.Str?)
    && (f.kind in {Bool, Number, Date} ==> ck.parses(f.kind, x))
    && (f.kind == Identity ==> x.s in ck.identities)
    && (f.kind == Relation ==> x.s in ck.issues)
    && (policy && f.kind in {Enum, OrdinalEnum} && x.s !in f.values ==> f.freeform)
    && (policy && f.kind == Relation && ck.issues[x.s] !in f.targets ==> f.targets == {})
  }

  /** A change leaves a field of a type with nothing, a value it can hold, or a list of them. */
  ghost predicate FitsIn(ck: Checker, typ: string, lc: LocalChange, policy: bool) {
    && IsFieldChange(lc) && typ in ck.types && lc.key in ck.types[typ]
    && var f := ck.types[typ][lc.key];
       match lc
       case SetField(_, v) =>
         v != Null ==>
           if f.multi then v.Items? && forall x :: x in v.items ==> FitsOne(ck, f, Str(x), policy) else FitsOne(ck, f, v, policy)
       case _ => f.multi && FitsOne(ck, f, Str(lc.item), policy)
  }

  /** The type a change of one field is checked against: the one it sets, when it sets the type. */
  function TypeSeen(typ: string, lc: LocalChange): string {
    if lc.SetField? && lc.key == TYPE then
      match lc.value
      case Str(s) => s
      case Null => ""
      case _ => typ
    else typ
  }

  lemma OneFits(ck: Checker, f: FieldDef, v: Value)
    ensures CheckOne(ck, f, v) <==> FitsOne(ck, f, v, !ck.shapeOnly)
  {
  }

  /** A field change passes a check exactly when the schema has no types or it fits in the type. */
  lemma PassesFits(ck: Checker, typ: string, lc: LocalChange)
    requires Checked(lc)
    ensures Passes(ck, typ, lc) <==> ck.types == map[] || FitsIn(ck, TypeSeen(typ, lc), lc, !ck.shapeOnly)
  {
    hide CheckOne, FitsOne;
    forall f: FieldDef, v: Value ensures CheckOne(ck, f, v) <==> FitsOne(ck, f, v, !ck.shapeOnly) { OneFits(ck, f, v); }
  }

  /** What admit keeps of a plan fits in the type the plan leaves, policy aside; under it too, unless its key is reported off schema. */
  lemma KeptFits(ck: Checker, plan: Plan, typ: string, prior: Option<BaseState>, lc: LocalChange)
    requires ck.types != map[] && Checked(lc) && lc in AdmitSpec(ck, plan, typ, prior).plan.local
    ensures FitsIn(ck, TypeSeen(PlannedType(plan.local, typ), lc), lc, false)
    ensures !ck.shapeOnly && lc.key !in AdmitSpec(ck, plan, typ, prior).offSchema ==>
              FitsIn(ck, TypeSeen(PlannedType(plan.local, typ), lc), lc, true)
  {
    hide FitsIn, Passes, PlannedType;
    var t := PlannedType(plan.local, typ);
    WithoutHas(plan.local, Failing(Shape(ck), t, plan.local));
    PassesFits(Shape(ck), t, lc);
    PassesFits(ck, t, lc);
    ShapeFits(ck, TypeSeen(t, lc), lc, false);
  }

  lemma ShapeFits(ck: Checker, typ: string, lc: LocalChange, policy: bool)
    ensures FitsIn(Shape(ck), typ, lc, policy) == FitsIn(ck, typ, lc, policy)
  {
  }

  /** Some change of the key does not fit in the type the plan leaves, policy aside. */
  ghost predicate Unfit(ck: Checker, plan: Plan, typ: string, k: string) {
    exists lc :: lc in plan.local && Checked(lc) && lc.key == k && !FitsIn(ck, TypeSeen(PlannedType(plan.local, typ), lc), lc, false)
  }

  /** A key is refused exactly when the schema has types and some change of it does not fit, policy aside. */
  lemma RefusedUnfit(ck: Checker, plan: Plan, typ: string, prior: Option<BaseState>, k: string)
    ensures Skip(Field(k), ShapeRefused, true) in AdmitSpec(ck, plan, typ, prior).pending <==>
              ck.types != map[] && Unfit(ck, plan, typ, k)
  {
    hide FitsIn, Passes, PlannedType;
    var t := PlannedType(plan.local, typ);
    forall lc | Checked(lc) ensures Passes(Shape(ck), t, lc) <==> ck.types == map[] || FitsIn(ck, TypeSeen(t, lc), lc, false) {
      PassesFits(Shape(ck), t, lc);
      ShapeFits(ck, TypeSeen(t, lc), lc, false);
    }
    assert k in Failing(Shape(ck), t, plan.local) <==> Skip(Field(k), ShapeRefused, true) in AdmitSpec(ck, plan, typ, prior).pending;
  }

  /** What a commit keeps fits in the type the issue has, when the commit leaves it that. */
  lemma CommitFits(s: Session, local: Doc, m: Engine.Commit, typ: string, lc: LocalChange)
    requires m.checker.types != map[] && At(local.fields, TYPE) == Str(typ)
    requires forall x :: x in SecondPlan(s, local, m).local ==> !SetsType(x)
    requires Checked(lc) && lc in CommitPlan(s, local, m).plan.local
    ensures FitsIn(m.checker, typ, lc, false)
  {
    hide FitsIn, Passes, PlannedType, SecondPlan, AdmitSpec, SettleBase;
    var l := local.(comments := WithPairs(local.comments, s.pairs));
    var plan, prior := SecondPlan(s, local, m), SettleBase(Some(s.base), l, ReadOf(s, m));
    TypesRead(plan.local, typ, Null);
    KeptFits(m.checker, plan, typ, prior, lc);
    KeptAmong(m.checker, plan, typ, prior, lc);
  }

  lemma KeptAmong(ck: Checker, plan: Plan, typ: string, prior: Option<BaseState>, lc: LocalChange)
    requires lc in AdmitSpec(ck, plan, typ, prior).plan.local
    ensures lc in plan.local
  {
    WithoutHas(plan.local, Failing(Shape(ck), PlannedType(plan.local, typ), plan.local));
  }
}
