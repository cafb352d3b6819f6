/** Which local changes of a merge the commit can hold, key by key. */
module Admit {
  import opened Order
  import opened Documents
  import opened Bases
  import opened Merging
  import opened MergeFacts
  import opened Check

  /** A change the schema checks: every field change but the body's. */
  predicate Checked(lc: LocalChange) { IsFieldChange(lc) && !(lc.SetField? && lc.key == BODY) }

  predicate Passes(ck: Checker, typ: string, lc: LocalChange) {
    match lc
    case SetField(k, v) => k == BODY || CheckField(ck, typ, k, v)
    case AddItem(k, x) => CheckItem(ck, typ, k, x)
    case RemoveItem(k, x) => CheckItem(ck, typ, k, x)
    case _ => true
  }

  /** The type the changes leave, as the sync reads it: a value that is no string reads as empty. */
  function PlannedType(local: seq<LocalChange>, typ: string): string {
    if local == [] then typ
    else
      var lc := local[|local| - 1];
      if lc.SetField? && lc.key == TYPE then StringValue(lc.value).GetOr("")
      else PlannedType(local[..|local| - 1], typ)
  }

  /** The type a batch leaves, as the commit reads it: the last type it sets as a string. */
  function BatchType(local: seq<LocalChange>, typ: string): string {
    if local == [] then typ
    else
      var lc := local[|local| - 1];
      if lc.SetField? && lc.key == TYPE && StringValue(lc.value).Some? then StringValue(lc.value).value
      else BatchType(local[..|local| - 1], typ)
  }

  /** The commit's own shape check over a whole batch. */
  ghost predicate CommitAccepts(ck: Checker, currentType: string, local: seq<LocalChange>) {
    forall lc :: lc in local ==> Passes(Shape(ck), BatchType(local, currentType), lc)
  }

  function Failing(ck: Checker, typ: string, local: seq<LocalChange>): set<string> {
    set lc | lc in local && Checked(lc) && !Passes(ck, typ, lc) :: lc.key
  }

  function Without(local: seq<LocalChange>, refused: set<string>): seq<LocalChange> {
    if local == [] then []
    else
      var lc := local[|local| - 1];
      Without(local[..|local| - 1], refused) + (if !Checked(lc) || lc.key !in refused then [lc] else [])
  }

  function RestoreAll(fields: map<string, Value>, prior: Option<BaseState>, refused: set<string>): map<string, Value> {
    var p := OrEmpty(prior).fields;
    map k | k in fields.Keys + p.Keys && (if k in refused then k in p else k in fields)
      :: if k in refused then p[k] else fields[k]
  }

  datatype Admitted = Admitted(plan: Plan, pending: set<Skip>, offSchema: set<string>)

  function AdmitSpec(ck: Checker, plan: Plan, typ: string, prior: Option<BaseState>): Admitted {
    var t := PlannedType(plan.local, typ);
    var refused := Failing(Shape(ck), t, plan.local);
    Admitted(
      plan.(local := Without(plan.local, refused),
            base := plan.base.(fields := RestoreAll(plan.base.fields, prior, refused),
                               retry := plan.base.retry + set k | k in refused :: Field(k))),
      set k | k in refused :: Skip(Field(k), ShapeRefused, true),
      Failing(ck, t, plan.local) - refused)
  }

  lemma RestoreNext(fields: map<string, Value>, prior: Option<BaseState>, refused: set<string>, k: string)
    ensures RestoreAll(fields, prior, refused + {k}) == RestoreSpec(RestoreAll(fields, prior, refused), prior, k)
  {
  }

  lemma FailingNext(ck: Checker, typ: string, local: seq<LocalChange>, i: nat)
    requires i < |local|
    ensures Failing(ck, typ, local[..i + 1]) == Failing(ck, typ, local[..i]) +
            (if Checked(local[i]) && !Passes(ck, typ, local[i]) then {local[i].key} else {})
  {
    assert forall lc :: lc in local[..i + 1] <==> lc in local[..i] || lc == local[i];
  }

  method Refuse(ck: Checker, plan: Plan, typ: string, prior: Option<BaseState>)
    returns (refused: set<string>, off: set<string>, fields: map<string, Value>)
    ensures refused == Failing(Shape(ck), typ, plan.local)
    ensures off == Failing(ck, typ, plan.local) - refused
    ensures fields == RestoreAll(plan.base.fields, prior, refused)
  {
    refused, off := {}, {};
    var base := new Base.Clone(plan.base);
    ghost var local := plan.local;
    for i := 0 to |plan.local|
      invariant refused == Failing(Shape(ck), typ, local[..i])
      invariant off <= Failing(ck, typ, local[..i])
      invariant Failing(ck, typ, local[..i]) <= off + refused
      invariant base.fields == RestoreAll(plan.base.fields, prior, refused)
    {
      var lc := plan.local[i];
      FailingNext(Shape(ck), typ, local, i);
      FailingNext(ck, typ, local, i);
      if Checked(lc) && lc.key !in refused {
        if !Passes(Shape(ck), typ, lc) {
          RestoreNext(plan.base.fields, prior, refused, lc.key);
          refused := refused + {lc.key};
          base.Restore(prior, lc.key);
        } else if lc.key !in off && !Passes(ck, typ, lc) {
          off := off + {lc.key};
        }
      }
    }
    assert local[..|local|] == local;
    fields := base.fields;
    // off-schema is reported of keys committed only
    off := off - refused;
  }

  method AdmitPlan(ck: Checker, plan: Plan, typ: string, prior: Option<BaseState>) returns (a: Admitted)
    ensures a == AdmitSpec(ck, plan, typ, prior)
  {
    var t := typ;
    for i := 0 to |plan.local|
      invariant t == PlannedType(plan.local[..i], typ)
    {
      assert plan.local[..i + 1][..i] == plan.local[..i];
      var lc := plan.local[i];
      if lc.SetField? && lc.key == TYPE {
        t := StringValue(lc.value).GetOr("");
      }
    }
    assert plan.local[..|plan.local|] == plan.local;
    var refused, off, fields := Refuse(ck, plan, t, prior);
    var kept: seq<LocalChange> := [];
    for i := 0 to |plan.local|
      invariant kept == Without(plan.local[..i], refused)
    {
      assert plan.local[..i + 1][..i] == plan.local[..i];
      var lc := plan.local[i];
      if !Checked(lc) || lc.key !in refused {
        kept := kept + [lc];
      }
    }
    var retry := plan.base.retry + set k | k in refused :: Field(k);
    a := Admitted(plan.(local := kept, base := plan.base.(fields := fields, retry := retry)),
                  set k | k in refused :: Skip(Field(k), ShapeRefused, true), off);
  }

  // ---- atomic per key ----

  lemma {:induction false} WithoutHas(local: seq<LocalChange>, refused: set<string>)
    ensures forall lc :: lc in Without(local, refused) <==> lc in local && (!Checked(lc) || lc.key !in refused)
  {
    if local != [] {
      var n := |local| - 1;
      WithoutHas(local[..n], refused);
      assert forall lc :: lc in local <==> lc in local[..n] || lc == local[n];
    }
  }

  lemma {:induction false} WithoutApplied(v: Value, local: seq<LocalChange>, refused: set<string>, k: string)
    requires k !in refused
    ensures ApplyKey(v, Without(local, refused), k) == ApplyKey(v, local, k)
  {
    if local != [] {
      var n := |local| - 1;
      WithoutApplied(v, local[..n], refused, k);
      var rest := Without(local[..n], refused);
      assert (rest + [local[n]])[..|rest|] == rest && rest + [] == rest;
    }
  }

  /**
   A refused key is refused whole: none of its changes is left, its value and its base are
   what they were, it is retried, and it is not also reported off-schema. Every other key
   keeps every change.
   */
  lemma RefusedWhole(ck: Checker, plan: Plan, typ: string, prior: Option<BaseState>, k: string)
    ensures var a := AdmitSpec(ck, plan, typ, prior);
            var before, after := OrEmpty(prior).fields, a.plan.base.fields;
            if Skip(Field(k), ShapeRefused, true) in a.pending then
              && k !in a.offSchema && Field(k) in a.plan.base.retry
              && (k in after <==> k in before) && (k in before ==> after[k] == before[k])
              && (k != BODY ==> forall v :: ApplyKey(v, a.plan.local, k) == v)
            else
              && (k in after <==> k in plan.base.fields) && (k in after ==> after[k] == plan.base.fields[k])
              && (forall lc :: OnKey(lc, k) ==> (lc in a.plan.local <==> lc in plan.local))
  {
    var refused := Failing(Shape(ck), PlannedType(plan.local, typ), plan.local);
    WithoutHas(plan.local, refused);
    var kept := Without(plan.local, refused);
    assert k in refused <==> Skip(Field(k), ShapeRefused, true) in AdmitSpec(ck, plan, typ, prior).pending;
    if k in refused && k != BODY {
      forall v ensures ApplyKey(v, kept, k) == v {
        ApplyKeyElsewhere(v, kept, k);
      }
    }
  }

  // ---- what is refused, and what is only off-schema ----

  /** The schema with every list of values open and every relation's targets any. */
  function Lenient(ck: Checker): Checker {
    ck.(shapeOnly := false, types := map t | t in ck.types :: map k | k in ck.types[t] :: ck.types[t][k].(freeform := true, targets := {}))
  }

  lemma LenientOne(ck: Checker, t: string, k: string, v: Value)
    requires t in ck.types && k in ck.types[t]
    ensures CheckOne(Shape(ck), ck.types[t][k], v) == CheckOne(Lenient(ck), Lenient(ck).types[t][k], v)
    ensures CheckOne(ck, ck.types[t][k], v) ==> CheckOne(Shape(ck), ck.types[t][k], v)
  {
  }

  /** The shape check accepts what that schema accepts, and all that the schema itself accepts. */
  lemma ShapeIsLenient(ck: Checker, typ: string, lc: LocalChange)
    ensures Passes(Shape(ck), typ, lc) == Passes(Lenient(ck), typ, lc)
    ensures Passes(ck, typ, lc) ==> Passes(Shape(ck), typ, lc)
  {
    hide CheckOne;
    assert Lenient(ck).types.Keys == ck.types.Keys;
    assert ck.types == map[] <==> ck.types.Keys == {};
    assert Lenient(ck).types == map[] <==> Lenient(ck).types.Keys == {};
    forall t, k, v: Value | t in ck.types && k in ck.types[t]
      ensures CheckOne(Shape(ck), ck.types[t][k], v) == CheckOne(Lenient(ck), Lenient(ck).types[t][k], v)
      ensures CheckOne(ck, ck.types[t][k], v) ==> CheckOne(Shape(ck), ck.types[t][k], v)
    {
      LenientOne(ck, t, k, v);
    }
  }

  /** Some change of the key fails. */
  ghost predicate Fails(ck: Checker, typ: string, local: seq<LocalChange>, k: string) {
    exists lc :: lc in local && Checked(lc) && lc.key == k && !Passes(ck, typ, lc)
  }

  /**
   A key is refused exactly when a change of it would fail even with every value list open and
   any target allowed. One that fails only on those is kept, with every change of it, and is
   reported off-schema; nothing else is reported so.
   */
  lemma KeptOffSchema(ck: Checker, plan: Plan, typ: string, prior: Option<BaseState>, k: string)
    ensures var a, t := AdmitSpec(ck, plan, typ, prior), PlannedType(plan.local, typ);
            && (Skip(Field(k), ShapeRefused, true) in a.pending <==> Fails(Lenient(ck), t, plan.local, k))
            && (k in a.offSchema <==> Fails(ck, t, plan.local, k) && !Fails(Lenient(ck), t, plan.local, k))
            && (k in a.offSchema ==> forall lc :: OnKey(lc, k) ==> (lc in a.plan.local <==> lc in plan.local))
  {
    hide Passes, Without, RestoreAll, PlannedType;
    var t := PlannedType(plan.local, typ);
    forall lc ensures Passes(Shape(ck), t, lc) == Passes(Lenient(ck), t, lc) { ShapeIsLenient(ck, t, lc); }
    WithoutHas(plan.local, Failing(Shape(ck), t, plan.local));
    assert forall c: Checker :: k in Failing(c, t, plan.local) <==> Fails(c, t, plan.local, k);
    assert Skip(Field(k), ShapeRefused, true) in AdmitSpec(ck, plan, typ, prior).pending <==> k in Failing(Shape(ck), t, plan.local);
  }

  // ---- sufficient ----

  predicate SetsType(lc: LocalChange) { lc.SetField? && lc.key == TYPE }

  /** The changes set the type to one value, and the type is no list. */
  ghost predicate OneType(local: seq<LocalChange>) {
    && (forall lc :: lc in local && OnKey(lc, TYPE) ==> lc.SetField?)
    && (forall a, b :: a in local && b in local && SetsType(a) && SetsType(b) ==> a == b)
  }

  lemma {:induction false} TypesRead(local: seq<LocalChange>, typ: string, v: Value)
    requires forall lc :: lc in local && SetsType(lc) ==> lc.value == v
    ensures if exists lc :: lc in local && SetsType(lc)
            then && PlannedType(local, typ) == StringValue(v).GetOr("")
                 && (StringValue(v).Some? ==> BatchType(local, typ) == StringValue(v).value)
            else PlannedType(local, typ) == BatchType(local, typ) == typ
  {
    if local != [] {
      var n := |local| - 1;
      assert local[n] in local;
      if !SetsType(local[n]) {
        TypesRead(local[..n], typ, v);
        assert forall lc :: lc in local <==> lc in local[..n] || lc == local[n];
      }
    }
  }

  /** What admit keeps never fails the commit's own check. */
  lemma AdmitSuffices(ck: Checker, plan: Plan, typ: string, prior: Option<BaseState>)
    requires WellFormed(ck) && OneType(plan.local)
    ensures CommitAccepts(ck, typ, AdmitSpec(ck, plan, typ, prior).plan.local)
  {
    var t := PlannedType(plan.local, typ);
    var refused := Failing(Shape(ck), t, plan.local);
    var kept := Without(plan.local, refused);
    WithoutHas(plan.local, refused);
    if ck.types == map[] {
    } else if exists lc :: lc in plan.local && SetsType(lc) {
      var set0 :| set0 in plan.local && SetsType(set0);
      TypesRead(plan.local, typ, set0.value);
      if TYPE in refused {
        // only an unknown type is refused, and it refuses every other field too
        assert t !in ck.types;
        forall lc | lc in kept ensures Passes(Shape(ck), BatchType(kept, typ), lc) {
          if Checked(lc) { assert false; }
        }
      } else {
        assert set0 in kept && StringValue(set0.value).Some?;
        TypesRead(kept, typ, set0.value);
      }
    } else {
      TypesRead(plan.local, typ, Null);
      TypesRead(kept, typ, Null);
    }
  }
}
