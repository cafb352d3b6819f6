/** What a merge comes to key by key, and what applying its local changes leaves of a document. */
module MergeFacts {
  import opened Order
  import opened Documents
  import opened SetMerge
  import opened Merging

  // ---- applying local changes to fields ----

  predicate IsFieldChange(lc: LocalChange) { lc.SetField? || lc.AddItem? || lc.RemoveItem? }

  predicate OnKey(lc: LocalChange, k: string) { IsFieldChange(lc) && lc.key == k }

  /** One operation on one field: a set, or an item added to or removed from a list. */
  function ApplyValue(v: Value, lc: LocalChange): Value {
    match lc
    case SetField(_, value) => value
    case AddItem(_, item) => Items(SetOf(v) + {item})
    case RemoveItem(_, item) => if v.Items? then Items(v.items - {item}) else v
    case _ => v
  }

  function ApplyFields(fields: map<string, Value>, ch: seq<LocalChange>): map<string, Value> {
    if ch == [] then fields
    else
      var f, lc := ApplyFields(fields, ch[..|ch| - 1]), ch[|ch| - 1];
      if IsFieldChange(lc) then f[lc.key := ApplyValue(At(f, lc.key), lc)] else f
  }

  /** What the changes to one key make of its value. */
  function ApplyKey(v: Value, ch: seq<LocalChange>, k: string): Value {
    if ch == [] then v
    else
      var w, lc := ApplyKey(v, ch[..|ch| - 1], k), ch[|ch| - 1];
      if OnKey(lc, k) then ApplyValue(w, lc) else w
  }

  lemma {:induction false} ApplyFieldsAt(fields: map<string, Value>, ch: seq<LocalChange>, k: string)
    ensures At(ApplyFields(fields, ch), k) == ApplyKey(At(fields, k), ch, k)
  {
    if ch != [] { ApplyFieldsAt(fields, ch[..|ch| - 1], k); }
  }

  lemma {:induction false} ApplyKeyConcat(v: Value, a: seq<LocalChange>, b: seq<LocalChange>, k: string)
    ensures ApplyKey(v, a + b, k) == ApplyKey(ApplyKey(v, a, k), b, k)
  {
    if b == [] {
      assert a + b == a;
    } else {
      ApplyKeyConcat(v, a, b[..|b| - 1], k);
      assert (a + b)[..|a + b| - 1] == a + b[..|b| - 1];
    }
  }

  lemma {:induction false} ApplyKeyElsewhere(v: Value, ch: seq<LocalChange>, k: string)
    requires forall lc :: lc in ch ==> !OnKey(lc, k)
    ensures ApplyKey(v, ch, k) == v
  {
    if ch != [] {
      assert ch[|ch| - 1] in ch;
      ApplyKeyElsewhere(v, ch[..|ch| - 1], k);
    }
  }

  lemma {:induction false} ApplyAdds(v: Value, k: string, items: seq<string>)
    ensures SetOf(ApplyKey(v, Adds(k, items), k)) == SetOf(v) + Elems(items)
  {
    if items != [] {
      var n := |items| - 1;
      ApplyAdds(v, k, items[..n]);
      assert Adds(k, items)[..n] == Adds(k, items[..n]);
      assert items == items[..n] + [items[n]];
      ElemsAppend(items[..n], [items[n]]);
      assert Elems([items[n]]) == {items[n]};
    }
  }

  lemma {:induction false} ApplyRemoves(v: Value, k: string, items: seq<string>)
    ensures SetOf(ApplyKey(v, Removes(k, items), k)) == SetOf(v) - Elems(items)
  {
    if items != [] {
      var n := |items| - 1;
      ApplyRemoves(v, k, items[..n]);
      assert Removes(k, items)[..n] == Removes(k, items[..n]);
      assert items == items[..n] + [items[n]];
      ElemsAppend(items[..n], [items[n]]);
      assert Elems([items[n]]) == {items[n]};
    }
  }

  // ---- one key of a plan ----

  ghost predicate AboutKey(s: FieldStep, k: string) {
    && (forall lc :: lc in s.local ==> OnKey(lc, k))
    && (s.remote == [] || (|s.remote| == 1 && s.remote[0].key == k))
    && s.conflicts <= {Field(k)}
  }

  lemma ChangesOnKey(k: string, add: seq<string>, remove: seq<string>)
    ensures forall lc :: lc in Adds(k, add) + Removes(k, remove) ==> OnKey(lc, k)
  {
  }

  lemma StepKeys(c: Ctx, k: string)
    ensures AboutKey(StepField(c, k), k)
  {
    if k in c.multi {
      var p := MergeSetSpec(SetOf(At(c.b.fields, k)), SetOf(At(c.local.fields, k)), SetOf(At(c.remote.fields, k)));
      ChangesOnKey(k, p.lAdd, p.lRem);
    }
  }

  /** A key's remote change, if the plan has one. */
  function Sent(remote: seq<Change>, k: string): seq<Change> {
    if remote == [] then []
    else Sent(remote[..|remote| - 1], k) + (if remote[|remote| - 1].key == k then [remote[|remote| - 1]] else [])
  }

  lemma {:induction false} SentConcat(a: seq<Change>, b: seq<Change>, k: string)
    ensures Sent(a + b, k) == Sent(a, k) + Sent(b, k)
  {
    if b == [] {
      assert a + b == a;
    } else {
      SentConcat(a, b[..|b| - 1], k);
      assert (a + b)[..|a + b| - 1] == a + b[..|b| - 1];
    }
  }

  /** q is p with step s taken, as far as key k goes. */
  ghost predicate FieldAt(s: FieldStep, p: Plan, q: Plan, k: string) {
    && (forall v :: ApplyKey(v, q.local, k) == ApplyKey(ApplyKey(v, p.local, k), s.local, k))
    && Sent(q.remote, k) == Sent(p.remote, k) + s.remote
    && (Field(k) in q.conflicts <==> Field(k) in p.conflicts || s.conflicts != {})
    && (k in q.base.fields <==> k in p.base.fields || s.base.Some?)
    && (k in q.base.fields ==> q.base.fields[k] == if s.base.Some? then s.base.value else p.base.fields[k])
    && q.base == p.base.(fields := q.base.fields) && q.writes == p.writes
    && p.pending <= q.pending && s.pending <= q.pending
  }

  function Taken(c: Ctx, k: string, merged: bool): FieldStep {
    if merged then StepField(c, k) else NOTHING
  }

  lemma ApplyStep(v: Value, local: seq<LocalChange>, s: FieldStep, j: string, k: string)
    requires AboutKey(s, j)
    ensures ApplyKey(v, local + s.local, k) == ApplyKey(ApplyKey(v, local, k), if k == j then s.local else [], k)
  {
    ApplyKeyConcat(v, local, s.local, k);
    if k != j { ApplyKeyElsewhere(ApplyKey(v, local, k), s.local, k); }
  }

  lemma SentOne(remote: seq<Change>, j: string, k: string)
    requires remote == [] || (|remote| == 1 && remote[0].key == j)
    ensures Sent(remote, k) == if k == j then remote else []
  {
    if remote != [] { assert remote[..0] == []; }
  }

  lemma PlusFieldAt(s: FieldStep, p: Plan, j: string, k: string)
    requires AboutKey(s, j)
    ensures FieldAt(if k == j then s else NOTHING, p, PlusField(p, j, s), k)
  {
    hide Sent, ApplyKey;
    SentConcat(p.remote, s.remote, k);
    SentOne(s.remote, j, k);
    forall v ensures ApplyKey(v, p.local + s.local, k)
                     == ApplyKey(ApplyKey(v, p.local, k), if k == j then s.local else [], k) {
      ApplyStep(v, p.local, s, j, k);
    }
  }

  /** Two steps one after the other, one of which does nothing. */
  lemma FieldAtThen(s: FieldStep, t: FieldStep, p: Plan, q: Plan, r: Plan, k: string)
    requires FieldAt(s, p, q, k) && FieldAt(t, q, r, k) && (s == NOTHING || t == NOTHING)
    ensures FieldAt(if t == NOTHING then s else t, p, r, k)
  {
    hide Sent;
  }

  lemma {:induction false} FoldFieldsAt(c: Ctx, p: Plan, keys: seq<string>, k: string)
    requires Distinct(keys)
    ensures FieldAt(Taken(c, k, k in keys), p, FoldFields(c, p, keys), k)
  {
    if keys == [] {
      assert forall v :: ApplyKey(v, [], k) == v;
    } else {
      hide FieldAt, AboutKey, StepField, PlusField;
      var n := |keys| - 1;
      var q := FoldFields(c, p, keys[..n]);
      FoldFieldsAt(c, p, keys[..n], k);
      StepKeys(c, keys[n]);
      PlusFieldAt(StepField(c, keys[n]), q, keys[n], k);
      assert keys == keys[..n] + [keys[n]];
      assert k in keys <==> k in keys[..n] || k == keys[n];
      if k == keys[n] { assert k !in keys[..n]; }
      FieldAtThen(Taken(c, k, k in keys[..n]), if k == keys[n] then StepField(c, k) else NOTHING, p, q,
                  PlusField(q, keys[n], StepField(c, keys[n])), k);
    }
  }

  /** Nothing a comment's step does touches a field. */
  ghost predicate SameFields(p: Plan, q: Plan, k: string) {
    && (forall v :: ApplyKey(v, q.local, k) == ApplyKey(v, p.local, k))
    && q.remote == p.remote && (Field(k) in q.conflicts <==> Field(k) in p.conflicts)
    && q.base == p.base.(comments := q.base.comments) && p.pending <= q.pending
  }

  ghost predicate CommentOnly(s: CommentStep) {
    && (forall lc :: lc in s.local ==> !IsFieldChange(lc))
    && (forall x :: x in s.conflicts ==> x.Comment?)
  }

  lemma PlusCommentAt(p: Plan, jid: string, s: CommentStep, k: string)
    requires CommentOnly(s)
    ensures SameFields(p, PlusComment(p, jid, s), k)
  {
    forall v ensures ApplyKey(v, p.local + s.local, k) == ApplyKey(v, p.local, k) {
      ApplyKeyConcat(v, p.local, s.local, k);
      ApplyKeyElsewhere(ApplyKey(v, p.local, k), s.local, k);
    }
  }

  lemma {:induction false} FoldRemoteAt(c: Ctx, p: Plan, rcs: seq<DocComment>, k: string)
    ensures SameFields(p, FoldRemote(c, p, rcs), k)
  {
    if rcs != [] {
      var rc := rcs[|rcs| - 1];
      FoldRemoteAt(c, p, rcs[..|rcs| - 1], k);
      PlusCommentAt(FoldRemote(c, p, rcs[..|rcs| - 1]), rc.jid, StepRemote(c, rc), k);
    }
  }

  lemma {:induction false} FoldLocalAt(c: Ctx, p: Plan, lcs: seq<DocComment>, k: string)
    ensures SameFields(p, FoldLocal(c, p, lcs), k)
  {
    if lcs != [] {
      var lc := lcs[|lcs| - 1];
      FoldLocalAt(c, p, lcs[..|lcs| - 1], k);
      PlusCommentAt(FoldLocal(c, p, lcs[..|lcs| - 1]), lc.jid, StepLocal(c, lc), k);
    }
  }

  /** A merge, key by key: exactly the key's step when Jira's document has it, nothing otherwise. */
  lemma MergeAt(c: Ctx, k: string)
    ensures var p := MergeCtx(c);
            var s := Taken(c, k, k in c.remote.fields);
            && At(ApplyFields(c.local.fields, p.local), k) == ApplyKey(At(c.local.fields, k), s.local, k)
            && Sent(p.remote, k) == s.remote
            && (Field(k) in p.conflicts <==> s.conflicts != {})
            && (k in p.base.fields <==> k in c.b.fields || s.base.Some?)
            && (k in p.base.fields ==> p.base.fields[k] == if s.base.Some? then s.base.value else c.b.fields[k])
            && p.base == Start(c).base.(fields := p.base.fields, comments := p.base.comments)
            && s.pending <= p.pending && c.remote.skip <= p.pending
  {
    FieldKeysDistinct(c.remote);
    var keys := FieldKeys(c.remote);
    assert k in keys <==> k in Elems(keys);
    var f := FoldFields(c, Start(c), keys);
    var r := FoldRemote(c, f, c.remote.comments);
    FoldFieldsAt(c, Start(c), keys, k);
    FoldRemoteAt(c, f, c.remote.comments, k);
    FoldLocalAt(c, r, c.local.comments, k);
    ApplyFieldsAt(c.local.fields, MergeCtx(c).local, k);
  }

  /** The set a list-valued key's local side comes to. */
  lemma SetStepApplied(c: Ctx, k: string)
    requires k in c.multi && Field(k) !in Skipped(c.remote)
    ensures SetOf(ApplyKey(At(c.local.fields, k), StepField(c, k).local, k)) ==
            Merged(SetOf(At(c.b.fields, k)), SetOf(At(c.local.fields, k)), SetOf(At(c.remote.fields, k)))
  {
    hide Sorted, ApplyKey, Adds, Removes, SetOf, Merged;
    var b, l, r := SetOf(At(c.b.fields, k)), SetOf(At(c.local.fields, k)), SetOf(At(c.remote.fields, k));
    var p := MergeSetSpec(b, l, r);
    var v := At(c.local.fields, k);
    ApplyKeyConcat(v, Adds(k, p.lAdd), Removes(k, p.lRem), k);
    ApplyAdds(v, k, p.lAdd);
    ApplyRemoves(ApplyKey(v, Adds(k, p.lAdd), k), k, p.lRem);
    MergeSetMeetsBothSides(b, l, r);
  }

  /** Every field change of a plan is one its key's step asked for. */
  ghost predicate FromSteps(c: Ctx, local: seq<LocalChange>) {
    forall lc :: lc in local && IsFieldChange(lc) ==> lc.key in c.remote.fields && lc in StepField(c, lc.key).local
  }

  lemma {:induction false} FieldsFromSteps(c: Ctx, p: Plan, keys: seq<string>)
    requires FromSteps(c, p.local) && forall k :: k in keys ==> k in c.remote.fields
    ensures FromSteps(c, FoldFields(c, p, keys).local)
  {
    if keys != [] {
      var k := keys[|keys| - 1];
      assert k in keys;
      FieldsFromSteps(c, p, keys[..|keys| - 1]);
      StepKeys(c, k);
    }
  }

  lemma {:induction false} RemoteFromSteps(c: Ctx, p: Plan, rcs: seq<DocComment>)
    requires FromSteps(c, p.local)
    ensures FromSteps(c, FoldRemote(c, p, rcs).local)
  {
    if rcs != [] {
      RemoteFromSteps(c, p, rcs[..|rcs| - 1]);
      assert CommentOnly(StepRemote(c, rcs[|rcs| - 1]));
    }
  }

  lemma {:induction false} LocalFromSteps(c: Ctx, p: Plan, lcs: seq<DocComment>)
    requires FromSteps(c, p.local)
    ensures FromSteps(c, FoldLocal(c, p, lcs).local)
  {
    if lcs != [] {
      LocalFromSteps(c, p, lcs[..|lcs| - 1]);
      assert CommentOnly(StepLocal(c, lcs[|lcs| - 1]));
    }
  }

  lemma MergeFromSteps(c: Ctx)
    ensures FromSteps(c, MergeCtx(c).local)
  {
    FieldKeysDistinct(c.remote);
    forall k | k in FieldKeys(c.remote) ensures k in c.remote.fields {
      assert k in Elems(FieldKeys(c.remote));
    }
    var f := FoldFields(c, Start(c), FieldKeys(c.remote));
    FieldsFromSteps(c, Start(c), FieldKeys(c.remote));
    RemoteFromSteps(c, f, c.remote.comments);
    LocalFromSteps(c, FoldRemote(c, f, c.remote.comments), c.local.comments);
  }
}
