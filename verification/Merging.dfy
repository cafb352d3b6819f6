/** The three-way merge of one issue. */
module Merging {
  // `Merge` says what each key comes to; `MergeDocs` is the loop that accumulates it.

  import opened Order
  import opened Documents
  import opened SetMerge

  datatype Verdict = Agree | Take | Give

  /** The decision for one key over comparable forms; taking over `empty` without a base is no conflict. */
  function Decide<T(==)>(b: T, hasBase: bool, l: T, r: T, empty: T): (Verdict, bool) {
    if l == r then (Agree, false)
    else if hasBase && l == b then (Take, false)
    else if hasBase && r == b then (Give, false)
    else (Take, hasBase || l != empty)
  }

  /** One operation the merge wants committed locally; a SetField of the body edits comment #0. */
  datatype LocalChange =
    | SetField(key: string, value: Value)
    | AddItem(key: string, item: string)
    | RemoveItem(key: string, item: string)
    | AddComment(jid: string, text: Text)
    | EditComment(op: string, jid: string, text: Text)
    | Tombstone(op: string, jid: string, text: Text)
    | PairComment(op: string, jid: string)

  /** One write to Jira. */
  datatype Change =
    | SetTo(key: string, value: Value)
    | Diff(key: string, add: seq<string>, remove: seq<string>)

  /** A comment to write to Jira; an empty jid creates it. */
  datatype CommentWrite = CommentWrite(op: string, jid: string, text: Text)

  datatype Plan = Plan(
    local: seq<LocalChange>, remote: seq<Change>, writes: seq<CommentWrite>,
    conflicts: set<Key>, pending: set<Skip>, base: BaseState)

  /** What one merge is decided over. */
  datatype Ctx = Ctx(b: BaseState, local: Doc, remote: Doc, multi: set<string>, exporting: bool)

  const TOMBSTONE_PREFIX := "Deleted in Jira on "
  const TOMBSTONE := Text(TOMBSTONE_PREFIX + ".", EMPTY_DIGEST + TOMBSTONE_PREFIX + ".")

  predicate IsTombstone(t: Text) { TOMBSTONE_PREFIX <= t.raw }

  // ---- fields ----

  /** The type first, then the other keys in order. */
  function FieldKeys(remote: Doc): seq<string> {
    var rest := Sorted(remote.fields.Keys - {TYPE});
    if TYPE in remote.fields then [TYPE] + rest else rest
  }

  lemma OneElem(x: string)
    ensures Elems([x]) == {x}
  {
  }

  lemma ElemIn(xs: seq<string>, i: nat)
    requires i < |xs|
    ensures xs[i] in Elems(xs)
  {
  }

  lemma FieldKeysDistinct(remote: Doc)
    ensures Elems(FieldKeys(remote)) == remote.fields.Keys && Distinct(FieldKeys(remote))
  {
    hide Sorted, Ascending, Elems;
    var others := remote.fields.Keys - {TYPE};
    var rest := Sorted(others);
    AscendingDistinct(rest);
    if TYPE in remote.fields {
      ElemsAppend([TYPE], rest);
      assert Elems([TYPE]) == {TYPE} by { OneElem(TYPE); }
      assert {TYPE} + others == remote.fields.Keys;
      forall i | 0 <= i < |rest| ensures rest[i] != TYPE {
        ElemIn(rest, i);
      }
    } else {
      assert others == remote.fields.Keys;
    }
  }

  /** What one key comes to; None leaves its base. */
  datatype FieldStep = FieldStep(
    local: seq<LocalChange>, remote: seq<Change>, conflicts: set<Key>, pending: set<Skip>, base: Option<Value>)

  const NOTHING := FieldStep([], [], {}, {}, None)

  function Adds(k: string, items: seq<string>): seq<LocalChange> {
    seq(|items|, i requires 0 <= i < |items| => AddItem(k, items[i]))
  }

  function Removes(k: string, items: seq<string>): seq<LocalChange> {
    seq(|items|, i requires 0 <= i < |items| => RemoveItem(k, items[i]))
  }

  function SetStep(c: Ctx, k: string): FieldStep {
    var p := MergeSetSpec(SetOf(At(c.b.fields, k)), SetOf(At(c.local.fields, k)), SetOf(At(c.remote.fields, k)));
    var local := Adds(k, p.lAdd) + Removes(k, p.lRem);
    if p.rAdd == [] && p.rRem == [] then FieldStep(local, [], {}, {}, Some(Items(p.merged)))
    else if c.exporting then FieldStep(local, [Diff(k, p.rAdd, p.rRem)], {}, {}, None)
    else FieldStep(local, [], {}, {Skip(Field(k), NotExported, false)}, None)
  }

  function ScalarDecision(c: Ctx, k: string): (Verdict, bool) {
    Decide(At(c.b.fields, k), k in c.b.fields,
           Form(k, At(c.local.fields, k)), Form(k, At(c.remote.fields, k)), Form(k, Null))
  }

  function ScalarStep(c: Ctx, k: string): FieldStep {
    var lv, rv := At(c.local.fields, k), At(c.remote.fields, k);
    match ScalarDecision(c, k)
    case (Agree, _) => FieldStep([], [], {}, {}, Some(Form(k, rv)))
    case (Take, conflict) =>
      FieldStep([SetField(k, rv)], [], if conflict then {Field(k)} else {}, {}, Some(Form(k, rv)))
    case (Give, _) =>
      if k == TYPE then FieldStep([], [], {}, {Skip(Field(k), TypeChange, false)}, None)
      else if k == BODY && c.remote.lossy then FieldStep([], [], {}, {Skip(Field(k), LossyText, false)}, None)
      else if c.exporting then FieldStep([], [SetTo(k, lv)], {}, {}, None)
      else FieldStep([], [], {}, {Skip(Field(k), NotExported, false)}, None)
  }

  function StepField(c: Ctx, k: string): FieldStep {
    if Field(k) in Skipped(c.remote) then NOTHING
    else if k in c.multi then SetStep(c, k)
    else ScalarStep(c, k)
  }

  function PlusField(p: Plan, k: string, s: FieldStep): Plan {
    p.(local := p.local + s.local, remote := p.remote + s.remote,
       conflicts := p.conflicts + s.conflicts, pending := p.pending + s.pending,
       base := if s.base.Some? then p.base.(fields := p.base.fields[k := s.base.value]) else p.base)
  }

  function FoldFields(c: Ctx, p: Plan, keys: seq<string>): Plan {
    if keys == [] then p
    else PlusField(FoldFields(c, p, keys[..|keys| - 1]), keys[|keys| - 1], StepField(c, keys[|keys| - 1]))
  }

  // ---- comments ----

  /** What one comment comes to; None leaves its base. */
  datatype CommentStep = CommentStep(
    local: seq<LocalChange>, writes: seq<CommentWrite>, conflicts: set<Key>, pending: set<Skip>, base: Option<string>)

  const NO_COMMENT := CommentStep([], [], {}, {}, None)

  function CommentBaseOf(b: BaseState, jid: string): string {
    if jid in b.comments then b.comments[jid] else ""
  }

  /** The local comment paired with a Jira comment. */
  function Paired(c: Ctx, rc: DocComment): Option<DocComment> {
    if rc.jid == "" then None else ByJid(c.local.comments, rc.jid)
  }

  /** The local comment a Jira comment's property names. */
  function Named(c: Ctx, rc: DocComment): Option<DocComment> {
    if rc.op == "" then None else ByOp(c.local.comments, rc.op)
  }

  function PairedStep(c: Ctx, rc: DocComment, lc: DocComment): CommentStep {
    var rd, ld := rc.text.digest, lc.text.digest;
    var bd := CommentBaseOf(c.b, rc.jid);
    match Decide(bd, bd != "", ld, rd, EMPTY_DIGEST)
    case (Agree, _) => CommentStep([], [], {}, {}, Some(rd))
    case (Take, conflict) =>
      CommentStep([EditComment(lc.op, rc.jid, rc.text)], [], if conflict then {Comment(rc.jid)} else {}, {}, Some(rd))
    case (Give, _) =>
      if !rc.lossless then CommentStep([], [], {}, {Skip(Comment(rc.jid), LossyText, false)}, None)
      else if c.exporting then CommentStep([], [CommentWrite(lc.op, rc.jid, lc.text)], {}, {}, None)
      else CommentStep([], [], {}, {Skip(Comment(rc.jid), NotExported, false)}, None)
  }

  function StepRemote(c: Ctx, rc: DocComment): CommentStep {
    if Paired(c, rc).Some? then
      if Comment(rc.jid) in Skipped(c.remote) then NO_COMMENT else PairedStep(c, rc, Paired(c, rc).value)
    else if Named(c, rc).Some? then
      var lc := Named(c, rc).value;
      // posted from here, and the run that posted it stopped before it could record the pair
      if lc.jid == "" && !lc.note then
        CommentStep([PairComment(lc.op, rc.jid)], [], {}, {}, Some(rc.text.digest))
      else NO_COMMENT
    else CommentStep([AddComment(rc.jid, rc.text)], [], {}, {}, Some(rc.text.digest))
  }

  /** The local comments a Jira comment answers for. */
  function DoneBy(c: Ctx, rc: DocComment): set<string> {
    if Paired(c, rc).Some? then {Paired(c, rc).value.op}
    else if Named(c, rc).Some? then {Named(c, rc).value.op}
    else {}
  }

  function Done(c: Ctx): set<string> {
    set rc, op | rc in c.remote.comments && op in DoneBy(c, rc) :: op
  }

  /** What a local comment no Jira comment answers for comes to. */
  function StepLocal(c: Ctx, lc: DocComment): CommentStep {
    if lc.op in Done(c) || lc.note || (lc.jid != "" && Comment(lc.jid) in Skipped(c.remote)) then NO_COMMENT
    else if lc.jid == "" then
      if c.exporting then CommentStep([], [CommentWrite(lc.op, "", lc.text)], {}, {}, None)
      else CommentStep([], [], {}, {Skip(Draft(lc.op), NotExported, false)}, None)
    else
      var bd := CommentBaseOf(c.b, lc.jid);
      if lc.jid in c.b.comments && bd == "" then
        if IsTombstone(lc.text) then NO_COMMENT
        else CommentStep([], [], {}, {Skip(Comment(lc.jid), DeletedInJira, false)}, None)
      else
        var edited := lc.jid in c.b.comments && lc.text.digest != bd;
        CommentStep([Tombstone(lc.op, lc.jid, TOMBSTONE)], [], if edited then {Comment(lc.jid)} else {}, {}, Some(""))
  }

  function PlusComment(p: Plan, jid: string, s: CommentStep): Plan {
    p.(local := p.local + s.local, writes := p.writes + s.writes,
       conflicts := p.conflicts + s.conflicts, pending := p.pending + s.pending,
       base := if s.base.Some? then p.base.(comments := p.base.comments[jid := s.base.value]) else p.base)
  }

  function FoldRemote(c: Ctx, p: Plan, rcs: seq<DocComment>): Plan {
    if rcs == [] then p
    else
      var rc := rcs[|rcs| - 1];
      PlusComment(FoldRemote(c, p, rcs[..|rcs| - 1]), rc.jid, StepRemote(c, rc))
  }

  function FoldLocal(c: Ctx, p: Plan, lcs: seq<DocComment>): Plan {
    if lcs == [] then p
    else
      var lc := lcs[|lcs| - 1];
      PlusComment(FoldLocal(c, p, lcs[..|lcs| - 1]), lc.jid, StepLocal(c, lc))
  }

  // ---- the merge ----

  function CtxOf(b: Option<BaseState>, local: Doc, remote: Doc, multi: set<string>, exporting: bool): Ctx {
    Ctx(OrEmpty(b), local, remote, multi, exporting)
  }

  /** The plan a merge starts from: Jira's identity and clock, the base it had. */
  function Start(c: Ctx): Plan {
    var retry := set s | s in c.remote.skip && s.retry :: s.key;
    Plan([], [], [], {}, c.remote.skip,
         c.b.(id := c.remote.id, key := c.remote.key, updated := c.remote.updated,
              gone := "", retry := retry, unmerged := false))
  }

  function MergeCtx(c: Ctx): Plan {
    var p := FoldFields(c, Start(c), FieldKeys(c.remote));
    FoldLocal(c, FoldRemote(c, p, c.remote.comments), c.local.comments)
  }

  function Merge(b: Option<BaseState>, local: Doc, remote: Doc, multi: set<string>, exporting: bool): Plan {
    MergeCtx(CtxOf(b, local, remote, multi, exporting))
  }

  method MergeDocs(b: Option<BaseState>, local: Doc, remote: Doc, multi: set<string>, exporting: bool) returns (p: Plan)
    ensures p == Merge(b, local, remote, multi, exporting)
  {
    var c := CtxOf(b, local, remote, multi, exporting);
    var fields := MergeFields(c, Start(c), FieldKeys(remote));
    p := MergeComments(c, fields);
  }

  method MergeFields(c: Ctx, start: Plan, keys: seq<string>) returns (p: Plan)
    ensures p == FoldFields(c, start, keys)
  {
    p := start;
    for i := 0 to |keys|
      invariant p == FoldFields(c, start, keys[..i])
    {
      assert keys[..i + 1][..i] == keys[..i];
      var s := MergeField(c, keys[i]);
      p := PlusField(p, keys[i], s);
    }
    assert keys[..|keys|] == keys;
  }

  /** The body of the loop over keys. */
  method MergeField(c: Ctx, k: string) returns (s: FieldStep)
    ensures s == StepField(c, k)
  {
    s := NOTHING;
    if Field(k) in Skipped(c.remote) {
      return;
    }
    var lv, rv := At(c.local.fields, k), At(c.remote.fields, k);
    if k in c.multi {
      var p := MergeSet(SetOf(At(c.b.fields, k)), SetOf(lv), SetOf(rv));
      s := s.(local := Adds(k, p.lAdd) + Removes(k, p.lRem));
      if |p.rAdd| + |p.rRem| == 0 {
        s := s.(base := Some(Items(p.merged)));
      } else if c.exporting {
        s := s.(remote := [Diff(k, p.rAdd, p.rRem)]);
      } else {
        s := s.(pending := {Skip(Field(k), NotExported, false)});
      }
      return;
    }
    var (v, conflict) := Decide(At(c.b.fields, k), k in c.b.fields, Form(k, lv), Form(k, rv), Form(k, Null));
    match v {
      case Agree =>
      case Take =>
        s := s.(local := [SetField(k, rv)]);
        if conflict {
          s := s.(conflicts := {Field(k)});
        }
      case Give =>
        if k == TYPE {
          s := s.(pending := {Skip(Field(k), TypeChange, false)});
        } else if k == BODY && c.remote.lossy {
          s := s.(pending := {Skip(Field(k), LossyText, false)});
        } else if c.exporting {
          s := s.(remote := [SetTo(k, lv)]);
        } else {
          s := s.(pending := {Skip(Field(k), NotExported, false)});
        }
        return; // the base stays until Jira holds l
    }
    s := s.(base := Some(Form(k, rv)));
  }

  method MergeComments(c: Ctx, start: Plan) returns (p: Plan)
    ensures p == FoldLocal(c, FoldRemote(c, start, c.remote.comments), c.local.comments)
  {
    hide FoldRemote, FoldLocal, Done;
    var q, done := MergeRemoteComments(c, start);
    p := MergeLocalComments(c, q, done);
  }

  method MergeRemoteComments(c: Ctx, start: Plan) returns (p: Plan, done: set<string>)
    ensures p == FoldRemote(c, start, c.remote.comments) && done == Done(c)
  {
    hide StepRemote, PlusComment, DoneBy;
    p, done := start, {};
    var rcs := c.remote.comments;
    for i := 0 to |rcs|
      invariant p == FoldRemote(c, start, rcs[..i])
      invariant done == set rc, op | rc in rcs[..i] && op in DoneBy(c, rc) :: op
    {
      assert rcs[..i + 1][..i] == rcs[..i];
      assert forall rc :: rc in rcs[..i + 1] <==> rc in rcs[..i] || rc == rcs[i];
      p := PlusComment(p, rcs[i].jid, StepRemote(c, rcs[i]));
      done := done + DoneBy(c, rcs[i]);
    }
    assert rcs[..|rcs|] == rcs;
  }

  lemma DoneSkips(c: Ctx, p: Plan, lc: DocComment)
    requires lc.op in Done(c)
    ensures PlusComment(p, lc.jid, StepLocal(c, lc)) == p
  {
  }

  method MergeLocalComments(c: Ctx, start: Plan, done: set<string>) returns (p: Plan)
    requires done == Done(c)
    ensures p == FoldLocal(c, start, c.local.comments)
  {
    hide StepLocal, PlusComment, Done;
    p := start;
    var lcs := c.local.comments;
    for i := 0 to |lcs|
      invariant p == FoldLocal(c, start, lcs[..i])
    {
      assert lcs[..i + 1][..i] == lcs[..i];
      if lcs[i].op in done {
        DoneSkips(c, p, lcs[i]);
      } else {
        p := PlusComment(p, lcs[i].jid, StepLocal(c, lcs[i]));
      }
    }
    assert lcs[..|lcs|] == lcs;
  }
}
