/** One round of the sync. */
module Engine {
  // Settle, merge and write, read again, settle and merge under the lock, admit, commit. The network is
  // what the arguments say it answered.

  import opened Order
  import opened Documents
  import opened Bases
  import opened Merging
  import opened MergeFacts
  import opened Check
  import opened Admit

  // ---- step 4: the writes ----

  /**
   What Jira answered: the keys and comment edits it accepted, the comments it created (by
   the operation each exports), whether some request of a refused key landed, and its clock
   before the first write.
   */
  datatype Answers = Answers(accepted: set<string>, edited: set<string>, created: map<string, string>, partial: bool, before: int)

  /** The form a field's write is remembered as. */
  function SentForm(ch: Change, remote: Doc): Value {
    match ch
    case SetTo(k, v) => Form(k, v)
    case Diff(k, add, remove) => Items((SetOf(At(remote.fields, k)) + Elems(add)) - Elems(remove))
  }

  datatype Written = Written(base: BaseState, pairs: map<string, string>, wrote: bool)

  function WriteField(w: Written, ch: Change, remote: Doc, a: Answers): Written {
    if ch.key in a.accepted
    then w.(base := w.base.(sent := w.base.sent[ch.key := SentForm(ch, remote)], wrote := a.before), wrote := true)
    else w
  }

  function WriteFields(w: Written, remote: seq<Change>, doc: Doc, a: Answers): Written {
    if remote == [] then w
    else WriteField(WriteFields(w, remote[..|remote| - 1], doc, a), remote[|remote| - 1], doc, a)
  }

  /** The Jira id a comment's write landed under, if it did. */
  function LandedAs(cw: CommentWrite, a: Answers): Option<string> {
    if cw.jid != "" then (if cw.jid in a.edited then Some(cw.jid) else None)
    else if cw.op in a.created then Some(a.created[cw.op])
    else None
  }

  function WriteComment(w: Written, cw: CommentWrite, a: Answers): Written {
    match LandedAs(cw, a)
    case None => w
    case Some(jid) =>
      w.(base := w.base.(sentComments := w.base.sentComments[jid := cw.text.digest], wrote := a.before),
         pairs := if cw.jid == "" then w.pairs[cw.op := jid] else w.pairs,
         wrote := true)
  }

  function WriteComments(w: Written, writes: seq<CommentWrite>, a: Answers): Written {
    if writes == [] then w
    else WriteComment(WriteComments(w, writes[..|writes| - 1], a), writes[|writes| - 1], a)
  }

  function WriteSpec(b: BaseState, p: Plan, doc: Doc, a: Answers): Written {
    WriteComments(WriteFields(Written(b, map[], a.partial), p.remote, doc, a), p.writes, a)
  }

  method Write(b: BaseState, p: Plan, doc: Doc, a: Answers) returns (w: Written)
    ensures w == WriteSpec(b, p, doc, a)
  {
    w := Written(b, map[], a.partial);
    ghost var start := w;
    for i := 0 to |p.remote|
      invariant w == WriteFields(start, p.remote[..i], doc, a)
    {
      assert p.remote[..i + 1][..i] == p.remote[..i];
      var ch := p.remote[i];
      if ch.key in a.accepted {
        var sent := w.base.sent[ch.key := SentForm(ch, doc)];
        w := w.(base := w.base.(sent := sent, wrote := a.before), wrote := true);
      }
    }
    assert p.remote[..|p.remote|] == p.remote;
    ghost var fields := w;
    for i := 0 to |p.writes|
      invariant w == WriteComments(fields, p.writes[..i], a)
    {
      assert p.writes[..i + 1][..i] == p.writes[..i];
      var cw := p.writes[i];
      var jid := LandedAs(cw, a);
      if jid.Some? {
        var sent := w.base.sentComments[jid.value := cw.text.digest];
        w := w.(base := w.base.(sentComments := sent, wrote := a.before), wrote := true);
        if cw.jid == "" {
          w := w.(pairs := w.pairs[cw.op := jid.value]);
        }
      }
    }
    assert p.writes[..|p.writes|] == p.writes;
  }

  // ---- steps 3 to 5, outside the lock ----

  /**
   What the writes leave for the commit: the base, the read that follows, what it answers, the
   comments created, and whether that read failed.
   */
  datatype Session = Session(base: BaseState, doc: Doc, echo: set<Key>, pairs: map<string, string>, unread: bool)

  function NewlySent(b: Option<BaseState>, after: BaseState): set<Key> {
    var before := OrEmpty(b);
    (set k | k in after.sent && k !in before.sent :: Field(k)) +
    (set j | j in after.sentComments && j !in before.sentComments :: Comment(j))
  }

  /** The merge whose changes are written. */
  function FirstPlan(b: Option<BaseState>, local: Doc, r: Read): Plan {
    Merge(SettleBase(b, local, r), local, SettleDoc(b, local, r), r.multi, true)
  }

  /** reread is None when the read after the writes failed. */
  function BeginSpec(b: Option<BaseState>, local: Doc, r: Read, a: Answers, reread: Option<Doc>): Session {
    var b1 := SettleBase(b, local, r);
    var w := WriteSpec(OrEmpty(b1), FirstPlan(b, local, r), r.doc, a);
    if !w.wrote then Session(w.base, r.doc, {}, map[], false)
    else if reread.None? then Session(w.base, r.doc, {}, w.pairs, true)
    else Session(w.base, reread.value, NewlySent(b1, w.base), w.pairs, false)
  }

  method Begin(b: Option<BaseState>, local: Doc, r: Read, a: Answers, reread: Option<Doc>) returns (s: Session)
    ensures s == BeginSpec(b, local, r, a, reread)
  {
    var b1, remote := Settle(b, local, r);
    var plan := MergeDocs(b1, local, remote, r.multi, true);
    var w := Write(OrEmpty(b1), plan, r.doc, a);
    if !w.wrote {
      return Session(w.base, r.doc, {}, map[], false);
    }
    if reread.None? {
      return Session(w.base, r.doc, {}, w.pairs, true);
    }
    s := Session(w.base, reread.value, NewlySent(b1, w.base), w.pairs, false);
  }

  // ---- step 6, under the lock ----

  /** Local comments with those the writes created paired. */
  function WithPairs(cs: seq<DocComment>, pairs: map<string, string>): seq<DocComment> {
    seq(|cs|, i requires 0 <= i < |cs| =>
      if cs[i].jid == "" && cs[i].op in pairs then cs[i].(jid := pairs[cs[i].op]) else cs[i])
  }

  function PairChanges(cs: seq<DocComment>, pairs: map<string, string>): seq<LocalChange> {
    if cs == [] then []
    else
      var c := cs[|cs| - 1];
      PairChanges(cs[..|cs| - 1], pairs) + (if c.jid == "" && c.op in pairs then [PairComment(c.op, pairs[c.op])] else [])
  }

  /** The current base: the marker with the greatest clock, ties to the later. */
  function CurrentBase(markers: seq<BaseState>): BaseState {
    if markers == [] then EMPTY_BASE
    else
      var m, cur := markers[|markers| - 1], CurrentBase(markers[..|markers| - 1]);
      if |markers| == 1 || cur.updated <= m.updated then m else cur
  }

  /** The two bases differ in their clocks at most. */
  predicate SameBase(b: BaseState, o: BaseState) { o.(updated := b.updated) == b }

  datatype Store = Store(local: Doc, markers: seq<BaseState>)

  /** How the commit decides: the read with its clock, the type's list keys, the schema. */
  datatype Commit = Commit(multi: set<string>, now: int, window: int, checker: Checker)

  function ReadOf(s: Session, m: Commit): Read { Read(s.doc, m.multi, s.echo, m.now, m.window) }

  /** The merge under the lock, decided on the local document as it is then. */
  function SecondPlan(s: Session, local: Doc, m: Commit): Plan {
    var l := local.(comments := WithPairs(local.comments, s.pairs));
    var r := ReadOf(s, m);
    var p := Merge(SettleBase(Some(s.base), l, r), l, SettleDoc(Some(s.base), l, r), m.multi, false);
    p.(local := p.local + PairChanges(local.comments, s.pairs))
  }

  /** What the merge under the lock is decided over. */
  function PlanCtx(s: Session, local: Doc, m: Commit): Ctx {
    var l := local.(comments := WithPairs(local.comments, s.pairs));
    CtxOf(SettleBase(Some(s.base), l, ReadOf(s, m)), l, SettleDoc(Some(s.base), l, ReadOf(s, m)), m.multi, false)
  }

  function TypeOf(local: Doc): string { StringValue(At(local.fields, TYPE)).GetOr("") }

  function CommitPlan(s: Session, local: Doc, m: Commit): Admitted {
    var l := local.(comments := WithPairs(local.comments, s.pairs));
    AdmitSpec(m.checker, SecondPlan(s, local, m), TypeOf(local), SettleBase(Some(s.base), l, ReadOf(s, m)))
  }

  /** An operation on the comments; newOp is the id the store gives an imported comment. */
  function ApplyComment(cs: seq<DocComment>, lc: LocalChange, newOp: string -> string): seq<DocComment> {
    match lc
    case AddComment(jid, text) => cs + [DocComment(newOp(jid), jid, text, true, false)]
    case EditComment(op, _, text) => SetText(cs, op, text)
    case Tombstone(op, _, text) => SetText(cs, op, text)
    case PairComment(op, jid) => seq(|cs|, i requires 0 <= i < |cs| => if cs[i].op == op then cs[i].(jid := jid) else cs[i])
    case _ => cs
  }

  function SetText(cs: seq<DocComment>, op: string, text: Text): seq<DocComment> {
    seq(|cs|, i requires 0 <= i < |cs| => if cs[i].op == op then cs[i].(text := text) else cs[i])
  }

  function ApplyComments(cs: seq<DocComment>, ch: seq<LocalChange>, newOp: string -> string): seq<DocComment> {
    if ch == [] then cs
    else ApplyComment(ApplyComments(cs, ch[..|ch| - 1], newOp), ch[|ch| - 1], newOp)
  }

  function ApplyLocal(local: Doc, ch: seq<LocalChange>, newOp: string -> string): Doc {
    local.(fields := ApplyFields(local.fields, ch), comments := ApplyComments(local.comments, ch, newOp))
  }

  /** One commit: the local changes, and a marker when the base says something new. */
  function CommitSpec(st: Store, s: Session, m: Commit, newOp: string -> string): Store {
    var p := CommitPlan(s, st.local, m).plan;
    Store(ApplyLocal(st.local, p.local, newOp),
          if SameBase(CurrentBase(st.markers), p.base) then st.markers else st.markers + [p.base])
  }
}
