/** The base of an issue. */
module Bases {
  // `fresh` gives a new link its first base, `confirm` resolves every write in flight against a read of
  // Jira.

  import opened Order
  import opened Documents

  // ---- fresh: the first base of an issue just created in Jira ----

  predicate Unset(v: Value) { v == Null || v == Items({}) }

  function FreshValue(local: Doc, remote: Doc, k: string): Value
    requires k in remote.fields
  {
    var lv := Form(k, At(local.fields, k));
    if Unset(lv) then lv else Form(k, remote.fields[k])
  }

  function FreshSpec(b: BaseState, local: Doc, remote: Doc): BaseState {
    b.(unmerged := false,
       fields := map k | k in b.fields.Keys + (remote.fields.Keys - b.sent.Keys)
                   :: if k in b.fields then b.fields[k] else FreshValue(local, remote, k))
  }

  // ---- confirm: each write in flight against a GET ----

  /** What a confirm knows besides the base: the read, the list-valued keys, the keys the read answers, the clock. */
  datatype Read = Read(doc: Doc, multi: set<string>, echo: set<Key>, now: int, window: int)

  predicate Landed(b: BaseState, r: Read) { b.wrote <= r.doc.updated }

  predicate Stale(b: BaseState, r: Read) { !Landed(b, r) && r.now - b.wrote < r.window }

  /** Jira shows the value written. */
  predicate HeldField(r: Read, f: string, sent: Value) {
    var v := At(r.doc.fields, f);
    if f in r.multi then SetOf(v) == SetOf(sent) else Form(f, v) == sent
  }

  predicate HeldComment(r: Read, jid: string, sent: string) {
    var c := ByJid(r.doc.comments, jid);
    c.Some? && c.value.text.digest == sent
  }

  predicate KeptField(b: BaseState, r: Read, f: string)
    requires f in b.sent
  {
    !HeldField(r, f, b.sent[f]) && Stale(b, r)
  }

  predicate KeptComment(b: BaseState, r: Read, jid: string)
    requires jid in b.sentComments
  {
    !HeldComment(r, jid, b.sentComments[jid]) && Stale(b, r)
  }

  /** The base a key's write resolves to; None leaves the base it has. */
  function FieldBase(b: BaseState, r: Read, f: string): Option<Value> {
    if f !in b.sent || f in r.multi then None
    else if HeldField(r, f, b.sent[f]) || (Landed(b, r) && Field(f) in r.echo) then Some(b.sent[f])
    else if !Stale(b, r) then Some(UNKNOWN_BASE)
    else None
  }

  function CommentBase(b: BaseState, r: Read, jid: string): Option<string> {
    if jid !in b.sentComments then None
    else
      var sd := b.sentComments[jid];
      if HeldComment(r, jid, sd) || (ByJid(r.doc.comments, jid).None? && !Stale(b, r)) then Some(sd)
      else if Landed(b, r) && Comment(jid) in r.echo then Some(sd)
      else if !Stale(b, r) then Some(UNKNOWN_COMMENT)
      else None
  }

  function UnseenSkips(sent: map<string, Value>, sentComments: map<string, string>): set<Skip> {
    (set f | f in sent :: Skip(Field(f), Unconfirmed, true)) +
    (set j | j in sentComments :: Skip(Comment(j), Unconfirmed, true))
  }

  function ConfirmedFields(b: BaseState, r: Read): map<string, Value> {
    map f | f in b.fields.Keys + b.sent.Keys && (f in b.fields || FieldBase(b, r, f).Some?)
      :: if FieldBase(b, r, f).Some? then FieldBase(b, r, f).value else b.fields[f]
  }

  function ConfirmedComments(b: BaseState, r: Read): map<string, string> {
    map j | j in b.comments.Keys + b.sentComments.Keys && (j in b.comments || CommentBase(b, r, j).Some?)
      :: if CommentBase(b, r, j).Some? then CommentBase(b, r, j).value else b.comments[j]
  }

  function UnseenFields(b: BaseState, r: Read): map<string, Value> {
    map f | f in b.sent && KeptField(b, r, f) :: b.sent[f]
  }

  function UnseenComments(b: BaseState, r: Read): map<string, string> {
    map j | j in b.sentComments && KeptComment(b, r, j) :: b.sentComments[j]
  }

  function ConfirmSpec(b: BaseState, r: Read): BaseState {
    b.(fields := ConfirmedFields(b, r),
       comments := ConfirmedComments(b, r),
       sent := UnseenFields(b, r),
       sentComments := UnseenComments(b, r))
  }

  lemma ConfirmedFieldsAt(b: BaseState, r: Read, fields: map<string, Value>, sent: map<string, Value>)
    requires forall x :: x in sent <==> x in b.sent && KeptField(b, r, x)
    requires forall x :: x in sent ==> sent[x] == b.sent[x]
    requires forall x :: x in fields <==> x in b.fields || FieldBase(b, r, x).Some?
    requires forall x :: x in fields && FieldBase(b, r, x).Some? ==> fields[x] == FieldBase(b, r, x).value
    requires forall x :: x in fields && FieldBase(b, r, x).None? ==> fields[x] == b.fields[x]
    ensures fields == ConfirmedFields(b, r) && sent == UnseenFields(b, r)
  {
  }

  lemma ConfirmedCommentsAt(b: BaseState, r: Read, comments: map<string, string>, sent: map<string, string>)
    requires forall x :: x in sent <==> x in b.sentComments && KeptComment(b, r, x)
    requires forall x :: x in sent ==> sent[x] == b.sentComments[x]
    requires forall x :: x in comments <==> x in b.comments || CommentBase(b, r, x).Some?
    requires forall x :: x in comments && CommentBase(b, r, x).Some? ==> comments[x] == CommentBase(b, r, x).value
    requires forall x :: x in comments && CommentBase(b, r, x).None? ==> comments[x] == b.comments[x]
    ensures comments == ConfirmedComments(b, r) && sent == UnseenComments(b, r)
  {
  }

  /** What a confirm leaves pending: exactly the writes it keeps in flight. */
  function ConfirmSkips(b: BaseState, r: Read): set<Skip> {
    var c := ConfirmSpec(b, r);
    UnseenSkips(c.sent, c.sentComments)
  }

  /** The base once the keys in `done` are filled in. */
  ghost function FreshOver(b: BaseState, local: Doc, remote: Doc, done: set<string>): map<string, Value>
    requires done <= remote.fields.Keys
  {
    map x | x in b.fields.Keys + (done - b.sent.Keys) ::
      if x in b.fields then b.fields[x] else FreshValue(local, remote, x)
  }

  lemma FreshNext(b: BaseState, local: Doc, remote: Doc, done: set<string>, k: string)
    requires done <= remote.fields.Keys && k in remote.fields && k !in done
    ensures var m := FreshOver(b, local, remote, done);
            FreshOver(b, local, remote, done + {k})
            == if k in b.fields || k in b.sent then m else m[k := FreshValue(local, remote, k)]
    ensures k in FreshOver(b, local, remote, done) <==> k in b.fields
  {
  }

  method FreshLoop(b: BaseState, local: Doc, remote: Doc) returns (fields: map<string, Value>)
    ensures fields == FreshSpec(b, local, remote).fields
  {
    fields := b.fields;
    var todo := remote.fields.Keys;
    ghost var done: set<string> := {};
    assert FreshOver(b, local, remote, done) == b.fields;
    while todo != {}
      invariant todo + done == remote.fields.Keys && todo !! done
      invariant fields == FreshOver(b, local, remote, done)
      decreases todo
    {
      var k :| k in todo;
      FreshNext(b, local, remote, done, k);
      todo, done := todo - {k}, done + {k};
      if k !in fields && k !in b.sent {
        var lv := Form(k, At(local.fields, k));
        fields := fields[k := if Unset(lv) then lv else Form(k, remote.fields[k])];
      }
    }
    assert done == remote.fields.Keys;
  }

  method ConfirmFieldsLoop(b: BaseState, r: Read)
    returns (fields: map<string, Value>, sent: map<string, Value>, skips: set<Skip>)
    ensures fields == ConfirmedFields(b, r) && sent == UnseenFields(b, r)
    ensures skips == set k | k in sent :: Skip(Field(k), Unconfirmed, true)
  {
    fields, sent := b.fields, b.sent;
    var stale := !(b.wrote <= r.doc.updated) && r.now - b.wrote < r.window;
    var todo := sent.Keys;
    while todo != {}
      invariant forall x :: x in todo ==> x in b.sent
      invariant forall x :: x in fields <==> x in b.fields || (x !in todo && FieldBase(b, r, x).Some?)
      invariant forall x :: x in fields && x !in todo && FieldBase(b, r, x).Some? ==> fields[x] == FieldBase(b, r, x).value
      invariant forall x :: x in fields && (x in todo || FieldBase(b, r, x).None?) ==> fields[x] == b.fields[x]
      invariant forall x :: x in sent <==> x in b.sent && (x in todo || KeptField(b, r, x))
      invariant forall x :: x in sent ==> sent[x] == b.sent[x]
      decreases |todo|
    {
      var k :| k in todo;
      todo := todo - {k};
      var held := HeldField(r, k, sent[k]);
      var based: Option<Value> := None;
      if k in r.multi {
      } else if held || (b.wrote <= r.doc.updated && Field(k) in r.echo) {
        based := Some(sent[k]);
      } else if !stale {
        based := Some(UNKNOWN_BASE);
      }
      assert based == FieldBase(b, r, k);
      if based.Some? {
        fields := fields[k := based.value];
      }
      if held || !stale {
        sent := sent - {k};
      }
    }
    ConfirmedFieldsAt(b, r, fields, sent);
    skips := set k | k in sent :: Skip(Field(k), Unconfirmed, true);
  }

  method ConfirmCommentsLoop(b: BaseState, r: Read)
    returns (fields: map<string, string>, sent: map<string, string>, skips: set<Skip>)
    ensures fields == ConfirmedComments(b, r) && sent == UnseenComments(b, r)
    ensures skips == set k | k in sent :: Skip(Comment(k), Unconfirmed, true)
  {
    fields, sent := b.comments, b.sentComments;
    var stale := !(b.wrote <= r.doc.updated) && r.now - b.wrote < r.window;
    var todo := sent.Keys;
    while todo != {}
      invariant forall x :: x in todo ==> x in b.sentComments
      invariant forall x :: x in fields <==> x in b.comments || (x !in todo && CommentBase(b, r, x).Some?)
      invariant forall x :: x in fields && x !in todo && CommentBase(b, r, x).Some? ==> fields[x] == CommentBase(b, r, x).value
      invariant forall x :: x in fields && (x in todo || CommentBase(b, r, x).None?) ==> fields[x] == b.comments[x]
      invariant forall x :: x in sent <==> x in b.sentComments && (x in todo || KeptComment(b, r, x))
      invariant forall x :: x in sent ==> sent[x] == b.sentComments[x]
      decreases |todo|
    {
      var k :| k in todo;
      todo := todo - {k};
      var held := HeldComment(r, k, sent[k]);
      var based: Option<string> := None;
      if held || (ByJid(r.doc.comments, k).None? && !stale) {
        based := Some(sent[k]);
      } else if b.wrote <= r.doc.updated && Comment(k) in r.echo {
        based := Some(sent[k]);
      } else if !stale {
        based := Some(UNKNOWN_COMMENT);
      }
      assert based == CommentBase(b, r, k);
      if based.Some? {
        fields := fields[k := based.value];
      }
      if held || !stale {
        sent := sent - {k};
      }
    }
    ConfirmedCommentsAt(b, r, fields, sent);
    skips := set k | k in sent :: Skip(Comment(k), Unconfirmed, true);
  }

  /** The base as the sync updates it in place. */
  class Base {
    var id: string
    var key: string
    var updated: int
    var fields: map<string, Value>
    var comments: map<string, string>
    var retry: set<Key>
    var gone: string
    var sent: map<string, Value>
    var sentComments: map<string, string>
    var wrote: int
    var unmerged: bool

    function State(): BaseState
      reads this
    {
      BaseState(id, key, updated, fields, comments, retry, gone, sent, sentComments, wrote, unmerged)
    }

    constructor Clone(b: BaseState)
      ensures State() == b
    {
      id, key, updated, fields, comments := b.id, b.key, b.updated, b.fields, b.comments;
      retry, gone, sent, sentComments, wrote, unmerged := b.retry, b.gone, b.sent, b.sentComments, b.wrote, b.unmerged;
    }

    method Fresh(local: Doc, remote: Doc)
      modifies this
      ensures State() == FreshSpec(old(State()), local, remote)
    {
      fields := FreshLoop(State(), local, remote);
      unmerged := false;
    }

    method Confirm(r: Read) returns (skips: set<Skip>)
      modifies this
      ensures State() == ConfirmSpec(old(State()), r)
      ensures skips == ConfirmSkips(old(State()), r)
    {
      var b := State();
      var fieldSkips, commentSkips;
      fields, sent, fieldSkips := ConfirmFieldsLoop(b, r);
      comments, sentComments, commentSkips := ConfirmCommentsLoop(b, r);
      skips := fieldSkips + commentSkips;
    }

    /** Sets a key's base back to an earlier one's; none takes it away. */
    method Restore(prior: Option<BaseState>, k: string)
      modifies `fields
      ensures fields == RestoreSpec(old(fields), prior, k)
    {
      var p := OrEmpty(prior);
      if k in p.fields {
        fields := fields[k := p.fields[k]];
      } else {
        fields := fields - {k};
      }
    }
  }

  function RestoreSpec(fields: map<string, Value>, prior: Option<BaseState>, k: string): map<string, Value> {
    var p := OrEmpty(prior).fields;
    if k in p then fields[k := p[k]] else fields - {k}
  }

  // ---- settle: the base and the read a merge starts from ----

  function SettleBase(b: Option<BaseState>, local: Doc, r: Read): Option<BaseState> {
    if b.None? || (!b.value.unmerged && b.value.sent == map[] && b.value.sentComments == map[]) then b
    else
      var f := if b.value.unmerged then FreshSpec(b.value, local, r.doc) else b.value;
      Some(ConfirmSpec(f, r))
  }

  function SettleDoc(b: Option<BaseState>, local: Doc, r: Read): Doc {
    if b.None? || (!b.value.unmerged && b.value.sent == map[] && b.value.sentComments == map[]) then r.doc
    else
      var f := if b.value.unmerged then FreshSpec(b.value, local, r.doc) else b.value;
      r.doc.(skip := r.doc.skip + ConfirmSkips(f, r))
  }

  method Settle(b: Option<BaseState>, local: Doc, r: Read) returns (settled: Option<BaseState>, remote: Doc)
    ensures settled == SettleBase(b, local, r) && remote == SettleDoc(b, local, r)
  {
    if b.None? || (!b.value.unmerged && b.value.sent == map[] && b.value.sentComments == map[]) {
      return b, r.doc;
    }
    var c := new Base.Clone(b.value);
    if c.unmerged {
      c.Fresh(local, r.doc);
    }
    var skips := c.Confirm(r);
    settled, remote := Some(c.State()), r.doc.(skip := r.doc.skip + skips);
  }
}
