/** What the writes of a plan leave in flight, key by key. */
module EngineFacts {
  import opened Order
  import opened Documents
  import opened Bases
  import opened Merging
  import opened MergeFacts
  import opened Engine

  /** The write of a key that landed, if the plan has one. */
  function LandedField(remote: seq<Change>, doc: Doc, a: Answers, k: string): Option<Value> {
    var s := Sent(remote, k);
    if s != [] && k in a.accepted then Some(SentForm(s[|s| - 1], doc)) else None
  }

  /** Exactly the accepted keys join the writes in flight, each with the form written. */
  lemma {:induction false} WriteFieldsAt(w: Written, remote: seq<Change>, doc: Doc, a: Answers, k: string)
    ensures var q := WriteFields(w, remote, doc, a);
            var landed := LandedField(remote, doc, a, k);
            && (k in q.base.sent <==> k in w.base.sent || landed.Some?)
            && (k in q.base.sent ==> q.base.sent[k] == if landed.Some? then landed.value else w.base.sent[k])
            && (landed.Some? ==> q.wrote && q.base.wrote == a.before)
            && (q.base.wrote == w.base.wrote || q.base.wrote == a.before)
            && (w.wrote ==> q.wrote)
            && q.base == w.base.(sent := q.base.sent, wrote := q.base.wrote) && q.pairs == w.pairs
  {
    if remote != [] {
      WriteFieldsAt(w, remote[..|remote| - 1], doc, a, k);
    }
  }

  /** Comments leave the fields in flight as they are. */
  lemma {:induction false} WriteCommentsAt(w: Written, writes: seq<CommentWrite>, a: Answers)
    ensures var q := WriteComments(w, writes, a);
            && q.base == w.base.(sentComments := q.base.sentComments, wrote := q.base.wrote)
            && (q.base.wrote == w.base.wrote || q.base.wrote == a.before)
            && (w.wrote ==> q.wrote)
  {
    if writes != [] {
      WriteCommentsAt(w, writes[..|writes| - 1], a);
    }
  }

  /** A write that landed is remembered with its form and Jira's clock before it. */
  lemma WriteAt(b: BaseState, p: Plan, doc: Doc, a: Answers, k: string)
    ensures var q := WriteSpec(b, p, doc, a);
            var landed := LandedField(p.remote, doc, a, k);
            && (k in q.base.sent <==> k in b.sent || landed.Some?)
            && (k in q.base.sent ==> q.base.sent[k] == if landed.Some? then landed.value else b.sent[k])
            && (landed.Some? ==> q.wrote && q.base.wrote == a.before)
            && q.base == b.(sent := q.base.sent, sentComments := q.base.sentComments, wrote := q.base.wrote)
  {
    var w := Written(b, map[], a.partial);
    WriteFieldsAt(w, p.remote, doc, a, k);
    WriteCommentsAt(WriteFields(w, p.remote, doc, a), p.writes, a);
  }

  lemma PairsTouchNoField(fields: map<string, Value>, local: seq<LocalChange>, cs: seq<DocComment>,
                                             pairs: map<string, string>, k: string)
    ensures ApplyKey(At(fields, k), local + PairChanges(cs, pairs), k) == ApplyKey(At(fields, k), local, k)
  {
    ApplyKeyConcat(At(fields, k), local, PairChanges(cs, pairs), k);
    PairsHaveNoKey(cs, pairs);
    ApplyKeyElsewhere(ApplyKey(At(fields, k), local, k), PairChanges(cs, pairs), k);
  }

  lemma {:induction false} PairsHaveNoKey(cs: seq<DocComment>, pairs: map<string, string>)
    ensures forall lc :: lc in PairChanges(cs, pairs) ==> lc.PairComment?
  {
    if cs != [] { PairsHaveNoKey(cs[..|cs| - 1], pairs); }
  }

  // ---- an empty body at first contact ----

  /**
   At first contact a key with no local value takes Jira's form for its base only when Jira has
   none either, or when it is the body: an empty body is not unset.
   */
  lemma FirstBaseOfUnset(b: BaseState, local: Doc, remote: Doc, k: string)
    requires k in remote.fields && k !in b.fields && k !in b.sent && At(local.fields, k) == Null
    ensures var base := FreshSpec(b, local, remote).fields;
            && k in base
            && (base[k] == Form(k, remote.fields[k]) <==> k == BODY || remote.fields[k] == Null)
            && (k != BODY ==> base[k] == Null)
  {
  }

  /** So the first round writes a missing local body over Jira's text, exactly when it may write and the texts differ. */
  lemma EmptyBodyWritten(b: BaseState, local: Doc, r: Read)
    requires b.unmerged && BODY in r.doc.fields && BODY !in b.fields && BODY !in b.sent && BODY !in r.multi
    requires At(local.fields, BODY) == Null
    ensures Sent(FirstPlan(Some(b), local, r).remote, BODY) == [SetTo(BODY, Null)] <==>
              && TextOf(r.doc.fields[BODY]).digest != EMPTY_DIGEST
              && !r.doc.lossy && Field(BODY) !in Skipped(r.doc)
  {
    hide MergeCtx, SettleBase, SettleDoc;
    var c := CtxOf(SettleBase(Some(b), local, r), local, SettleDoc(Some(b), local, r), r.multi, true);
    MergeAt(c, BODY);
    FirstBody(b, local, r);
  }

  lemma FirstBody(b: BaseState, local: Doc, r: Read)
    requires b.unmerged && BODY in r.doc.fields && BODY !in b.fields && BODY !in b.sent
    requires At(local.fields, BODY) == Null
    ensures var fields, d := OrEmpty(SettleBase(Some(b), local, r)).fields, SettleDoc(Some(b), local, r);
            && BODY in fields && fields[BODY] == Form(BODY, r.doc.fields[BODY])
            && (Field(BODY) in Skipped(d) <==> Field(BODY) in Skipped(r.doc))
            && d == r.doc.(skip := d.skip)
  {
    FirstBaseOfUnset(b, local, r.doc, BODY);
    var f := FreshSpec(b, local, r.doc);
    assert BODY !in UnseenFields(f, r) && FieldBase(f, r, BODY).None?;
  }
}
