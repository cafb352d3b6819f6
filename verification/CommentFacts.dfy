/** Comments through one merge: what becomes of each local comment, each import, each base. */
module CommentFacts {
  import opened Order
  import opened Documents
  import opened Merging
  import opened MergeFacts
  import opened Engine

  // ---- applying changes to one comment ----

  /** The comment a change targets by its operation. */
  predicate Targets(lc: LocalChange, op: string) {
    (lc.EditComment? || lc.Tombstone? || lc.PairComment?) && lc.op == op
  }

  function ApplyOne(d: DocComment, ch: seq<LocalChange>): DocComment {
    if ch == [] then d
    else
      var e, lc := ApplyOne(d, ch[..|ch| - 1]), ch[|ch| - 1];
      if !Targets(lc, d.op) then e
      else if lc.PairComment? then e.(jid := lc.jid)
      else e.(text := lc.text)
  }

  function Imports(ch: seq<LocalChange>, newOp: string -> string): seq<DocComment> {
    if ch == [] then []
    else
      var lc := ch[|ch| - 1];
      Imports(ch[..|ch| - 1], newOp) + (if lc.AddComment? then [DocComment(newOp(lc.jid), lc.jid, lc.text, true, false)] else [])
  }

  lemma {:induction false} ApplyOneOp(d: DocComment, ch: seq<LocalChange>)
    ensures ApplyOne(d, ch).op == d.op && ApplyOne(d, ch).note == d.note
  {
    if ch != [] { ApplyOneOp(d, ch[..|ch| - 1]); }
  }

  lemma {:induction false} ImportsNew(ch: seq<LocalChange>, newOp: string -> string)
    ensures forall x :: x in Imports(ch, newOp) ==> exists j :: x.op == newOp(j) && x.jid == j
  {
    if ch != [] {
      ImportsNew(ch[..|ch| - 1], newOp);
      var lc := ch[|ch| - 1];
      if lc.AddComment? {
        assert DocComment(newOp(lc.jid), lc.jid, lc.text, true, false).op == newOp(lc.jid);
      }
    }
  }

  /** The change targets no imported comment. */
  ghost predicate SparesImports(lc: LocalChange, newOp: string -> string) {
    forall j :: !Targets(lc, newOp(j))
  }

  /** The comments there were, each with the changes that target it, then the imports. */
  lemma {:induction false} ApplyCommentsIs(cs: seq<DocComment>, ch: seq<LocalChange>, newOp: string -> string)
    requires forall lc :: lc in ch ==> SparesImports(lc, newOp)
    ensures ApplyComments(cs, ch, newOp) ==
            seq(|cs|, i requires 0 <= i < |cs| => ApplyOne(cs[i], ch)) + Imports(ch, newOp)
  {
    if ch == [] {
      assert seq(|cs|, i requires 0 <= i < |cs| => ApplyOne(cs[i], ch)) == cs;
    } else {
      var front, lc := ch[..|ch| - 1], ch[|ch| - 1];
      ApplyCommentsIs(cs, front, newOp);
      assert lc in ch;
      ImportsNew(front, newOp);
      forall i | 0 <= i < |cs| ensures ApplyOne(cs[i], front).op == cs[i].op { ApplyOneOp(cs[i], front); }
      LastChange(cs, front, lc, newOp);
    }
  }

  lemma LastChange(cs: seq<DocComment>, front: seq<LocalChange>, lc: LocalChange, newOp: string -> string)
    requires forall i :: 0 <= i < |cs| ==> ApplyOne(cs[i], front).op == cs[i].op
    requires forall x :: x in Imports(front, newOp) ==> exists j :: x.op == newOp(j) && x.jid == j
    requires SparesImports(lc, newOp)
    ensures ApplyComment(seq(|cs|, i requires 0 <= i < |cs| => ApplyOne(cs[i], front)) + Imports(front, newOp), lc, newOp) ==
            seq(|cs|, i requires 0 <= i < |cs| => ApplyOne(cs[i], front + [lc])) + Imports(front + [lc], newOp)
  {
    var ch := front + [lc];
    assert ch[..|ch| - 1] == front;
    var was := seq(|cs|, i requires 0 <= i < |cs| => ApplyOne(cs[i], front));
    var imports := Imports(front, newOp);
    var got := ApplyComment(was + imports, lc, newOp);
    if !lc.AddComment? {
      assert Imports(ch, newOp) == imports;
      forall k | 0 <= k < |imports| ensures got[|cs| + k] == imports[k] {
        assert (was + imports)[|cs| + k] == imports[k] && imports[k] in imports;
      }
    }
  }

  lemma {:induction false} ApplyOneConcat(d: DocComment, a: seq<LocalChange>, b: seq<LocalChange>)
    ensures ApplyOne(d, a + b) == ApplyOne(ApplyOne(d, a), b)
  {
    ApplyOneOp(d, a);
    if b == [] {
      assert a + b == a;
    } else {
      ApplyOneConcat(d, a, b[..|b| - 1]);
      assert (a + b)[..|a + b| - 1] == a + b[..|b| - 1];
      ApplyOneOp(d, a + b[..|b| - 1]);
    }
  }

  lemma {:induction false} ApplyOneElsewhere(d: DocComment, ch: seq<LocalChange>)
    requires forall lc :: lc in ch ==> !Targets(lc, d.op)
    ensures ApplyOne(d, ch) == d
  {
    if ch != [] {
      assert ch[|ch| - 1] in ch;
      ApplyOneElsewhere(d, ch[..|ch| - 1]);
    }
  }
}
