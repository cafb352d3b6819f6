/** The winner of a Jira id. */
module JiraIndex {
  // Of the issues naming one Jira id, the one that reached Jira first.

  import opened Documents
  import opened Order

  type Id = string

  /** A first contact with Jira, in seconds on Jira's clock; zero is no contact. */
  datatype Contact = Contact(at: nat, export_: bool)

  const NEVER := Contact(0, false)

  // ---- the first contact of one issue ----

  function Earliest(first: Contact, c: Contact): Contact {
    if c.at == 0 then first
    else if first.at == 0 || c.at < first.at then c
    else if c.at == first.at && c.export_ then Contact(first.at, true)
    else first
  }

  /** The earliest of an issue's create attempts, which are exports, and its markers' clocks. */
  function FirstSync(cs: seq<Contact>): Contact {
    if cs == [] then NEVER else Earliest(FirstSync(cs[..|cs| - 1]), cs[|cs| - 1])
  }

  method FindFirstSync(cs: seq<Contact>) returns (first: Contact)
    ensures first == FirstSync(cs)
  {
    first := NEVER;
    for i := 0 to |cs|
      invariant first == FirstSync(cs[..i])
    {
      assert cs[..i + 1][..i] == cs[..i];
      if cs[i].at != 0 {
        if first.at == 0 || cs[i].at < first.at {
          first := cs[i];
        } else if cs[i].at == first.at && cs[i].export_ {
          first := Contact(first.at, true);
        }
      }
    }
    assert cs[..|cs|] == cs;
  }

  /** No contact is earlier, and one at that second is an export if any is. */
  lemma {:induction false} FirstSyncIsFirst(cs: seq<Contact>)
    ensures var f := FirstSync(cs);
            && (f.at == 0 <==> forall c :: c in cs ==> c.at == 0) && (f.at == 0 ==> !f.export_)
            && (f.at != 0 ==> exists c :: c in cs && c.at == f.at)
            && (forall c :: c in cs && c.at != 0 ==> f.at <= c.at)
            && (f.at != 0 ==> (f.export_ <==> exists c :: c in cs && c.at == f.at && c.export_))
  {
    if cs != [] {
      var n := |cs| - 1;
      FirstSyncIsFirst(cs[..n]);
      assert forall c :: c in cs <==> c in cs[..n] || c == cs[n];
    }
  }

  // ---- the winner of two ----

  /** An issue, and its first contact: an immutable fact of its own history. */
  datatype Issue = Issue(id: Id, first: Contact)

  function MinId(a: Id, b: Id): Id { if Less(b, a) then b else a }

  function FirstToSync(a: Issue, b: Issue): Issue {
    if a.first.at == b.first.at && a.first.export_ == b.first.export_ then
      if MinId(a.id, b.id) == a.id then a else b
    else if a.first.at == b.first.at then
      if a.first.export_ then a else b
    else if b.first.at == 0 || (a.first.at != 0 && a.first.at < b.first.at) then a
    else b
  }

  /** Whether one issue is the Jira id's before another: no contact is last, then the earlier, an export, the lower id. */
  predicate Ahead(a: Issue, b: Issue) {
    if a.first.at != b.first.at then a.first.at != 0 && (b.first.at == 0 || a.first.at < b.first.at)
    else if a.first.export_ != b.first.export_ then a.first.export_
    else Less(a.id, b.id)
  }

  /** A strict total order, so the winner is the same whichever issue is met first. */
  lemma AheadIsOrder(a: Issue, b: Issue, c: Issue)
    ensures !Ahead(a, a) && !(Ahead(a, b) && Ahead(b, a))
    ensures Ahead(a, b) && Ahead(b, c) ==> Ahead(a, c)
    ensures a == b || Ahead(a, b) || Ahead(b, a)
    ensures FirstToSync(a, b) == FirstToSync(b, a) == if Ahead(b, a) then b else a
  {
    LessTotal(a.id, b.id);
    if Less(a.id, b.id) {
      LessAsymmetric(a.id, b.id);
      if Less(b.id, c.id) { LessTransitive(a.id, b.id, c.id); }
    }
    if Less(b.id, a.id) { LessAsymmetric(b.id, a.id); }
    if Less(a.id, a.id) { LessAsymmetric(a.id, a.id); }
  }

  // ---- the index ----

  /** An excerpt: the issue, and the Jira id its create operation names, if any. */
  datatype Excerpt = Excerpt(issue: Issue, jid: string)

  function Index(es: seq<Excerpt>): map<string, Issue> {
    if es == [] then map[]
    else
      var m, e := Index(es[..|es| - 1]), es[|es| - 1];
      if e.jid == "" then m
      else if e.jid !in m then m[e.jid := e.issue]
      else m[e.jid := FirstToSync(e.issue, m[e.jid])]
  }

  /** One pass over the excerpts, in whatever order the store hands them out. */
  method NewIndex(es: seq<Excerpt>) returns (m: map<string, Issue>)
    ensures m == Index(es)
  {
    m := map[];
    for i := 0 to |es|
      invariant m == Index(es[..i])
    {
      assert es[..i + 1][..i] == es[..i];
      var e := es[i];
      if e.jid != "" {
        if e.jid !in m {
          m := m[e.jid := e.issue];
        } else {
          m := m[e.jid := FirstToSync(e.issue, m[e.jid])];
        }
      }
    }
    assert es[..|es|] == es;
  }

  ghost predicate Names(es: seq<Excerpt>, jid: string, i: Issue) { Excerpt(i, jid) in es && jid != "" }

  /** The winner names the Jira id, and is ahead of every other issue that does. */
  lemma {:induction false} IndexIsLeast(es: seq<Excerpt>, jid: string)
    ensures jid in Index(es) <==> exists i :: Names(es, jid, i)
    ensures jid in Index(es) ==> Names(es, jid, Index(es)[jid])
    ensures jid in Index(es) ==> forall i :: Names(es, jid, i) ==> i == Index(es)[jid] || Ahead(Index(es)[jid], i)
  {
    if es != [] {
      var n := |es| - 1;
      var e := es[n];
      IndexIsLeast(es[..n], jid);
      assert forall x :: x in es <==> x in es[..n] || x == e;
      assert forall i :: Names(es, jid, i) <==> Names(es[..n], jid, i) || (jid != "" && e == Excerpt(i, jid));
      if e.jid == jid && jid != "" {
        assert Names(es, jid, e.issue);
        if jid in Index(es[..n]) {
          var was := Index(es[..n])[jid];
          AheadIsOrder(e.issue, was, was);
          forall i | Names(es, jid, i) ensures i == Index(es)[jid] || Ahead(Index(es)[jid], i) {
            AheadIsOrder(e.issue, was, i);
          }
        }
      }
    }
  }

  /**
   What the winner is in terms of contacts alone: no issue naming the id synced before it; none
   that synced with it was exported if it was not; and of those that did both alike its id is
   the least.
   */
  lemma WinnerSyncedFirst(es: seq<Excerpt>, jid: string, i: Issue)
    requires Names(es, jid, i)
    ensures jid in Index(es)
    ensures var a, b := Index(es)[jid].first, i.first;
            && (b.at != 0 ==> 0 < a.at <= b.at)
            && (a.at == b.at && b.export_ ==> a.export_)
            && (a == b && Index(es)[jid] != i ==> Less(Index(es)[jid].id, i.id))
  {
    IndexIsLeast(es, jid);
  }

  /** Whatever order the copies are met in, the index is the same. */
  lemma IndexOrderIndependent(es: seq<Excerpt>, fs: seq<Excerpt>)
    requires forall e :: e in es <==> e in fs
    ensures Index(es) == Index(fs)
  {
    forall jid ensures jid in Index(es) <==> jid in Index(fs)
      ensures jid in Index(es) ==> Index(es)[jid] == Index(fs)[jid]
    {
      IndexIsLeast(es, jid);
      IndexIsLeast(fs, jid);
      forall i ensures Names(es, jid, i) <==> Names(fs, jid, i) { }
      if jid in Index(es) {
        AheadIsOrder(Index(es)[jid], Index(fs)[jid], Index(es)[jid]);
      }
    }
  }
}
