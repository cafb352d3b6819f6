/** Re-pointing relations at the winners of duplicate issues. */
module Sweep {
  import opened Documents
  import opened Order
  import opened JiraIndex

  /** A field's value as a sweep sees it: one target, a set of targets, or nothing it re-points. */
  datatype Relation = One(target: Id) | Many(targets: seq<Id>) | Plain(raw: string)

  datatype Op = SetTo(key: string, target: Id) | RemoveTarget(key: string, target: Id) | AddTarget(key: string, target: Id)

  /** What the sweep knows of the store: the Jira id each issue's create names, and the index. */
  datatype World = World(jids: map<Id, string>, index: map<string, Issue>)

  /** The issue indexed under the target's Jira id, when that is not the target. */
  function WinnerOf(w: World, target: Id): Option<Id> {
    if target !in w.jids || w.jids[target] == "" || w.jids[target] !in w.index then None
    else
      var winner := w.index[w.jids[target]].id;
      if winner == target then None else Some(winner)
  }

  function Image(w: World, target: Id): Id { WinnerOf(w, target).GetOr(target) }

  /** The index's winner for a Jira id is an issue whose create names it. */
  ghost predicate Consistent(w: World) {
    forall jid :: jid in w.index ==> w.index[jid].id in w.jids && w.jids[w.index[jid].id] == jid
  }

  lemma WinnerStays(w: World, target: Id)
    requires Consistent(w)
    ensures WinnerOf(w, Image(w, target)) == None
  {
  }

  // ---- the operations of one field ----

  function ItemOps(w: World, k: string, targets: seq<Id>): seq<Op> {
    if targets == [] then []
    else
      var it := targets[|targets| - 1];
      var to := WinnerOf(w, it);
      ItemOps(w, k, targets[..|targets| - 1]) + if to.Some? then [RemoveTarget(k, it), AddTarget(k, to.value)] else []
  }

  function FieldOps(w: World, k: string, r: Relation): seq<Op> {
    match r
    case One(t) => if WinnerOf(w, t).Some? then [SetTo(k, WinnerOf(w, t).value)] else []
    case Many(ts) => ItemOps(w, k, ts)
    case Plain(_) => []
  }

  function Without(xs: seq<Id>, x: Id): seq<Id> {
    if xs == [] then [] else Without(xs[..|xs| - 1], x) + if xs[|xs| - 1] == x then [] else [xs[|xs| - 1]]
  }

  /** One operation on one field; a set holds an item once. */
  function ApplyOp(r: Relation, op: Op): Relation {
    match op
    case SetTo(_, t) => One(t)
    case RemoveTarget(_, t) => if r.Many? then Many(Without(r.targets, t)) else r
    case AddTarget(_, t) => if r.Many? && t !in r.targets then Many(r.targets + [t]) else r
  }

  function ApplyOps(fields: map<string, Relation>, ops: seq<Op>): map<string, Relation> {
    if ops == [] then fields
    else
      var f, op := ApplyOps(fields, ops[..|ops| - 1]), ops[|ops| - 1];
      if op.key in f then f[op.key := ApplyOp(f[op.key], op)] else f
  }

  function ApplyTo(r: Relation, ops: seq<Op>, k: string): Relation {
    if ops == [] then r
    else
      var s, op := ApplyTo(r, ops[..|ops| - 1], k), ops[|ops| - 1];
      if op.key == k then ApplyOp(s, op) else s
  }

  lemma {:induction false} ApplyOpsAt(fields: map<string, Relation>, ops: seq<Op>, k: string)
    ensures ApplyOps(fields, ops).Keys == fields.Keys
    ensures k in fields ==> ApplyOps(fields, ops)[k] == ApplyTo(fields[k], ops, k)
  {
    if ops != [] { ApplyOpsAt(fields, ops[..|ops| - 1], k); }
  }

  lemma {:induction false} ApplyToConcat(r: Relation, a: seq<Op>, b: seq<Op>, k: string)
    ensures ApplyTo(r, a + b, k) == ApplyTo(ApplyTo(r, a, k), b, k)
  {
    if b == [] {
      assert a + b == a;
    } else {
      ApplyToConcat(r, a, b[..|b| - 1], k);
      assert (a + b)[..|a + b| - 1] == a + b[..|b| - 1];
    }
  }

  lemma {:induction false} ApplyToOthers(r: Relation, ops: seq<Op>, k: string)
    requires forall op :: op in ops ==> op.key != k
    ensures ApplyTo(r, ops, k) == r
  {
    if ops != [] {
      assert ops[|ops| - 1] in ops;
      ApplyToOthers(r, ops[..|ops| - 1], k);
    }
  }

  lemma {:induction false} WithoutIs(xs: seq<Id>, x: Id)
    ensures forall y :: y in Without(xs, x) <==> y in xs && y != x
  {
    if xs != [] {
      WithoutIs(xs[..|xs| - 1], x);
      assert xs == xs[..|xs| - 1] + [xs[|xs| - 1]];
    }
  }

  /** What a relation names. */
  function Targets(r: Relation): set<Id> {
    match r
    case One(t) => {t}
    case Many(ts) => set t | t in ts
    case Plain(_) => {}
  }

  function Images(w: World, ts: set<Id>): set<Id> { set t | t in ts :: Image(w, t) }

  /** The items re-pointed so far: those whose turn came are their images, the rest as they were. */
  lemma {:induction false} ItemsSwept(w: World, k: string, all: seq<Id>, n: nat)
    requires Consistent(w) && n <= |all| && Distinct(all)
    ensures var r := ApplyTo(Many(all), ItemOps(w, k, all[..n]), k);
            r.Many? && forall x :: x in r.targets <==> (exists i :: 0 <= i < n && Image(w, all[i]) == x) || x in all[n..]
  {
    if n > 0 {
      ItemsSwept(w, k, all, n - 1);
      assert all[..n][..n - 1] == all[..n - 1];
      var it := all[n - 1];
      var was := ApplyTo(Many(all), ItemOps(w, k, all[..n - 1]), k);
      var to := WinnerOf(w, it);
      assert forall x :: x in all[n - 1..] <==> x == it || x in all[n..];
      if to.Some? {
        TwoOps(was, k, it, to.value);
        ApplyToConcat(Many(all), ItemOps(w, k, all[..n - 1]), [RemoveTarget(k, it), AddTarget(k, to.value)], k);
        WithoutIs(was.targets, it);
        forall i | 0 <= i < n ensures Image(w, all[i]) != it { WinnerStays(w, all[i]); }
        assert it !in all[n..];
      } else {
        assert ItemOps(w, k, all[..n]) == ItemOps(w, k, all[..n - 1]);
      }
    } else {
      assert all[..0] == [] && all[0..] == all;
    }
  }

  lemma TwoOps(r: Relation, k: string, it: Id, to: Id)
    requires r.Many?
    ensures ApplyTo(r, [RemoveTarget(k, it), AddTarget(k, to)], k) == ApplyOp(ApplyOp(r, RemoveTarget(k, it)), AddTarget(k, to))
  {
    hide ApplyOp;
    var a, b := RemoveTarget(k, it), AddTarget(k, to);
    assert [a, b][..1] == [a] && [a][..0] == [];
    assert ApplyTo(r, [a], k) == ApplyOp(r, a);
  }

  lemma OneSwept(w: World, k: string, t: Id)
    ensures ApplyTo(One(t), FieldOps(w, k, One(t)), k) == One(Image(w, t)) && Images(w, {t}) == {Image(w, t)}
  {
    if WinnerOf(w, t).Some? {
      var op := SetTo(k, WinnerOf(w, t).value);
      assert [op][..0] == [];
      assert ApplyTo(One(t), [op], k) == ApplyOp(One(t), op);
    }
  }

  /** A field's operations leave exactly the images of its targets. */
  lemma FieldSwept(w: World, k: string, r: Relation)
    requires Consistent(w) && (r.Many? ==> Distinct(r.targets))
    ensures var s := ApplyTo(r, FieldOps(w, k, r), k);
            && Targets(s) == Images(w, Targets(r)) && (r.Plain? ==> s == r) && (r.One? <==> s.One?) && (r.Many? <==> s.Many?)
  {
    match r {
      case One(t) =>
        OneSwept(w, k, t);
      case Many(ts) =>
        ItemsSwept(w, k, ts, |ts|);
        assert ts[..|ts|] == ts && ts[|ts|..] == [];
        var s := ApplyTo(r, FieldOps(w, k, r), k);
        assert s.Many?;
        assert forall i :: 0 <= i < |ts| ==> ts[i] in ts;
        forall x ensures x in Targets(s) <==> x in Images(w, Targets(r)) {
          if x in Images(w, Targets(r)) {
            var t :| t in ts && Image(w, t) == x;
            var i :| 0 <= i < |ts| && ts[i] == t;
            assert Image(w, ts[i]) == x;
          }
        }
      case Plain(_) =>
        assert FieldOps(w, k, r) == [] && ApplyTo(r, [], k) == r;
        assert Images(w, {}) == {};
    }
  }

  // ---- the operations of one issue ----

  function OpsOver(w: World, fields: map<string, Relation>, keys: seq<string>): seq<Op>
    requires forall k :: k in keys ==> k in fields
  {
    if keys == [] then []
    else
      var k := keys[|keys| - 1];
      assert k in keys && forall x :: x in keys[..|keys| - 1] ==> x in keys;
      OpsOver(w, fields, keys[..|keys| - 1]) + FieldOps(w, k, fields[k])
  }

  function KeysOf(fields: map<string, Relation>): (keys: seq<string>)
    ensures (forall k :: k in keys <==> k in fields) && Ascending(keys)
  {
    var keys := Sorted(fields.Keys);
    assert forall k :: k in keys <==> k in Elems(keys);
    keys
  }

  function RepointOps(w: World, fields: map<string, Relation>): seq<Op> { OpsOver(w, fields, KeysOf(fields)) }

  method FindRepointOps(w: World, fields: map<string, Relation>) returns (ops: seq<Op>)
    ensures ops == RepointOps(w, fields)
  {
    hide FieldOps, Sorted, Ascending;
    var keys := KeysOf(fields);
    ops := [];
    for i := 0 to |keys|
      invariant forall k :: k in keys[..i] ==> k in fields
      invariant ops == OpsOver(w, fields, keys[..i])
    {
      assert keys[..i + 1][..i] == keys[..i];
      assert keys[i] in keys;
      var more := FindFieldOps(w, keys[i], fields[keys[i]]);
      ops := ops + more;
    }
    assert keys[..|keys|] == keys;
  }

  method FindFieldOps(w: World, k: string, r: Relation) returns (ops: seq<Op>)
    ensures ops == FieldOps(w, k, r)
  {
    ops := [];
    match r {
      case One(t) =>
        var to := WinnerOf(w, t);
        if to.Some? {
          ops := [SetTo(k, to.value)];
        }
      case Many(ts) =>
        ops := FindItemOps(w, k, ts);
      case Plain(_) =>
    }
  }

  method FindItemOps(w: World, k: string, targets: seq<Id>) returns (ops: seq<Op>)
    ensures ops == ItemOps(w, k, targets)
  {
    ops := [];
    for i := 0 to |targets|
      invariant ops == ItemOps(w, k, targets[..i])
    {
      assert targets[..i + 1][..i] == targets[..i];
      var to := WinnerOf(w, targets[i]);
      if to.Some? {
        ops := ops + [RemoveTarget(k, targets[i]), AddTarget(k, to.value)];
      }
    }
    assert targets[..|targets|] == targets;
  }

  lemma {:induction false} ItemOpsKey(w: World, k: string, targets: seq<Id>)
    ensures forall op :: op in ItemOps(w, k, targets) ==> op.key == k
  {
    if targets != [] { ItemOpsKey(w, k, targets[..|targets| - 1]); }
  }

  lemma FieldOpsKey(w: World, k: string, r: Relation)
    ensures forall op :: op in FieldOps(w, k, r) ==> op.key == k
  {
    if r.Many? { ItemOpsKey(w, k, r.targets); }
  }

  lemma {:induction false} OpsOverTo(w: World, fields: map<string, Relation>, keys: seq<string>, k: string, r: Relation)
    requires (forall x :: x in keys ==> x in fields) && Distinct(keys)
    ensures ApplyTo(r, OpsOver(w, fields, keys), k) == if k in keys then ApplyTo(r, FieldOps(w, k, fields[k]), k) else r
  {
    if keys != [] {
      var n := |keys| - 1;
      assert keys == keys[..n] + [keys[n]];
      assert forall x :: x in keys <==> x in keys[..n] || x == keys[n];
      OpsOverTo(w, fields, keys[..n], k, r);
      ApplyToConcat(r, OpsOver(w, fields, keys[..n]), FieldOps(w, keys[n], fields[keys[n]]), k);
      FieldOpsKey(w, keys[n], fields[keys[n]]);
      if k != keys[n] { ApplyToOthers(ApplyTo(r, OpsOver(w, fields, keys[..n]), k), FieldOps(w, keys[n], fields[keys[n]]), k); }
    }
  }

  // ---- the sweep ----

  datatype Local = Local(archived: bool, fields: map<string, Relation>)

  ghost predicate SetsOnce(fields: map<string, Relation>) {
    forall k :: k in fields && fields[k].Many? ==> Distinct(fields[k].targets)
  }

  function Swept(w: World, refused: set<Id>, id: Id, i: Local): Local {
    if i.archived || id in refused then i else i.(fields := ApplyOps(i.fields, RepointOps(w, i.fields)))
  }

  function SweptAll(w: World, refused: set<Id>, issues: map<Id, Local>, ids: seq<Id>): map<Id, Local> {
    if ids == [] then issues
    else
      var m, id := SweptAll(w, refused, issues, ids[..|ids| - 1]), ids[|ids| - 1];
      if id in m then m[id := Swept(w, refused, id, m[id])] else m
  }

  lemma SweptIs(w: World, refused: set<Id>, id: Id, i: Local)
    ensures var ops := RepointOps(w, i.fields);
            Swept(w, refused, id, i) == if i.archived || ops == [] || id in refused then i else i.(fields := ApplyOps(i.fields, ops))
  {
    assert ApplyOps(i.fields, []) == i.fields;
  }

  lemma SweptNext(w: World, refused: set<Id>, issues: map<Id, Local>, ids: seq<Id>, i: nat)
    requires i < |ids| && ids[i] in SweptAll(w, refused, issues, ids[..i])
    ensures var m := SweptAll(w, refused, issues, ids[..i]);
            && SweptAll(w, refused, issues, ids[..i + 1]) == m[ids[i] := Swept(w, refused, ids[i], m[ids[i]])]
            && SweptAll(w, refused, issues, ids[..i + 1]).Keys == m.Keys
  {
    hide Swept;
    assert ids[..i + 1][..i] == ids[..i];
  }

  /** One issue of a sweep. */
  method SweepOne(w: World, refused: set<Id>, id: Id, i: Local) returns (after: Local, failed: bool)
    ensures after == Swept(w, refused, id, i) && (failed ==> id in refused)
  {
    hide RepointOps, ApplyOps, Swept;
    var ops := FindRepointOps(w, i.fields);
    SweptIs(w, refused, id, i);
    after, failed := i, false;
    if !i.archived && ops != [] {
      if id in refused {
        failed := true;
      } else {
        after := i.(fields := ApplyOps(i.fields, ops));
      }
    }
  }

  /** Each issue in id order; one that refuses is a failed line, and the sweep goes on. */
  method SweepAll(w: World, refused: set<Id>, issues: map<Id, Local>) returns (after: map<Id, Local>, failed: set<Id>)
    ensures after == SweptAll(w, refused, issues, Sorted(issues.Keys)) && failed <= refused
  {
    hide Swept, SweptAll, Less, Ascending;
    var ids := Sorted(issues.Keys);
    assert forall k :: k in ids ==> k in Elems(ids);
    after, failed := issues, {};
    NoneSwept(w, refused, issues);
    for i := 0 to |ids|
      invariant after == SweptAll(w, refused, issues, ids[..i]) && failed <= refused && after.Keys == issues.Keys
    {
      assert ids[i] in ids;
      SweptNext(w, refused, issues, ids, i);
      var swept, refuses := SweepOne(w, refused, ids[i], after[ids[i]]);
      after := after[ids[i] := swept];
      if refuses {
        failed := failed + {ids[i]};
      }
    }
    assert ids[..|ids|] == ids;
  }

  lemma NoneSwept(w: World, refused: set<Id>, issues: map<Id, Local>)
    ensures SweptAll(w, refused, issues, []) == issues
  {
  }

  lemma {:induction false} SweptAllAt(w: World, refused: set<Id>, issues: map<Id, Local>, ids: seq<Id>, id: Id)
    requires Distinct(ids) && id in issues
    ensures id in SweptAll(w, refused, issues, ids)
    ensures SweptAll(w, refused, issues, ids)[id] == if id in ids then Swept(w, refused, id, issues[id]) else issues[id]
  {
    if ids != [] {
      var n := |ids| - 1;
      SweptAllAt(w, refused, issues, ids[..n], id);
      assert ids == ids[..n] + [ids[n]];
    }
  }

  lemma IssueSwept(w: World, fields: map<string, Relation>, k: string)
    requires Consistent(w) && SetsOnce(fields) && k in fields
    ensures var after := ApplyOps(fields, RepointOps(w, fields));
            && after.Keys == fields.Keys && Targets(after[k]) == Images(w, Targets(fields[k]))
            && (fields[k].Plain? ==> after[k] == fields[k])
            && (after[k].One? <==> fields[k].One?) && (after[k].Many? <==> fields[k].Many?)
  {
    var keys := KeysOf(fields);
    AscendingDistinct(keys);
    ApplyOpsAt(fields, RepointOps(w, fields), k);
    OpsOverTo(w, fields, keys, k, fields[k]);
    FieldSwept(w, k, fields[k]);
  }

  lemma {:induction false} NoItemOps(w: World, k: string, targets: seq<Id>)
    requires forall t :: t in targets ==> WinnerOf(w, t) == None
    ensures ItemOps(w, k, targets) == []
  {
    if targets != [] {
      assert targets[|targets| - 1] in targets;
      NoItemOps(w, k, targets[..|targets| - 1]);
    }
  }

  lemma {:induction false} NoOps(w: World, fields: map<string, Relation>, keys: seq<string>)
    requires forall k :: k in keys ==> k in fields && forall t :: t in Targets(fields[k]) ==> WinnerOf(w, t) == None
    ensures OpsOver(w, fields, keys) == []
  {
    if keys != [] {
      var k := keys[|keys| - 1];
      assert k in keys;
      NoOps(w, fields, keys[..|keys| - 1]);
      match fields[k] {
        case One(t) => assert t in Targets(fields[k]);
        case Many(ts) =>
          assert forall t :: t in ts ==> t in Targets(fields[k]);
          NoItemOps(w, k, ts);
        case Plain(_) =>
      }
    }
  }

  /**
   After a sweep every relation of an unarchived issue that did not refuse names exactly the
   images of its old targets under the index's winners, everything else is as it was, and a
   second sweep has nothing to write.
   */
  lemma SweepRepoints(w: World, refused: set<Id>, issues: map<Id, Local>, id: Id)
    requires Consistent(w) && id in issues && SetsOnce(issues[id].fields)
    ensures var after := SweptAll(w, refused, issues, Sorted(issues.Keys));
            && id in after && after[id].archived == issues[id].archived
            && (issues[id].archived || id in refused ==> after[id] == issues[id])
            && (!issues[id].archived && id !in refused ==>
                  && after[id].fields.Keys == issues[id].fields.Keys
                  && (forall k :: k in issues[id].fields ==> Targets(after[id].fields[k]) == Images(w, Targets(issues[id].fields[k])))
                  && (forall k :: k in issues[id].fields && issues[id].fields[k].Plain? ==> after[id].fields[k] == issues[id].fields[k])
                  && (forall k :: k in issues[id].fields ==> (after[id].fields[k].One? <==> issues[id].fields[k].One?))
                  && RepointOps(w, after[id].fields) == [])
  {
    hide RepointOps, ApplyOps, SweptAll, Targets, Images;
    var ids := Sorted(issues.Keys);
    AscendingDistinct(ids);
    assert id in ids by { assert id in Elems(ids); }
    SweptAllAt(w, refused, issues, ids, id);
    if !issues[id].archived && id !in refused {
      var fields := issues[id].fields;
      forall k | k in fields
        ensures var after := ApplyOps(fields, RepointOps(w, fields));
                && after.Keys == fields.Keys && Targets(after[k]) == Images(w, Targets(fields[k])) && (fields[k].Plain? ==> after[k] == fields[k])
                && (after[k].One? <==> fields[k].One?)
      {
        IssueSwept(w, fields, k);
      }
      SecondSweep(w, fields);
    }
  }

  lemma SecondSweep(w: World, fields: map<string, Relation>)
    requires Consistent(w) && SetsOnce(fields)
    ensures ApplyOps(fields, RepointOps(w, fields)).Keys == fields.Keys
    ensures RepointOps(w, ApplyOps(fields, RepointOps(w, fields))) == []
  {
    hide ApplyOps, Targets, OpsOver;
    var after := ApplyOps(fields, RepointOps(w, fields));
    ApplyOpsAt(fields, RepointOps(w, fields), "");
    forall k | k in after ensures forall t :: t in Targets(after[k]) ==> WinnerOf(w, t) == None {
      IssueSwept(w, fields, k);
      forall t | t in Images(w, Targets(fields[k])) ensures WinnerOf(w, t) == None {
        var x :| x in Targets(fields[k]) && Image(w, x) == t;
        WinnerStays(w, x);
      }
    }
    NoOps(w, after, KeysOf(after));
  }

  /** The index of the excerpts names, for each Jira id, an issue whose create names it. */
  lemma IndexConsistent(es: seq<Excerpt>, jids: map<Id, string>)
    requires forall e :: e in es ==> e.issue.id in jids && jids[e.issue.id] == e.jid
    ensures Consistent(World(jids, Index(es)))
  {
    forall jid | jid in Index(es) ensures Index(es)[jid].id in jids && jids[Index(es)[jid].id] == jid {
      IndexIsLeast(es, jid);
      assert Excerpt(Index(es)[jid], jid) in es;
    }
  }

  /** x is the issue the index has for the Jira id t's create names, or t when it names none or the index has none. */
  ghost predicate StandsFor(es: seq<Excerpt>, jids: map<Id, string>, t: Id, x: Id) {
    if t in jids && jids[t] != "" && jids[t] in Index(es) then x == Index(es)[jids[t]].id else x == t
  }

  /**
   After a sweep over the index of the excerpts a relation of an unarchived issue that did not
   refuse names an issue exactly when an old target of it stands for that issue: each duplicate
   has given way to the one that synced first, whichever sorts first.
   */
  lemma RelationsNameWinners(es: seq<Excerpt>, jids: map<Id, string>, refused: set<Id>, issues: map<Id, Local>, id: Id, k: string, x: Id)
    requires forall e :: e in es ==> e.issue.id in jids && jids[e.issue.id] == e.jid
    requires id in issues && !issues[id].archived && id !in refused && SetsOnce(issues[id].fields) && k in issues[id].fields
    ensures var after := SweptAll(World(jids, Index(es)), refused, issues, Sorted(issues.Keys));
            && id in after && k in after[id].fields
            && (x in Targets(after[id].fields[k]) <==> exists t :: t in Targets(issues[id].fields[k]) && StandsFor(es, jids, t, x))
  {
    hide SweptAll, Targets, RepointOps;
    var w := World(jids, Index(es));
    IndexConsistent(es, jids);
    SweepRepoints(w, refused, issues, id);
    forall t ensures Image(w, t) == x <==> StandsFor(es, jids, t, x) { }
    if t :| t in Targets(issues[id].fields[k]) && StandsFor(es, jids, t, x) {
      assert Image(w, t) == x;
    }
  }

  /** The two duplicates of one Jira id: what named the later to sync names the earlier. */
  lemma DuplicateGivesWay(es: seq<Excerpt>, jids: map<Id, string>, refused: set<Id>, issues: map<Id, Local>, id: Id, k: string, a: Issue, b: Issue)
    requires forall e :: e in es ==> e.issue.id in jids && jids[e.issue.id] == e.jid
    requires id in issues && !issues[id].archived && id !in refused && k in issues[id].fields && issues[id].fields[k] == One(a.id)
    requires SetsOnce(issues[id].fields)
    requires a.id in jids && Names(es, jids[a.id], a) && Names(es, jids[a.id], b) && 0 < b.first.at < a.first.at
    requires forall i :: Names(es, jids[a.id], i) ==> i == a || i == b
    ensures var after := SweptAll(World(jids, Index(es)), refused, issues, Sorted(issues.Keys));
            id in after && k in after[id].fields && after[id].fields[k] == One(b.id)
  {
    hide SweptAll, RepointOps;
    var w := World(jids, Index(es));
    var after := SweptAll(w, refused, issues, Sorted(issues.Keys));
    WinnerSyncedFirst(es, jids[a.id], b);
    IndexIsLeast(es, jids[a.id]);
    RelationsNameWinners(es, jids, refused, issues, id, k, b.id);
    IndexConsistent(es, jids);
    SweepRepoints(w, refused, issues, id);
    assert StandsFor(es, jids, a.id, b.id) && a.id in Targets(issues[id].fields[k]);
  }
}
