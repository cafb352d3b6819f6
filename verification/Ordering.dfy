/** The order of an ordered field's values. */
module Ordering {
  // The mapped ones as Jira has them, each local-only one staying right after the mapped one it followed.

  import opened Imports

  predicate IsMapped(v: ValueDoc, order: seq<string>) { v.id in order }

  /** The local-only values a list starts with. */
  function Head(vs: seq<ValueDoc>, order: seq<string>): seq<ValueDoc> {
    if vs == [] || IsMapped(vs[0], order) then [] else [vs[0]] + Head(vs[1..], order)
  }

  /** A mapped value and the local-only values after it. */
  function Block(vs: seq<ValueDoc>, order: seq<string>, id: string): seq<ValueDoc> {
    if vs == [] then []
    else if vs[0].id == id then [vs[0]] + Head(vs[1..], order)
    else Block(vs[1..], order, id)
  }

  function Blocks(vs: seq<ValueDoc>, order: seq<string>, ids: seq<string>): seq<ValueDoc> {
    if ids == [] then [] else Block(vs, order, ids[0]) + Blocks(vs, order, ids[1..])
  }

  function JiraOrder(vs: seq<ValueDoc>, order: seq<string>): seq<ValueDoc> {
    Head(vs, order) + Blocks(vs, order, order)
  }

  predicate DistinctValues(vs: seq<ValueDoc>) { forall i, j :: 0 <= i < j < |vs| ==> vs[i].id != vs[j].id }

  ghost predicate DistinctIds(ids: seq<string>) { forall i, j :: 0 <= i < j < |ids| ==> ids[i] != ids[j] }

  ghost predicate Has(vs: seq<ValueDoc>, id: string) { exists i :: 0 <= i < |vs| && vs[i].id == id }

  ghost predicate HasAll(vs: seq<ValueDoc>, ids: seq<string>) {
    forall id :: id in ids ==> Has(vs, id)
  }

  /** The mapped values' ids, in the list's own order. */
  function MappedIds(vs: seq<ValueDoc>, order: seq<string>): seq<string> {
    if vs == [] then []
    else (if IsMapped(vs[0], order) then [vs[0].id] else []) + MappedIds(vs[1..], order)
  }

  // ---- a list is its head and its blocks ----

  lemma {:induction false} HeadConcat(a: seq<ValueDoc>, b: seq<ValueDoc>, order: seq<string>)
    requires forall v :: v in a ==> !IsMapped(v, order)
    ensures Head(a + b, order) == a + Head(b, order)
  {
    if a == [] {
      assert a + b == b;
    } else {
      assert (a + b)[1..] == a[1..] + b;
      assert a[0] in a && forall v :: v in a[1..] ==> v in a;
      HeadConcat(a[1..], b, order);
    }
  }

  lemma {:induction false} HeadLocal(vs: seq<ValueDoc>, order: seq<string>)
    ensures forall v :: v in Head(vs, order) ==> !IsMapped(v, order) && v in vs
  {
    if vs != [] && !IsMapped(vs[0], order) { HeadLocal(vs[1..], order); }
  }

  lemma {:induction false} BlockIs(vs: seq<ValueDoc>, order: seq<string>, id: string)
    requires Has(vs, id)
    ensures var b := Block(vs, order, id);
            && b != [] && b[0].id == id && b[0] in vs
            && forall v :: v in b[1..] ==> !IsMapped(v, order) && v in vs
  {
    if vs[0].id == id {
      HeadLocal(vs[1..], order);
      assert Block(vs, order, id)[1..] == Head(vs[1..], order);
    } else {
      var i :| 0 <= i < |vs| && vs[i].id == id;
      assert vs[1..][i - 1].id == id;
      BlockIs(vs[1..], order, id);
    }
  }

  /** A block is found past whatever does not hold its id. */
  lemma {:induction false} BlockSkips(a: seq<ValueDoc>, b: seq<ValueDoc>, order: seq<string>, id: string)
    requires forall v :: v in a ==> v.id != id
    ensures Block(a + b, order, id) == Block(b, order, id)
  {
    if a == [] {
      assert a + b == b;
    } else {
      assert (a + b)[1..] == a[1..] + b;
      assert a[0] in a && forall v :: v in a[1..] ==> v in a;
      BlockSkips(a[1..], b, order, id);
    }
  }

  /** A block and what comes after it, starting with a mapped value. */
  lemma BlockFirst(b: seq<ValueDoc>, rest: seq<ValueDoc>, order: seq<string>)
    requires b != [] && forall v :: v in b[1..] ==> !IsMapped(v, order)
    requires rest == [] || IsMapped(rest[0], order)
    ensures Block(b + rest, order, b[0].id) == b
  {
    hide Head, IsMapped;
    assert (b + rest)[0] == b[0] && (b + rest)[1..] == b[1..] + rest;
    HeadConcat(b[1..], rest, order);
    HeadNone(rest, order);
    assert b == [b[0]] + b[1..];
  }

  lemma HeadNone(vs: seq<ValueDoc>, order: seq<string>)
    requires vs == [] || IsMapped(vs[0], order)
    ensures Head(vs, order) == []
  {
  }

  /** Blocks in a row start with a mapped value, and hold the ids' values and local-only ones. */
  lemma {:induction false} BlocksAre(vs: seq<ValueDoc>, order: seq<string>, ids: seq<string>)
    requires HasAll(vs, ids) && forall id :: id in ids ==> id in order
    ensures var bs := Blocks(vs, order, ids);
            && (bs == [] || IsMapped(bs[0], order))
            && (forall v :: v in bs ==> v in vs && (v.id in ids || !IsMapped(v, order)))
  {
    if ids != [] {
      assert ids[0] in ids && forall id :: id in ids[1..] ==> id in ids;
      BlocksAre(vs, order, ids[1..]);
      BlockIs(vs, order, ids[0]);
      var b := Block(vs, order, ids[0]);
      assert b == [b[0]] + b[1..];
    }
  }

  // ---- ordering again ----

  lemma {:induction false} BlockAgain(vs: seq<ValueDoc>, order: seq<string>, ids: seq<string>, id: string)
    requires HasAll(vs, ids) && DistinctIds(ids) && (forall x :: x in ids ==> x in order) && id in ids
    ensures Block(Blocks(vs, order, ids), order, id) == Block(vs, order, id)
  {
    var first, rest := Block(vs, order, ids[0]), Blocks(vs, order, ids[1..]);
    assert ids[0] in ids && forall x :: x in ids[1..] ==> x in ids;
    BlockIs(vs, order, ids[0]);
    BlocksAre(vs, order, ids[1..]);
    if id == ids[0] {
      BlockFirst(first, rest, order);
    } else {
      assert id in ids[1..];
      assert first == [first[0]] + first[1..];
      BlockSkips(first, rest, order, id);
      BlockAgain(vs, order, ids[1..], id);
    }
  }

  lemma {:induction false} BlocksAgain(vs: seq<ValueDoc>, order: seq<string>, ids: seq<string>)
    requires HasAll(vs, order) && DistinctIds(order) && forall x :: x in ids ==> x in order
    ensures Blocks(JiraOrder(vs, order), order, ids) == Blocks(vs, order, ids)
  {
    if ids != [] {
      assert ids[0] in ids && forall x :: x in ids[1..] ==> x in ids;
      BlocksAgain(vs, order, ids[1..]);
      HeadLocal(vs, order);
      BlockSkips(Head(vs, order), Blocks(vs, order, order), order, ids[0]);
      BlockAgain(vs, order, order, ids[0]);
    }
  }

  /** Ordering an ordered list again changes nothing. */
  lemma JiraOrderAgain(vs: seq<ValueDoc>, order: seq<string>)
    requires HasAll(vs, order) && DistinctIds(order)
    ensures JiraOrder(JiraOrder(vs, order), order) == JiraOrder(vs, order)
  {
    HeadLocal(vs, order);
    BlocksAre(vs, order, order);
    var bs := Blocks(vs, order, order);
    HeadConcat(Head(vs, order), bs, order);
    assert Head(bs, order) == [];
    BlocksAgain(vs, order, order);
  }

  // ---- a permutation ----

  lemma {:induction false} MappedAre(vs: seq<ValueDoc>, order: seq<string>, id: string)
    ensures id in MappedIds(vs, order) <==> id in order && Has(vs, id)
  {
    if vs != [] {
      MappedAre(vs[1..], order, id);
      HasFirst(vs, id);
    }
  }

  lemma HasFirst(vs: seq<ValueDoc>, id: string)
    requires vs != []
    ensures Has(vs, id) <==> vs[0].id == id || Has(vs[1..], id)
    ensures DistinctValues(vs) ==> DistinctValues(vs[1..]) && !Has(vs[1..], vs[0].id)
  {
    if i :| 0 <= i < |vs| && vs[i].id == id { if i > 0 { assert vs[1..][i - 1].id == id; } }
    if i :| 0 <= i < |vs[1..]| && vs[1..][i].id == id { assert vs[i + 1].id == id; }
  }

  lemma {:induction false} MappedDistinct(vs: seq<ValueDoc>, order: seq<string>)
    requires DistinctValues(vs)
    ensures DistinctIds(MappedIds(vs, order))
  {
    if vs != [] {
      HasFirst(vs, vs[0].id);
      MappedDistinct(vs[1..], order);
      MappedAre(vs[1..], order, vs[0].id);
    }
  }

  /** Past its first value a list has the same blocks, for other ids. */
  lemma {:induction false} BlocksPast(vs: seq<ValueDoc>, order: seq<string>, ids: seq<string>)
    requires vs != [] && forall id :: id in ids ==> id != vs[0].id
    ensures Blocks(vs, order, ids) == Blocks(vs[1..], order, ids)
  {
    if ids != [] {
      assert ids[0] in ids && forall id :: id in ids[1..] ==> id in ids;
      BlocksPast(vs, order, ids[1..]);
    }
  }

  lemma {:induction false} Decomposed(vs: seq<ValueDoc>, order: seq<string>)
    requires DistinctValues(vs)
    ensures vs == Head(vs, order) + Blocks(vs, order, MappedIds(vs, order))
  {
    if vs != [] {
      hide Head, MappedIds, Blocks, DistinctValues;
      HasFirst(vs, vs[0].id);
      Decomposed(vs[1..], order);
      var ids := MappedIds(vs[1..], order);
      forall id | id in ids ensures id != vs[0].id { MappedAre(vs[1..], order, id); }
      BlocksPast(vs, order, ids);
      FirstBlock(vs, order, ids);
      HeadFirst(vs, order);
      Cons(vs, Head(vs[1..], order), Blocks(vs, order, ids));
    }
  }

  lemma Cons(vs: seq<ValueDoc>, a: seq<ValueDoc>, b: seq<ValueDoc>)
    requires vs != [] && vs[1..] == a + b
    ensures vs == ([vs[0]] + a) + b && vs == [] + ([vs[0]] + a + b)
  {
    assert vs == [vs[0]] + vs[1..];
  }

  lemma HeadFirst(vs: seq<ValueDoc>, order: seq<string>)
    requires vs != []
    ensures Head(vs, order) == if IsMapped(vs[0], order) then [] else [vs[0]] + Head(vs[1..], order)
    ensures var ids := MappedIds(vs[1..], order);
            MappedIds(vs, order) == if IsMapped(vs[0], order) then [vs[0].id] + ids else ids
  {
  }

  lemma FirstBlock(vs: seq<ValueDoc>, order: seq<string>, ids: seq<string>)
    requires vs != []
    ensures Blocks(vs, order, [vs[0].id] + ids) == [vs[0]] + Head(vs[1..], order) + Blocks(vs, order, ids)
  {
    assert ([vs[0].id] + ids)[1..] == ids;
  }

  lemma {:induction false} BlocksConcat(vs: seq<ValueDoc>, order: seq<string>, a: seq<string>, b: seq<string>)
    ensures Blocks(vs, order, a + b) == Blocks(vs, order, a) + Blocks(vs, order, b)
  {
    if a == [] {
      assert a + b == b;
    } else {
      assert (a + b)[1..] == a[1..] + b;
      BlocksConcat(vs, order, a[1..], b);
    }
  }

  lemma BlocksAround(vs: seq<ValueDoc>, order: seq<string>, a: seq<string>, id: string, b: seq<string>)
    ensures multiset(Blocks(vs, order, a + ([id] + b))) == multiset(Block(vs, order, id)) + multiset(Blocks(vs, order, a + b))
  {
    BlocksConcat(vs, order, a, [id] + b);
    BlocksConcat(vs, order, a, b);
    assert ([id] + b)[1..] == b;
  }

  /** Blocks taken in another order hold the same values. */
  lemma {:induction false} BlocksPermuted(vs: seq<ValueDoc>, order: seq<string>, a: seq<string>, b: seq<string>)
    requires DistinctIds(a) && DistinctIds(b) && forall id :: id in a <==> id in b
    ensures multiset(Blocks(vs, order, a)) == multiset(Blocks(vs, order, b))
    decreases |a|
  {
    assert b != [] ==> b[0] in b;
    if a != [] {
      assert a[0] in b;
      var j :| 0 <= j < |b| && b[j] == a[0];
      var less := b[..j] + b[j + 1..];
      assert b == b[..j] + ([a[0]] + b[j + 1..]);
      LessIs(a, b, j);
      BlocksPermuted(vs, order, a[1..], less);
      BlocksAround(vs, order, b[..j], a[0], b[j + 1..]);
    }
  }

  lemma LessIs(a: seq<string>, b: seq<string>, j: nat)
    requires DistinctIds(a) && DistinctIds(b) && (forall id :: id in a <==> id in b) && a != [] && j < |b| && b[j] == a[0]
    ensures var less := b[..j] + b[j + 1..];
            DistinctIds(a[1..]) && DistinctIds(less) && forall id :: id in a[1..] <==> id in less
  {
    var less := b[..j] + b[j + 1..];
    forall i | 0 <= i < |less| ensures less[i] == b[if i < j then i else i + 1] { }
    forall id ensures id in a[1..] <==> id in less {
      if id in a[1..] {
        var i :| 0 <= i < |a[1..]| && a[1..][i] == id;
        assert a[i + 1] == id && id in a;
        var k :| 0 <= k < |b| && b[k] == id;
        assert less[if k < j then k else k - 1] == id;
      }
      if id in less {
        var i :| 0 <= i < |less| && less[i] == id;
        assert id in b && id in a;
        var k :| 0 <= k < |a| && a[k] == id;
        assert a[1..][k - 1] == id;
      }
    }
  }

  /** Ordering moves values, and neither adds nor drops one. */
  lemma JiraOrderPermutes(vs: seq<ValueDoc>, order: seq<string>)
    requires DistinctValues(vs) && HasAll(vs, order) && DistinctIds(order)
    ensures multiset(JiraOrder(vs, order)) == multiset(vs)
  {
    Decomposed(vs, order);
    MappedDistinct(vs, order);
    var ids := MappedIds(vs, order);
    forall id ensures id in ids <==> id in order { MappedAre(vs, order, id); }
    BlocksPermuted(vs, order, ids, order);
    assert vs == Head(vs, order) + Blocks(vs, order, ids);
  }

  // ---- Jira's order ----

  lemma {:induction false} MappedConcat(a: seq<ValueDoc>, b: seq<ValueDoc>, order: seq<string>)
    ensures MappedIds(a + b, order) == MappedIds(a, order) + MappedIds(b, order)
  {
    if a == [] {
      assert a + b == b;
    } else {
      assert (a + b)[1..] == a[1..] + b;
      MappedConcat(a[1..], b, order);
    }
  }

  lemma {:induction false} NoneMapped(vs: seq<ValueDoc>, order: seq<string>)
    requires forall v :: v in vs ==> !IsMapped(v, order)
    ensures MappedIds(vs, order) == []
  {
    if vs != [] {
      assert vs[0] in vs && forall v :: v in vs[1..] ==> v in vs;
      NoneMapped(vs[1..], order);
    }
  }

  lemma {:induction false} BlocksMapped(vs: seq<ValueDoc>, order: seq<string>, ids: seq<string>)
    requires HasAll(vs, ids) && forall id :: id in ids ==> id in order
    ensures MappedIds(Blocks(vs, order, ids), order) == ids
  {
    if ids != [] {
      assert ids[0] in ids && forall id :: id in ids[1..] ==> id in ids;
      BlocksMapped(vs, order, ids[1..]);
      BlockIs(vs, order, ids[0]);
      var b := Block(vs, order, ids[0]);
      assert b == [b[0]] + b[1..];
      NoneMapped(b[1..], order);
      MappedConcat(b, Blocks(vs, order, ids[1..]), order);
    }
  }

  /** The mapped values come in Jira's order. */
  lemma JiraOrderFollows(vs: seq<ValueDoc>, order: seq<string>)
    requires HasAll(vs, order) && DistinctIds(order)
    ensures MappedIds(JiraOrder(vs, order), order) == order
    ensures Head(JiraOrder(vs, order), order) == Head(vs, order)
    ensures forall id :: id in order ==> Block(JiraOrder(vs, order), order, id) == Block(vs, order, id)
  {
    HeadLocal(vs, order);
    NoneMapped(Head(vs, order), order);
    BlocksMapped(vs, order, order);
    MappedConcat(Head(vs, order), Blocks(vs, order, order), order);
    BlocksAre(vs, order, order);
    HeadConcat(Head(vs, order), Blocks(vs, order, order), order);
    forall id | id in order ensures Block(JiraOrder(vs, order), order, id) == Block(vs, order, id) {
      BlockSkips(Head(vs, order), Blocks(vs, order, order), order, id);
      BlockAgain(vs, order, order, id);
    }
  }

  // ---- the loop ----

  /** The last mapped value's id. */
  function LastMapped(vs: seq<ValueDoc>, order: seq<string>): string {
    if vs == [] then ""
    else if IsMapped(vs[|vs| - 1], order) then vs[|vs| - 1].id
    else LastMapped(vs[..|vs| - 1], order)
  }

  lemma {:induction false} LastMappedNone(vs: seq<ValueDoc>, order: seq<string>)
    requires forall v :: v in vs ==> v.id != ""
    ensures LastMapped(vs, order) == "" <==> forall v :: v in vs ==> !IsMapped(v, order)
    ensures LastMapped(vs, order) != "" ==> Has(vs, LastMapped(vs, order)) && LastMapped(vs, order) in order
  {
    if vs != [] {
      var n := |vs| - 1;
      assert vs[n] in vs && forall v :: v in vs <==> v in vs[..n] || v == vs[n];
      LastMappedNone(vs[..n], order);
      if Has(vs[..n], LastMapped(vs[..n], order)) {
        var i :| 0 <= i < n && vs[..n][i].id == LastMapped(vs[..n], order);
        assert vs[i].id == LastMapped(vs[..n], order);
      }
      if IsMapped(vs[n], order) { assert vs[n].id == LastMapped(vs, order); }
    }
  }

  lemma {:induction false} LastMappedPast(vs: seq<ValueDoc>, order: seq<string>)
    requires vs != []
    ensures LastMapped(vs, order) == if (exists v :: v in vs[1..] && IsMapped(v, order)) then LastMapped(vs[1..], order)
                                     else if IsMapped(vs[0], order) then vs[0].id else ""
  {
    var n := |vs| - 1;
    if n == 0 {
      assert vs[..0] == [];
    } else {
      LastMappedPast(vs[..n], order);
      assert vs[..n][1..] == vs[1..][..n - 1] && vs[1..][n - 1] == vs[n];
      assert forall v :: v in vs[1..] <==> v in vs[1..][..n - 1] || v == vs[n];
    }
  }

  lemma {:induction false} HeadSnoc(vs: seq<ValueDoc>, order: seq<string>, v: ValueDoc)
    ensures Head(vs + [v], order)
            == Head(vs, order) + if (exists x :: x in vs && IsMapped(x, order)) || IsMapped(v, order) then [] else [v]
  {
    if vs == [] {
      assert vs + [v] == [v] && [v][1..] == [];
    } else {
      assert (vs + [v])[1..] == vs[1..] + [v];
      HeadSnoc(vs[1..], order, v);
      assert vs[0] in vs && forall x :: x in vs <==> x == vs[0] || x in vs[1..];
    }
  }

  lemma {:induction false} BlockSnoc(vs: seq<ValueDoc>, order: seq<string>, v: ValueDoc, id: string)
    requires DistinctValues(vs + [v]) && id in order && forall x :: x in vs + [v] ==> x.id != ""
    ensures Block(vs + [v], order, id)
            == Block(vs, order, id)
               + if Has(vs, id) then (if !IsMapped(v, order) && LastMapped(vs, order) == id then [v] else [])
                 else if v.id == id then [v] else []
    ensures Has(vs + [v], id) <==> Has(vs, id) || v.id == id
  {
    hide LastMapped, DistinctValues;
    HasLast(vs, v, id);
    FrontDistinct(vs, v);
    if vs == [] {
      assert vs + [v] == [v] && [v][1..] == [];
    } else {
      assert (vs + [v])[1..] == vs[1..] + [v] && (vs + [v])[0] == vs[0];
      assert forall x :: x in vs[1..] + [v] ==> x in vs + [v];
      HasFirst(vs + [v], id);
      HasFirst(vs, id);
      LastMappedPast(vs, order);
      if vs[0].id == id {
        HeadSnoc(vs[1..], order, v);
        LastMappedElsewhere(vs, order);
      } else {
        BlockSnoc(vs[1..], order, v, id);
        if Has(vs[1..], id) { HasMapped(vs[1..], order, id); }
      }
    }
  }

  lemma HasLast(vs: seq<ValueDoc>, v: ValueDoc, id: string)
    ensures Has(vs + [v], id) <==> Has(vs, id) || v.id == id
  {
    if i :| 0 <= i < |vs| && vs[i].id == id { assert (vs + [v])[i].id == id; }
    assert (vs + [v])[|vs|] == v;
  }

  lemma HasMapped(vs: seq<ValueDoc>, order: seq<string>, id: string)
    requires Has(vs, id) && id in order
    ensures exists v :: v in vs && IsMapped(v, order)
  {
    var i :| 0 <= i < |vs| && vs[i].id == id;
    assert vs[i] in vs && IsMapped(vs[i], order);
  }

  /** A mapped value after the first is not the first. */
  lemma LastMappedElsewhere(vs: seq<ValueDoc>, order: seq<string>)
    requires vs != [] && DistinctValues(vs) && forall x :: x in vs ==> x.id != ""
    ensures (exists v :: v in vs[1..] && IsMapped(v, order)) ==> LastMapped(vs[1..], order) != vs[0].id
  {
    if exists v :: v in vs[1..] && IsMapped(v, order) {
      LastMappedNone(vs[1..], order);
      HasFirst(vs, vs[0].id);
    }
  }

  /** What the maps of the loop hold of one mapped value: itself, and what followed it. */
  ghost predicate Gathered(vs: seq<ValueDoc>, order: seq<string>, byId: map<string, ValueDoc>, after: map<string, seq<ValueDoc>>) {
    forall id :: id in order ==>
      && (id in byId <==> Has(vs, id)) && (id in after ==> id in byId)
      && (id in byId ==> Block(vs, order, id) == [byId[id]] + After(after, id))
  }

  function After(after: map<string, seq<ValueDoc>>, id: string): seq<ValueDoc> { if id in after then after[id] else [] }

  lemma GatherNext(vs: seq<ValueDoc>, order: seq<string>, byId: map<string, ValueDoc>, after: map<string, seq<ValueDoc>>, v: ValueDoc)
    requires DistinctValues(vs + [v]) && (forall x :: x in vs + [v] ==> x.id != "") && Gathered(vs, order, byId, after)
    ensures var last := LastMapped(vs, order);
            if IsMapped(v, order) then Gathered(vs + [v], order, byId[v.id := v], after)
            else if last == "" then Gathered(vs + [v], order, byId, after)
            else last in byId && Gathered(vs + [v], order, byId, after[last := After(after, last) + [v]])
  {
    hide Block, LastMapped, Has, DistinctValues;
    var last := LastMapped(vs, order);
    assert forall x :: x in vs ==> x in vs + [v];
    LastMappedNone(vs, order);
    NewLast(vs, v);
    forall id | id in order
      ensures Has(vs + [v], id) <==> Has(vs, id) || v.id == id
      ensures Block(vs + [v], order, id)
              == Block(vs, order, id)
                 + if Has(vs, id) then (if !IsMapped(v, order) && last == id then [v] else [])
                   else if v.id == id then [v] else []
      ensures !Has(vs, id) ==> Block(vs, order, id) == []
    {
      BlockSnoc(vs, order, v, id);
      BlockNone(vs, order, id);
    }
    if IsMapped(v, order) {
      forall id | id in order && id in byId[v.id := v]
        ensures Block(vs + [v], order, id) == [byId[v.id := v][id]] + After(after, id)
      {
        if id != v.id { assert Block(vs, order, id) + [] == Block(vs, order, id); } else { assert Block(vs + [v], order, id) == [v]; }
      }
    } else if last == "" {
      forall id | id in order && Has(vs, id) ensures exists x :: x in vs && IsMapped(x, order) { HasMapped(vs, order, id); }
    } else {
      var more := after[last := After(after, last) + [v]];
      forall id | id in order && id in byId ensures Block(vs + [v], order, id) == [byId[id]] + After(more, id) {
        if id != last {
          assert Block(vs, order, id) + [] == Block(vs, order, id) && After(more, id) == After(after, id);
        } else {
          assert Block(vs + [v], order, id) == Block(vs, order, id) + [v] && After(more, id) == After(after, id) + [v];
          assert Block(vs, order, id) == [byId[id]] + After(after, id);
          assert ([byId[id]] + After(after, id)) + [v] == [byId[id]] + After(more, id);
        }
      }
    }
  }

  lemma NewLast(vs: seq<ValueDoc>, v: ValueDoc)
    requires DistinctValues(vs + [v])
    ensures !Has(vs, v.id)
  {
    forall i | 0 <= i < |vs| ensures vs[i].id != v.id { assert (vs + [v])[i].id != (vs + [v])[|vs|].id; }
  }

  lemma FrontDistinct(vs: seq<ValueDoc>, v: ValueDoc)
    requires DistinctValues(vs + [v])
    ensures DistinctValues(vs)
  {
    forall i, j | 0 <= i < j < |vs| ensures vs[i].id != vs[j].id { assert (vs + [v])[i].id != (vs + [v])[j].id; }
  }

  lemma {:induction false} BlockNone(vs: seq<ValueDoc>, order: seq<string>, id: string)
    ensures !Has(vs, id) ==> Block(vs, order, id) == []
  {
    if vs != [] {
      HasFirst(vs, id);
      BlockNone(vs[1..], order, id);
    }
  }

  method OrderValues(vs: seq<ValueDoc>, order: seq<string>) returns (out: seq<ValueDoc>)
    requires DistinctValues(vs) && HasAll(vs, order) && forall v :: v in vs ==> v.id != ""
    ensures out == JiraOrder(vs, order)
  {
    hide Gathered, Head, LastMapped, DistinctValues, HasAll, Blocks;
    var head: seq<ValueDoc> := [];
    var after: map<string, seq<ValueDoc>> := map[];
    var byId: map<string, ValueDoc> := map[];
    var last := "";
    GatherNone(order);
    for i := 0 to |vs|
      invariant head == Head(vs[..i], order) && last == LastMapped(vs[..i], order) && Gathered(vs[..i], order, byId, after)
    {
      var v := vs[i];
      Prefix(vs, i);
      LastMappedNone(vs[..i], order);
      HeadSnoc(vs[..i], order, v);
      GatherNext(vs[..i], order, byId, after, v);
      LastMappedNext(vs[..i], order, v);
      if v.id in order {
        byId := byId[v.id := v];
        last := v.id;
      } else if last == "" {
        head := head + [v];
      } else {
        after := after[last := After(after, last) + [v]];
      }
    }
    assert vs[..|vs|] == vs;
    out := PlaceBlocks(vs, order, head, byId, after);
  }

  lemma GatherNone(order: seq<string>)
    ensures Gathered([], order, map[], map[]) && Head([], order) == [] && LastMapped([], order) == ""
  {
  }

  lemma LastMappedNext(vs: seq<ValueDoc>, order: seq<string>, v: ValueDoc)
    ensures LastMapped(vs + [v], order) == if IsMapped(v, order) then v.id else LastMapped(vs, order)
  {
    assert (vs + [v])[..|vs|] == vs;
  }

  lemma Prefix(vs: seq<ValueDoc>, i: nat)
    requires i < |vs| && DistinctValues(vs) && forall v :: v in vs ==> v.id != ""
    ensures vs[..i + 1] == vs[..i] + [vs[i]] && DistinctValues(vs[..i] + [vs[i]])
    ensures (forall v :: v in vs[..i] + [vs[i]] ==> v.id != "") && forall v :: v in vs[..i] ==> v.id != ""
  {
    assert vs[..i + 1] == vs[..i] + [vs[i]];
    assert forall v :: v in vs[..i + 1] ==> v in vs;
  }

  method PlaceBlocks(vs: seq<ValueDoc>, order: seq<string>, head: seq<ValueDoc>, byId: map<string, ValueDoc>, after: map<string, seq<ValueDoc>>)
    returns (out: seq<ValueDoc>)
    requires Gathered(vs, order, byId, after) && HasAll(vs, order)
    ensures out == head + Blocks(vs, order, order)
  {
    hide Blocks, Block, Has;
    out := head;
    assert Blocks(vs, order, []) == [] by { NoBlocks(vs, order); }
    for i := 0 to |order|
      invariant out == head + Blocks(vs, order, order[..i])
    {
      assert order[..i + 1] == order[..i] + [order[i]] && order[i] in order;
      BlocksConcat(vs, order, order[..i], [order[i]]);
      NoBlocks(vs, order);
      OneBlock(vs, order, order[i]);
      out := out + [byId[order[i]]] + After(after, order[i]);
    }
    assert order[..|order|] == order;
  }

  lemma NoBlocks(vs: seq<ValueDoc>, order: seq<string>)
    ensures Blocks(vs, order, []) == []
  {
  }

  lemma OneBlock(vs: seq<ValueDoc>, order: seq<string>, id: string)
    ensures Blocks(vs, order, [id]) == Block(vs, order, id)
  {
    assert [id][1..] == [];
    assert Block(vs, order, id) + [] == Block(vs, order, id);
  }
}
