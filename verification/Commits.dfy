/** Walking a commit graph, and moving a ref only forward. */
module Commits {
  import opened Documents
  import opened Order

  type Hash = string

  datatype Commit = Commit(parents: seq<Hash>)

  type Graph = map<Hash, Commit>

  // ---- reachability ----

  /** Each commit's parent after it; the last need not be there to read. */
  predicate IsPath(g: Graph, p: seq<Hash>) {
    p != [] && forall i :: 0 <= i < |p| - 1 ==> p[i] in g && p[i + 1] in g[p[i]].parents
  }

  ghost predicate Reaches(g: Graph, a: Hash, b: Hash) {
    exists p: seq<Hash> :: IsPath(g, p) && p[0] == a && p[|p| - 1] == b
  }

  lemma ReachesSelf(g: Graph, a: Hash)
    ensures Reaches(g, a, a)
  {
    var p := [a];
    assert IsPath(g, p) && p[0] == a && p[|p| - 1] == a;
  }

  lemma ReachesParent(g: Graph, a: Hash, b: Hash, c: Hash)
    requires Reaches(g, a, b) && b in g && c in g[b].parents
    ensures Reaches(g, a, c)
  {
    var p: seq<Hash> :| IsPath(g, p) && p[0] == a && p[|p| - 1] == b;
    var q := p + [c];
    assert IsPath(g, q) && q[0] == a && q[|q| - 1] == c;
  }

  lemma ReachesTransitive(g: Graph, a: Hash, b: Hash, c: Hash)
    requires Reaches(g, a, b) && Reaches(g, b, c)
    ensures Reaches(g, a, c)
  {
    var p: seq<Hash> :| IsPath(g, p) && p[0] == a && p[|p| - 1] == b;
    var q: seq<Hash> :| IsPath(g, q) && q[0] == b && q[|q| - 1] == c;
    var r := p + q[1..];
    forall i | 0 <= i < |r| - 1 ensures r[i] in g && r[i + 1] in g[r[i]].parents {
      if i >= |p| - 1 { assert r[i] == q[i - |p| + 1] && r[i + 1] == q[i - |p| + 2]; }
    }
    assert r[0] == a && r[|r| - 1] == c;
  }

  /** A commit reachable cannot be read. */
  ghost predicate Broken(g: Graph, root: Hash) { exists h :: Reaches(g, root, h) && h !in g }

  /** A set with the root and every parent of a member holds all that is reachable. */
  lemma {:induction false} ClosedHolds(g: Graph, s: set<Hash>, p: seq<Hash>)
    requires IsPath(g, p) && p[0] in s && forall h, c :: h in s && h in g && c in g[h].parents ==> c in s
    ensures p[|p| - 1] in s
  {
    if |p| > 1 {
      assert IsPath(g, p[1..]) by { forall i | 0 <= i < |p[1..]| - 1 ensures p[1..][i] in g && p[1..][i + 1] in g[p[1..][i]].parents { assert p[i + 1] in g; } }
      assert p[0] in g && p[1] in g[p[0]].parents;
      ClosedHolds(g, s, p[1..]);
    }
  }

  lemma ClosedIsReachable(g: Graph, s: set<Hash>, root: Hash)
    requires root in s && (forall h, c :: h in s && h in g && c in g[h].parents ==> c in s)
    requires forall h :: h in s ==> Reaches(g, root, h)
    ensures forall h :: h in s <==> Reaches(g, root, h)
  {
    forall h | Reaches(g, root, h) ensures h in s {
      var p: seq<Hash> :| IsPath(g, p) && p[0] == root && p[|p| - 1] == h;
      ClosedHolds(g, s, p);
    }
  }

  // ---- the walk ----

  /** What holds of a walk: what it has seen and what it has yet to look at. */
  ghost predicate WalkInv(g: Graph, root: Hash, stack: seq<Hash>, visited: set<Hash>) {
    && (forall h :: h in visited || h in stack ==> Reaches(g, root, h))
    && (forall h :: h in visited ==> h in g)
    && (forall h, c :: h in visited && c in g[h].parents ==> c in visited || c in stack)
    && (root in visited || root in stack)
  }

  lemma Popped(stack: seq<Hash>)
    requires stack != []
    ensures forall h :: h in stack <==> h in stack[..|stack| - 1] || h == stack[|stack| - 1]
  {
    assert stack == stack[..|stack| - 1] + [stack[|stack| - 1]];
  }

  lemma WalkSkips(g: Graph, root: Hash, stack: seq<Hash>, visited: set<Hash>)
    requires WalkInv(g, root, stack, visited) && stack != [] && stack[|stack| - 1] in visited
    ensures WalkInv(g, root, stack[..|stack| - 1], visited)
  {
    hide Reaches;
    Popped(stack);
  }

  lemma WalkVisits(g: Graph, root: Hash, stack: seq<Hash>, visited: set<Hash>)
    requires WalkInv(g, root, stack, visited) && stack != []
    requires stack[|stack| - 1] in g
    ensures var h := stack[|stack| - 1]; WalkInv(g, root, stack[..|stack| - 1] + g[h].parents, visited + {h})
  {
    hide Reaches;
    var h := stack[|stack| - 1];
    Popped(stack);
    var more := stack[..|stack| - 1] + g[h].parents;
    assert forall x :: x in more <==> x in stack[..|stack| - 1] || x in g[h].parents;
    forall c | c in g[h].parents ensures Reaches(g, root, c) { ReachesParent(g, root, h, c); }
  }

  lemma WalkEnds(g: Graph, root: Hash, visited: set<Hash>)
    requires WalkInv(g, root, [], visited)
    ensures (forall h :: h in visited <==> Reaches(g, root, h)) && !Broken(g, root)
  {
    hide Reaches;
    ClosedIsReachable(g, visited, root);
  }

  /** Every commit reachable from the root, each once, the root last; or nothing, if one cannot be read. */
  method ListCommits(g: Graph, root: Hash) returns (result: Option<seq<Hash>>)
    ensures result.None? <==> Broken(g, root)
    ensures result.Some? ==> Distinct(result.value) && forall h :: h in result.value <==> Reaches(g, root, h)
    ensures result.Some? ==> result.value != [] && result.value[|result.value| - 1] == root
  {
    hide Reaches, Broken, WalkInv;
    var list: seq<Hash> := [];
    var stack := [root];
    var visited: set<Hash> := {};
    StartsAtRoot(g, root);
    while stack != []
      invariant WalkInv(g, root, stack, visited)
      invariant Distinct(list) && Elems(list) == visited
      invariant if list == [] then stack == [root] else list[0] == root
      decreases g.Keys - visited, |stack|
    {
      var hash := stack[|stack| - 1];
      var rest := stack[..|stack| - 1];
      if hash in visited {
        WalkSkips(g, root, stack, visited);
        stack := rest;
        continue;
      }
      if hash !in g {
        MissingBreaks(g, root, stack, visited);
        return None;
      }
      WalkVisits(g, root, stack, visited);
      ListMore(list, hash);
      assert hash in g.Keys - visited;
      visited := visited + {hash};
      list := list + [hash];
      stack := rest + g[hash].parents;
    }
    WalkEnds(g, root, visited);
    RootSeen(g, root, visited);
    var reversed := ReverseList(list);
    MirrorIs(list, reversed);
    result := Some(reversed);
  }

  lemma StartsAtRoot(g: Graph, root: Hash)
    ensures WalkInv(g, root, [root], {})
  {
    ReachesSelf(g, root);
  }

  lemma RootSeen(g: Graph, root: Hash, visited: set<Hash>)
    requires WalkInv(g, root, [], visited)
    ensures root in visited
  {
  }

  lemma MissingBreaks(g: Graph, root: Hash, stack: seq<Hash>, visited: set<Hash>)
    requires WalkInv(g, root, stack, visited) && stack != [] && stack[|stack| - 1] !in g
    ensures Broken(g, root)
  {
    assert stack[|stack| - 1] in stack;
  }

  lemma ListMore(list: seq<Hash>, h: Hash)
    requires Distinct(list) && h !in Elems(list)
    ensures Distinct(list + [h]) && Elems(list + [h]) == Elems(list) + {h}
  {
    ElemsAppend(list, [h]);
    assert Elems([h]) == {h};
    forall i | 0 <= i < |list| ensures list[i] != h { assert list[i] in Elems(list); }
  }

  /** One list is the other backwards. */
  ghost predicate Mirrors(a: seq<Hash>, b: seq<Hash>) { |a| == |b| && forall k :: 0 <= k < |a| ==> b[k] == a[|a| - 1 - k] }

  lemma MirrorIs(a: seq<Hash>, b: seq<Hash>)
    requires Mirrors(a, b) && Distinct(a)
    ensures Distinct(b) && forall h :: h in b <==> h in Elems(a)
    ensures a != [] ==> b[|b| - 1] == a[0]
  {
    forall h | h in a ensures h in b {
      var i :| 0 <= i < |a| && a[i] == h;
      assert b[|a| - 1 - i] == h;
    }
    forall i, j | 0 <= i < j < |b| ensures b[i] != b[j] { assert a[|a| - 1 - j] != a[|a| - 1 - i]; }
  }

  method ReverseList(list: seq<Hash>) returns (r: seq<Hash>)
    ensures Mirrors(list, r)
  {
    var a := new Hash[|list|](i requires 0 <= i < |list| => list[i]);
    assert a[..] == list;
    Reverse(a);
    r := a[..];
  }

  /** Swaps from both ends inwards. */
  method Reverse(a: array<Hash>)
    modifies a
    ensures Mirrors(old(a[..]), a[..])
  {
    var i, j := 0, a.Length - 1;
    while i < j
      invariant 0 <= i <= a.Length && i + j == a.Length - 1
      invariant forall k :: 0 <= k < i || j < k < a.Length ==> a[k] == old(a[a.Length - 1 - k])
      invariant forall k :: i <= k <= j ==> a[k] == old(a[k])
    {
      a[i], a[j] := a[j], a[i];
      i, j := i + 1, j - 1;
    }
  }

  // ---- moving a ref ----

  datatype Move = Moved | Unmoved | Refused

  /** What a fast-forward comes to; Refused is its error. */
  ghost function Outcome(g: Graph, refs: map<string, Hash>, remote: string, local: string): Move {
    if remote !in refs then Refused
    else if local !in refs then Moved
    else if refs[local] == refs[remote] then Unmoved
    else if Broken(g, refs[local]) then Refused
    else if Reaches(g, refs[local], refs[remote]) then Unmoved
    else if Broken(g, refs[remote]) then Refused
    else if !Reaches(g, refs[remote], refs[local]) then Refused
    else Moved
  }

  class Repository {
    const graph: Graph
    var refs: map<string, Hash>

    constructor (graph: Graph, refs: map<string, Hash>)
      ensures this.graph == graph && this.refs == refs
    {
      this.graph, this.refs := graph, refs;
    }

    /** The local ref takes the remote one's commit if that is a descendant of its own, or if there is no local ref. */
    method FastForward(remote: string, local: string) returns (move: Move)
      modifies this
      ensures move == Outcome(graph, old(refs), remote, local)
      ensures refs == if move.Moved? then old(refs)[local := old(refs)[remote]] else old(refs)
    {
      hide Reaches, Broken;
      if remote !in refs {
        return Refused;
      }
      var remoteHash := refs[remote];
      if local !in refs {
        refs := refs[local := remoteHash];
        return Moved;
      }
      var localHash := refs[local];
      if localHash == remoteHash {
        return Unmoved;
      }
      var localCommits := ListCommits(graph, localHash);
      if localCommits.None? {
        return Refused;
      }
      if remoteHash in localCommits.value {
        return Unmoved;
      }
      var remoteCommits := ListCommits(graph, remoteHash);
      if remoteCommits.None? {
        return Refused;
      }
      if localHash !in remoteCommits.value {
        return Refused;
      }
      refs := refs[local := remoteHash];
      return Moved;
    }
  }

  function RefsAfter(refs: map<string, Hash>, remote: string, local: string, move: Move): map<string, Hash>
    requires move.Moved? ==> remote in refs
  {
    if move.Moved? then refs[local := refs[remote]] else refs
  }

  /**
   A fast-forward moves no other ref, moves local only to a descendant of where it was, and
   loses no commit: whatever any ref reached, it reaches still.
   */
  lemma FastForwardLosesNothing(g: Graph, refs: map<string, Hash>, remote: string, local: string, r: string, h: Hash)
    requires r in refs && Reaches(g, refs[r], h)
    ensures var after := RefsAfter(refs, remote, local, Outcome(g, refs, remote, local));
            && r in after && Reaches(g, after[r], h)
            && (after[r] != refs[r] ==> r == local && after[r] == refs[remote] && Reaches(g, after[r], refs[r]) && !Reaches(g, refs[r], after[r]))
  {
    hide Reaches, Broken;
    if r == local && Outcome(g, refs, remote, local).Moved? { ReachesTransitive(g, refs[remote], refs[local], h); }
  }

  /** Where both histories can be read, it is refused exactly when neither is ahead of the other. */
  lemma RefusedWhenDiverged(g: Graph, refs: map<string, Hash>, remote: string, local: string)
    requires remote in refs && local in refs && !Broken(g, refs[remote]) && !Broken(g, refs[local])
    ensures Outcome(g, refs, remote, local).Refused?
            <==> !Reaches(g, refs[local], refs[remote]) && !Reaches(g, refs[remote], refs[local])
  {
    ReachesSelf(g, refs[local]);
  }

  /**
   What a fast-forward comes to: an error without a remote ref, a move without a local one. Where
   both histories can be read it moves exactly to a descendant, and does nothing when local has
   the remote commit; a history it has to read and cannot is an error.
   */
  lemma MoveIs(g: Graph, refs: map<string, Hash>, remote: string, local: string)
    ensures var m := Outcome(g, refs, remote, local);
            && (remote !in refs ==> m.Refused?) && (remote in refs && local !in refs ==> m.Moved?)
            && (remote in refs && local in refs ==>
                  var ahead, behind := Reaches(g, refs[local], refs[remote]), Reaches(g, refs[remote], refs[local]);
                  if refs[local] == refs[remote] then m.Unmoved?
                  else if Broken(g, refs[local]) || (!ahead && Broken(g, refs[remote])) then m.Refused?
                  else (m.Unmoved? <==> ahead) && (m.Moved? <==> behind && !ahead) && (m.Refused? <==> !ahead && !behind))
  {
    hide Reaches, Broken;
  }
}
