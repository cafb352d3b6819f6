/** The issue a round works on. */
module Tracker {
  // Its local document, its markers, and whether it was seen converged.

  import opened Documents
  import opened Bases
  import opened Merging
  import opened Check
  import opened Admit
  import opened Engine
  import opened Safety
  import opened Agreement

  class Issue {
    var local: Doc
    var markers: seq<BaseState>
    var seen: bool   // converged at its present state: no candidate until it changes
    var retry: bool  // asked for again before the run ends

    constructor (local: Doc)
      ensures this.local == local && markers == [] && !seen && !retry
    {
      this.local, markers, seen, retry := local, [], false, false;
    }

    function Stored(): Store
      reads this
    {
      Store(local, markers)
    }

    /**
     Step 6: the second merge, on the issue as it is under the lock; reported is what step 4
     left pending. A round whose read after the writes failed says nothing of seen and retry.
     */
    method Commit(s: Session, m: Commit, newOp: string -> string, reported: set<Skip>)
      modifies this
      ensures Stored() == CommitSpec(old(Stored()), s, m, newOp)
      ensures var a := CommitPlan(s, old(local), m);
              if s.unread then seen == old(seen) && retry == old(retry)
              else seen == (reported + Pending(a) == {}) && retry == (old(retry) || a.plan.base.retry != {})
    {
      hide MergeCtx, SettleBase, SettleDoc, AdmitSpec, ApplyLocal, CurrentBase, SameBase, Pending, PairChanges;
      var l := local.(comments := WithPairs(local.comments, s.pairs));
      var b, remote := Settle(Some(s.base), l, ReadOf(s, m));
      var plan := MergeDocs(b, l, remote, m.multi, false);
      plan := plan.(local := plan.local + PairChanges(local.comments, s.pairs));
      var a := AdmitPlan(m.checker, plan, TypeOf(local), b);
      assert a == CommitPlan(s, local, m);
      local := ApplyLocal(local, a.plan.local, newOp);
      if !SameBase(CurrentBase(markers), a.plan.base) {
        markers := markers + [a.plan.base];
      }
      if s.unread {
        return;
      }
      retry := retry || a.plan.base.retry != {};
      seen := reported + Pending(a) == {};
    }

    /** Steps 3 to 6 with nothing in between. */
    method Converge(r: Read, answers: Answers, reread: Option<Doc>, m: Commit, newOp: string -> string, reported: set<Skip>)
      modifies this
      ensures Stored() == CommitSpec(old(Stored()),
                                     BeginSpec(Some(CurrentBase(old(markers))), old(local), r, answers, reread), m, newOp)
    {
      var s := Begin(Some(CurrentBase(markers)), local, r, answers, reread);
      Commit(s, m, newOp, reported);
    }
  }

  /** An issue marked seen has converged: every key Jira's document has agrees on all sides. */
  lemma SeenMeansConverged(st: Store, s: Session, m: Engine.Commit, newOp: string -> string, reported: set<Skip>, k: string)
    requires reported + Pending(CommitPlan(s, st.local, m)) == {}
    requires k in s.doc.fields && BODY !in m.multi && TYPE !in m.multi && WellFormed(m.checker)
    ensures var b := CommitPlan(s, st.local, m).plan.base;
            && k in b.fields
            && Agrees(At(CommitSpec(st, s, m, newOp).local.fields, k), At(s.doc.fields, k), b.fields[k], k in m.multi, k)
  {
    hide CommitPlan, ApplyLocal;
    EachKeyAgreesOrPends(s, st.local, m, newOp, k);
  }
}
