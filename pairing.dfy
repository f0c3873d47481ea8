/**
 * The pairing between leaves and replacements. Rows of both tables are only
 * ever added together (one approval adds Leave(e, d) and Replacement(e -> r, d)),
 * moved together (`edit_leave`) or removed together (`delete_leave`,
 * `delete_employee`). So no handler can leave more replacements covering for
 * an employee on a day than that employee has leaves on it, and every
 * Replacement row has a Leave row behind it.
 *
 * One consequence concerns `request_leave`: a replacement who covers for the
 * requester on a day is on leave that day, so the earlier "replacement on
 * leave" check already declines the date, and the mutual-replacement check
 * never decides anything.
 */
module Pairing {
  import opened Seqs
  import opened Records
  import opened Approval
  import opened Admin

  /** The Replacement rows covering for employee `e` on `d`. */
  function For(e: Id, d: Date): Replacement -> bool
  {
    (x: Replacement) => x.onLeave == e && x.date == d
  }

  function LeavesOf(ls: seq<Leave>, e: Id, d: Date): nat
  {
    |Filter(ls, Own(e, d))|
  }

  function CoversOf(rs: seq<Replacement>, e: Id, d: Date): nat
  {
    |Filter(rs, For(e, d))|
  }

  /** For every employee and day, no more replacements cover for the employee
      than the employee has leaves. */
  ghost predicate Paired(t: Tables)
  {
    forall e, d :: CoversOf(t.replacements, e, d) <= LeavesOf(t.leaves, e, d)
  }

  /** Every Replacement row has a Leave row of the covered employee on its day. */
  lemma {:induction false} CoverHasLeave(t: Tables, x: Replacement)
    requires Paired(t) && x in t.replacements
    ensures OnLeave(t.leaves, x.onLeave, x.date)
  {
    var covers := Filter(t.replacements, For(x.onLeave, x.date));
    FilterMembers(t.replacements, For(x.onLeave, x.date));
    assert x in covers;
    assert CoversOf(t.replacements, x.onLeave, x.date) >= 1;
    var own := Filter(t.leaves, Own(x.onLeave, x.date));
    FilterMembers(t.leaves, Own(x.onLeave, x.date));
    assert |own| >= 1;
    assert own[0] in own;
  }

  /** On paired tables the mutual-replacement check never decides a date:
      whenever it would hold, the replacement-on-leave check (or the capacity
      check before it) has already declined. */
  lemma {:induction false} MutualCheckShadowed(t: Tables, e: Id, r: Id, d: Date)
    requires Paired(t)
    ensures Decide(t, e, r, d) != MutualReplacement
  {
    if Covers(t.replacements, r, e, d) {
      var x :| x in t.replacements && x.onLeave == r && x.replacement == e && x.date == d;
      CoverHasLeave(t, x);
    }
  }

  // ---------------------------------------------------------------------
  // Every handler keeps the tables paired

  lemma PairedEmpty()
    ensures Paired(Tables([], [], []))
  {
  }

  /** An approval adds one leave and one replacement for the same employee and day. */
  lemma {:induction false} AdmitPaired(t: Tables, e: Id, r: Id, d: Date)
    requires WellKeyed(t) && Paired(t)
    ensures Paired(Admit(t, e, r, d))
  {
    var u := Admit(t, e, r, d);
    var l := u.leaves[|t.leaves|];
    var x := u.replacements[|t.replacements|];
    assert u.leaves == t.leaves + [l];
    assert u.replacements == t.replacements + [x];
    forall a, b ensures CoversOf(u.replacements, a, b) <= LeavesOf(u.leaves, a, b) {
      assert CoversOf(t.replacements, a, b) <= LeavesOf(t.leaves, a, b);
      FilterSnoc(t.leaves, l, Own(a, b));
      FilterSnoc(t.replacements, x, For(a, b));
    }
  }

  /** One iteration of the request loop keeps the tables paired. */
  lemma StepPaired(pre: Eval, e: Id, r: Id, d: Date)
    requires WellKeyed(pre.after) && Paired(pre.after)
    ensures Paired(Step(pre, e, r, d).after)
  {
    if Decide(pre.after, e, r, d) == Approved {
      AdmitPaired(pre.after, e, r, d);
    }
  }

  /** A batch of approvals keeps the tables paired. */
  lemma {:induction false} EvaluatePaired(t: Tables, e: Id, r: Id, ds: seq<Date>)
    requires WellKeyed(t) && Paired(t)
    ensures Paired(Evaluate(t, e, r, ds).after)
    decreases |ds|
  {
    if ds != [] {
      EvaluatePaired(t, e, r, ds[..|ds| - 1]);
      StepPaired(Evaluate(t, e, r, ds[..|ds| - 1]), e, r, ds[|ds| - 1]);
    }
  }

  /** A committed request keeps the tables paired. */
  lemma BatchPaired(t: Tables, e: Id, rep: Option<Id>, strs: seq<string>, parse: string -> Option<Date>)
    requires WellKeyed(t) && Paired(t) && RunBatch(t, e, rep, strs, parse).Ok?
    ensures Paired(RunBatch(t, e, rep, strs, parse).value.after)
  {
    EvaluatePaired(t, e, rep.value, ParseAll(strs, parse).value);
  }

  /** In a request on paired tables, no date of the batch is decided by the
      mutual-replacement check: the tables each date is decided against are
      paired as well. */
  lemma BatchNeverMutual(t: Tables, e: Id, r: Id, ds: seq<Date>, k: nat)
    requires WellKeyed(t) && Paired(t) && k < |ds|
    ensures Decide(Evaluate(t, e, r, ds[..k]).after, e, r, ds[k]) != MutualReplacement
  {
    EvaluatePaired(t, e, r, ds[..k]);
    MutualCheckShadowed(Evaluate(t, e, r, ds[..k]).after, e, r, ds[k]);
  }

  /** Moving a leave moves the first replacement of its employee on its old
      day; without one, the employee had no cover on the old day at all. */
  lemma {:induction false} MovePaired(t: Tables, i: nat, nd: Date)
    requires Paired(t) && i < |t.leaves|
    ensures Paired(MoveLeave(t, i, nd))
  {
    var u := MoveLeave(t, i, nd);
    var l := t.leaves[i];
    assert u.leaves == t.leaves[i := l.(date := nd)];
    var j := FirstCover(t.replacements, l.employeeId, l.date);
    forall a, b ensures CoversOf(u.replacements, a, b) <= LeavesOf(u.leaves, a, b) {
      assert CoversOf(t.replacements, a, b) <= LeavesOf(t.leaves, a, b);
      FilterUpdate(t.leaves, i, l.(date := nd), Own(a, b));
      if j.Some? {
        var x := t.replacements[j.value];
        assert u.replacements == t.replacements[j.value := x.(date := nd)];
        FilterUpdate(t.replacements, j.value, x.(date := nd), For(a, b));
      } else if a == l.employeeId && b == l.date {
        FilterNone(t.replacements, For(a, b));
      }
    }
  }

  /** Deleting a leave deletes every replacement of its employee on its day. */
  lemma {:induction false} DropPaired(t: Tables, l: Leave)
    requires WellKeyed(t) && Paired(t) && l in t.leaves
    ensures Paired(DropLeave(t, l))
  {
    var u := DropLeave(t, l);
    var keep := (k: Leave) => k.id != l.id;
    var keepCover := (x: Replacement) => !(x.onLeave == l.employeeId && x.date == l.date);
    assert u.leaves == Filter(t.leaves, keep);
    assert u.replacements == Filter(t.replacements, keepCover);
    var i :| 0 <= i < |t.leaves| && t.leaves[i] == l;
    forall k | k in t.leaves && k.id == l.id ensures k == l {
      var m :| 0 <= m < |t.leaves| && t.leaves[m] == k;
      LeaveAtUnique(t.leaves, l.id, i);
      LeaveAtUnique(t.leaves, l.id, m);
    }
    forall a, b ensures CoversOf(u.replacements, a, b) <= LeavesOf(u.leaves, a, b) {
      assert CoversOf(t.replacements, a, b) <= LeavesOf(t.leaves, a, b);
      var own, covers := Own(a, b), For(a, b);
      if a == l.employeeId && b == l.date {
        FilterNone(u.replacements, covers);
      } else {
        FilterFilterSame(t.leaves, keep, own);
        FilterFilterLe(t.replacements, keepCover, covers);
      }
    }
  }

  /** Deleting an employee deletes every replacement covering for them, and
      leaves the leaves of everyone else alone. */
  lemma {:induction false} DismissPaired(t: Tables, id: Id)
    requires Paired(t)
    ensures Paired(Dismiss(t, id))
  {
    var u := Dismiss(t, id);
    var keep := (l: Leave) => l.employeeId != id;
    var notOnLeave := (x: Replacement) => x.onLeave != id;
    var notCovering := (x: Replacement) => x.replacement != id;
    var covered := Filter(t.replacements, notOnLeave);
    assert u.leaves == Filter(t.leaves, keep);
    assert u.replacements == Filter(covered, notCovering);
    forall a, b ensures CoversOf(u.replacements, a, b) <= LeavesOf(u.leaves, a, b) {
      assert CoversOf(t.replacements, a, b) <= LeavesOf(t.leaves, a, b);
      var own, covers := Own(a, b), For(a, b);
      if a == id {
        FilterNone(u.replacements, covers);
      } else {
        FilterFilterSame(t.leaves, keep, own);
        FilterFilterLe(covered, notCovering, covers);
        FilterFilterLe(t.replacements, notOnLeave, covers);
      }
    }
  }
}
