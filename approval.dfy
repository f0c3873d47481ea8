/**
 * The leave-approval rules of `request_leave` as functions on the tables:
 * the per-date decision, a batch of dates evaluated in order against tables
 * that already hold the batch's earlier approvals, and the whole request
 * with its all-or-nothing failure.
 */
module Approval {
  import opened Seqs
  import opened Records

  /** `filter_by(date=d)` on the Leave table. */
  function OnDate(d: Date): Leave -> bool
  {
    (l: Leave) => l.date == d
  }

  /** Number of Leave rows on date `d` (`Leave.query.filter_by(date=d).count()`). */
  function LeavesOn(ls: seq<Leave>, d: Date): (n: nat)
    ensures n <= |ls|
    decreases |ls|
  {
    if ls == [] then 0
    else LeavesOn(ls[..|ls| - 1], d) + (if ls[|ls| - 1].date == d then 1 else 0)
  }

  /** The count is the size of the filtered table. */
  lemma {:induction false} LeavesOnCount(ls: seq<Leave>, d: Date)
    ensures LeavesOn(ls, d) == |Filter(ls, OnDate(d))|
    decreases |ls|
  {
    if ls != [] {
      var m := |ls| - 1;
      LeavesOnCount(ls[..m], d);
      assert ls == ls[..m] + [ls[m]];
      FilterSnoc(ls[..m], ls[m], OnDate(d));
    }
  }

  /** The number of leaves on one date at which the capacity check starts to
      decline: 33% of the staff, rounded up. */
  function Quota(staff: nat): (q: nat)
    ensures 100 * q >= 33 * staff
    ensures q == 0 || 100 * (q - 1) < 33 * staff
  {
    (33 * staff + 99) / 100
  }

  /** `is_within_limit`: true with no employees at all, otherwise true when the
      leaves already on `d` are under 33% of the staff. The source compares the
      float quotient with 0.33; this is the same comparison cross-multiplied. */
  predicate WithinLimit(t: Tables, d: Date): (ok: bool)
    ensures |t.employees| == 0 ==> ok
  {
    |t.employees| == 0 || 100 * LeavesOn(t.leaves, d) < 33 * |t.employees|
  }

  /** The Leave rows of employee `e` on `d`. */
  function Own(e: Id, d: Date): Leave -> bool
  {
    (l: Leave) => l.employeeId == e && l.date == d
  }

  /** The Replacement rows in which `cover` covers for `onLeave` on `d`. */
  function Pairs(onLeave: Id, cover: Id, d: Date): Replacement -> bool
  {
    (x: Replacement) => x.onLeave == onLeave && x.replacement == cover && x.date == d
  }

  /** The Replacement rows in which `cover` is the replacement on `d`. */
  function CoveredBy(cover: Id, d: Date): Replacement -> bool
  {
    (x: Replacement) => x.replacement == cover && x.date == d
  }

  /** `who` already has a Leave row on `d`. */
  predicate OnLeave(ls: seq<Leave>, who: Id, d: Date)
  {
    exists l :: l in ls && l.employeeId == who && l.date == d
  }

  /** A Replacement row says `cover` covers for `onLeave` on `d`. */
  predicate Covers(rs: seq<Replacement>, onLeave: Id, cover: Id, d: Date)
  {
    exists x :: x in rs && x.onLeave == onLeave && x.replacement == cover && x.date == d
  }

  /** A Replacement row already assigns `cover` as a replacement on `d`. */
  predicate Booked(rs: seq<Replacement>, cover: Id, d: Date)
  {
    exists x :: x in rs && x.replacement == cover && x.date == d
  }

  /** The replacement-on-leave check holds exactly when the query's `.first()`
      finds a row. */
  lemma OnLeaveQuery(ls: seq<Leave>, who: Id, d: Date)
    ensures OnLeave(ls, who, d) <==> Filter(ls, Own(who, d)) != []
  {
    FilterMembers(ls, Own(who, d));
    var q := Filter(ls, Own(who, d));
    assert q != [] ==> q[0] in q;
  }

  /** The mutual-replacement check holds exactly when its query's `.first()`
      finds a row. */
  lemma CoversQuery(rs: seq<Replacement>, onLeave: Id, cover: Id, d: Date)
    ensures Covers(rs, onLeave, cover, d) <==> Filter(rs, Pairs(onLeave, cover, d)) != []
  {
    FilterMembers(rs, Pairs(onLeave, cover, d));
    var q := Filter(rs, Pairs(onLeave, cover, d));
    assert q != [] ==> q[0] in q;
  }

  /** The double-booking check holds exactly when its query's `.first()`
      finds a row. */
  lemma BookedQuery(rs: seq<Replacement>, cover: Id, d: Date)
    ensures Booked(rs, cover, d) <==> Filter(rs, CoveredBy(cover, d)) != []
  {
    FilterMembers(rs, CoveredBy(cover, d));
    var q := Filter(rs, CoveredBy(cover, d));
    assert q != [] ==> q[0] in q;
  }

  /** The outcome of the checks for one date; the first failing check wins. */
  datatype Verdict = Approved | OverCapacity | ReplacementOnLeave | MutualReplacement | ReplacementBooked

  /** The four checks of one iteration, for employee `e` asking replacement `r`
      to cover date `d`. */
  function Decide(t: Tables, e: Id, r: Id, d: Date): (v: Verdict)
    ensures v == Approved <==>
      WithinLimit(t, d) && !OnLeave(t.leaves, r, d) && !Covers(t.replacements, r, e, d) && !Booked(t.replacements, r, d)
  {
    if !WithinLimit(t, d) then OverCapacity
    else if OnLeave(t.leaves, r, d) then ReplacementOnLeave
    else if Covers(t.replacements, r, e, d) then MutualReplacement
    else if Booked(t.replacements, r, d) then ReplacementBooked
    else Approved
  }

  /** A declined date is declined by the first check that fails, in source
      order: the verdict names that check, and every check before it passed. */
  lemma DecideFirstFailure(t: Tables, e: Id, r: Id, d: Date)
    ensures Decide(t, e, r, d) == OverCapacity <==> !WithinLimit(t, d)
    ensures Decide(t, e, r, d) == ReplacementOnLeave <==> WithinLimit(t, d) && OnLeave(t.leaves, r, d)
    ensures Decide(t, e, r, d) == MutualReplacement <==>
      WithinLimit(t, d) && !OnLeave(t.leaves, r, d) && Covers(t.replacements, r, e, d)
    ensures Decide(t, e, r, d) == ReplacementBooked <==>
      WithinLimit(t, d) && !OnLeave(t.leaves, r, d) && !Covers(t.replacements, r, e, d) && Booked(t.replacements, r, d)
  {
  }

  /** The two rows an approval adds: Leave(e, d) and Replacement(e -> r, d),
      each under the next primary key of its table. */
  function Admit(t: Tables, e: Id, r: Id, d: Date): (u: Tables)
    requires WellKeyed(t)
    ensures WellKeyed(u) && u.employees == t.employees
    ensures |u.leaves| == |t.leaves| + 1 && u.leaves[..|t.leaves|] == t.leaves
    ensures var l := u.leaves[|t.leaves|];
      l.id == NextKey(t.leaves, LeaveKey) && l.employeeId == e && l.date == d
    ensures |u.replacements| == |t.replacements| + 1 && u.replacements[..|t.replacements|] == t.replacements
    ensures var x := u.replacements[|t.replacements|];
      x.id == NextKey(t.replacements, ReplacementKey) && x.onLeave == e && x.replacement == r && x.date == d
  {
    var l := Leave(NextKey(t.leaves, LeaveKey), d, e);
    var x := Replacement(NextKey(t.replacements, ReplacementKey), e, r, d);
    AppendNextKey(t.leaves, LeaveKey, l);
    AppendNextKey(t.replacements, ReplacementKey, x);
    Tables(t.employees, t.leaves + [l], t.replacements + [x])
  }

  /** The tables after a run of dates, and for each date whether it was approved. */
  datatype Eval = Eval(after: Tables, flags: seq<bool>)

  /** One loop iteration: decide date `d` against the tables so far. */
  function Step(pre: Eval, e: Id, r: Id, d: Date): (v: Eval)
    requires WellKeyed(pre.after)
    ensures WellKeyed(v.after) && v.after.employees == pre.after.employees
    ensures v.flags == pre.flags + [Decide(pre.after, e, r, d) == Approved]
  {
    if Decide(pre.after, e, r, d) == Approved then Eval(Admit(pre.after, e, r, d), pre.flags + [true])
    else Eval(pre.after, pre.flags + [false])
  }

  /** The tables after one iteration, row by row. */
  lemma StepTables(pre: Eval, e: Id, r: Id, d: Date)
    requires WellKeyed(pre.after)
    ensures var t := pre.after;
      Step(pre, e, r, d).after ==
        if Decide(t, e, r, d) == Approved then
          Tables(t.employees, t.leaves + [Leave(NextKey(t.leaves, LeaveKey), d, e)],
                 t.replacements + [Replacement(NextKey(t.replacements, ReplacementKey), e, r, d)])
        else t
  {
  }

  /** The loop of `request_leave` over parsed dates, in order. */
  function Evaluate(t: Tables, e: Id, r: Id, ds: seq<Date>): (v: Eval)
    requires WellKeyed(t)
    ensures WellKeyed(v.after) && v.after.employees == t.employees
    ensures |v.flags| == |ds|
    decreases |ds|
  {
    if ds == [] then Eval(t, [])
    else Step(Evaluate(t, e, r, ds[..|ds| - 1]), e, r, ds[|ds| - 1])
  }

  /** `datetime.strptime` applied to every date string; None if any raises. */
  function ParseAll(strs: seq<string>, parse: string -> Option<Date>): (r: Option<seq<Date>>)
    ensures r.Some? <==> forall k :: 0 <= k < |strs| ==> parse(strs[k]).Some?
    ensures r.Some? ==> |r.value| == |strs| && forall k :: 0 <= k < |strs| ==> parse(strs[k]) == Some(r.value[k])
    decreases |strs|
  {
    if strs == [] then Some([])
    else match ParseAll(strs[..|strs| - 1], parse)
      case None => None
      case Some(ds) =>
        match parse(strs[|strs| - 1])
        case None => None
        case Some(d) => Some(ds + [d])
  }

  /** What a committed request leaves behind and answers. */
  datatype Batch = Batch(after: Tables, approved: seq<string>, declined: seq<string>)

  /** `request_leave` for employee `e`, the replacement id after `int()`
      (None when the conversion raises), and the date strings of the request.
      An exception before the commit leaves the tables as they were. */
  function RunBatch(t: Tables, e: Id, rep: Option<Id>, strs: seq<string>, parse: string -> Option<Date>): (res: Result<Batch>)
    requires WellKeyed(t)
    ensures res.Err? <==> rep.None? || exists k :: 0 <= k < |strs| && parse(strs[k]).None?
    ensures rep.None? ==> res == Err(MalformedId)
    ensures rep.Some? && res.Err? ==> res.failure == MalformedDate
    ensures res.Ok? ==> WellKeyed(res.value.after) && res.value.after.employees == t.employees
    ensures res.Ok? ==>
      && |res.value.approved| + |res.value.declined| == |strs|
      && multiset(res.value.approved) + multiset(res.value.declined) == multiset(strs)
  {
    if rep.None? then Err(MalformedId)
    else match ParseAll(strs, parse)
      case None => Err(MalformedDate)
      case Some(ds) =>
        var v := Evaluate(t, e, rep.value, ds);
        PickPartition(strs, v.flags);
        Ok(Batch(v.after, Pick(strs, v.flags, true), Pick(strs, v.flags, false)))
  }

  /** One more date string of the request: parsing, evaluation and the two
      answer lists each grow by that date. */
  lemma BatchStep(t: Tables, e: Id, r: Id, strs: seq<string>, i: nat, ds: seq<Date>, flags: seq<bool>,
                  parse: string -> Option<Date>, d: Date, ok: bool)
    requires WellKeyed(t) && i < |strs| && |flags| == i
    requires ParseAll(strs[..i], parse) == Some(ds) && parse(strs[i]) == Some(d)
    ensures ParseAll(strs[..i + 1], parse) == Some(ds + [d])
    ensures Evaluate(t, e, r, ds + [d]) == Step(Evaluate(t, e, r, ds), e, r, d)
    ensures Pick(strs[..i + 1], flags + [ok], true) == Pick(strs[..i], flags, true) + (if ok then [strs[i]] else [])
    ensures Pick(strs[..i + 1], flags + [ok], false) == Pick(strs[..i], flags, false) + (if ok then [] else [strs[i]])
  {
    assert strs[..i + 1][..i] == strs[..i];
    assert (ds + [d])[..|ds|] == ds;
    PickSnoc(strs[..i], flags, strs[i], ok, true);
    PickSnoc(strs[..i], flags, strs[i], ok, false);
    assert strs[..i + 1] == strs[..i] + [strs[i]];
  }

  // ---------------------------------------------------------------------
  // Capacity

  /** With staff, the check passes exactly while the date holds fewer leaves
      than the quota. */
  lemma QuotaMeaning(t: Tables, d: Date)
    requires |t.employees| > 0
    ensures WithinLimit(t, d) <==> LeavesOn(t.leaves, d) < Quota(|t.employees|)
  {
  }

  lemma LeavesOnAppend(ls: seq<Leave>, l: Leave, d: Date)
    ensures LeavesOn(ls + [l], d) == LeavesOn(ls, d) + (if l.date == d then 1 else 0)
  {
    assert (ls + [l])[..|ls|] == ls;
  }

  /** Approvals never push a date past the quota: after a batch a date holds
      no more leaves than it held before or than the quota, whichever is more. */
  lemma {:induction false} CapacityCap(t: Tables, e: Id, r: Id, ds: seq<Date>, d: Date)
    requires WellKeyed(t) && |t.employees| > 0
    ensures var n := LeavesOn(Evaluate(t, e, r, ds).after.leaves, d);
      n <= LeavesOn(t.leaves, d) || n <= Quota(|t.employees|)
    decreases |ds|
  {
    if ds != [] {
      var pre := Evaluate(t, e, r, ds[..|ds| - 1]);
      var x := ds[|ds| - 1];
      CapacityCap(t, e, r, ds[..|ds| - 1], d);
      if Decide(pre.after, e, r, x) == Approved {
        var u := Admit(pre.after, e, r, x);
        LeavesOnAppend(pre.after.leaves, u.leaves[|u.leaves| - 1], d);
        assert u.leaves == pre.after.leaves + [u.leaves[|u.leaves| - 1]];
        QuotaMeaning(pre.after, d);
      }
    }
  }

  // ---------------------------------------------------------------------
  // What a batch writes

  /** `u` is `t` with one Leave(e, date) and one Replacement(e -> r, date)
      appended per date of `a`, in order, and nothing else changed. */
  ghost predicate AppendsRows(t: Tables, u: Tables, e: Id, r: Id, a: seq<Date>)
  {
    && u.employees == t.employees
    && |u.leaves| == |t.leaves| + |a| && u.leaves[..|t.leaves|] == t.leaves
    && |u.replacements| == |t.replacements| + |a| && u.replacements[..|t.replacements|] == t.replacements
    && (forall j :: |t.leaves| <= j < |u.leaves| ==>
          u.leaves[j].employeeId == e && u.leaves[j].date == a[j - |t.leaves|])
    && (forall j :: |t.replacements| <= j < |u.replacements| ==>
          && u.replacements[j].onLeave == e
          && u.replacements[j].replacement == r
          && u.replacements[j].date == a[j - |t.replacements|])
  }

  /** A batch only appends: the employee table is untouched, the old leave and
      replacement rows stay as they were, and each approved date, in order,
      adds one Leave(e, date) and one Replacement(e -> r, date). */
  lemma {:induction false} EvaluateAppends(t: Tables, e: Id, r: Id, ds: seq<Date>)
    requires WellKeyed(t)
    ensures var v := Evaluate(t, e, r, ds); AppendsRows(t, v.after, e, r, Pick(ds, v.flags, true))
    decreases |ds|
  {
    if ds != [] {
      var n := |ds| - 1;
      var pre := Evaluate(t, e, r, ds[..n]);
      EvaluateAppends(t, e, r, ds[..n]);
      var v := Evaluate(t, e, r, ds);
      assert v.flags[..n] == pre.flags;
      var a0 := Pick(ds[..n], pre.flags, true);
      assert Pick(ds, v.flags, true) == a0 + (if v.flags[n] then [ds[n]] else []);
      if v.flags[n] {
        AdmitAppends(t, pre.after, e, r, a0, ds[n]);
      } else {
        assert v.after == pre.after && Pick(ds, v.flags, true) == a0;
      }
    }
  }

  /** An approval extends the rows a batch has appended by one date. */
  lemma AdmitAppends(t: Tables, p: Tables, e: Id, r: Id, a: seq<Date>, d: Date)
    requires WellKeyed(p) && AppendsRows(t, p, e, r, a)
    ensures AppendsRows(t, Admit(p, e, r, d), e, r, a + [d])
  {
    var u := Admit(p, e, r, d);
    var a' := a + [d];
    forall j | |t.leaves| <= j < |u.leaves|
      ensures u.leaves[j].employeeId == e && u.leaves[j].date == a'[j - |t.leaves|]
    {
      if j < |p.leaves| {
        assert u.leaves[j] == u.leaves[..|p.leaves|][j];
      }
    }
    forall j | |t.replacements| <= j < |u.replacements|
      ensures && u.replacements[j].onLeave == e
              && u.replacements[j].replacement == r
              && u.replacements[j].date == a'[j - |t.replacements|]
    {
      if j < |p.replacements| {
        assert u.replacements[j] == u.replacements[..|p.replacements|][j];
      }
    }
    assert u.leaves[..|t.leaves|] == u.leaves[..|p.leaves|][..|t.leaves|];
    assert u.replacements[..|t.replacements|] == u.replacements[..|p.replacements|][..|t.replacements|];
  }

  /** Deciding the first `m` dates gives the first `m` flags of the whole batch. */
  lemma {:induction false} EvaluatePrefix(t: Tables, e: Id, r: Id, ds: seq<Date>, m: nat)
    requires WellKeyed(t) && m <= |ds|
    ensures Evaluate(t, e, r, ds[..m]).flags == Evaluate(t, e, r, ds).flags[..m]
    decreases |ds|
  {
    if m < |ds| {
      var n := |ds| - 1;
      EvaluatePrefix(t, e, r, ds[..n], m);
      assert ds[..n][..m] == ds[..m];
    } else {
      assert ds[..m] == ds;
    }
  }

  /** Dates are decided in order, each against the tables as they stand after
      the earlier dates of the same batch (rows added in the loop are visible
      to the next iteration's queries). */
  lemma DecidedInOrder(t: Tables, e: Id, r: Id, ds: seq<Date>, k: nat)
    requires WellKeyed(t) && k < |ds|
    ensures Evaluate(t, e, r, ds).flags[k] == (Decide(Evaluate(t, e, r, ds[..k]).after, e, r, ds[k]) == Approved)
  {
    EvaluatePrefix(t, e, r, ds, k + 1);
    assert ds[..k + 1][..k] == ds[..k];
  }

  /** A conflict already in the tables before the batch is still there when
      date `k` is decided. */
  lemma StillThere(t: Tables, e: Id, r: Id, ds: seq<Date>, k: nat)
    requires WellKeyed(t) && k <= |ds|
    ensures var s := Evaluate(t, e, r, ds[..k]).after;
      && (forall l :: l in t.leaves ==> l in s.leaves)
      && (forall x :: x in t.replacements ==> x in s.replacements)
  {
    EvaluateAppends(t, e, r, ds[..k]);
    var s := Evaluate(t, e, r, ds[..k]).after;
    forall l | l in t.leaves ensures l in s.leaves {
      assert l in s.leaves[..|t.leaves|];
    }
    forall x | x in t.replacements ensures x in s.replacements {
      assert x in s.replacements[..|t.replacements|];
    }
  }

  /** A date is declined when the replacement already has a Leave on it,
      whatever the capacity check says. */
  lemma ReplacementOnLeaveDeclines(t: Tables, e: Id, r: Id, ds: seq<Date>, k: nat)
    requires WellKeyed(t) && k < |ds| && OnLeave(t.leaves, r, ds[k])
    ensures !Evaluate(t, e, r, ds).flags[k]
  {
    DecidedInOrder(t, e, r, ds, k);
    StillThere(t, e, r, ds, k);
  }

  /** A date is declined when the replacement is already covering for the
      requester on it (mutual replacement). */
  lemma MutualReplacementDeclines(t: Tables, e: Id, r: Id, ds: seq<Date>, k: nat)
    requires WellKeyed(t) && k < |ds| && Covers(t.replacements, r, e, ds[k])
    ensures !Evaluate(t, e, r, ds).flags[k]
  {
    DecidedInOrder(t, e, r, ds, k);
    StillThere(t, e, r, ds, k);
  }

  /** A date is declined when the replacement is already covering for anyone on it. */
  lemma ReplacementBookedDeclines(t: Tables, e: Id, r: Id, ds: seq<Date>, k: nat)
    requires WellKeyed(t) && k < |ds| && Booked(t.replacements, r, ds[k])
    ensures !Evaluate(t, e, r, ds).flags[k]
  {
    DecidedInOrder(t, e, r, ds, k);
    StillThere(t, e, r, ds, k);
  }

  /** Within one batch a date is approved at most once: the approval books the
      replacement for that date, so a repeat is declined as double-booking. */
  lemma RepeatedDateDeclined(t: Tables, e: Id, r: Id, ds: seq<Date>, j: nat, k: nat)
    requires WellKeyed(t) && j < k < |ds| && ds[j] == ds[k]
    requires Evaluate(t, e, r, ds).flags[j]
    ensures !Evaluate(t, e, r, ds).flags[k]
  {
    var pre := Evaluate(t, e, r, ds[..k]);
    DecidedInOrder(t, e, r, ds, k);
    EvaluatePrefix(t, e, r, ds, k);
    EvaluateAppends(t, e, r, ds[..k]);
    assert ds[..k][j] == ds[j];
    PickAt(ds[..k], pre.flags, true, j);
    var i := PickIndex(pre.flags, j, true);
    var x := pre.after.replacements[|t.replacements| + i];
    assert x in pre.after.replacements && x.replacement == r && x.date == ds[k];
  }

  // ---------------------------------------------------------------------
  // The request as a whole

  lemma {:induction false} PickParsed(strs: seq<string>, ds: seq<Date>, flags: seq<bool>, parse: string -> Option<Date>, b: bool)
    requires |strs| == |ds| == |flags|
    requires forall k :: 0 <= k < |strs| ==> parse(strs[k]) == Some(ds[k])
    ensures |Pick(strs, flags, b)| == |Pick(ds, flags, b)|
    ensures forall i :: 0 <= i < |Pick(strs, flags, b)| ==> parse(Pick(strs, flags, b)[i]) == Some(Pick(ds, flags, b)[i])
    decreases |strs|
  {
    if strs != [] {
      var n := |strs| - 1;
      PickParsed(strs[..n], ds[..n], flags[..n], parse, b);
    }
  }

  /** A committed request adds exactly one Leave(e, date) and one
      Replacement(e -> r, date) per approved date string, in the order of the
      approved list, and changes nothing else. */
  lemma BatchAddsRows(t: Tables, e: Id, r: Id, strs: seq<string>, parse: string -> Option<Date>)
    requires WellKeyed(t) && RunBatch(t, e, Some(r), strs, parse).Ok?
    ensures var b := RunBatch(t, e, Some(r), strs, parse).value;
      && b.after.employees == t.employees
      && |b.after.leaves| == |t.leaves| + |b.approved| && b.after.leaves[..|t.leaves|] == t.leaves
      && |b.after.replacements| == |t.replacements| + |b.approved| && b.after.replacements[..|t.replacements|] == t.replacements
      && (forall k :: 0 <= k < |b.approved| ==>
            var l := b.after.leaves[|t.leaves| + k];
            l.employeeId == e && parse(b.approved[k]) == Some(l.date))
      && (forall k :: 0 <= k < |b.approved| ==>
            var x := b.after.replacements[|t.replacements| + k];
            x.onLeave == e && x.replacement == r && parse(b.approved[k]) == Some(x.date))
  {
    var ds := ParseAll(strs, parse).value;
    var v := Evaluate(t, e, r, ds);
    EvaluateAppends(t, e, r, ds);
    PickParsed(strs, ds, v.flags, parse, true);
    var b := RunBatch(t, e, Some(r), strs, parse).value;
    assert b.approved == Pick(strs, v.flags, true) && b.after == v.after;
    forall k | 0 <= k < |b.approved|
      ensures var x := b.after.replacements[|t.replacements| + k];
        x.onLeave == e && x.replacement == r && parse(b.approved[k]) == Some(x.date)
    {
      assert parse(b.approved[k]) == Some(Pick(ds, v.flags, true)[k]);
    }
  }

  /** Each date string of a committed request is answered in the list its
      date's decision selects: string k goes to `approved` when date k was
      approved and to `declined` otherwise, at the position given by the
      number of earlier strings with the same outcome. Each list has exactly
      one entry per string with its outcome. */
  lemma AnswerPlacement(t: Tables, e: Id, r: Id, strs: seq<string>, parse: string -> Option<Date>, k: nat)
    requires WellKeyed(t) && RunBatch(t, e, Some(r), strs, parse).Ok? && k < |strs|
    ensures var flags := Evaluate(t, e, r, ParseAll(strs, parse).value).flags;
      var b := RunBatch(t, e, Some(r), strs, parse).value;
      && |b.approved| == PickIndex(flags, |strs|, true)
      && |b.declined| == PickIndex(flags, |strs|, false)
      && (flags[k] ==> PickIndex(flags, k, true) < |b.approved| && b.approved[PickIndex(flags, k, true)] == strs[k])
      && (!flags[k] ==> PickIndex(flags, k, false) < |b.declined| && b.declined[PickIndex(flags, k, false)] == strs[k])
  {
    var flags := Evaluate(t, e, r, ParseAll(strs, parse).value).flags;
    PickLength(strs, flags, true);
    PickLength(strs, flags, false);
    PickAt(strs, flags, flags[k], k);
  }

  /** Both answer lists keep the order of the request: of two strings with
      the same outcome, the earlier one is answered first. */
  lemma AnswerOrder(t: Tables, e: Id, r: Id, strs: seq<string>, parse: string -> Option<Date>, j: nat, k: nat)
    requires WellKeyed(t) && RunBatch(t, e, Some(r), strs, parse).Ok? && j < k < |strs|
    requires var flags := Evaluate(t, e, r, ParseAll(strs, parse).value).flags; flags[j] == flags[k]
    ensures var flags := Evaluate(t, e, r, ParseAll(strs, parse).value).flags;
      var b := RunBatch(t, e, Some(r), strs, parse).value;
      var list := if flags[j] then b.approved else b.declined;
      var p, q := PickIndex(flags, j, flags[j]), PickIndex(flags, k, flags[k]);
      p < q < |list| && list[p] == strs[j] && list[q] == strs[k]
  {
    var flags := Evaluate(t, e, r, ParseAll(strs, parse).value).flags;
    PickIndexIncreasing(flags, j, k, flags[j]);
    AnswerPlacement(t, e, r, strs, parse, j);
    AnswerPlacement(t, e, r, strs, parse, k);
  }

  // ---------------------------------------------------------------------
  // Scenarios

  lemma EvaluateOne(t: Tables, e: Id, r: Id, d: Date)
    requires WellKeyed(t)
    ensures Evaluate(t, e, r, [d]) == Step(Eval(t, []), e, r, d)
  {
    assert [d][..0] == [];
  }

  lemma EvaluateTwo(t: Tables, e: Id, r: Id, d0: Date, d1: Date)
    requires WellKeyed(t)
    ensures Evaluate(t, e, r, [d0, d1]) == Step(Evaluate(t, e, r, [d0]), e, r, d1)
  {
    assert [d0, d1][..1] == [d0];
  }

  /** On tables with staff and no leave or replacement yet, a request for one
      date is approved and writes Leave 1 and Replacement 1. */
  lemma FirstApproval(t: Tables, e: Id, r: Id, d: Date)
    requires WellKeyed(t) && |t.employees| > 0 && t.leaves == [] && t.replacements == []
    ensures Evaluate(t, e, r, [d]) == Eval(Tables(t.employees, [Leave(1, d, e)], [Replacement(1, e, r, d)]), [true])
  {
    EvaluateOne(t, e, r, d);
    assert Decide(t, e, r, d) == Approved;
  }

  lemma LeavesOnOne(l: Leave, d: Date)
    ensures LeavesOn([l], d) == if l.date == d then 1 else 0
  {
    assert [l][..0] == [];
  }

  /** Repeating an approved first request for the same day is declined: by
      the capacity check with three staff or fewer (one leave is 33% or
      more), otherwise because the requester, when named as their own
      replacement, is now on leave, and otherwise as double-booking. */
  lemma RepeatOfFirstApproval(staff: seq<Employee>, e: Id, r: Id, d: Date)
    requires |staff| > 0
    ensures Decide(Tables(staff, [Leave(1, d, e)], [Replacement(1, e, r, d)]), e, r, d)
      == if |staff| <= 3 then OverCapacity else if e == r then ReplacementOnLeave else ReplacementBooked
  {
    var u := Tables(staff, [Leave(1, d, e)], [Replacement(1, e, r, d)]);
    LeavesOnOne(u.leaves[0], d);
    assert u.leaves[0] in u.leaves && u.replacements[0] in u.replacements;
  }

  /** A first batch that names the same day twice, with staff and no leave
      or replacement yet: the first is approved and the repeat is declined,
      also when the requester names themself as replacement. */
  lemma FirstBatchRepeat(t: Tables, e: Id, r: Id, d: Date)
    requires WellKeyed(t) && |t.employees| > 0 && t.leaves == [] && t.replacements == []
    ensures Evaluate(t, e, r, [d, d]).flags == [true, false]
  {
    var first := Evaluate(t, e, r, [d]);
    assert first.flags == [true] && Decide(first.after, e, r, d) != Approved by {
      FirstApproval(t, e, r, d);
      RepeatOfFirstApproval(t.employees, e, r, d);
    }
    EvaluateTwo(t, e, r, d, d);
  }

  /** Scenario: three employees; employee 1 is approved for day 10 with
      employee 2 as replacement. One leave among three staff is already 33%,
      so any later request for day 10 is declined by the capacity check,
      before the conflict checks are reached. */
  lemma ScenarioThreeStaff()
    ensures var t := Tables([Employee(1, "a"), Employee(2, "b"), Employee(3, "c")], [], []);
      var v := Evaluate(t, 1, 2, [10]);
      && v.flags == [true]
      && forall a: Id, b: Id :: Decide(v.after, a, b, 10) == OverCapacity
  {
    var t := Tables([Employee(1, "a"), Employee(2, "b"), Employee(3, "c")], [], []);
    FirstApproval(t, 1, 2, 10);
    LeavesOnOne(Leave(1, 10, 1), 10);
  }

  /** Scenario: the same approval among four employees, where one leave is
      under 33%. A request by employee 3 with replacement 2 is declined as
      double-booking; a request by employee 2 with replacement 1 is declined
      because employee 1 is on leave, before the mutual-replacement check. */
  lemma ScenarioFourStaff()
    ensures var t := Tables([Employee(1, "a"), Employee(2, "b"), Employee(3, "c"), Employee(4, "d")], [], []);
      var v := Evaluate(t, 1, 2, [10]);
      && v.flags == [true]
      && Decide(v.after, 3, 2, 10) == ReplacementBooked
      && Decide(v.after, 2, 1, 10) == ReplacementOnLeave
  {
    var t := Tables([Employee(1, "a"), Employee(2, "b"), Employee(3, "c"), Employee(4, "d")], [], []);
    FirstApproval(t, 1, 2, 10);
    LeavesOnOne(Leave(1, 10, 1), 10);
    var u := Tables(t.employees, [Leave(1, 10, 1)], [Replacement(1, 1, 2, 10)]);
    assert u.leaves[0] in u.leaves && u.replacements[0] in u.replacements;
  }

  /** Scenario: ten employees, three of them on leave on day 10 (30%). A
      fourth leave is approved, bringing the day to 40%, and a fifth is then
      declined by the capacity check. */
  lemma ScenarioTenStaff()
    ensures var staff := seq(10, k => Employee(k + 1, "e"));
      var t := Tables(staff, [Leave(1, 10, 4), Leave(2, 10, 5), Leave(3, 10, 6)], []);
      var v := Evaluate(t, 1, 2, [10, 10]);
      v.flags == [true, false] && LeavesOn(v.after.leaves, 10) == 4
  {
    var staff := seq(10, k => Employee(k + 1, "e"));
    var ls := [Leave(1, 10, 4), Leave(2, 10, 5), Leave(3, 10, 6)];
    var t := Tables(staff, ls, []);
    TenStaffFirst(staff, ls);
    TenStaffSecond(staff, ls);
    EvaluateTwo(t, 1, 2, 10, 10);
  }

  /** Three leaves on day 10. */
  lemma ThreeOnTen(ls: seq<Leave>)
    requires ls == [Leave(1, 10, 4), Leave(2, 10, 5), Leave(3, 10, 6)]
    ensures LeavesOn(ls, 10) == 3
  {
    LeavesOnOne(ls[0], 10);
    assert ls[..1] == [ls[0]] && ls[..2] == ls[..1] + [ls[1]] && ls == ls[..2] + [ls[2]];
    LeavesOnAppend(ls[..1], ls[1], 10);
    LeavesOnAppend(ls[..2], ls[2], 10);
  }

  /** With 3 of 10 on leave the first date is approved as leave 4. */
  lemma TenStaffFirst(staff: seq<Employee>, ls: seq<Leave>)
    requires staff == seq(10, k => Employee(k + 1, "e"))
    requires ls == [Leave(1, 10, 4), Leave(2, 10, 5), Leave(3, 10, 6)]
    ensures Evaluate(Tables(staff, ls, []), 1, 2, [10])
      == Eval(Tables(staff, ls + [Leave(4, 10, 1)], [Replacement(1, 1, 2, 10)]), [true])
  {
    var t := Tables(staff, ls, []);
    ThreeOnTen(ls);
    EvaluateOne(t, 1, 2, 10);
    assert Decide(t, 1, 2, 10) == Approved by {
      assert forall x :: x in ls ==> x.employeeId != 2;
    }
    assert NextKey(ls, LeaveKey) == 4;
  }

  /** With 4 of 10 on leave (40%) the next request is over capacity. */
  lemma TenStaffSecond(staff: seq<Employee>, ls: seq<Leave>)
    requires staff == seq(10, k => Employee(k + 1, "e"))
    requires ls == [Leave(1, 10, 4), Leave(2, 10, 5), Leave(3, 10, 6)]
    ensures var u := Tables(staff, ls + [Leave(4, 10, 1)], [Replacement(1, 1, 2, 10)]);
      LeavesOn(u.leaves, 10) == 4 && Decide(u, 1, 2, 10) == OverCapacity
  {
    ThreeOnTen(ls);
    LeavesOnAppend(ls, Leave(4, 10, 1), 10);
  }
}
