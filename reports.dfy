/**
 * The read-only views: the leave schedule (`leave_schedule`, and
 * `edit_leaves`, which adds the leave id), the calendar feed of leaves
 * (`get_leaves`) and the list of replacements (`get_replacements`).
 * Each looks employees up by id; a row whose employee is missing makes the
 * handler raise, which is modelled as a failed result.
 */
module Reports {
  import opened Records

  /** The marker shown for a leave with no Replacement row. */
  const NoReplacement: string := "No Replacement"

  /** Applies `f` to every item in order; the first failure aborts the whole
      view, as an exception in the handler's loop does. */
  function Traverse<A, B>(xs: seq<A>, f: A -> Result<B>): (r: Result<seq<B>>)
    ensures r.Ok? <==> forall i :: 0 <= i < |xs| ==> f(xs[i]).Ok?
    ensures r.Ok? ==> |r.value| == |xs| && forall i :: 0 <= i < |xs| ==> f(xs[i]) == Ok(r.value[i])
    decreases |xs|
  {
    if xs == [] then Ok([])
    else match f(xs[0])
      case Err(e) => Err(e)
      case Ok(y) =>
        match Traverse(xs[1..], f)
        case Err(e) => Err(e)
        case Ok(ys) => Ok([y] + ys)
  }

  // ---------------------------------------------------------------------
  // Date order

  ghost predicate SortedByDate(ls: seq<Leave>)
  {
    forall i, j :: 0 <= i < j < |ls| ==> ls[i].date <= ls[j].date
  }

  /** Inserts `l` before the first row with a date not earlier than its own. */
  function InsertByDate(l: Leave, ls: seq<Leave>): (r: seq<Leave>)
    requires SortedByDate(ls)
    ensures SortedByDate(r) && multiset(r) == multiset(ls) + multiset{l}
    ensures |r| == |ls| + 1
    decreases |ls|
  {
    if ls == [] || l.date <= ls[0].date then
      LeadsSorted(l, ls);
      [l] + ls
    else
      var rest := InsertByDate(l, ls[1..]);
      assert ls == [ls[0]] + ls[1..];
      FirstNoLater(ls, l, rest);
      LeadsSorted(ls[0], rest);
      [ls[0]] + rest
  }

  /** The first row of a sorted sequence is no later than any row made of the
      others and one later row. */
  lemma FirstNoLater(ls: seq<Leave>, l: Leave, rest: seq<Leave>)
    requires SortedByDate(ls) && ls != [] && ls[0].date <= l.date
    requires multiset(rest) == multiset(ls[1..]) + multiset{l}
    ensures forall x :: x in rest ==> ls[0].date <= x.date
  {
    forall x | x in rest ensures ls[0].date <= x.date {
      assert x in multiset(rest);
      if x != l {
        assert x in multiset(ls[1..]);
        var j :| 0 <= j < |ls[1..]| && ls[1..][j] == x;
        assert ls[j + 1] == x;
      }
    }
  }

  /** A row no later than every row of a sorted sequence can lead it. */
  lemma LeadsSorted(l: Leave, ls: seq<Leave>)
    requires SortedByDate(ls)
    requires forall x :: x in ls ==> l.date <= x.date
    ensures SortedByDate([l] + ls)
  {
    forall i, j | 0 <= i < j < |ls| + 1 ensures ([l] + ls)[i].date <= ([l] + ls)[j].date {
      if i == 0 {
        assert ([l] + ls)[j] == ls[j - 1];
        assert ls[j - 1] in ls;
      } else {
        assert ([l] + ls)[i] == ls[i - 1] && ([l] + ls)[j] == ls[j - 1];
      }
    }
  }

  /** `Leave.query.order_by(Leave.date)`: the leaves in date order. */
  function SortByDate(ls: seq<Leave>): (r: seq<Leave>)
    ensures SortedByDate(r) && multiset(r) == multiset(ls)
    ensures |r| == |ls|
    decreases |ls|
  {
    if ls == [] then []
    else
      assert ls == [ls[0]] + ls[1..];
      InsertByDate(ls[0], SortByDate(ls[1..]))
  }

  // ---------------------------------------------------------------------
  // The schedule

  /** One line of the schedule (the leave id is shown by `edit_leaves` only). */
  datatype Entry = Entry(leaveId: Id, employeeName: string, date: Date, replacementName: string)

  /** The schedule line for leave `l`: its employee's name, and the name of the
      replacement on the first Replacement row for that employee and date, or
      the no-replacement marker. */
  function EntryFor(t: Tables, l: Leave): (r: Result<Entry>)
    ensures r.Ok? <==>
      && FindEmployee(t.employees, l.employeeId).Some?
      && (FirstCover(t.replacements, l.employeeId, l.date).Some? ==>
            FindEmployee(t.employees, t.replacements[FirstCover(t.replacements, l.employeeId, l.date).value].replacement).Some?)
    ensures r.Ok? ==> r.value.leaveId == l.id && r.value.date == l.date
    ensures r.Ok? ==> exists e :: e in t.employees && e.id == l.employeeId && e.name == r.value.employeeName
    ensures r.Ok? && FirstCover(t.replacements, l.employeeId, l.date).None? ==> r.value.replacementName == NoReplacement
    ensures r.Ok? && FirstCover(t.replacements, l.employeeId, l.date).Some? ==>
      var x := t.replacements[FirstCover(t.replacements, l.employeeId, l.date).value];
      exists e :: e in t.employees && e.id == x.replacement && e.name == r.value.replacementName
  {
    match FindEmployee(t.employees, l.employeeId)
    case None => Err(MissingEmployee)
    case Some(emp) =>
      match FirstCover(t.replacements, emp.id, l.date)
      case None => Ok(Entry(l.id, emp.name, l.date, NoReplacement))
      case Some(j) =>
        match FindEmployee(t.employees, t.replacements[j].replacement)
        case None => Err(MissingEmployee)
        case Some(cover) => Ok(Entry(l.id, emp.name, l.date, cover.name))
  }

  /** `leave_schedule`: one line per Leave row, in date order. It fails when
      some line cannot be built. */
  function Schedule(t: Tables): (r: Result<seq<Entry>>)
    ensures r.Ok? <==> forall l :: l in t.leaves ==> EntryFor(t, l).Ok?
    ensures r.Ok? ==> |r.value| == |t.leaves|
    ensures r.Ok? ==> forall i, j :: 0 <= i < j < |r.value| ==> r.value[i].date <= r.value[j].date
    ensures r.Ok? ==> forall l :: l in t.leaves ==> EntryFor(t, l).value in r.value
    ensures r.Ok? ==> forall i :: 0 <= i < |r.value| ==> exists l :: l in t.leaves && EntryFor(t, l) == Ok(r.value[i])
  {
    ScheduleFails(t);
    ScheduleInOrder(t);
    ScheduleHasEvery(t);
    ScheduleOnlyLeaves(t);
    Traverse(SortByDate(t.leaves), EntryOf(t))
  }

  function EntryOf(t: Tables): Leave -> Result<Entry>
  {
    (l: Leave) => EntryFor(t, l)
  }

  lemma ScheduleFails(t: Tables)
    ensures Traverse(SortByDate(t.leaves), EntryOf(t)).Ok? <==> forall l :: l in t.leaves ==> EntryFor(t, l).Ok?
  {
    var sorted := SortByDate(t.leaves);
    SameRows(sorted, t.leaves);
    TraverseRows(sorted, EntryOf(t));
  }

  lemma ScheduleInOrder(t: Tables)
    ensures var r := Traverse(SortByDate(t.leaves), EntryOf(t));
      r.Ok? ==> |r.value| == |t.leaves| && forall i, j :: 0 <= i < j < |r.value| ==> r.value[i].date <= r.value[j].date
  {
    var sorted := SortByDate(t.leaves);
    var r := Traverse(sorted, EntryOf(t));
    if r.Ok? {
      forall i, j | 0 <= i < j < |r.value| ensures r.value[i].date <= r.value[j].date {
        assert EntryFor(t, sorted[i]) == Ok(r.value[i]) && EntryFor(t, sorted[j]) == Ok(r.value[j]);
      }
    }
  }

  lemma ScheduleHasEvery(t: Tables)
    ensures var r := Traverse(SortByDate(t.leaves), EntryOf(t));
      r.Ok? ==> forall l :: l in t.leaves ==> EntryFor(t, l).Ok? && EntryFor(t, l).value in r.value
  {
    var sorted := SortByDate(t.leaves);
    var r := Traverse(sorted, EntryOf(t));
    if r.Ok? {
      forall l | l in t.leaves ensures EntryFor(t, l).Ok? && EntryFor(t, l).value in r.value {
        assert l in multiset(sorted);
        var i :| 0 <= i < |sorted| && sorted[i] == l;
        assert EntryOf(t)(sorted[i]) == Ok(r.value[i]);
      }
    }
  }

  lemma ScheduleOnlyLeaves(t: Tables)
    ensures var r := Traverse(SortByDate(t.leaves), EntryOf(t));
      r.Ok? ==> forall i :: 0 <= i < |r.value| ==> exists l :: l in t.leaves && EntryFor(t, l) == Ok(r.value[i])
  {
    var sorted := SortByDate(t.leaves);
    var r := Traverse(sorted, EntryOf(t));
    if r.Ok? {
      forall i | 0 <= i < |r.value| ensures exists l :: l in t.leaves && EntryFor(t, l) == Ok(r.value[i]) {
        var l := sorted[i];
        assert EntryOf(t)(l) == Ok(r.value[i]);
        assert l in multiset(t.leaves) by {
          assert l in multiset(sorted);
        }
      }
    }
  }

  /** Sequences with the same multiset have the same rows. */
  lemma SameRows<T>(xs: seq<T>, ys: seq<T>)
    requires multiset(xs) == multiset(ys)
    ensures forall x :: x in xs <==> x in ys
  {
    forall x ensures x in xs <==> x in ys {
      assert x in xs <==> x in multiset(xs);
      assert x in ys <==> x in multiset(ys);
    }
  }

  /** `Traverse` in terms of rows rather than positions. */
  lemma TraverseRows<A, B>(xs: seq<A>, f: A -> Result<B>)
    ensures Traverse(xs, f).Ok? <==> forall x :: x in xs ==> f(x).Ok?
    ensures Traverse(xs, f).Ok? ==> forall x :: x in xs ==> f(x).value in Traverse(xs, f).value
    ensures Traverse(xs, f).Ok? ==>
      forall i :: 0 <= i < |xs| ==> exists x :: x in xs && f(x) == Ok(Traverse(xs, f).value[i])
  {
    var r := Traverse(xs, f);
    if !r.Ok? {
      var i :| 0 <= i < |xs| && !f(xs[i]).Ok?;
      assert xs[i] in xs;
    } else {
      forall x | x in xs ensures f(x).value in r.value {
        var i :| 0 <= i < |xs| && xs[i] == x;
        assert f(xs[i]) == Ok(r.value[i]);
      }
      forall i | 0 <= i < |xs| ensures exists x :: x in xs && f(x) == Ok(r.value[i]) {
        assert xs[i] in xs;
      }
    }
  }

  // ---------------------------------------------------------------------
  // Calendar feeds

  /** One calendar event of `get_leaves`: the employee's name and the day. */
  datatype CalendarItem = CalendarItem(title: string, start: Date)

  /** The event for leave `l`, titled with its employee's name. */
  function LeaveItem(t: Tables, l: Leave): (r: Result<CalendarItem>)
    ensures r.Ok? <==> exists e :: e in t.employees && e.id == l.employeeId
    ensures r.Ok? ==> r.value.start == l.date
    ensures r.Ok? ==> exists e :: e in t.employees && e.id == l.employeeId && e.name == r.value.title
  {
    match FindEmployee(t.employees, l.employeeId)
    case None => Err(MissingEmployee)
    case Some(e) => Ok(CalendarItem(e.name, l.date))
  }

  function LeaveItemOf(t: Tables): Leave -> Result<CalendarItem>
  {
    (l: Leave) => LeaveItem(t, l)
  }

  /** `get_leaves`: one event per Leave row, in table order, titled with the
      name of the employee on leave. */
  function LeaveFeed(t: Tables): (r: Result<seq<CalendarItem>>)
    ensures r.Ok? <==> forall l :: l in t.leaves ==> exists e :: e in t.employees && e.id == l.employeeId
    ensures r.Ok? ==> |r.value| == |t.leaves|
    ensures r.Ok? ==> forall i :: 0 <= i < |t.leaves| ==>
      && r.value[i].start == t.leaves[i].date
      && exists e :: e in t.employees && e.id == t.leaves[i].employeeId && e.name == r.value[i].title
  {
    LeaveFeedFails(t);
    LeaveFeedItems(t);
    Traverse(t.leaves, LeaveItemOf(t))
  }

  lemma LeaveFeedFails(t: Tables)
    ensures Traverse(t.leaves, LeaveItemOf(t)).Ok? <==>
      forall l :: l in t.leaves ==> exists e :: e in t.employees && e.id == l.employeeId
  {
    TraverseRows(t.leaves, LeaveItemOf(t));
    forall l ensures LeaveItemOf(t)(l).Ok? <==> exists e :: e in t.employees && e.id == l.employeeId {
      if LeaveItem(t, l).Ok? {
        var e := FindEmployee(t.employees, l.employeeId).value;
        assert e in t.employees && e.id == l.employeeId;
      }
    }
  }

  lemma LeaveFeedItems(t: Tables)
    ensures var r := Traverse(t.leaves, LeaveItemOf(t));
      r.Ok? ==> |r.value| == |t.leaves| && forall i :: 0 <= i < |t.leaves| ==>
        && r.value[i].start == t.leaves[i].date
        && exists e :: e in t.employees && e.id == t.leaves[i].employeeId && e.name == r.value[i].title
  {
    var r := Traverse(t.leaves, LeaveItemOf(t));
    if r.Ok? {
      forall i | 0 <= i < |t.leaves|
        ensures && r.value[i].start == t.leaves[i].date
                && exists e :: e in t.employees && e.id == t.leaves[i].employeeId && e.name == r.value[i].title
      {
        assert LeaveItemOf(t)(t.leaves[i]) == Ok(r.value[i]);
        var e := FindEmployee(t.employees, t.leaves[i].employeeId).value;
        assert e in t.employees && e.id == t.leaves[i].employeeId && e.name == r.value[i].title;
      }
    }
  }

  /** One row of `get_replacements`. */
  datatype CoverItem = CoverItem(onLeave: string, replacement: string, date: Date)

  /** The row for Replacement `x`, with the names of both employees. */
  function CoverRow(t: Tables, x: Replacement): (r: Result<CoverItem>)
    ensures r.Ok? <==>
      (exists e :: e in t.employees && e.id == x.onLeave) && (exists e :: e in t.employees && e.id == x.replacement)
    ensures r.Ok? ==> r.value.date == x.date
    ensures r.Ok? ==> exists e :: e in t.employees && e.id == x.onLeave && e.name == r.value.onLeave
    ensures r.Ok? ==> exists e :: e in t.employees && e.id == x.replacement && e.name == r.value.replacement
  {
    match FindEmployee(t.employees, x.onLeave)
    case None => Err(MissingEmployee)
    case Some(a) =>
      match FindEmployee(t.employees, x.replacement)
      case None => Err(MissingEmployee)
      case Some(b) => Ok(CoverItem(a.name, b.name, x.date))
  }

  /** `get_replacements`: one row per Replacement row, in table order, with the
      names of both employees. */
  function CoverFeed(t: Tables): (r: Result<seq<CoverItem>>)
    ensures r.Ok? <==> forall x :: x in t.replacements ==>
      (exists e :: e in t.employees && e.id == x.onLeave) && (exists e :: e in t.employees && e.id == x.replacement)
    ensures r.Ok? ==> |r.value| == |t.replacements|
    ensures r.Ok? ==> forall i :: 0 <= i < |t.replacements| ==>
      && r.value[i].date == t.replacements[i].date
      && (exists e :: e in t.employees && e.id == t.replacements[i].onLeave && e.name == r.value[i].onLeave)
      && (exists e :: e in t.employees && e.id == t.replacements[i].replacement && e.name == r.value[i].replacement)
  {
    var r := Traverse(t.replacements, (x: Replacement) => CoverRow(t, x));
    assert r.Ok? <==> forall x :: x in t.replacements ==> CoverRow(t, x).Ok? by {
      TraverseRows(t.replacements, (x: Replacement) => CoverRow(t, x));
    }
    r
  }
}
