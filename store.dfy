/**
 * The database as one mutable store holding the three tables, and the
 * request handlers that change it. Each handler is proved against the
 * function of module Approval or Admin that describes its effect; a handler
 * that raises before its commit leaves the store as it was.
 */
module LeaveStore {
  import opened Seqs
  import opened Records
  import opened Approval
  import opened Admin
  import opened Pairing

  /** How an admin handler ends. */
  datatype Reply =
    | LoginRequired     // no admin session: redirect to the login page
    | NotFound          // `get_or_404` found no row
    | Ignored           // an empty name: nothing to do
    | Failed(reason: Failure)  // the handler raised before committing
    | Done              // the change was committed

  /** The JSON answer of `request_leave`. */
  datatype Answer = Answer(approved: seq<string>, declined: seq<string>)

  class Store {
    var employees: seq<Employee>
    var leaves: seq<Leave>
    var replacements: seq<Replacement>

    /** The committed contents of the three tables. */
    function Snapshot(): Tables
      reads this
    {
      Tables(employees, leaves, replacements)
    }

    /** Keys increase in every table, and replacements are paired with leaves. */
    ghost predicate Valid()
      reads this
    {
      WellKeyed(Snapshot()) && Paired(Snapshot())
    }

    /** `db.create_all()` on a fresh database. */
    constructor ()
      ensures Valid() && Snapshot() == Tables([], [], [])
    {
      employees, leaves, replacements := [], [], [];
      PairedEmpty();
    }

    /** `request_leave`: decides each date string in order, adding a Leave and
        a Replacement row for every approved one; a malformed replacement id
        or date string raises, and nothing of the batch is written. */
    method RequestLeave(employeeId: Id, replacementId: Option<Id>, dates: seq<string>, parse: string -> Option<Date>)
      returns (reply: Result<Answer>)
      requires Valid()
      modifies this
      ensures Valid()
      ensures match RunBatch(old(Snapshot()), employeeId, replacementId, dates, parse)
        case Err(f) => reply == Err(f) && Snapshot() == old(Snapshot())
        case Ok(b) => reply == Ok(Answer(b.approved, b.declined)) && Snapshot() == b.after
    {
      if replacementId.None? {
        return Err(MalformedId);
      }
      var r := replacementId.value;
      ghost var saved := Snapshot();
      var savedLeaves, savedReplacements := leaves, replacements;
      var approved: seq<string>, declined: seq<string> := [], [];
      ghost var ds: seq<Date> := [];
      ghost var flags: seq<bool> := [];
      var i := 0;
      while i < |dates|
        invariant 0 <= i <= |dates|
        invariant Valid() && employees == saved.employees
        invariant ParseAll(dates[..i], parse) == Some(ds)
        invariant Evaluate(saved, employeeId, r, ds) == Eval(Snapshot(), flags)
        invariant approved == Pick(dates[..i], flags, true)
        invariant declined == Pick(dates[..i], flags, false)
      {
        match parse(dates[i])
        case None =>
          // the exception discards the rows added so far
          leaves, replacements := savedLeaves, savedReplacements;
          return Err(MalformedDate);
        case Some(d) =>
          ghost var pre := Eval(Snapshot(), flags);
          var ok := Decide(Snapshot(), employeeId, r, d) == Approved;
          BatchStep(saved, employeeId, r, dates, i, ds, flags, parse, d, ok);
          StepTables(pre, employeeId, r, d);
          StepPaired(pre, employeeId, r, d);
          if ok {
            leaves := leaves + [Leave(NextKey(leaves, LeaveKey), d, employeeId)];
            replacements := replacements + [Replacement(NextKey(replacements, ReplacementKey), employeeId, r, d)];
            approved := approved + [dates[i]];
          } else {
            declined := declined + [dates[i]];
          }
          assert Snapshot() == Step(pre, employeeId, r, d).after;
          ds, flags := ds + [d], flags + [ok];
          i := i + 1;
      }
      assert dates[..i] == dates;
      return Ok(Answer(approved, declined));
    }

    /** `add_employee`: an admin adds an employee with a non-empty name. */
    method AddEmployee(isAdmin: bool, name: string) returns (reply: Reply)
      requires Valid()
      modifies this
      ensures Valid()
      ensures !isAdmin ==> reply == LoginRequired && Snapshot() == old(Snapshot())
      ensures isAdmin && name == "" ==> reply == Ignored && Snapshot() == old(Snapshot())
      ensures isAdmin && name != "" ==> reply == Done && Snapshot() == Hire(old(Snapshot()), name)
    {
      if !isAdmin {
        return LoginRequired;
      }
      if name == "" {
        return Ignored;
      }
      employees := employees + [Employee(NextKey(employees, EmployeeKey), name)];
      return Done;
    }

    /** `edit_employee` (POST): an admin renames an existing employee; an
        empty name changes nothing. */
    method EditEmployee(isAdmin: bool, id: Id, name: string) returns (reply: Reply)
      requires Valid()
      modifies this
      ensures Valid()
      ensures !isAdmin ==> reply == LoginRequired && Snapshot() == old(Snapshot())
      ensures isAdmin && EmployeeAt(old(employees), id).None? ==> reply == NotFound && Snapshot() == old(Snapshot())
      ensures isAdmin && EmployeeAt(old(employees), id).Some? && name == "" ==>
        reply == Ignored && Snapshot() == old(Snapshot())
      ensures isAdmin && EmployeeAt(old(employees), id).Some? && name != "" ==>
        reply == Done && Snapshot() == Rename(old(Snapshot()), EmployeeAt(old(employees), id).value, name)
    {
      if !isAdmin {
        return LoginRequired;
      }
      var k := EmployeeAt(employees, id);
      if k.None? {
        return NotFound;
      }
      if name == "" {
        return Ignored;
      }
      employees := employees[k.value := Employee(id, name)];
      return Done;
    }

    /** `delete_employee`: an admin deletes an existing employee with its
        leaves and every replacement that names it. */
    method DeleteEmployee(isAdmin: bool, id: Id) returns (reply: Reply)
      requires Valid()
      modifies this
      ensures Valid()
      ensures !isAdmin ==> reply == LoginRequired && Snapshot() == old(Snapshot())
      ensures isAdmin && EmployeeAt(old(employees), id).None? ==> reply == NotFound && Snapshot() == old(Snapshot())
      ensures isAdmin && EmployeeAt(old(employees), id).Some? ==> reply == Done && Snapshot() == Dismiss(old(Snapshot()), id)
    {
      if !isAdmin {
        return LoginRequired;
      }
      if EmployeeAt(employees, id).None? {
        return NotFound;
      }
      ghost var t := Snapshot();
      DismissPaired(t, id);
      leaves := Filter(leaves, (l: Leave) => l.employeeId != id);
      replacements := Filter(replacements, (x: Replacement) => x.onLeave != id);
      replacements := Filter(replacements, (x: Replacement) => x.replacement != id);
      employees := Filter(employees, (x: Employee) => x.id != id);
      assert Snapshot() == Dismiss(t, id);
      return Done;
    }

    /** `edit_leave` (POST): an admin moves an existing leave to the parsed
        date, together with the first replacement of its employee on the old
        date. A malformed date, or a leave whose employee row is missing,
        raises and nothing is written. */
    method EditLeave(isAdmin: bool, leaveId: Id, dateStr: string, parse: string -> Option<Date>) returns (reply: Reply)
      requires Valid()
      modifies this
      ensures Valid()
      ensures !isAdmin ==> reply == LoginRequired && Snapshot() == old(Snapshot())
      ensures isAdmin && LeaveAt(old(leaves), leaveId).None? ==> reply == NotFound && Snapshot() == old(Snapshot())
      ensures isAdmin && LeaveAt(old(leaves), leaveId).Some? ==>
        var i := LeaveAt(old(leaves), leaveId).value;
        if parse(dateStr).None? then
          reply == Failed(MalformedDate) && Snapshot() == old(Snapshot())
        else if FindEmployee(old(employees), old(leaves)[i].employeeId).None? then
          reply == Failed(MissingEmployee) && Snapshot() == old(Snapshot())
        else
          reply == Done && Snapshot() == MoveLeave(old(Snapshot()), i, parse(dateStr).value)
    {
      if !isAdmin {
        return LoginRequired;
      }
      var at := LeaveAt(leaves, leaveId);
      if at.None? {
        return NotFound;
      }
      var i := at.value;
      var employee := FindEmployee(employees, leaves[i].employeeId);
      var parsed := parse(dateStr);
      if parsed.None? {
        return Failed(MalformedDate);
      }
      var newDate := parsed.value;
      MovePaired(Snapshot(), i, newDate);
      var oldDate := leaves[i].date;
      var before := leaves;
      leaves := leaves[i := leaves[i].(date := newDate)];
      if employee.None? {
        // `employee.id` raises; the uncommitted date change is discarded
        leaves := before;
        return Failed(MissingEmployee);
      }
      var j := FirstCover(replacements, employee.value.id, oldDate);
      if j.Some? {
        replacements := replacements[j.value := replacements[j.value].(date := newDate)];
      }
      return Done;
    }

    /** `delete_leave`: an admin deletes an existing leave and every
        replacement of its employee on its date. */
    method DeleteLeave(isAdmin: bool, leaveId: Id) returns (reply: Reply)
      requires Valid()
      modifies this
      ensures Valid()
      ensures !isAdmin ==> reply == LoginRequired && Snapshot() == old(Snapshot())
      ensures isAdmin && LeaveAt(old(leaves), leaveId).None? ==> reply == NotFound && Snapshot() == old(Snapshot())
      ensures isAdmin && LeaveAt(old(leaves), leaveId).Some? ==>
        reply == Done && Snapshot() == DropLeave(old(Snapshot()), old(leaves)[LeaveAt(old(leaves), leaveId).value])
    {
      if !isAdmin {
        return LoginRequired;
      }
      var at := LeaveAt(leaves, leaveId);
      if at.None? {
        return NotFound;
      }
      var leave := leaves[at.value];
      ghost var t := Snapshot();
      DropPaired(t, leave);
      replacements := Filter(replacements, (x: Replacement) => !(x.onLeave == leave.employeeId && x.date == leave.date));
      leaves := Filter(leaves, (k: Leave) => k.id != leave.id);
      assert Snapshot() == DropLeave(t, leave);
      return Done;
    }
  }
}
