/**
 * The admin handlers that change records: adding, renaming and deleting an
 * employee (with the cascade over leaves and replacements), and moving or
 * deleting one leave together with its replacement.
 */
module Admin {
  import opened Seqs
  import opened Records

  // ---------------------------------------------------------------------
  // Employees

  /** `add_employee` with a non-empty name: one new Employee row under the
      next key, nothing else touched. */
  function Hire(t: Tables, name: string): (u: Tables)
    requires WellKeyed(t)
    ensures WellKeyed(u)
    ensures u.leaves == t.leaves && u.replacements == t.replacements
    ensures |u.employees| == |t.employees| + 1 && u.employees[..|t.employees|] == t.employees
    ensures u.employees[|t.employees|].name == name
    ensures forall x :: x in t.employees ==> x.id != u.employees[|t.employees|].id
  {
    var x := Employee(NextKey(t.employees, EmployeeKey), name);
    AppendNextKey(t.employees, EmployeeKey, x);
    Tables(t.employees + [x], t.leaves, t.replacements)
  }

  /** After hiring, looking the new key up finds the new employee under the given name. */
  lemma HireThenFind(t: Tables, name: string)
    requires WellKeyed(t)
    ensures var u := Hire(t, name); var id := u.employees[|t.employees|].id;
      FindEmployee(u.employees, id) == Some(Employee(id, name))
  {
    var u := Hire(t, name);
    EmployeeAtUnique(u.employees, u.employees[|t.employees|].id, |t.employees|);
  }

  /** `edit_employee` with a non-empty name: the employee at position `i`
      takes the new name and keeps its key; every other row is untouched. */
  function Rename(t: Tables, i: nat, name: string): (u: Tables)
    requires i < |t.employees|
    ensures WellKeyed(t) ==> WellKeyed(u)
    ensures u.leaves == t.leaves && u.replacements == t.replacements
    ensures |u.employees| == |t.employees|
    ensures forall k :: 0 <= k < |t.employees| ==> u.employees[k].id == t.employees[k].id
    ensures forall k :: 0 <= k < |t.employees| && k != i ==> u.employees[k] == t.employees[k]
    ensures u.employees[i] == Employee(t.employees[i].id, name)
  {
    var u := Tables(t.employees[i := Employee(t.employees[i].id, name)], t.leaves, t.replacements);
    assert forall k :: 0 <= k < |t.employees| ==> EmployeeKey(u.employees[k]) == EmployeeKey(t.employees[k]);
    u
  }

  /** After a rename, the key looks up the new name. */
  lemma RenameThenFind(t: Tables, i: nat, name: string)
    requires WellKeyed(t) && i < |t.employees|
    ensures var id := t.employees[i].id; FindEmployee(Rename(t, i, name).employees, id) == Some(Employee(id, name))
  {
    var u := Rename(t, i, name);
    EmployeeAtUnique(u.employees, t.employees[i].id, i);
  }

  /** `delete_employee`: the Leave rows of `id`, the Replacement rows naming
      `id` as the employee on leave, then those naming it as the replacement,
      then the Employee row itself. */
  function Dismiss(t: Tables, id: Id): (u: Tables)
    ensures forall x :: x in u.employees <==> x in t.employees && x.id != id
    ensures forall l :: l in u.leaves <==> l in t.leaves && l.employeeId != id
    ensures forall x :: x in u.replacements <==> x in t.replacements && x.onLeave != id && x.replacement != id
    ensures WellKeyed(t) ==> WellKeyed(u)
  {
    var leaves := Filter(t.leaves, (l: Leave) => l.employeeId != id);
    var covered := Filter(t.replacements, (x: Replacement) => x.onLeave != id);
    var covering := Filter(covered, (x: Replacement) => x.replacement != id);
    var employees := Filter(t.employees, (x: Employee) => x.id != id);
    FilterKeysIncreasing(t.leaves, (l: Leave) => l.employeeId != id, LeaveKey);
    FilterKeysIncreasing(t.replacements, (x: Replacement) => x.onLeave != id, ReplacementKey);
    FilterKeysIncreasing(covered, (x: Replacement) => x.replacement != id, ReplacementKey);
    FilterKeysIncreasing(t.employees, (x: Employee) => x.id != id, EmployeeKey);
    FilterMembers(t.leaves, (l: Leave) => l.employeeId != id);
    FilterMembers(t.replacements, (x: Replacement) => x.onLeave != id);
    FilterMembers(covered, (x: Replacement) => x.replacement != id);
    FilterMembers(t.employees, (x: Employee) => x.id != id);
    Tables(employees, leaves, covering)
  }

  /** After the cascade no row mentions the deleted employee, and deleting
      again changes nothing. */
  lemma DismissIsComplete(t: Tables, id: Id)
    ensures var u := Dismiss(t, id);
      && (forall x :: x in u.employees ==> x.id != id)
      && (forall l :: l in u.leaves ==> l.employeeId != id)
      && (forall x :: x in u.replacements ==> x.onLeave != id && x.replacement != id)
      && Dismiss(u, id) == u
  {
    var u := Dismiss(t, id);
    FilterAll(u.leaves, (l: Leave) => l.employeeId != id);
    FilterAll(u.replacements, (x: Replacement) => x.onLeave != id);
    FilterAll(u.replacements, (x: Replacement) => x.replacement != id);
    FilterAll(u.employees, (x: Employee) => x.id != id);
  }

  lemma {:induction false} FilterOneKey(es: seq<Employee>, id: Id)
    requires KeysIncreasing(es, EmployeeKey)
    ensures |Filter(es, (x: Employee) => x.id != id)| == |es| - (if EmployeeAt(es, id).Some? then 1 else 0)
    decreases |es|
  {
    if es != [] {
      assert KeysIncreasing(es[1..], EmployeeKey);
      FilterOneKey(es[1..], id);
      if es[0].id == id {
        forall x | x in es[1..] ensures x.id != id {
          var j :| 0 <= j < |es[1..]| && es[1..][j] == x;
          assert EmployeeKey(es[0]) < EmployeeKey(es[j + 1]);
        }
        FilterAll(es[1..], (x: Employee) => x.id != id);
      }
    }
  }

  /** With keys unique, deleting an existing employee removes exactly one
      Employee row. */
  lemma DismissRemovesOneEmployee(t: Tables, id: Id)
    requires WellKeyed(t) && EmployeeAt(t.employees, id).Some?
    ensures |Dismiss(t, id).employees| == |t.employees| - 1
  {
    FilterOneKey(t.employees, id);
  }

  // ---------------------------------------------------------------------
  // Leaves

  /** `edit_leave`: the leave at position `i` moves to `nd`, and the first
      Replacement row for its employee on its old date (if any) moves with it. */
  function MoveLeave(t: Tables, i: nat, nd: Date): (u: Tables)
    requires i < |t.leaves|
    ensures WellKeyed(t) ==> WellKeyed(u)
    ensures u.employees == t.employees
    ensures |u.leaves| == |t.leaves| && u.leaves[i] == t.leaves[i].(date := nd)
    ensures forall k :: 0 <= k < |t.leaves| && k != i ==> u.leaves[k] == t.leaves[k]
    ensures |u.replacements| == |t.replacements|
    ensures forall k :: 0 <= k < |t.replacements| ==> u.replacements[k].id == t.replacements[k].id
    ensures match FirstCover(t.replacements, t.leaves[i].employeeId, t.leaves[i].date)
      case None => u.replacements == t.replacements
      case Some(j) =>
        && u.replacements[j] == t.replacements[j].(date := nd)
        && forall k :: 0 <= k < |t.replacements| && k != j ==> u.replacements[k] == t.replacements[k]
  {
    var l := t.leaves[i];
    var leaves := t.leaves[i := l.(date := nd)];
    assert forall k :: 0 <= k < |t.leaves| ==> LeaveKey(leaves[k]) == LeaveKey(t.leaves[k]);
    match FirstCover(t.replacements, l.employeeId, l.date)
    case None => Tables(t.employees, leaves, t.replacements)
    case Some(j) =>
      var rs := t.replacements[j := t.replacements[j].(date := nd)];
      assert forall k :: 0 <= k < |rs| ==> ReplacementKey(rs[k]) == ReplacementKey(t.replacements[k]);
      Tables(t.employees, leaves, rs)
  }

  /** `delete_leave`: the Leave row `l` and every Replacement row for its
      employee on its date. */
  function DropLeave(t: Tables, l: Leave): (u: Tables)
    ensures u.employees == t.employees
    ensures forall k :: k in u.leaves <==> k in t.leaves && k.id != l.id
    ensures forall x :: x in u.replacements <==> x in t.replacements && !(x.onLeave == l.employeeId && x.date == l.date)
    ensures WellKeyed(t) ==> WellKeyed(u)
  {
    var leaves := Filter(t.leaves, (k: Leave) => k.id != l.id);
    var rs := Filter(t.replacements, (x: Replacement) => !(x.onLeave == l.employeeId && x.date == l.date));
    FilterKeysIncreasing(t.leaves, (k: Leave) => k.id != l.id, LeaveKey);
    FilterKeysIncreasing(t.replacements, (x: Replacement) => !(x.onLeave == l.employeeId && x.date == l.date), ReplacementKey);
    FilterMembers(t.leaves, (k: Leave) => k.id != l.id);
    FilterMembers(t.replacements, (x: Replacement) => !(x.onLeave == l.employeeId && x.date == l.date));
    Tables(t.employees, leaves, rs)
  }

  /** With keys unique, deleting leave `i` removes exactly that row and keeps
      the others in order. */
  lemma DropLeaveRemovesOne(t: Tables, i: nat)
    requires WellKeyed(t) && i < |t.leaves|
    ensures DropLeave(t, t.leaves[i]).leaves == t.leaves[..i] + t.leaves[i + 1..]
  {
    var id := t.leaves[i].id;
    forall j | 0 <= j < |t.leaves| && j != i ensures t.leaves[j].id != id {
      if j < i { assert LeaveKey(t.leaves[j]) < LeaveKey(t.leaves[i]); }
      else { assert LeaveKey(t.leaves[i]) < LeaveKey(t.leaves[j]); }
    }
    FilterOutOne(t.leaves, i, (k: Leave) => k.id != id);
  }
}
