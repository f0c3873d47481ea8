/**
 * The three tables of the leave-management database (Employee, Leave,
 * Replacement) as plain values, with the lookups the request handlers make.
 *
 * A table is a sequence of rows in rowid order. Dates are day numbers: any
 * encoding in which a later calendar day is a larger number will do.
 */
module Records {
  import opened Seqs

  type Id = int
  type Date = int

  datatype Employee = Employee(id: Id, name: string)
  datatype Leave = Leave(id: Id, date: Date, employeeId: Id)
  /** `onLeave` is covered by `replacement` on `date`. */
  datatype Replacement = Replacement(id: Id, onLeave: Id, replacement: Id, date: Date)

  datatype Tables = Tables(employees: seq<Employee>, leaves: seq<Leave>, replacements: seq<Replacement>)

  datatype Option<T> = None | Some(value: T)

  /** Why a request fails outright (an exception in the handler: nothing is committed). */
  datatype Failure =
    | MalformedId      // int() of the replacement id raised
    | MalformedDate    // strptime of a date string raised
    | MissingEmployee  // a row refers to an employee id with no Employee row

  datatype Result<T> = Ok(value: T) | Err(failure: Failure)

  function EmployeeKey(e: Employee): int { e.id }
  function LeaveKey(l: Leave): int { l.id }
  function ReplacementKey(r: Replacement): int { r.id }

  /** Every table is keyed by its primary key, in increasing rowid order. */
  ghost predicate WellKeyed(t: Tables)
  {
    && KeysIncreasing(t.employees, EmployeeKey)
    && KeysIncreasing(t.leaves, LeaveKey)
    && KeysIncreasing(t.replacements, ReplacementKey)
  }

  /** Position of the Employee row with primary key `id`, if any
      (`Employee.query.get`). */
  function EmployeeAt(es: seq<Employee>, id: Id): (r: Option<nat>)
    ensures r.Some? ==> r.value < |es| && es[r.value].id == id
    ensures r.None? <==> forall e :: e in es ==> e.id != id
  {
    if es == [] then None
    else if es[0].id == id then Some(0)
    else match EmployeeAt(es[1..], id)
      case None => None
      case Some(k) => Some(k + 1)
  }

  /** The Employee row with primary key `id`, if any. */
  function FindEmployee(es: seq<Employee>, id: Id): (r: Option<Employee>)
    ensures r.Some? ==> r.value in es && r.value.id == id
    ensures r.None? <==> forall e :: e in es ==> e.id != id
  {
    match EmployeeAt(es, id)
    case None => None
    case Some(k) => Some(es[k])
  }

  /** Position of the Leave row with primary key `id`, if any
      (`Leave.query.get_or_404`). */
  function LeaveAt(ls: seq<Leave>, id: Id): (r: Option<nat>)
    ensures r.Some? ==> r.value < |ls| && ls[r.value].id == id
    ensures r.None? <==> forall l :: l in ls ==> l.id != id
  {
    if ls == [] then None
    else if ls[0].id == id then Some(0)
    else match LeaveAt(ls[1..], id)
      case None => None
      case Some(k) => Some(k + 1)
  }

  /** Position of the first Replacement row for `onLeave` on `date`
      (`Replacement.query.filter_by(...).first()`). */
  function FirstCover(rs: seq<Replacement>, onLeave: Id, date: Date): (r: Option<nat>)
    ensures r.Some? ==> r.value < |rs| && rs[r.value].onLeave == onLeave && rs[r.value].date == date
    ensures r.Some? ==> forall k :: 0 <= k < r.value ==> !(rs[k].onLeave == onLeave && rs[k].date == date)
    ensures r.None? <==> forall x :: x in rs ==> !(x.onLeave == onLeave && x.date == date)
  {
    if rs == [] then None
    else if rs[0].onLeave == onLeave && rs[0].date == date then Some(0)
    else match FirstCover(rs[1..], onLeave, date)
      case None => None
      case Some(k) => Some(k + 1)
  }

  /** With increasing keys, a key picks out one row: the lookup by key finds
      exactly the row that has it. */
  lemma {:induction false} EmployeeAtUnique(es: seq<Employee>, id: Id, k: nat)
    requires KeysIncreasing(es, EmployeeKey) && k < |es| && es[k].id == id
    ensures EmployeeAt(es, id) == Some(k)
  {
    forall j | 0 <= j < |es| && j != k ensures es[j].id != id {
      if j < k { assert EmployeeKey(es[j]) < EmployeeKey(es[k]); }
      else { assert EmployeeKey(es[k]) < EmployeeKey(es[j]); }
    }
    assert es[k] in es;
  }

  /** The same for leaves. */
  lemma {:induction false} LeaveAtUnique(ls: seq<Leave>, id: Id, k: nat)
    requires KeysIncreasing(ls, LeaveKey) && k < |ls| && ls[k].id == id
    ensures LeaveAt(ls, id) == Some(k)
  {
    forall j | 0 <= j < |ls| && j != k ensures ls[j].id != id {
      if j < k { assert LeaveKey(ls[j]) < LeaveKey(ls[k]); }
      else { assert LeaveKey(ls[k]) < LeaveKey(ls[j]); }
    }
    assert ls[k] in ls;
  }
}
