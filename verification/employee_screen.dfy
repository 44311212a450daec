/** The admin's employee screen: the department and leave-policy names
    shown per employee, the add and edit forms and the payload they send,
    and the reporting-manager choices. */
module EmployeeScreen {
  import opened Wrappers
  import opened Seqs
  import HrStore

  datatype Department = Department(id: string, name: string)

  /** An employee as the screen reads it. `department_id`, `department`
      and `reporting_manager_id` may be absent from the object. */
  datatype EmployeeView = EmployeeView(
    id: string, name: string, email: string, departmentId: Option<string>, department: Option<string>,
    joiningDate: string, reportingManagerId: Option<string>)

  /** A row of `/employee-policy-assignments`; its `policy` may be absent,
      and so may the policy's `name`. */
  datatype Assignment = Assignment(employeeId: string, policyName: Option<Option<string>>)

  /** JavaScript truthiness of a text that may be absent: present and not
      empty. */
  predicate Truthy(t: Option<string>) {
    t.Some? && t.value != ""
  }

  const NotAvailable: string := "N/A"

  /** `getDepartmentName`: the first department with the id, else "N/A".
      An absent id matches no department. */
  function DepartmentName(departments: seq<Department>, deptId: Option<string>): (r: string)
    ensures deptId.None? ==> r == NotAvailable
    ensures deptId.Some? ==>
              var k := FirstIndex(departments, (d: Department) => d.id == deptId.value);
              (k.None? ==> r == NotAvailable) && (k.Some? ==> r == departments[k.value].name)
  {
    match deptId
    case None => NotAvailable
    case Some(id) =>
      match FirstIndex(departments, (d: Department) => d.id == id)
      case None => NotAvailable
      case Some(k) => departments[k].name
  }

  /** `assignment?.policy?.name || null` for one assignment. */
  function NamedPolicy(a: Assignment): Option<string> {
    if a.policyName.Some? && Truthy(a.policyName.value) then a.policyName.value else None
  }

  /** `getEmployeePolicy`: the first assignment of the employee decides;
      its policy's name if that is present and not empty, else `null`. */
  function EmployeePolicy(assignments: seq<Assignment>, employeeId: string): (r: Option<string>)
    ensures r.Some? ==> r.value != ""
    ensures (forall i :: 0 <= i < |assignments| ==> assignments[i].employeeId != employeeId) ==> r.None?
    ensures r.Some? ==> exists i :: 0 <= i < |assignments| && assignments[i].employeeId == employeeId
                                    && assignments[i].policyName == Some(r)
                                    && forall j :: 0 <= j < i ==> assignments[j].employeeId != employeeId
    ensures forall k :: 0 <= k < |assignments| && assignments[k].employeeId == employeeId
                        && (forall j :: 0 <= j < k ==> assignments[j].employeeId != employeeId)
                        ==> && ((assignments[k].policyName.Some? && Truthy(assignments[k].policyName.value))
                                    ==> r == assignments[k].policyName.value)
                            && r == NamedPolicy(assignments[k])
  {
    match FirstIndex(assignments, (a: Assignment) => a.employeeId == employeeId)
    case None => None
    case Some(k) => NamedPolicy(assignments[k])
  }

  /** A later assignment never shows when an earlier one of the same
      employee lacks a policy name. */
  lemma FirstAssignmentDecides(assignments: seq<Assignment>, employeeId: string, k: nat)
    requires k < |assignments| && assignments[k].employeeId == employeeId
    requires forall j :: 0 <= j < k ==> assignments[j].employeeId != employeeId
    requires assignments[k].policyName.None?
    ensures EmployeePolicy(assignments, employeeId).None?
  {
    var i := FirstIndex(assignments, (a: Assignment) => a.employeeId == employeeId);
    assert i == Some(k);
  }

  /** The add and edit form: every field a text, an empty manager meaning
      none. */
  datatype FormData = FormData(name: string, email: string, departmentId: string, joiningDate: string, reportingManagerId: string)

  const EmptyForm: FormData := FormData("", "", "", "", "")

  /** What the add and edit requests send: the form, with an empty manager
      sent as `null`. */
  datatype Payload = Payload(name: string, email: string, departmentId: string, joiningDate: string, reportingManagerId: Option<string>)

  function ToPayload(f: FormData): (r: Payload)
    ensures r.name == f.name && r.email == f.email && r.departmentId == f.departmentId && r.joiningDate == f.joiningDate
    ensures r.reportingManagerId.None? <==> f.reportingManagerId == ""
    ensures r.reportingManagerId.Some? ==> r.reportingManagerId.value == f.reportingManagerId
  {
    Payload(f.name, f.email, f.departmentId, f.joiningDate,
            if f.reportingManagerId == "" then None else Some(f.reportingManagerId))
  }

  /** `handleEdit`: the form takes the employee's fields, an absent
      department or manager becoming `''`. */
  function EditForm(e: EmployeeView): (r: FormData)
    ensures r.name == e.name && r.email == e.email && r.joiningDate == e.joiningDate
    ensures r.departmentId == (if e.departmentId.Some? then e.departmentId.value else "")
    ensures r.reportingManagerId == (if e.reportingManagerId.Some? then e.reportingManagerId.value else "")
  {
    FormData(e.name, e.email, if e.departmentId.Some? then e.departmentId.value else "",
             e.joiningDate, if e.reportingManagerId.Some? then e.reportingManagerId.value else "")
  }

  /** Opening an employee for editing and saving it unchanged sends its
      own manager back: none stays none. */
  lemma EditSaveKeepsManager(e: EmployeeView)
    requires e.reportingManagerId != Some("")
    ensures ToPayload(EditForm(e)).reportingManagerId == e.reportingManagerId
  {
  }

  const NoManager: string := "none"

  /** The manager select: its "none" item clears the manager. */
  function ChooseManager(f: FormData, value: string): (r: FormData)
    ensures r.name == f.name && r.email == f.email && r.departmentId == f.departmentId && r.joiningDate == f.joiningDate
    ensures r.reportingManagerId == "" <==> value == NoManager || value == ""
    ensures r.reportingManagerId != "" ==> r.reportingManagerId == value
  {
    f.(reportingManagerId := if value == NoManager then "" else value)
  }

  /** Choosing "none" sends `null`. */
  lemma NoManagerSendsNull(f: FormData)
    ensures ToPayload(ChooseManager(f, NoManager)).reportingManagerId.None?
  {
  }

  /** Function value for `emp.id !== editingEmployee?.id`. */
  function NotEditing(editingId: Option<string>): EmployeeView -> bool {
    (e: EmployeeView) => editingId.None? || e.id != editingId.value
  }

  /** The edit form's manager choices: every employee but the one being
      edited, in list order. With no one being edited, all of them. */
  function ManagerCandidates(employees: seq<EmployeeView>, editingId: Option<string>): (r: seq<EmployeeView>)
    ensures forall i :: 0 <= i < |r| ==> r[i] in employees && (editingId.Some? ==> r[i].id != editingId.value)
    ensures forall i :: 0 <= i < |employees| && (editingId.None? || employees[i].id != editingId.value) ==> employees[i] in r
  {
    Filter(employees, NotEditing(editingId))
  }

  /** With no one being edited every employee is a choice, in order. */
  lemma CandidatesWithoutEditing(employees: seq<EmployeeView>)
    ensures ManagerCandidates(employees, None) == employees
  {
    FilterAll(employees, NotEditing(None));
  }

  /** The choices keep the list's order and multiplicity: a list with one
      more employee at the end has that employee as one more choice at the
      end, unless it is the one being edited. */
  lemma {:induction false} ManagerCandidatesAppend(employees: seq<EmployeeView>, e: EmployeeView, editingId: Option<string>)
    ensures ManagerCandidates([], editingId) == []
    ensures ManagerCandidates(employees + [e], editingId)
            == ManagerCandidates(employees, editingId) + (if editingId.None? || e.id != editingId.value then [e] else [])
  {
    FilterAppend(employees, e, NotEditing(editingId));
  }

  /** The department cell of an employee card: with a truthy
      `department_id`, the name `getDepartmentName` finds for it; otherwise
      the employee's own `department` text, or "N/A" when that is absent or
      empty. */
  function DepartmentCell(departments: seq<Department>, e: EmployeeView): (r: string)
    ensures Truthy(e.departmentId) ==> r == DepartmentName(departments, e.departmentId)
    ensures !Truthy(e.departmentId) && Truthy(e.department) ==> r == e.department.value
    ensures !Truthy(e.departmentId) && !Truthy(e.department) ==> r == NotAvailable
  {
    if Truthy(e.departmentId) then DepartmentName(departments, e.departmentId)
    else if Truthy(e.department) then e.department.value
    else NotAvailable
  }

  /** An employee as the server sends it: a `department` text and no
      `department_id`. */
  function ViewOf(e: HrStore.Employee): (v: EmployeeView)
    ensures v.id == e.id && v.name == e.name && v.email == e.email && v.joiningDate == e.joiningDate
    ensures v.departmentId.None? && v.department == Some(e.department) && v.reportingManagerId == e.reportingManagerId
  {
    EmployeeView(e.id, e.name, e.email, None, Some(e.department), e.joiningDate, e.reportingManagerId)
  }

  /** The screen's department column shows a server employee's own
      department text, whatever departments are listed, and "N/A" only when
      that text is empty. */
  lemma ServerEmployeeShowsDepartment(departments: seq<Department>, e: HrStore.Employee)
    ensures e.department != "" ==> DepartmentCell(departments, ViewOf(e)) == e.department
    ensures e.department == "" ==> DepartmentCell(departments, ViewOf(e)) == NotAvailable
  {
  }
}
