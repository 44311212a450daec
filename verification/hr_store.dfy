/** The server's documents, its MongoDB collections and the two
    authentication dependencies every route starts with.

    Each collection is a sequence in insertion order: `find_one` is the
    first matching document, `update_one` changes the first matching
    document, `find(...).to_list(1000)` is at most the first thousand
    matches. Ids (`uuid4`), instants (`datetime.now`) and password hashes
    are supplied by the caller of each route. An instant is a number (say,
    microseconds since the epoch): documents store its ISO text and the
    routes read it back with `fromisoformat`, which gives the same instant. */
module HrStore {
  import opened Wrappers
  import opened Seqs

  type Instant = int

  datatype Role = Admin | Employee

  datatype User = User(id: string, email: string, fullName: string, role: Role, createdAt: Instant)

  /** A `users` document: the user and its bcrypt hash. */
  datatype UserDoc = UserDoc(user: User, hashedPassword: string)

  datatype Employee = EmployeeRecord(
    id: string,
    employeeCode: string,
    name: string,
    email: string,
    department: string,
    joiningDate: string,
    reportingManagerId: Option<string>,
    invited: bool,
    userId: Option<string>,
    createdAt: Instant)

  datatype PayrollStructure = PayrollStructure(
    id: string, name: string, basicSalary: real, allowances: real, deductions: real, createdAt: Instant)

  /** A `payroll` document. The route that writes these stores only the
      ids and the instant; the salary keys are present only when some other
      writer put them there, so each is optional. */
  datatype PayrollDoc = PayrollDoc(
    id: string,
    employeeId: string,
    payrollStructureId: string,
    createdAt: Instant,
    basicSalary: Option<real>,
    allowances: Option<real>,
    deductions: Option<real>)

  datatype Payslip = Payslip(
    id: string,
    employeeId: string,
    month: string,
    basicSalary: real,
    allowances: real,
    deductions: real,
    netPay: real,
    generatedAt: Instant)

  datatype LeavePolicy = LeavePolicy(id: string, name: string, daysPerYear: int, createdAt: Instant)

  datatype LeaveStatus = Pending | Approved | Rejected

  datatype LeaveRequest = LeaveRequest(
    id: string,
    employeeId: string,
    leavePolicyId: string,
    startDate: string,
    endDate: string,
    reason: string,
    status: LeaveStatus,
    createdAt: Instant)

  datatype Db = Db(
    users: seq<UserDoc>,
    employees: seq<Employee>,
    structures: seq<PayrollStructure>,
    payroll: seq<PayrollDoc>,
    payslips: seq<Payslip>,
    policies: seq<LeavePolicy>,
    leaveRequests: seq<LeaveRequest>)

  /** An `HTTPException`, or the 500 an uncaught exception becomes. */
  datatype HttpError = HttpError(status: nat, detail: string)

  /** What a route that writes returns: the new state and the response body. */
  datatype Reply<T> = Reply(db: Db, body: T)

  /** The `to_list(1000)` cap on every listing. */
  const QueryLimit: nat := 1000

  const Unauthorized := HttpError(401, "Could not validate credentials")
  const AdminRequired := HttpError(403, "Admin access required")
  const InternalError := HttpError(500, "Internal Server Error")

  // ---- first-match lookups (`find_one`) ----

  function UserByEmail(db: Db, email: string): (r: Option<UserDoc>)
    ensures r.None? <==> forall i :: 0 <= i < |db.users| ==> db.users[i].user.email != email
    ensures r.Some? ==> r.value in db.users && r.value.user.email == email
  {
    FindFirst(db.users, (u: UserDoc) => u.user.email == email)
  }

  function UserById(db: Db, id: string): (r: Option<UserDoc>)
    ensures r.None? <==> forall i :: 0 <= i < |db.users| ==> db.users[i].user.id != id
    ensures r.Some? ==> r.value in db.users && r.value.user.id == id
  {
    FindFirst(db.users, (u: UserDoc) => u.user.id == id)
  }

  function EmployeeIndexByEmail(db: Db, email: string): (r: Option<nat>)
    ensures r.Some? ==> r.value < |db.employees| && db.employees[r.value].email == email
    ensures r.Some? ==> forall j :: 0 <= j < r.value ==> db.employees[j].email != email
    ensures r.None? <==> forall j :: 0 <= j < |db.employees| ==> db.employees[j].email != email
  {
    FirstIndex(db.employees, (e: Employee) => e.email == email)
  }

  function EmployeeById(db: Db, id: string): (r: Option<Employee>)
    ensures r.None? <==> forall i :: 0 <= i < |db.employees| ==> db.employees[i].id != id
    ensures r.Some? ==> r.value in db.employees && r.value.id == id
  {
    FindFirst(db.employees, (e: Employee) => e.id == id)
  }

  /** The employee record linked to a user account (`{"user_id": ...}`). */
  function EmployeeOfUser(db: Db, userId: string): (r: Option<Employee>)
    ensures r.None? <==> forall i :: 0 <= i < |db.employees| ==> db.employees[i].userId != Some(userId)
    ensures r.Some? ==> r.value in db.employees && r.value.userId == Some(userId)
  {
    FindFirst(db.employees, (e: Employee) => e.userId == Some(userId))
  }

  function StructureById(db: Db, id: string): (r: Option<PayrollStructure>)
    ensures r.None? <==> forall i :: 0 <= i < |db.structures| ==> db.structures[i].id != id
  {
    FindFirst(db.structures, (s: PayrollStructure) => s.id == id)
  }

  function PayrollIndexOf(db: Db, employeeId: string): (r: Option<nat>)
    ensures r.Some? ==> r.value < |db.payroll| && db.payroll[r.value].employeeId == employeeId
    ensures r.Some? ==> forall j :: 0 <= j < r.value ==> db.payroll[j].employeeId != employeeId
    ensures r.None? <==> forall j :: 0 <= j < |db.payroll| ==> db.payroll[j].employeeId != employeeId
  {
    FirstIndex(db.payroll, (p: PayrollDoc) => p.employeeId == employeeId)
  }

  /** `find_one({"employee_id": ...})` on `payroll`. */
  function PayrollOf(db: Db, employeeId: string): (r: Option<PayrollDoc>)
    ensures r.None? <==> PayrollIndexOf(db, employeeId).None?
    ensures r.Some? ==> r.value == db.payroll[PayrollIndexOf(db, employeeId).value]
  {
    match PayrollIndexOf(db, employeeId)
    case None => None
    case Some(i) => Some(db.payroll[i])
  }

  function PayslipFor(db: Db, employeeId: string, month: string): (r: Option<Payslip>)
    ensures r.None? <==> forall i :: 0 <= i < |db.payslips| ==>
                           !(db.payslips[i].employeeId == employeeId && db.payslips[i].month == month)
  {
    FindFirst(db.payslips, (p: Payslip) => p.employeeId == employeeId && p.month == month)
  }

  function PayslipById(db: Db, id: string): (r: Option<Payslip>)
    ensures r.None? <==> forall i :: 0 <= i < |db.payslips| ==> db.payslips[i].id != id
    ensures r.Some? ==> r.value in db.payslips && r.value.id == id
  {
    FindFirst(db.payslips, (p: Payslip) => p.id == id)
  }

  function PolicyById(db: Db, id: string): (r: Option<LeavePolicy>)
    ensures r.None? <==> forall i :: 0 <= i < |db.policies| ==> db.policies[i].id != id
  {
    FindFirst(db.policies, (p: LeavePolicy) => p.id == id)
  }

  function RequestIndexById(db: Db, id: string): (r: Option<nat>)
    ensures r.Some? ==> r.value < |db.leaveRequests| && db.leaveRequests[r.value].id == id
    ensures r.Some? ==> forall j :: 0 <= j < r.value ==> db.leaveRequests[j].id != id
    ensures r.None? <==> forall j :: 0 <= j < |db.leaveRequests| ==> db.leaveRequests[j].id != id
  {
    FirstIndex(db.leaveRequests, (q: LeaveRequest) => q.id == id)
  }

  // ---- authentication ----

  /** `get_current_user`. `subject` is the `sub` claim of a bearer token
      whose signature and expiry checked out, `None` when decoding failed or
      the claim is missing. */
  function Authenticate(db: Db, subject: Option<string>): (r: Result<User, HttpError>)
    ensures r.Ok? <==> subject.Some? && UserById(db, subject.value).Some?
    ensures r.Ok? ==> r.value == UserById(db, subject.value).value.user && r.value.id == subject.value
    ensures r.Err? ==> r.error == Unauthorized
  {
    match subject
    case None => Err(Unauthorized)
    case Some(id) =>
      match UserById(db, id)
      case None => Err(Unauthorized)
      case Some(doc) => Ok(doc.user)
  }

  /** `get_admin_user`: 401 as above, then 403 for a non-admin. */
  function RequireAdmin(db: Db, subject: Option<string>): (r: Result<User, HttpError>)
    ensures r.Ok? <==> Authenticate(db, subject).Ok? && Authenticate(db, subject).value.role == Admin
    ensures r.Ok? ==> r.value == Authenticate(db, subject).value
    ensures r.Err? && Authenticate(db, subject).Ok? ==> r.error == AdminRequired
    ensures Authenticate(db, subject).Err? ==> r == Authenticate(db, subject)
  {
    var user :- Authenticate(db, subject);
    if user.role != Admin then Err(AdminRequired) else Ok(user)
  }
}
