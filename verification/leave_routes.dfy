/** `POST /leave-requests`, `GET /leave-requests`,
    `PATCH /leave-requests/{request_id}` and `GET /leave-requests/balance`:
    who may apply, whose requests each caller sees, what a decision
    changes, and the leave-balance arithmetic. */
module LeaveRoutes {
  import opened Wrappers
  import opened Seqs
  import opened Sorting
  import opened CivilDate
  import opened Strptime
  import opened HrStore

  const OnlyEmployeesApply := HttpError(403, "Only employees can apply for leave")
  const ProfileNotFound := HttpError(404, "Employee profile not found")
  const PolicyNotFound := HttpError(404, "Leave policy not found")
  const RequestNotFound := HttpError(404, "Leave request not found")
  const OnlyEmployeesBalance := HttpError(403, "Only employees can view leave balance")

  datatype LeaveRequestCreate = LeaveRequestCreate(leavePolicyId: string, startDate: string, endDate: string, reason: string)

  // ---- applying ----

  /** `create_leave_request`: only an employee with a profile may apply,
      for an existing policy; the request is stored pending, under the
      caller's employee record. The dates are stored as sent. */
  function CreateLeaveRequest(db: Db, subject: Option<string>, data: LeaveRequestCreate, newId: string, now: Instant)
    : (r: Result<Reply<LeaveRequest>, HttpError>)
    ensures Authenticate(db, subject).Err? ==> r == Err(Unauthorized)
    ensures Authenticate(db, subject).Ok? ==>
              var user := Authenticate(db, subject).value;
              && (user.role != Employee ==> r == Err(OnlyEmployeesApply))
              && (user.role == Employee && EmployeeOfUser(db, user.id).None? ==> r == Err(ProfileNotFound))
              && (user.role == Employee && EmployeeOfUser(db, user.id).Some? ==>
                    (r == Err(PolicyNotFound) <==> PolicyById(db, data.leavePolicyId).None?))
    ensures r.Ok? ==>
              var user := Authenticate(db, subject).value;
              && user.role == Employee && PolicyById(db, data.leavePolicyId).Some?
              && r.value.body == LeaveRequest(newId, EmployeeOfUser(db, user.id).value.id, data.leavePolicyId,
                                              data.startDate, data.endDate, data.reason, Pending, now)
              && r.value.db == db.(leaveRequests := db.leaveRequests + [r.value.body])
    ensures (&& Authenticate(db, subject).Ok? && Authenticate(db, subject).value.role == Employee
             && EmployeeOfUser(db, Authenticate(db, subject).value.id).Some?
             && PolicyById(db, data.leavePolicyId).Some?) ==> r.Ok?
  {
    var user :- Authenticate(db, subject);
    if user.role != Employee then Err(OnlyEmployeesApply)
    else
      match EmployeeOfUser(db, user.id)
      case None => Err(ProfileNotFound)
      case Some(employee) =>
        if PolicyById(db, data.leavePolicyId).None? then Err(PolicyNotFound)
        else
          var request := LeaveRequest(newId, employee.id, data.leavePolicyId, data.startDate, data.endDate,
                                      data.reason, Pending, now);
          Ok(Reply(db.(leaveRequests := db.leaveRequests + [request]), request))
  }

  // ---- listing ----

  function ByCreated(): LeaveRequest -> Instant {
    (q: LeaveRequest) => q.createdAt
  }

  function RequestsOf(db: Db, employeeId: string): (r: seq<LeaveRequest>)
    ensures forall i :: 0 <= i < |r| ==> r[i] in db.leaveRequests && r[i].employeeId == employeeId
    ensures forall i :: 0 <= i < |db.leaveRequests| && db.leaveRequests[i].employeeId == employeeId ==> db.leaveRequests[i] in r
    ensures multiset(r) <= multiset(db.leaveRequests)
  {
    Filter(db.leaveRequests, (q: LeaveRequest) => q.employeeId == employeeId)
  }

  /** The requests a caller may see, before sorting: the first thousand of
      all of them for an admin, the first thousand of their own for an
      employee, none for an employee without a profile. */
  function Visible(db: Db, user: User): (r: seq<LeaveRequest>)
    ensures user.role == Employee && EmployeeOfUser(db, user.id).Some? ==>
              forall q | q in r :: q.employeeId == EmployeeOfUser(db, user.id).value.id
  {
    if user.role == Admin then Take(db.leaveRequests, QueryLimit)
    else
      match EmployeeOfUser(db, user.id)
      case None => []
      case Some(employee) => Take(RequestsOf(db, employee.id), QueryLimit)
  }

  /** `list_leave_requests`: the visible requests, newest first. */
  function ListLeaveRequests(db: Db, subject: Option<string>): (r: Result<seq<LeaveRequest>, HttpError>)
    ensures r.Err? <==> Authenticate(db, subject).Err?
    ensures r.Err? ==> r.error == Unauthorized
    ensures r.Ok? ==>
              var user := Authenticate(db, subject).value;
              && multiset(r.value) == multiset(Visible(db, user))
              && SortedDesc(r.value, ByCreated(), IntLess())
              && (user.role == Employee && EmployeeOfUser(db, user.id).None? ==> r.value == [])
              && (user.role == Employee && EmployeeOfUser(db, user.id).Some? ==>
                    forall i :: 0 <= i < |r.value| ==> r.value[i].employeeId == EmployeeOfUser(db, user.id).value.id)
  {
    var user :- Authenticate(db, subject);
    var visible := Visible(db, user);
    var r := SortDesc(visible, ByCreated(), IntLess());
    PermutationMembers(visible, r);
    Ok(r)
  }

  /** An admin sees every request while there are at most a thousand. */
  lemma AdminSeesAll(db: Db, subject: Option<string>)
    requires Authenticate(db, subject).Ok? && Authenticate(db, subject).value.role == Admin
    requires |db.leaveRequests| <= QueryLimit
    ensures multiset(ListLeaveRequests(db, subject).value) == multiset(db.leaveRequests)
  {
  }

  /** A request just filed shows up in its author's listing (while they
      have at most a thousand). */
  lemma CreatedRequestListed(db: Db, subject: Option<string>, data: LeaveRequestCreate, newId: string, now: Instant)
    requires CreateLeaveRequest(db, subject, data, newId, now).Ok?
    requires var reply := CreateLeaveRequest(db, subject, data, newId, now).value;
             |RequestsOf(reply.db, reply.body.employeeId)| <= QueryLimit
    ensures var reply := CreateLeaveRequest(db, subject, data, newId, now).value;
            reply.body in ListLeaveRequests(reply.db, subject).value
  {
    var reply := CreateLeaveRequest(db, subject, data, newId, now).value;
    var db' := reply.db;
    assert db'.users == db.users && db'.employees == db.employees;
    assert db'.leaveRequests[|db.leaveRequests|] == reply.body;
    assert reply.body in RequestsOf(db', reply.body.employeeId);
    assert reply.body in multiset(Visible(db', Authenticate(db', subject).value));
  }

  // ---- decisions ----

  datatype Decision = Approve | Reject

  function StatusOf(d: Decision): LeaveStatus {
    match d
    case Approve => Approved
    case Reject => Rejected
  }

  /** `update_leave_request` (admin only): 404 for an unknown id; otherwise
      the first request with that id takes the decided status, whatever its
      status was, and nothing else changes. */
  function UpdateLeaveRequest(db: Db, subject: Option<string>, requestId: string, decision: Decision)
    : (r: Result<Reply<LeaveRequest>, HttpError>)
    ensures RequireAdmin(db, subject).Err? ==> r == Err(RequireAdmin(db, subject).error)
    ensures RequireAdmin(db, subject).Ok? ==>
              (r == Err(RequestNotFound) <==> RequestIndexById(db, requestId).None?) && (r.Err? ==> r == Err(RequestNotFound))
    ensures r.Ok? ==>
              var i := RequestIndexById(db, requestId).value;
              && r.value.body == db.leaveRequests[i].(status := StatusOf(decision))
              && r.value.db == db.(leaveRequests := db.leaveRequests[i := r.value.body])
  {
    var _ :- RequireAdmin(db, subject);
    match RequestIndexById(db, requestId)
    case None => Err(RequestNotFound)
    case Some(i) =>
      var updated := db.leaveRequests[i].(status := StatusOf(decision));
      Ok(Reply(db.(leaveRequests := db.leaveRequests[i := updated]), updated))
  }

  /** The request returned is the one a later lookup by id finds. */
  lemma UpdateRefetch(db: Db, subject: Option<string>, requestId: string, decision: Decision)
    requires UpdateLeaveRequest(db, subject, requestId, decision).Ok?
    ensures var reply := UpdateLeaveRequest(db, subject, requestId, decision).value;
            && RequestIndexById(reply.db, requestId) == RequestIndexById(db, requestId)
            && reply.db.leaveRequests[RequestIndexById(db, requestId).value] == reply.body
  {
    var reply := UpdateLeaveRequest(db, subject, requestId, decision).value;
    var i := RequestIndexById(db, requestId).value;
    assert reply.db.leaveRequests[i].id == requestId;
    forall j | 0 <= j < i ensures reply.db.leaveRequests[j].id != requestId {
      assert reply.db.leaveRequests[j] == db.leaveRequests[j];
    }
  }

  // ---- balances ----

  datatype LeaveBalance = LeaveBalance(
    leavePolicyId: string, leavePolicyName: string, totalDays: int, usedDays: int, remainingDays: int)

  /** The query for one policy's used days. */
  function IsApprovedFor(employeeId: string, policyId: string): LeaveRequest -> bool {
    (q: LeaveRequest) => q.employeeId == employeeId && q.leavePolicyId == policyId && q.status == Approved
  }

  function ApprovedFor(db: Db, employeeId: string, policyId: string): seq<LeaveRequest> {
    Take(Filter(db.leaveRequests, IsApprovedFor(employeeId, policyId)), QueryLimit)
  }

  /** `(end - start).days + 1` with both dates read by `strptime`; a date
      that does not parse is an uncaught `ValueError`, a 500. The span is
      not clamped: an end before the start gives zero or less. */
  function Span(q: LeaveRequest): (r: Result<int, HttpError>)
    ensures r.Ok? <==> ParseYmd(q.startDate).Some? && ParseYmd(q.endDate).Some?
    ensures r.Ok? ==> r.value == DayNumber(ParseYmd(q.endDate).value) - DayNumber(ParseYmd(q.startDate).value) + 1
    ensures r.Err? ==> r.error == InternalError
  {
    match (ParseYmd(q.startDate), ParseYmd(q.endDate))
    case (Some(start), Some(end)) => Ok(DayNumber(end) - DayNumber(start) + 1)
    case _ => Err(InternalError)
  }

  function SpanOf(): LeaveRequest -> Result<int, HttpError> {
    (q: LeaveRequest) => Span(q)
  }

  /** The loop adding up the spans of the approved requests: the first
      date that does not parse ends it with a 500. */
  function UsedDays(requests: seq<LeaveRequest>): (r: Result<int, HttpError>)
    ensures r.Err? ==> r.error == InternalError
  {
    SumAllError(requests, SpanOf(), InternalError);
    SumAll(requests, SpanOf())
  }

  /** The sum fails exactly when some request's dates do not parse. */
  lemma UsedDaysFails(requests: seq<LeaveRequest>)
    ensures UsedDays(requests).Err? <==> exists i :: 0 <= i < |requests| && Span(requests[i]).Err?
  {
    SumAllFails(requests, SpanOf());
  }

  /** The balance of one policy: its allowance, the days used under it and
      what is left. */
  function BalanceOf(db: Db, employeeId: string, policy: LeavePolicy): (r: Result<LeaveBalance, HttpError>)
    ensures r.Ok? <==> UsedDays(ApprovedFor(db, employeeId, policy.id)).Ok?
    ensures r.Err? ==> r.error == InternalError
    ensures r.Ok? ==>
              && r.value.leavePolicyId == policy.id
              && r.value.leavePolicyName == policy.name
              && r.value.totalDays == policy.daysPerYear
              && Ok(r.value.usedDays) == UsedDays(ApprovedFor(db, employeeId, policy.id))
              && r.value.usedDays + r.value.remainingDays == r.value.totalDays
  {
    var used :- UsedDays(ApprovedFor(db, employeeId, policy.id));
    Ok(LeaveBalance(policy.id, policy.name, policy.daysPerYear, used, policy.daysPerYear - used))
  }

  function BalanceFn(db: Db, employeeId: string): LeavePolicy -> Result<LeaveBalance, HttpError> {
    (p: LeavePolicy) => BalanceOf(db, employeeId, p)
  }

  /** One balance per policy, in policy order. */
  function BalancesFor(db: Db, employeeId: string, policies: seq<LeavePolicy>): (r: Result<seq<LeaveBalance>, HttpError>)
    ensures r.Ok? <==> forall i :: 0 <= i < |policies| ==> UsedDays(ApprovedFor(db, employeeId, policies[i].id)).Ok?
    ensures r.Err? ==> r.error == InternalError
    ensures r.Ok? ==>
              && |r.value| == |policies|
              && forall i :: 0 <= i < |policies| ==> Ok(r.value[i]) == BalanceOf(db, employeeId, policies[i])
  {
    MapAllError(policies, BalanceFn(db, employeeId), InternalError);
    MapAll(policies, BalanceFn(db, employeeId))
  }

  /** `get_leave_balance`: only an employee with a profile; a balance for
      each of the first thousand policies. */
  function LeaveBalances(db: Db, subject: Option<string>): (r: Result<seq<LeaveBalance>, HttpError>)
    ensures Authenticate(db, subject).Err? ==> r == Err(Unauthorized)
    ensures Authenticate(db, subject).Ok? ==>
              var user := Authenticate(db, subject).value;
              && (user.role != Employee ==> r == Err(OnlyEmployeesBalance))
              && (user.role == Employee && EmployeeOfUser(db, user.id).None? ==> r == Err(ProfileNotFound))
              && (user.role == Employee && EmployeeOfUser(db, user.id).Some? ==>
                    r == BalancesFor(db, EmployeeOfUser(db, user.id).value.id, Take(db.policies, QueryLimit)))
  {
    var user :- Authenticate(db, subject);
    if user.role != Employee then Err(OnlyEmployeesBalance)
    else
      match EmployeeOfUser(db, user.id)
      case None => Err(ProfileNotFound)
      case Some(employee) => BalancesFor(db, employee.id, Take(db.policies, QueryLimit))
  }

  /** Reference definition: every stored request contributes its span when
      it is approved, the employee's and under the policy, and 0 otherwise. */
  function Contributions(requests: seq<LeaveRequest>, employeeId: string, policyId: string): Result<int, HttpError> {
    SumAll(requests, Masked(IsApprovedFor(employeeId, policyId), SpanOf()))
  }

  /** Below the cap, the used days of a policy are the reference sum over
      the whole collection: pending and rejected requests, other
      employees' and other policies' requests add nothing. */
  lemma UsedDaysReference(db: Db, employeeId: string, policyId: string)
    requires |Filter(db.leaveRequests, IsApprovedFor(employeeId, policyId))| <= QueryLimit
    ensures UsedDays(ApprovedFor(db, employeeId, policyId)) == Contributions(db.leaveRequests, employeeId, policyId)
  {
    SumOfFilter(db.leaveRequests, IsApprovedFor(employeeId, policyId), SpanOf());
  }

  /** Applying for leave never changes any balance: the new request is
      pending. */
  lemma ApplyingKeepsBalances(db: Db, subject: Option<string>, data: LeaveRequestCreate, newId: string, now: Instant)
    requires CreateLeaveRequest(db, subject, data, newId, now).Ok?
    ensures LeaveBalances(CreateLeaveRequest(db, subject, data, newId, now).value.db, subject) == LeaveBalances(db, subject)
  {
    var reply := CreateLeaveRequest(db, subject, data, newId, now).value;
    var db' := reply.db;
    assert db' == db.(leaveRequests := db.leaveRequests + [reply.body]);
    assert reply.body.status == Pending;
    var user := Authenticate(db, subject).value;
    var employeeId := EmployeeOfUser(db, user.id).value.id;
    assert Authenticate(db', subject) == Ok(user);
    assert EmployeeOfUser(db', user.id) == EmployeeOfUser(db, user.id);
    var policies := Take(db.policies, QueryLimit);
    forall i | 0 <= i < |policies|
      ensures BalanceFn(db', employeeId)(policies[i]) == BalanceFn(db, employeeId)(policies[i])
    {
      FilterAppend(db.leaveRequests, reply.body, IsApprovedFor(employeeId, policies[i].id));
      SameApprovedSameBalance(db, db', employeeId, policies[i]);
    }
    MapAllCongruent(policies, BalanceFn(db', employeeId), BalanceFn(db, employeeId));
  }

  lemma SameApprovedSameBalance(db: Db, db': Db, employeeId: string, policy: LeavePolicy)
    requires ApprovedFor(db', employeeId, policy.id) == ApprovedFor(db, employeeId, policy.id)
    ensures BalanceFn(db', employeeId)(policy) == BalanceFn(db, employeeId)(policy)
  {
    assert BalanceFn(db', employeeId)(policy) == BalanceOf(db', employeeId, policy);
    assert BalanceFn(db, employeeId)(policy) == BalanceOf(db, employeeId, policy);
  }
}
