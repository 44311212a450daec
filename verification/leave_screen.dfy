/** The admin's leave screen: the names shown for each request, the
    colour and icon of its status, and the approve and reject actions with
    the request they send. */
module LeaveScreen {
  import opened Wrappers
  import opened Seqs
  import opened HrStore
  import LeaveRoutes

  const UnknownName: string := "Unknown"

  /** `getEmployeeName`: the first employee with the id, else "Unknown". */
  function EmployeeName(employees: seq<Employee>, employeeId: string): (r: string)
    ensures var k := FirstIndex(employees, (e: Employee) => e.id == employeeId);
            (k.None? ==> r == UnknownName) && (k.Some? ==> r == employees[k.value].name)
  {
    match FirstIndex(employees, (e: Employee) => e.id == employeeId)
    case None => UnknownName
    case Some(k) => employees[k].name
  }

  /** `getPolicyName`: the first policy with the id, else "Unknown". */
  function PolicyName(policies: seq<LeavePolicy>, policyId: string): (r: string)
    ensures var k := FirstIndex(policies, (p: LeavePolicy) => p.id == policyId);
            (k.None? ==> r == UnknownName) && (k.Some? ==> r == policies[k.value].name)
  {
    match FirstIndex(policies, (p: LeavePolicy) => p.id == policyId)
    case None => UnknownName
    case Some(k) => policies[k].name
  }

  /** Both lookups in terms of the list alone: an id no entry has shows
      "Unknown", and an id shows the name of the earliest entry having it. */
  lemma EmployeeNameOfListed(employees: seq<Employee>, employeeId: string)
    ensures (forall i :: 0 <= i < |employees| ==> employees[i].id != employeeId) ==> EmployeeName(employees, employeeId) == UnknownName
    ensures forall i :: 0 <= i < |employees| && employees[i].id == employeeId
                        && (forall j :: 0 <= j < i ==> employees[j].id != employeeId)
                        ==> EmployeeName(employees, employeeId) == employees[i].name
  {
    var k := FirstIndex(employees, (e: Employee) => e.id == employeeId);
    forall i | 0 <= i < |employees| && employees[i].id == employeeId && (forall j :: 0 <= j < i ==> employees[j].id != employeeId)
      ensures EmployeeName(employees, employeeId) == employees[i].name
    {
      assert k == Some(i);
    }
  }

  lemma PolicyNameOfListed(policies: seq<LeavePolicy>, policyId: string)
    ensures (forall i :: 0 <= i < |policies| ==> policies[i].id != policyId) ==> PolicyName(policies, policyId) == UnknownName
    ensures forall i :: 0 <= i < |policies| && policies[i].id == policyId
                        && (forall j :: 0 <= j < i ==> policies[j].id != policyId)
                        ==> PolicyName(policies, policyId) == policies[i].name
  {
    var k := FirstIndex(policies, (p: LeavePolicy) => p.id == policyId);
    forall i | 0 <= i < |policies| && policies[i].id == policyId && (forall j :: 0 <= j < i ==> policies[j].id != policyId)
      ensures PolicyName(policies, policyId) == policies[i].name
    {
      assert k == Some(i);
    }
  }

  // ---- statuses ----

  const PendingText: string := "pending"
  const ApprovedText: string := "approved"
  const RejectedText: string := "rejected"

  /** A status as it travels in JSON. */
  function StatusText(s: LeaveStatus): (r: string)
    ensures r == PendingText <==> s == Pending
    ensures r == ApprovedText <==> s == Approved
    ensures r == RejectedText <==> s == Rejected
  {
    match s
    case Pending => PendingText
    case Approved => ApprovedText
    case Rejected => RejectedText
  }

  const GreenBadge: string := "bg-green-100 text-green-800"
  const RedBadge: string := "bg-red-100 text-red-800"
  const YellowBadge: string := "bg-yellow-100 text-yellow-800"

  /** `getStatusColor`: approved green, rejected red, any other text yellow. */
  function StatusColor(status: string): (r: string)
    ensures r == GreenBadge <==> status == ApprovedText
    ensures r == RedBadge <==> status == RejectedText
    ensures r == YellowBadge <==> status != ApprovedText && status != RejectedText
  {
    if status == ApprovedText then GreenBadge
    else if status == RejectedText then RedBadge
    else YellowBadge
  }

  datatype Icon = CheckIcon | CrossIcon | ClockIcon

  /** `getStatusIcon`: a check for approved, a cross for rejected, a clock
      for any other text. */
  function StatusIcon(status: string): (r: Icon)
    ensures r == CheckIcon <==> status == ApprovedText
    ensures r == CrossIcon <==> status == RejectedText
    ensures r == ClockIcon <==> status != ApprovedText && status != RejectedText
  {
    if status == ApprovedText then CheckIcon
    else if status == RejectedText then CrossIcon
    else ClockIcon
  }

  /** The badge colour and the icon make the same three-way split. */
  lemma ColorMatchesIcon(status: string, other: string)
    ensures (StatusColor(status) == StatusColor(other)) <==> (StatusIcon(status) == StatusIcon(other))
  {
  }

  // ---- actions ----

  /** The buttons a request card offers, as the status each one asks for:
      approve and reject for a pending request, none otherwise. */
  function Actions(status: string): (r: seq<string>)
    ensures |r| > 0 <==> status == PendingText
    ensures |r| > 0 ==> r == [ApprovedText, RejectedText]
  {
    if status == PendingText then [ApprovedText, RejectedText] else []
  }

  /** `handleUpdateRequest(requestId, status)`: a `PATCH` of the request's
      path with the status as the body. */
  datatype Patch = Patch(path: string, status: string)

  function UpdateRequest(requestId: string, status: string): (r: Patch)
    ensures r.path == "/leave-requests/" + requestId && r.status == status
  {
    Patch("/leave-requests/" + requestId, status)
  }

  /** The body the server accepts: "approved" or "rejected", anything else
      refused by validation. */
  function DecisionOf(status: string): (r: Option<LeaveRoutes.Decision>)
    ensures r.Some? <==> status == ApprovedText || status == RejectedText
    ensures r.Some? ==> StatusText(LeaveRoutes.StatusOf(r.value)) == status
  {
    if status == ApprovedText then Some(LeaveRoutes.Approve)
    else if status == RejectedText then Some(LeaveRoutes.Reject)
    else None
  }

  /** Each button the screen offers sends a body the server accepts, and
      the status it stores is the one the button named. */
  lemma ActionsAccepted(status: string)
    ensures forall i :: 0 <= i < |Actions(status)| ==>
              DecisionOf(Actions(status)[i]).Some?
              && StatusText(LeaveRoutes.StatusOf(DecisionOf(Actions(status)[i]).value)) == Actions(status)[i]
  {
  }

  /** Once the server has applied a decision, the request's card shows the
      decided status's colour and offers no more buttons. */
  lemma DecidedRequestHasNoActions(db: Db, subject: Option<string>, requestId: string, action: string)
    requires action in Actions(PendingText)
    requires DecisionOf(action).Some?
    requires LeaveRoutes.UpdateLeaveRequest(db, subject, requestId, DecisionOf(action).value).Ok?
    ensures var shown := StatusText(LeaveRoutes.UpdateLeaveRequest(db, subject, requestId, DecisionOf(action).value).value.body.status);
            shown == action && Actions(shown) == [] && StatusColor(shown) != YellowBadge
  {
  }
}
