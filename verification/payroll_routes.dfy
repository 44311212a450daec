/** `POST /payroll`, `POST /payslips/generate`,
    `GET /payslips/employee/{employee_id}` and
    `GET /payslips/{payslip_id}/download`: payroll assignment as an upsert,
    one payslip per employee and month, and who may see which payslips. */
module PayrollRoutes {
  import opened Wrappers
  import opened Seqs
  import opened Sorting
  import opened HrStore

  const EmployeeNotFound := HttpError(404, "Employee not found")
  const StructureNotFound := HttpError(404, "Payroll structure not found")
  const PayrollNotAssigned := HttpError(404, "Payroll not assigned for this employee")
  const PayslipExists := HttpError(400, "Payslip already generated for this month")
  const AccessDenied := HttpError(403, "Access denied")
  const PayslipNotFound := HttpError(404, "Payslip not found")

  // ---- payroll assignment ----

  /** `Payroll(**doc)`: the `Payroll` model ignores extra keys, so a
      reply built from a stored record carries only its id, employee,
      structure and creation instant, never the salary keys. */
  function AsPayroll(doc: PayrollDoc): (r: PayrollDoc)
    ensures r.id == doc.id && r.employeeId == doc.employeeId && r.payrollStructureId == doc.payrollStructureId
    ensures r.createdAt == doc.createdAt
    ensures r.basicSalary.None? && r.allowances.None? && r.deductions.None?
  {
    doc.(basicSalary := None, allowances := None, deductions := None)
  }

  /** `assign_payroll` (admin only): 404 for an unknown employee or
      structure; otherwise repoint the employee's first payroll record at
      the structure, or add a record when there is none. The reply is the
      stored record as the `Payroll` model reads it. */
  function AssignPayroll(db: Db, subject: Option<string>, employeeId: string, structureId: string,
                         newId: string, now: Instant): (r: Result<Reply<PayrollDoc>, HttpError>)
    ensures RequireAdmin(db, subject).Err? ==> r == Err(RequireAdmin(db, subject).error)
    ensures RequireAdmin(db, subject).Ok? ==>
              && (EmployeeById(db, employeeId).None? ==> r == Err(EmployeeNotFound))
              && (EmployeeById(db, employeeId).Some? && StructureById(db, structureId).None? ==> r == Err(StructureNotFound))
              && (EmployeeById(db, employeeId).Some? && StructureById(db, structureId).Some? ==> r.Ok?)
    ensures r.Ok? ==>
              && r.value.body.employeeId == employeeId && r.value.body.payrollStructureId == structureId
              && r.value.db == db.(payroll := r.value.db.payroll)
    ensures r.Ok? && PayrollOf(db, employeeId).Some? ==>
              var i := PayrollIndexOf(db, employeeId).value;
              && r.value.db.payroll == db.payroll[i := db.payroll[i].(payrollStructureId := structureId)]
              && r.value.body == AsPayroll(r.value.db.payroll[i])
              && r.value.body.id == db.payroll[i].id && r.value.body.createdAt == db.payroll[i].createdAt
    ensures r.Ok? && PayrollOf(db, employeeId).None? ==>
              && r.value.body == PayrollDoc(newId, employeeId, structureId, now, None, None, None)
              && r.value.db.payroll == db.payroll + [r.value.body]
  {
    var _ :- RequireAdmin(db, subject);
    if EmployeeById(db, employeeId).None? then Err(EmployeeNotFound)
    else if StructureById(db, structureId).None? then Err(StructureNotFound)
    else
      match PayrollIndexOf(db, employeeId)
      case Some(i) =>
        var updated := db.payroll[i].(payrollStructureId := structureId);
        Ok(Reply(db.(payroll := db.payroll[i := updated]), AsPayroll(updated)))
      case None =>
        var doc := PayrollDoc(newId, employeeId, structureId, now, None, None, None);
        Ok(Reply(db.(payroll := db.payroll + [doc]), doc))
  }

  /** At most one payroll record per employee. */
  ghost predicate OnePayrollEach(db: Db) {
    forall i, j :: 0 <= i < j < |db.payroll| ==> db.payroll[i].employeeId != db.payroll[j].employeeId
  }

  /** The record returned is the one a later lookup finds, as the
      `Payroll` model reads it: the employee's payroll now points at the
      requested structure. A new record is stored exactly as returned; a
      repointed one keeps whatever salary keys it had. */
  lemma AssignPayrollRefetch(db: Db, subject: Option<string>, employeeId: string, structureId: string,
                             newId: string, now: Instant)
    requires AssignPayroll(db, subject, employeeId, structureId, newId, now).Ok?
    ensures var reply := AssignPayroll(db, subject, employeeId, structureId, newId, now).value;
            && PayrollOf(reply.db, employeeId).Some?
            && PayrollOf(reply.db, employeeId).value.payrollStructureId == structureId
            && AsPayroll(PayrollOf(reply.db, employeeId).value) == reply.body
            && (PayrollOf(db, employeeId).None? ==> PayrollOf(reply.db, employeeId) == Some(reply.body))
            && (PayrollOf(db, employeeId).Some? ==>
                  PayrollOf(reply.db, employeeId) == Some(PayrollOf(db, employeeId).value.(payrollStructureId := structureId)))
  {
    var reply := AssignPayroll(db, subject, employeeId, structureId, newId, now).value;
    var db' := reply.db;
    if PayrollIndexOf(db, employeeId).Some? {
      var i := PayrollIndexOf(db, employeeId).value;
      assert db'.payroll == db.payroll[i := db.payroll[i].(payrollStructureId := structureId)];
      PayrollAt(db', employeeId, i);
    } else {
      var i := |db.payroll|;
      assert db'.payroll == db.payroll + [reply.body];
      PayrollAt(db', employeeId, i);
    }
  }

  /** The employee's payroll is the first record naming them. */
  lemma PayrollAt(db: Db, employeeId: string, i: nat)
    requires i < |db.payroll| && db.payroll[i].employeeId == employeeId
    requires forall j :: 0 <= j < i ==> db.payroll[j].employeeId != employeeId
    ensures PayrollOf(db, employeeId) == Some(db.payroll[i])
  {
    assert PayrollIndexOf(db, employeeId) == Some(i);
  }

  /** The upsert keeps at most one record per employee, so afterwards the
      employee has exactly one. */
  lemma AssignPayrollKeepsOneEach(db: Db, subject: Option<string>, employeeId: string, structureId: string,
                                  newId: string, now: Instant)
    requires OnePayrollEach(db)
    requires AssignPayroll(db, subject, employeeId, structureId, newId, now).Ok?
    ensures OnePayrollEach(AssignPayroll(db, subject, employeeId, structureId, newId, now).value.db)
  {
    var reply := AssignPayroll(db, subject, employeeId, structureId, newId, now).value;
    var db' := reply.db;
    forall i, j | 0 <= i < j < |db'.payroll| ensures db'.payroll[i].employeeId != db'.payroll[j].employeeId {
      if PayrollIndexOf(db, employeeId).Some? {
        var k := PayrollIndexOf(db, employeeId).value;
        assert db'.payroll == db.payroll[k := db.payroll[k].(payrollStructureId := structureId)];
        assert db'.payroll[i].employeeId == db.payroll[i].employeeId;
        assert db'.payroll[j].employeeId == db.payroll[j].employeeId;
      } else if j < |db.payroll| {
        assert db'.payroll[i] == db.payroll[i] && db'.payroll[j] == db.payroll[j];
      } else {
        assert db'.payroll[i] == db.payroll[i];
      }
    }
  }

  /** Two payroll collections that agree on every record of `other`
      give the same lookup for `other`. */
  lemma SamePayrollOf(db: Db, db': Db, other: string)
    requires |db.payroll| <= |db'.payroll|
    requires forall j :: 0 <= j < |db.payroll| ==>
               (db.payroll[j].employeeId == other || db'.payroll[j].employeeId == other) ==> db'.payroll[j] == db.payroll[j]
    requires forall j :: |db.payroll| <= j < |db'.payroll| ==> db'.payroll[j].employeeId != other
    ensures PayrollOf(db', other) == PayrollOf(db, other)
  {
    if PayrollIndexOf(db, other).Some? {
      var k := PayrollIndexOf(db, other).value;
      assert db'.payroll[k] == db.payroll[k];
    }
  }

  /** Other employees' payroll is untouched. */
  lemma AssignPayrollLeavesOthers(db: Db, subject: Option<string>, employeeId: string, structureId: string,
                                  newId: string, now: Instant, other: string)
    requires AssignPayroll(db, subject, employeeId, structureId, newId, now).Ok?
    requires other != employeeId
    ensures PayrollOf(AssignPayroll(db, subject, employeeId, structureId, newId, now).value.db, other) == PayrollOf(db, other)
  {
    var reply := AssignPayroll(db, subject, employeeId, structureId, newId, now).value;
    var db' := reply.db;
    if PayrollIndexOf(db, employeeId).Some? {
      var k := PayrollIndexOf(db, employeeId).value;
      assert db'.payroll == db.payroll[k := db.payroll[k].(payrollStructureId := structureId)];
      assert db'.payroll[k].employeeId == db.payroll[k].employeeId == employeeId;
    } else {
      assert db'.payroll == db.payroll + [reply.body];
    }
    SamePayrollOf(db, db', other);
  }

  // ---- payslip generation ----

  /** `generate_payslip` (admin only): 404 for an unknown employee or one
      without payroll, 400 when the month already has a payslip, and a 500
      when the payroll record lacks a salary key; otherwise a payslip whose
      net pay is basic plus allowances minus deductions, all three read
      from the employee's payroll record. */
  function GeneratePayslip(db: Db, subject: Option<string>, employeeId: string, month: string,
                           newId: string, now: Instant): (r: Result<Reply<Payslip>, HttpError>)
    ensures RequireAdmin(db, subject).Err? ==> r == Err(RequireAdmin(db, subject).error)
    ensures RequireAdmin(db, subject).Ok? ==>
              && (EmployeeById(db, employeeId).None? ==> r == Err(EmployeeNotFound))
              && (EmployeeById(db, employeeId).Some? && PayrollOf(db, employeeId).None? ==> r == Err(PayrollNotAssigned))
              && (EmployeeById(db, employeeId).Some? && PayrollOf(db, employeeId).Some? ==>
                    (PayslipFor(db, employeeId, month).Some? ==> r == Err(PayslipExists)))
    ensures r.Ok? ==>
              var p := PayrollOf(db, employeeId).value;
              var slip := r.value.body;
              && PayslipFor(db, employeeId, month).None?
              && slip.employeeId == employeeId && slip.month == month && slip.id == newId && slip.generatedAt == now
              && p.basicSalary == Some(slip.basicSalary) && p.allowances == Some(slip.allowances)
              && p.deductions == Some(slip.deductions)
              && slip.netPay == slip.basicSalary + slip.allowances - slip.deductions
              && r.value.db == db.(payslips := db.payslips + [slip])
    ensures (r.Err? && r.error.status == 500) <==>
              && RequireAdmin(db, subject).Ok? && EmployeeById(db, employeeId).Some?
              && PayrollOf(db, employeeId).Some? && PayslipFor(db, employeeId, month).None?
              && (|| PayrollOf(db, employeeId).value.basicSalary.None?
                  || PayrollOf(db, employeeId).value.allowances.None?
                  || PayrollOf(db, employeeId).value.deductions.None?)
    ensures (&& RequireAdmin(db, subject).Ok? && EmployeeById(db, employeeId).Some?
             && PayrollOf(db, employeeId).Some? && PayslipFor(db, employeeId, month).None?
             && PayrollOf(db, employeeId).value.basicSalary.Some?
             && PayrollOf(db, employeeId).value.allowances.Some?
             && PayrollOf(db, employeeId).value.deductions.Some?) ==> r.Ok?
  {
    var _ :- RequireAdmin(db, subject);
    if EmployeeById(db, employeeId).None? then Err(EmployeeNotFound)
    else
      match PayrollOf(db, employeeId)
      case None => Err(PayrollNotAssigned)
      case Some(p) =>
        if PayslipFor(db, employeeId, month).Some? then Err(PayslipExists)
        else if p.basicSalary.None? || p.allowances.None? || p.deductions.None? then Err(InternalError)
        else
          var basic, allowances, deductions := p.basicSalary.value, p.allowances.value, p.deductions.value;
          var slip := Payslip(newId, employeeId, month, basic, allowances, deductions,
                              basic + allowances - deductions, now);
          Ok(Reply(db.(payslips := db.payslips + [slip]), slip))
  }

  /** At most one payslip per employee and month. */
  ghost predicate OnePayslipPerMonth(db: Db) {
    forall i, j :: 0 <= i < j < |db.payslips| ==>
      db.payslips[i].employeeId != db.payslips[j].employeeId || db.payslips[i].month != db.payslips[j].month
  }

  /** Generation keeps payslips unique per employee and month. */
  lemma GeneratePayslipKeepsOnePerMonth(db: Db, subject: Option<string>, employeeId: string, month: string,
                                        newId: string, now: Instant)
    requires OnePayslipPerMonth(db)
    requires GeneratePayslip(db, subject, employeeId, month, newId, now).Ok?
    ensures OnePayslipPerMonth(GeneratePayslip(db, subject, employeeId, month, newId, now).value.db)
  {
    var db' := GeneratePayslip(db, subject, employeeId, month, newId, now).value.db;
    forall i, j | 0 <= i < j < |db'.payslips|
      ensures db'.payslips[i].employeeId != db'.payslips[j].employeeId || db'.payslips[i].month != db'.payslips[j].month
    {
      assert db'.payslips[i] == db.payslips[i];
      if j < |db.payslips| {
        assert db'.payslips[j] == db.payslips[j];
      }
    }
  }

  /** A second payslip for the same employee and month is refused. */
  lemma GenerateTwiceRefused(db: Db, subject: Option<string>, employeeId: string, month: string,
                             newId: string, now: Instant, newId2: string, now2: Instant)
    requires GeneratePayslip(db, subject, employeeId, month, newId, now).Ok?
    ensures var db' := GeneratePayslip(db, subject, employeeId, month, newId, now).value.db;
            GeneratePayslip(db', subject, employeeId, month, newId2, now2) == Err(PayslipExists)
  {
    var reply := GeneratePayslip(db, subject, employeeId, month, newId, now).value;
    var db' := reply.db;
    assert db'.payslips[|db.payslips|] == reply.body;
    assert db'.users == db.users && db'.employees == db.employees && db'.payroll == db.payroll;
  }

  /** As written, a payroll record created by the assignment route carries
      no salary keys, so generating a payslip from it fails with a 500 (or
      the 400 when the month already has one). */
  lemma AssignedPayrollCannotPay(db: Db, subject: Option<string>, employeeId: string, structureId: string,
                                 newId: string, now: Instant, month: string, slipId: string, later: Instant)
    requires AssignPayroll(db, subject, employeeId, structureId, newId, now).Ok?
    requires PayrollOf(db, employeeId).None?
    requires PayslipFor(db, employeeId, month).None?
    ensures var db' := AssignPayroll(db, subject, employeeId, structureId, newId, now).value.db;
            GeneratePayslip(db', subject, employeeId, month, slipId, later) == Err(InternalError)
  {
    AssignPayrollRefetch(db, subject, employeeId, structureId, newId, now);
  }

  // ---- payslip access ----

  /** An admin may see every payslip; an employee only those of the
      employee record linked to their account. */
  predicate MayViewPayslips(db: Db, user: User, employeeId: string) {
    user.role == Admin || (EmployeeOfUser(db, user.id).Some? && EmployeeOfUser(db, user.id).value.id == employeeId)
  }

  function PayslipsOf(db: Db, employeeId: string): (r: seq<Payslip>)
    ensures forall i :: 0 <= i < |r| ==> r[i] in db.payslips && r[i].employeeId == employeeId
    ensures forall i :: 0 <= i < |db.payslips| && db.payslips[i].employeeId == employeeId ==> db.payslips[i] in r
    ensures multiset(r) <= multiset(db.payslips)
  {
    Filter(db.payslips, (p: Payslip) => p.employeeId == employeeId)
  }

  function ByMonth(): Payslip -> string {
    (p: Payslip) => p.month
  }

  /** `get_employee_payslips`: after the access check, the employee's first
      thousand payslips, latest month first. */
  function EmployeePayslips(db: Db, subject: Option<string>, employeeId: string): (r: Result<seq<Payslip>, HttpError>)
    ensures Authenticate(db, subject).Err? ==> r == Err(Unauthorized)
    ensures Authenticate(db, subject).Ok? ==>
              (r.Err? <==> !MayViewPayslips(db, Authenticate(db, subject).value, employeeId))
    ensures r.Err? && Authenticate(db, subject).Ok? ==> r.error == AccessDenied
    ensures r.Ok? ==>
              && multiset(r.value) == multiset(Take(PayslipsOf(db, employeeId), QueryLimit))
              && SortedDesc(r.value, ByMonth(), StringLess())
              && (forall i :: 0 <= i < |r.value| ==> r.value[i].employeeId == employeeId && r.value[i] in db.payslips)
  {
    var user :- Authenticate(db, subject);
    if !MayViewPayslips(db, user, employeeId) then Err(AccessDenied)
    else
      var r := SortDesc(Take(PayslipsOf(db, employeeId), QueryLimit), ByMonth(), StringLess());
      assert forall i :: 0 <= i < |r| ==> r[i] in multiset(Take(PayslipsOf(db, employeeId), QueryLimit));
      Ok(r)
  }

  /** Below the cap, the listing holds every payslip of the employee. */
  lemma EmployeePayslipsComplete(db: Db, subject: Option<string>, employeeId: string, k: nat)
    requires EmployeePayslips(db, subject, employeeId).Ok?
    requires |PayslipsOf(db, employeeId)| <= QueryLimit
    requires k < |db.payslips| && db.payslips[k].employeeId == employeeId
    ensures db.payslips[k] in EmployeePayslips(db, subject, employeeId).value
  {
    var listed := EmployeePayslips(db, subject, employeeId).value;
    assert Take(PayslipsOf(db, employeeId), QueryLimit) == PayslipsOf(db, employeeId);
    assert db.payslips[k] in multiset(PayslipsOf(db, employeeId));
  }

  /** Payslips of one month keep their stored order in the listing. */
  lemma EmployeePayslipsStable(db: Db, subject: Option<string>, employeeId: string, month: string)
    requires EmployeePayslips(db, subject, employeeId).Ok?
    ensures WithKey(EmployeePayslips(db, subject, employeeId).value, ByMonth(), month)
            == WithKey(Take(PayslipsOf(db, employeeId), QueryLimit), ByMonth(), month)
  {
    SortDescStable(Take(PayslipsOf(db, employeeId), QueryLimit), ByMonth(), StringLess(), month);
  }

  /** The download: the payslip, its employee and the attachment name. */
  datatype PayslipPdf = PayslipPdf(payslip: Payslip, employee: Employee, fileName: string)

  /** `name.replace(' ', '_')`. */
  function Underscored(name: string): (r: string)
    ensures |r| == |name|
    ensures forall i :: 0 <= i < |r| ==> r[i] == (if name[i] == ' ' then '_' else name[i])
  {
    seq(|name|, i requires 0 <= i < |name| => if name[i] == ' ' then '_' else name[i])
  }

  function PdfFileName(month: string, name: string): string {
    "payslip_" + month + "_" + Underscored(name) + ".pdf"
  }

  /** A text every character of which Latin-1 encodes: the response
      headers are encoded with `.encode("latin-1")`, and any other
      character raises `UnicodeEncodeError`. */
  predicate Latin1(s: string) {
    forall i :: 0 <= i < |s| ==> s[i] <= '\U{00FF}'
  }

  /** `download_payslip`: 404 for an unknown payslip, the same access rule
      as the listing, and a 500 when the payslip's employee record is gone
      (the route subscripts the missing record) or when the attachment
      name in the `Content-Disposition` header is not Latin-1 text. */
  function DownloadPayslip(db: Db, subject: Option<string>, payslipId: string): (r: Result<PayslipPdf, HttpError>)
    ensures Authenticate(db, subject).Err? ==> r == Err(Unauthorized)
    ensures Authenticate(db, subject).Ok? && PayslipById(db, payslipId).None? ==> r == Err(PayslipNotFound)
    ensures Authenticate(db, subject).Ok? && PayslipById(db, payslipId).Some? ==>
              (r == Err(AccessDenied) <==>
                 !MayViewPayslips(db, Authenticate(db, subject).value, PayslipById(db, payslipId).value.employeeId))
    ensures r.Ok? ==>
              && r.value.payslip == PayslipById(db, payslipId).value
              && MayViewPayslips(db, Authenticate(db, subject).value, r.value.payslip.employeeId)
              && Some(r.value.employee) == EmployeeById(db, r.value.payslip.employeeId)
              && r.value.fileName == PdfFileName(r.value.payslip.month, r.value.employee.name)
              && Latin1(r.value.fileName)
    ensures Authenticate(db, subject).Ok? && PayslipById(db, payslipId).Some?
            && MayViewPayslips(db, Authenticate(db, subject).value, PayslipById(db, payslipId).value.employeeId) ==>
              && (r.Ok? <==> && EmployeeById(db, PayslipById(db, payslipId).value.employeeId).Some?
                             && Latin1(PdfFileName(PayslipById(db, payslipId).value.month,
                                                   EmployeeById(db, PayslipById(db, payslipId).value.employeeId).value.name)))
              && (r.Err? ==> r == Err(InternalError))
  {
    var user :- Authenticate(db, subject);
    match PayslipById(db, payslipId)
    case None => Err(PayslipNotFound)
    case Some(slip) =>
      if !MayViewPayslips(db, user, slip.employeeId) then Err(AccessDenied)
      else
        match EmployeeById(db, slip.employeeId)
        case None => Err(InternalError)
        case Some(employee) =>
          var fileName := PdfFileName(slip.month, employee.name);
          if !Latin1(fileName) then Err(InternalError)
          else Ok(PayslipPdf(slip, employee, fileName))
  }

  /** An employee whose name holds a character outside Latin-1, such as
      'Ł', cannot download a payslip: the header encoding fails. */
  lemma NonLatinNameFails(db: Db, subject: Option<string>, payslipId: string, k: nat)
    requires Authenticate(db, subject).Ok? && PayslipById(db, payslipId).Some?
    requires MayViewPayslips(db, Authenticate(db, subject).value, PayslipById(db, payslipId).value.employeeId)
    requires EmployeeById(db, PayslipById(db, payslipId).value.employeeId).Some?
    requires k < |EmployeeById(db, PayslipById(db, payslipId).value.employeeId).value.name|
    requires EmployeeById(db, PayslipById(db, payslipId).value.employeeId).value.name[k] == '\U{0141}'
    ensures DownloadPayslip(db, subject, payslipId) == Err(InternalError)
  {
    var slip := PayslipById(db, payslipId).value;
    var name := EmployeeById(db, slip.employeeId).value.name;
    var fileName := PdfFileName(slip.month, name);
    assert fileName[|"payslip_" + slip.month + "_"| + k] == Underscored(name)[k];
  }

  /** No two payslips share an id. */
  ghost predicate UniquePayslipIds(db: Db) {
    forall i, j :: 0 <= i < j < |db.payslips| ==> db.payslips[i].id != db.payslips[j].id
  }

  /** Whatever the listing shows, the same caller may also download. */
  lemma ListedPayslipDownloadable(db: Db, subject: Option<string>, employeeId: string, i: nat)
    requires UniquePayslipIds(db)
    requires EmployeePayslips(db, subject, employeeId).Ok? && i < |EmployeePayslips(db, subject, employeeId).value|
    ensures var slip := EmployeePayslips(db, subject, employeeId).value[i];
            DownloadPayslip(db, subject, slip.id) != Err(AccessDenied)
            && DownloadPayslip(db, subject, slip.id) != Err(PayslipNotFound)
  {
    var slip := EmployeePayslips(db, subject, employeeId).value[i];
    var a :| 0 <= a < |db.payslips| && db.payslips[a] == slip;
    var found := PayslipById(db, slip.id).value;
    var b :| 0 <= b < |db.payslips| && db.payslips[b] == found;
    assert a == b by {
      if a < b {
      } else if b < a {
      }
    }
  }
}
