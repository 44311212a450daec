/** `POST /auth/register`, `POST /auth/login` and `POST /employees`: the
    duplicate-email rules, the link from a new employee account to its
    employee record, and the token a login hands out. */
module AuthRoutes {
  import opened Wrappers
  import opened Seqs
  import opened HrStore

  datatype UserCreate = UserCreate(email: string, password: string, fullName: string, role: Role)

  /** The claims signed into an access token (`sub` and `role`); signing
      and the expiry stamp are not modelled. */
  datatype Claims = Claims(sub: string, role: Role)

  datatype Token = Token(accessToken: Claims, tokenType: string, user: User)

  const EmailTaken := HttpError(400, "Email already registered")
  const BadCredentials := HttpError(401, "Invalid credentials")
  const EmployeeExists := HttpError(400, "Employee with this email already exists")

  /** `update_one({"email": email}, {"$set": {"user_id": userId}})`: the first
      employee record with that email, if any, is linked to the account. */
  function LinkEmployee(db: Db, email: string, userId: string): (r: seq<Employee>)
    ensures EmployeeIndexByEmail(db, email).None? ==> r == db.employees
    ensures EmployeeIndexByEmail(db, email).Some? ==>
              var k := EmployeeIndexByEmail(db, email).value;
              r == db.employees[k := db.employees[k].(userId := Some(userId))]
  {
    match EmployeeIndexByEmail(db, email)
    case None => db.employees
    case Some(k) => db.employees[k := db.employees[k].(userId := Some(userId))]
  }

  /** `register`: refuse a taken email; otherwise store the account (with
      the hash of its password), link an employee account to the employee
      record with its email, and issue a token for it. */
  function Register(db: Db, data: UserCreate, newId: string, now: Instant, passwordHash: string): (r: Result<Reply<Token>, HttpError>)
    ensures r.Err? <==> UserByEmail(db, data.email).Some?
    ensures r.Err? ==> r.error == EmailTaken
    ensures r.Ok? ==>
              var user := User(newId, data.email, data.fullName, data.role, now);
              && r.value.body == Token(Claims(newId, data.role), "bearer", user)
              && r.value.db.users == db.users + [UserDoc(user, passwordHash)]
              && r.value.db.employees == (if data.role == Employee then LinkEmployee(db, data.email, newId) else db.employees)
              && r.value.db == db.(users := r.value.db.users, employees := r.value.db.employees)
  {
    if UserByEmail(db, data.email).Some? then Err(EmailTaken)
    else
      var user := User(newId, data.email, data.fullName, data.role, now);
      var withUser := db.(users := db.users + [UserDoc(user, passwordHash)]);
      var linked :=
        if data.role == Employee then withUser.(employees := LinkEmployee(db, data.email, newId))
        else withUser;
      Ok(Reply(linked, Token(Claims(newId, data.role), "bearer", user)))
  }

  /** `login`: the first account with the email, if the password matches its
      hash (`verify(password, hash)` stands for bcrypt). */
  function Login(db: Db, email: string, password: string, verify: (string, string) -> bool): (r: Result<Token, HttpError>)
    ensures r.Ok? <==> UserByEmail(db, email).Some? && verify(password, UserByEmail(db, email).value.hashedPassword)
    ensures r.Err? ==> r.error == BadCredentials
    ensures r.Ok? ==> r.value.user == UserByEmail(db, email).value.user && r.value.user.email == email
                      && r.value.accessToken == Claims(r.value.user.id, r.value.user.role)
  {
    match UserByEmail(db, email)
    case None => Err(BadCredentials)
    case Some(doc) =>
      if !verify(password, doc.hashedPassword) then Err(BadCredentials)
      else Ok(Token(Claims(doc.user.id, doc.user.role), "bearer", doc.user))
  }

  datatype EmployeeCreate = EmployeeCreate(
    name: string, email: string, department: string, joiningDate: string, reportingManagerId: Option<string>)

  /** `str.upper()` on ASCII text, which a uuid's text is. */
  function Upper(s: string): (r: string)
    ensures |r| == |s|
    ensures forall i :: 0 <= i < |r| ==> !('a' <= r[i] <= 'z')
    ensures forall i :: 0 <= i < |r| ==> r[i] == s[i] || ('a' <= s[i] <= 'z' && r[i] as int == s[i] as int - 32)
  {
    seq(|s|, i requires 0 <= i < |s| => if 'a' <= s[i] <= 'z' then (s[i] as int - 32) as char else s[i])
  }

  /** `f"EMP{str(uuid.uuid4())[:8].upper()}"`, given the uuid's text. */
  function EmployeeCode(uuidText: string): (r: string)
    ensures 3 <= |r| <= 11 && r[..3] == "EMP"
    ensures |uuidText| >= 8 ==> |r| == 11
    ensures forall i :: 3 <= i < |r| ==> !('a' <= r[i] <= 'z')
    ensures |r| == 3 + (if |uuidText| < 8 then |uuidText| else 8)
    ensures forall i :: 3 <= i < |r| ==>
              if 'a' <= uuidText[i - 3] <= 'z' then r[i] as int == uuidText[i - 3] as int - 32 else r[i] == uuidText[i - 3]
  {
    "EMP" + Upper(Take(uuidText, 8))
  }

  /** A character `str(uuid.uuid4())` writes in its first eight places:
      a lower-case hexadecimal digit. */
  predicate LowerHex(c: char) {
    '0' <= c <= '9' || 'a' <= c <= 'f'
  }

  /** Upper-casing loses nothing on a uuid: two uuids get the same
      employee code exactly when their first eight characters agree. */
  lemma EmployeeCodeDistinguishes(a: string, b: string)
    requires |a| >= 8 && |b| >= 8
    requires forall i :: 0 <= i < 8 ==> LowerHex(a[i]) && LowerHex(b[i])
    ensures EmployeeCode(a) == EmployeeCode(b) <==> a[..8] == b[..8]
  {
    if EmployeeCode(a) == EmployeeCode(b) {
      forall i | 0 <= i < 8 ensures a[i] == b[i] {
        assert EmployeeCode(a)[i + 3] == EmployeeCode(b)[i + 3];
      }
    }
    if a[..8] == b[..8] {
      assert Take(a, 8) == a[..8] && Take(b, 8) == b[..8];
    }
  }

  /** `create_employee` (admin only): refuse an email some employee record
      already has; otherwise add an uninvited record not yet linked to any
      account. */
  function CreateEmployee(db: Db, subject: Option<string>, data: EmployeeCreate, newId: string, uuidText: string, now: Instant)
    : (r: Result<Reply<Employee>, HttpError>)
    ensures RequireAdmin(db, subject).Err? ==> r == Err(RequireAdmin(db, subject).error)
    ensures RequireAdmin(db, subject).Ok? ==>
              (r.Err? <==> EmployeeIndexByEmail(db, data.email).Some?) && (r.Err? ==> r.error == EmployeeExists)
    ensures r.Ok? ==>
              && r.value.body == EmployeeRecord(newId, EmployeeCode(uuidText), data.name, data.email, data.department,
                                          data.joiningDate, data.reportingManagerId, false, None, now)
              && r.value.db == db.(employees := db.employees + [r.value.body])
  {
    var _ :- RequireAdmin(db, subject);
    if EmployeeIndexByEmail(db, data.email).Some? then Err(EmployeeExists)
    else
      var employee := EmployeeRecord(newId, EmployeeCode(uuidText), data.name, data.email, data.department,
                               data.joiningDate, data.reportingManagerId, false, None, now);
      Ok(Reply(db.(employees := db.employees + [employee]), employee))
  }

  /** No two accounts share an email. */
  ghost predicate UniqueUserEmails(db: Db) {
    forall i, j :: 0 <= i < j < |db.users| ==> db.users[i].user.email != db.users[j].user.email
  }

  /** No two accounts share an id. */
  ghost predicate UniqueUserIds(db: Db) {
    forall i, j :: 0 <= i < j < |db.users| ==> db.users[i].user.id != db.users[j].user.id
  }

  /** No two employee records share an email. */
  ghost predicate UniqueEmployeeEmails(db: Db) {
    forall i, j :: 0 <= i < j < |db.employees| ==> db.employees[i].email != db.employees[j].email
  }

  /** Registration keeps emails unique among accounts. */
  lemma RegisterKeepsEmailsUnique(db: Db, data: UserCreate, newId: string, now: Instant, passwordHash: string)
    requires UniqueUserEmails(db)
    requires Register(db, data, newId, now, passwordHash).Ok?
    ensures UniqueUserEmails(Register(db, data, newId, now, passwordHash).value.db)
  {
    var db' := Register(db, data, newId, now, passwordHash).value.db;
    forall i, j | 0 <= i < j < |db'.users| ensures db'.users[i].user.email != db'.users[j].user.email {
      if j == |db.users| {
        assert db'.users[i] == db.users[i];
      } else {
        assert db'.users[i] == db.users[i] && db'.users[j] == db.users[j];
      }
    }
  }

  /** Logging in right after registering, with the same password, returns
      the new account. */
  lemma RegisterThenLogin(db: Db, data: UserCreate, newId: string, now: Instant, passwordHash: string,
                          verify: (string, string) -> bool)
    requires Register(db, data, newId, now, passwordHash).Ok?
    requires verify(data.password, passwordHash)
    ensures var reg := Register(db, data, newId, now, passwordHash).value;
            Login(reg.db, data.email, data.password, verify) == Ok(reg.body)
  {
    var reg := Register(db, data, newId, now, passwordHash).value;
    var doc := UserDoc(User(newId, data.email, data.fullName, data.role, now), passwordHash);
    assert reg.db.users[|db.users|] == doc;
    assert forall i :: 0 <= i < |db.users| ==> reg.db.users[i] == db.users[i];
    assert UserByEmail(reg.db, data.email) == Some(doc);
  }

  /** A token from login authenticates its holder on later requests. */
  lemma LoginTokenAuthenticates(db: Db, email: string, password: string, verify: (string, string) -> bool)
    requires UniqueUserIds(db)
    requires Login(db, email, password, verify).Ok?
    ensures var t := Login(db, email, password, verify).value;
            Authenticate(db, Some(t.accessToken.sub)) == Ok(t.user)
  {
    var t := Login(db, email, password, verify).value;
    var u := UserByEmail(db, email).value;
    assert UserById(db, t.user.id).Some? by {
      assert u in db.users && u.user.id == t.user.id;
    }
    var v := UserById(db, t.user.id).value;
    var i :| 0 <= i < |db.users| && db.users[i] == u;
    var j :| 0 <= j < |db.users| && db.users[j] == v;
    assert db.users[i].user.id == db.users[j].user.id;
    assert i == j;
  }

  /** An employee account registered with the email of an existing employee
      record becomes that record's account: the caller's profile from then
      on is the record (when no record was linked to the new id before). */
  lemma RegisterLinksEmployee(db: Db, data: UserCreate, newId: string, now: Instant, passwordHash: string)
    requires Register(db, data, newId, now, passwordHash).Ok?
    requires data.role == Employee
    requires EmployeeIndexByEmail(db, data.email).Some?
    requires forall i :: 0 <= i < |db.employees| ==> db.employees[i].userId != Some(newId)
    ensures var db' := Register(db, data, newId, now, passwordHash).value.db;
            var k := EmployeeIndexByEmail(db, data.email).value;
            EmployeeOfUser(db', newId) == Some(db.employees[k].(userId := Some(newId)))
  {
    var db' := Register(db, data, newId, now, passwordHash).value.db;
    var k := EmployeeIndexByEmail(db, data.email).value;
    assert db'.employees == db.employees[k := db.employees[k].(userId := Some(newId))];
    assert db'.employees[k].userId == Some(newId);
    var e := EmployeeOfUser(db', newId).value;
    var j :| 0 <= j < |db'.employees| && db'.employees[j] == e;
  }

  /** Adding an employee keeps emails unique among employee records. */
  lemma CreateEmployeeKeepsEmailsUnique(db: Db, subject: Option<string>, data: EmployeeCreate, newId: string,
                                        uuidText: string, now: Instant)
    requires UniqueEmployeeEmails(db)
    requires CreateEmployee(db, subject, data, newId, uuidText, now).Ok?
    ensures UniqueEmployeeEmails(CreateEmployee(db, subject, data, newId, uuidText, now).value.db)
  {
    var db' := CreateEmployee(db, subject, data, newId, uuidText, now).value.db;
    forall i, j | 0 <= i < j < |db'.employees| ensures db'.employees[i].email != db'.employees[j].email {
      assert db'.employees[i] == db.employees[i];
      if j < |db.employees| {
        assert db'.employees[j] == db.employees[j];
      }
    }
  }
}
