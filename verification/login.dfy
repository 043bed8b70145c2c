/** The login form's decision: which inputs are rejected with which message, and which role
    and landing page an accepted input gets. Any non-empty password is accepted except that
    one fixed pair of credentials opens the administration panel. */
module Login {
  import opened Auth

  datatype LoginError = EmptyFields | InvalidEmail

  function Message(e: LoginError): string {
    match e
    case EmptyFields => "Please fill in all fields"
    case InvalidEmail => "Please enter a valid email address"
  }

  const AdminEmail: string := "admin@gmail.com"
  const AdminPassword: string := "admin123"

  /** A rejected submission carries its error; an accepted one the role it logs in with and
      the path it navigates to. */
  datatype Decision = Rejected(error: LoginError) | Accepted(role: Role, target: string)

  /** The checks and branches of the form's submit handler. */
  function Decide(email: string, password: string): (d: Decision)
    ensures d == Rejected(EmptyFields) <==> email == "" || password == ""
    ensures d == Rejected(InvalidEmail) <==> email != "" && password != "" && '@' !in email
    ensures d.Accepted? <==> email != "" && password != "" && '@' in email
    ensures d.Accepted? ==> (d.role == Admin <==> d.target == "/admin")
    ensures d.Accepted? && d.role != Admin ==> d.role == Student && d.target == "/"
    ensures d.Accepted? && d.role == Admin <==> email == AdminEmail && password == AdminPassword
  {
    if email == "" || password == "" then Rejected(EmptyFields)
    else if '@' !in email then Rejected(InvalidEmail)
    else if email == AdminEmail && password == AdminPassword then Accepted(Admin, "/admin")
    else Accepted(Student, "/")
  }

  /** The submit handler's effect on the session: a rejected input leaves it as it was, an
      accepted one logs in with the email and the decided role. */
  function Submit(st: AuthState, email: string, password: string, serialize: SessionUser -> string): (r: AuthState)
    ensures Decide(email, password).Rejected? ==> r == st
    ensures Decide(email, password).Accepted? ==> IsAuthenticated(r) && r.user.value.email == email
    ensures Decide(email, password).Accepted? ==> r.user.value.role == Decide(email, password).role
    ensures Decide(email, password).Accepted? ==> r == Auth.Login(st, email, Decide(email, password).role, serialize)
  {
    match Decide(email, password)
    case Rejected(_) => st
    case Accepted(role, _) => Auth.Login(st, email, role, serialize)
  }

  /** Beyond the admin pair the password is never checked: any two non-empty passwords give
      the same decision for an email other than the admin's. */
  lemma PasswordIgnoredForOthers(email: string, p1: string, p2: string)
    requires email != AdminEmail && p1 != "" && p2 != ""
    ensures Decide(email, p1) == Decide(email, p2)
  {
  }

  /** The admin's email with any other password logs in as a student. */
  lemma WrongAdminPasswordIsStudent(password: string)
    requires password != "" && password != AdminPassword
    ensures Decide(AdminEmail, password) == Accepted(Student, "/")
  {
    assert '@' in AdminEmail by {
      assert AdminEmail[5] == '@';
    }
  }

  /** A rejected submission shows the message of the check that failed. */
  lemma RejectionMessages(email: string, password: string)
    ensures email == "" || password == "" ==>
              Decide(email, password).Rejected? && Message(Decide(email, password).error) == "Please fill in all fields"
    ensures email != "" && password != "" && '@' !in email ==>
              Decide(email, password).Rejected? && Message(Decide(email, password).error) == "Please enter a valid email address"
  {
  }

  /** The empty-field check comes first: an empty password is reported as such even when
      the email has no '@'. */
  lemma EmptyCheckedBeforeAt(email: string)
    ensures Decide(email, "") == Rejected(EmptyFields)
  {
  }
}
