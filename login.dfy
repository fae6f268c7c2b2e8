/** The decision the login form makes on submit: the hard-coded administrator
    pair first, then a lookup of the email in the stored account list, else an
    error. The delays before reporting and the loading flag are presentation. */
module Login {
  import opened Prelude
  import opened Accounts

  /** The single outcome of one submission: `onLogin(email, role)` or the error. */
  datatype Outcome = LoggedIn(email: string, role: Role) | Rejected

  /** `handleSubmit`. `saved` is the `registered_users` entry (None when absent).
      The password is compared only against the administrator pair. */
  function Submit(email: string, password: string, saved: Option<seq<User>>): (r: Outcome)
    ensures r.LoggedIn? ==> r.email == email
    ensures r.LoggedIn? <==>
      (email == AdminEmail && password == AdminPassword) || (saved.Some? && HasEmail(saved.value, email))
  {
    if email == AdminEmail && password == AdminPassword then LoggedIn(email, Admin)
    else if saved.None? then Rejected
    else
      match FindByEmail(saved.value, email)
      case Some(i) => LoggedIn(email, saved.value[i].role)
      case None => Rejected
  }

  /** The administrator pair always logs in as administrator, whatever is stored. */
  lemma AdminPairIsAdmin(saved: Option<seq<User>>)
    ensures Submit(AdminEmail, AdminPassword, saved) == LoggedIn(AdminEmail, Admin)
  {
  }

  /** Outside the administrator pair, a stored email logs in with the role of
      the FIRST stored account carrying it, and with any password at all. */
  lemma RegisteredEmailLogsInWithFirstRole(email: string, password: string, users: seq<User>, i: nat)
    requires !(email == AdminEmail && password == AdminPassword)
    requires i < |users| && users[i].email == email
    requires forall j :: 0 <= j < i ==> users[j].email != email
    ensures Submit(email, password, Some(users)) == LoggedIn(email, users[i].role)
  {
    FirstMatchIsFound(users, email, i);
  }

  /** For every email but the administrator's the password is never consulted:
      two submissions differing only in the password have the same outcome. */
  lemma PasswordIgnoredForOtherEmails(email: string, p1: string, p2: string, saved: Option<seq<User>>)
    requires email != AdminEmail
    ensures Submit(email, p1, saved) == Submit(email, p2, saved)
  {
  }

  /** The administrator email with a wrong password is not rejected outright:
      it gets exactly the outcome of the stored-account lookup. */
  lemma AdminEmailWrongPasswordFallsThrough(password: string, saved: Option<seq<User>>, other: string)
    requires password != AdminPassword && other != AdminPassword
    ensures Submit(AdminEmail, password, saved) == Submit(AdminEmail, other, saved)
    ensures Submit(AdminEmail, password, saved).LoggedIn? <==> saved.Some? && HasEmail(saved.value, AdminEmail)
  {
  }

  /** Without a stored list, only the administrator pair gets in. */
  lemma NoStoredListRejects(email: string, password: string)
    requires !(email == AdminEmail && password == AdminPassword)
    ensures Submit(email, password, None) == Rejected
  {
  }
}
