/** The password change form of the settings page: a fixed chain of guards
    over the signed-in user and the stored account list, then a write that
    replaces one account's password. */
module Settings {
  import opened Prelude
  import opened Accounts
  import JsString

  datatype PasswordError = UserNotFound | WrongCurrentPassword | ConfirmationMismatch | TooShort

  /** What one submission does. `Ignored`: no message and no write.
      `Changed`: the account list written back and the session user handed to
      `onUserUpdate`. */
  datatype Outcome =
    | Ignored
    | Failed(error: PasswordError)
    | Changed(users: seq<User>, session: User)

  /** New passwords need at least this many UTF-16 code units. */
  const MinPasswordLength: nat := 4

  /** The password assumed when the account has none stored. */
  function FallbackPassword(email: string): string
  {
    if email == AdminEmail then AdminPassword else DefaultPassword
  }

  /** `storedUser.password || fallback`: an absent or empty stored password
      falls back to the fixed one. */
  function ExpectedPassword(stored: User, sessionEmail: string): (r: string)
    ensures r != ""
    ensures stored.password.Some? && stored.password.value != "" ==> r == stored.password.value
    ensures !(stored.password.Some? && stored.password.value != "") ==> r == FallbackPassword(sessionEmail)
  {
    if stored.password.Some? && stored.password.value != "" then stored.password.value
    else FallbackPassword(sessionEmail)
  }

  /** `handlePasswordChange` as a function of the signed-in user, the stored
      list and the three form fields. */
  function PasswordChange(session: Option<User>, saved: Option<seq<User>>,
                          current: string, next: string, confirm: string): Outcome
  {
    if session.None? || saved.None? then Ignored
    else
      var users := saved.value;
      match FindByEmail(users, session.value.email)
      case None => Failed(UserNotFound)
      case Some(i) =>
        if current != ExpectedPassword(users[i], session.value.email) then Failed(WrongCurrentPassword)
        else if next != confirm then Failed(ConfirmationMismatch)
        else if JsString.Utf16Length(next) < MinPasswordLength then Failed(TooShort)
        else Changed(users[i := users[i].(password := Some(next))], session.value.(password := Some(next)))
  }

  /** Without a signed-in user or a stored list the handler does nothing; a
      stored list without the user's email is the one "not found" error. */
  lemma GuardsBeforeLookup(session: Option<User>, saved: Option<seq<User>>, current: string, next: string, confirm: string)
    ensures PasswordChange(session, saved, current, next, confirm) == Ignored <==> session.None? || saved.None?
    ensures session.Some? && saved.Some? ==>
      (PasswordChange(session, saved, current, next, confirm) == Failed(UserNotFound) <==>
         !HasEmail(saved.value, session.value.email))
  {
  }

  /** The checks run in order and only the first failure is reported: a wrong
      current password wins over everything after it, a mismatched
      confirmation wins over the length check, and a too short password is
      reported when it is the only failure. `i` is the first account with
      the signed-in email. */
  lemma FirstFailureReported(s: User, users: seq<User>, i: nat, current: string, next: string, confirm: string)
    requires i < |users| && users[i].email == s.email
    requires forall j :: 0 <= j < i ==> users[j].email != s.email
    ensures current != ExpectedPassword(users[i], s.email) ==>
      PasswordChange(Some(s), Some(users), current, next, confirm) == Failed(WrongCurrentPassword)
    ensures current == ExpectedPassword(users[i], s.email) && next != confirm ==>
      PasswordChange(Some(s), Some(users), current, next, confirm) == Failed(ConfirmationMismatch)
    ensures (current == ExpectedPassword(users[i], s.email) && next == confirm
             && JsString.Utf16Length(next) < MinPasswordLength) ==>
      PasswordChange(Some(s), Some(users), current, next, confirm) == Failed(TooShort)
    ensures PasswordChange(Some(s), Some(users), current, next, confirm).Changed? <==>
      current == ExpectedPassword(users[i], s.email) && next == confirm && JsString.Utf16Length(next) >= MinPasswordLength
  {
    FirstMatchIsFound(users, s.email, i);
  }

  /** On success only the first account with the signed-in email changes, and
      only its password, which becomes the new one; the list keeps its length
      and order, and the session user carries the new password. */
  lemma SuccessChangesOnlyThatPassword(s: User, users: seq<User>, i: nat, current: string, next: string, confirm: string)
    requires i < |users| && users[i].email == s.email
    requires forall j :: 0 <= j < i ==> users[j].email != s.email
    requires PasswordChange(Some(s), Some(users), current, next, confirm).Changed?
    ensures var r := PasswordChange(Some(s), Some(users), current, next, confirm);
      && |r.users| == |users|
      && (forall j :: 0 <= j < |users| && j != i ==> r.users[j] == users[j])
      && r.users[i] == users[i].(password := Some(next))
      && r.session == s.(password := Some(next))
  {
    FirstMatchIsFound(users, s.email, i);
  }

  /** After a successful change the new password is the current one: a second
      change entered with it succeeds, and the old one, if different, is refused. */
  lemma ChangedPasswordBecomesCurrent(s: User, users: seq<User>, current: string, next: string, again: string)
    requires PasswordChange(Some(s), Some(users), current, next, next).Changed?
    requires JsString.Utf16Length(again) >= MinPasswordLength
    ensures var r := PasswordChange(Some(s), Some(users), current, next, next);
      && PasswordChange(Some(r.session), Some(r.users), next, again, again).Changed?
      && (current != next ==>
            PasswordChange(Some(r.session), Some(r.users), current, again, again) == Failed(WrongCurrentPassword))
  {
    var i := FindByEmail(users, s.email).value;
    var r := PasswordChange(Some(s), Some(users), current, next, next);
    assert |next| > 0;
    FirstMatchIsFound(r.users, r.session.email, i);
  }

  datatype Message = Error(error: PasswordError) | Success

  function MessageFor(r: Outcome): Option<Message>
  {
    match r
    case Ignored => None
    case Failed(e) => Some(Error(e))
    case Changed(_, _) => Some(Success)
  }

  /** The `PasswordSettings` component: its form state, the signed-in user it
      is given, and the storage it reads and writes. */
  class PasswordSettings {
    const store: UserStorage
    var user: Option<User>
    var currentPassword: string
    var newPassword: string
    var confirmPassword: string
    var message: Option<Message>

    constructor (store: UserStorage, user: Option<User>)
      ensures this.store == store && this.user == user
      ensures currentPassword == "" && newPassword == "" && confirmPassword == "" && message == None
    {
      this.store := store;
      this.user := user;
      currentPassword, newPassword, confirmPassword := "", "", "";
      message := None;
    }

    /** `handlePasswordChange`; `update` is what is handed to `onUserUpdate`.
        Nothing is written on any error path, and the form is cleared only on
        success. */
    method HandlePasswordChange() returns (update: Option<User>)
      modifies this, store
      ensures var r := PasswordChange(old(user), old(store.saved), old(currentPassword), old(newPassword), old(confirmPassword));
        && user == old(user)
        && message == MessageFor(r)
        && update == (if r.Changed? then Some(r.session) else None)
        && store.saved == (if r.Changed? then Some(r.users) else old(store.saved))
        && (if r.Changed? then currentPassword == "" && newPassword == "" && confirmPassword == ""
            else currentPassword == old(currentPassword) && newPassword == old(newPassword)
                 && confirmPassword == old(confirmPassword))
    {
      message := None;
      update := None;
      if user.None? {
        return;
      }
      var savedUsers := store.saved;
      if savedUsers.None? {
        return;
      }
      var users := savedUsers.value;
      var userIndex := FindByEmail(users, user.value.email);
      if userIndex.None? {
        message := Some(Error(UserNotFound));
        return;
      }
      var i := userIndex.value;
      var storedUser := users[i];
      var actualStoredPassword := ExpectedPassword(storedUser, user.value.email);
      if currentPassword != actualStoredPassword {
        message := Some(Error(WrongCurrentPassword));
        return;
      }
      if newPassword != confirmPassword {
        message := Some(Error(ConfirmationMismatch));
        return;
      }
      if JsString.Utf16Length(newPassword) < MinPasswordLength {
        message := Some(Error(TooShort));
        return;
      }
      var updatedUsers := users;
      updatedUsers := updatedUsers[i := storedUser.(password := Some(newPassword))];
      store.saved := Some(updatedUsers);
      update := Some(user.value.(password := Some(newPassword)));
      message := Some(Success);
      currentPassword, newPassword, confirmPassword := "", "", "";
    }
  }
}
