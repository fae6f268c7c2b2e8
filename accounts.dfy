/** The account record the login form, the password settings page, the user
    management page and the shortcut bar all work with, the administrator
    identity hard-coded in the login and settings pages, and the browser
    storage entry `registered_users` that holds the list of accounts. */
module Accounts {
  import opened Prelude

  /** `'admin' | 'user'` */
  datatype Role = Admin | Member

  /** A registered account. `password` is absent for accounts created by CSV
      import; the settings page stores one when the user changes it. */
  datatype User = User(id: string, email: string, name: string, role: Role, password: Option<string>)

  /** The administrator credential pair both pages compare against. */
  const AdminEmail: string := "namdol01@sc2.gyo6.net"
  const AdminPassword: string := "maengmw82@"

  /** The password assumed for any other account that has none stored. */
  const DefaultPassword: string := "123456"

  predicate HasEmail(users: seq<User>, email: string)
  {
    exists i :: 0 <= i < |users| && users[i].email == email
  }

  /** No two accounts share an email address. */
  ghost predicate UniqueEmails(users: seq<User>)
  {
    forall i, j :: 0 <= i < j < |users| ==> users[i].email != users[j].email
  }

  /** `users.findIndex(u => u.email === email)`, with None standing for -1:
      the first position holding that email, if any. */
  function FindByEmail(users: seq<User>, email: string): (r: Option<nat>)
    ensures r.None? <==> !HasEmail(users, email)
    ensures r.Some? ==> r.value < |users| && users[r.value].email == email
    ensures r.Some? ==> forall j :: 0 <= j < r.value ==> users[j].email != email
  {
    if users == [] then None
    else if users[0].email == email then Some(0)
    else
      match FindByEmail(users[1..], email)
      case None => None
      case Some(i) => Some(i + 1)
  }

  /** The position `FindByEmail` reports is the only first match there is. */
  lemma FirstMatchIsFound(users: seq<User>, email: string, i: nat)
    requires i < |users| && users[i].email == email
    requires forall j :: 0 <= j < i ==> users[j].email != email
    ensures FindByEmail(users, email) == Some(i)
  {
    var r := FindByEmail(users, email);
    assert r.Some?;
    assert !(r.value < i) && !(i < r.value);
  }

  /** The browser's `registered_users` storage entry, already parsed; None when
      the key is absent. Writing it replaces the whole list. */
  class UserStorage {
    var saved: Option<seq<User>>

    constructor (saved: Option<seq<User>>)
      ensures this.saved == saved
    {
      this.saved := saved;
    }
  }
}
