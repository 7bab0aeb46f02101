/** The user table that sign-up, sign-in and OAuth logins share (`store/user.go`). */
module Users {
  import opened Wrappers

  type Uid = nat

  /** A row of `garance_auth.users`, without role, metadata and times. */
  datatype User = User(email: string, password: Option<string>, verified: bool, banned: bool)

  /** The row that `CreateUser` inserts. */
  function NewUser(email: string, password: Option<string>): User {
    User(email, password, false, false)
  }

  predicate HasEmail(users: map<Uid, User>, uid: Uid, email: string) {
    uid in users && users[uid].email == email
  }

  predicate EmailsUnique(users: map<Uid, User>) {
    forall u, v :: u in users && v in users && users[u].email == users[v].email ==> u == v
  }
}
