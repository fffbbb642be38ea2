/** The user records the services read. The User schema itself is not part
    of this model; only the fields the services touch are kept, and the
    stored password is an opaque hash string. */
module Accounts {
  import opened Wrappers
  import opened AppointmentModel

  datatype User = User(id: Id, name: string, email: string, passwordHash: string, role: string)

  type Users = seq<User>

  predicate UniqueUserIds(users: Users) {
    forall i, j :: 0 <= i < j < |users| ==> users[i].id != users[j].id
  }

  predicate UniqueEmails(users: Users) {
    forall i, j :: 0 <= i < j < |users| ==> users[i].email != users[j].email
  }

  /** `User.findById`: the position of the user with this id. */
  function FindUser(users: Users, id: Id): (r: Option<nat>)
    ensures r.Some? ==> r.value < |users| && users[r.value].id == id
    ensures r.None? <==> forall i :: 0 <= i < |users| ==> users[i].id != id
  {
    if |users| == 0 then None
    else if users[0].id == id then Some(0)
    else
      match FindUser(users[1..], id)
      case Some(k) => Some(k + 1)
      case None => None
  }

  /** `User.findOne({ email })`: the position of the first user with it. */
  function FindByEmail(users: Users, email: string): (r: Option<nat>)
    ensures r.Some? ==> r.value < |users| && users[r.value].email == email
    ensures r.None? <==> forall i :: 0 <= i < |users| ==> users[i].email != email
  {
    if |users| == 0 then None
    else if users[0].email == email then Some(0)
    else
      match FindByEmail(users[1..], email)
      case Some(k) => Some(k + 1)
      case None => None
  }

  function MaxUserId(users: Users): (m: Id)
    ensures forall i :: 0 <= i < |users| ==> users[i].id <= m
  {
    if |users| == 0 then 0
    else
      var m := MaxUserId(users[1..]);
      assert forall i :: 1 <= i < |users| ==> users[i] == users[1..][i - 1];
      if users[0].id > m then users[0].id else m
  }

  /** The id the database gives a new user: one no stored user carries. */
  function FreshUserId(users: Users): (id: Id)
    ensures forall i :: 0 <= i < |users| ==> users[i].id != id
  {
    MaxUserId(users) + 1
  }

  /** The email a populated `user` reference yields: none when the user is
      missing (a dangling reference populates to null). */
  function EmailOf(users: Users, id: Id): (r: Option<string>)
    ensures r.Some? <==> FindUser(users, id).Some?
    ensures r.Some? ==> r.value == users[FindUser(users, id).value].email
    ensures r.None? <==> forall i :: 0 <= i < |users| ==> users[i].id != id
    ensures r.Some? ==> exists i :: 0 <= i < |users| && users[i].id == id && users[i].email == r.value
  {
    match FindUser(users, id)
    case Some(k) => Some(users[k].email)
    case None => None
  }

  function NameOf(users: Users, id: Id): (r: Option<string>)
    ensures r.Some? <==> FindUser(users, id).Some?
    ensures r.Some? ==> r.value == users[FindUser(users, id).value].name
    ensures r.None? <==> forall i :: 0 <= i < |users| ==> users[i].id != id
    ensures r.Some? ==> exists i :: 0 <= i < |users| && users[i].id == id && users[i].name == r.value
  {
    match FindUser(users, id)
    case Some(k) => Some(users[k].name)
    case None => None
  }
}
