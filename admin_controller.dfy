/** The admin handlers over the users table: list, create, update, delete. */
module AdminController {
  import opened Common
  import opened Store

  const UserNotFound := "User not found"
  const UserExists := "User already exists"
  const UserDeleted := "User deleted successfully"
  const DefaultRole := "user"

  /** The lookup `findOne({ email })` finds a user. */
  predicate EmailTaken(users: map<Id, User>, email: string)
  {
    exists id :: id in users && users[id].email == email
  }

  /** No two users share an email. */
  predicate EmailsUnique(users: map<Id, User>)
  {
    forall i, j :: i in users && j in users && users[i].email == users[j].email ==> i == j
  }

  /** The record `updateUser` makes of a stored user under the truthy rule. */
  function MergeUser(u: User, email: Option<string>, role: Option<string>): User
  {
    u.(email := OrString(email, u.email), role := OrString(role, u.role))
  }

  /** `getAllUsers`: every stored user, unfiltered. */
  method GetAllUsers(db: Database) returns (r: Response<map<Id, User>>)
    ensures r.status == 200 && r.message == None
    ensures r.payload == Some(db.users)
  {
    r := Json(200, db.users);
  }

  /** `createUser`: 400 when the email is already used; otherwise one new user
      with that email and password, and the given role when it is truthy,
      "user" otherwise. */
  method CreateUser(db: Database, email: string, password: string, role: Option<string>)
    returns (r: Response<(Id, User)>)
    requires db.Valid()
    modifies db
    ensures db.Valid()
    ensures EmailTaken(old(db.users), email) ==> r == Message(400, UserExists) && unchanged(db)
    ensures !EmailTaken(old(db.users), email) ==>
      var u := User(email, password, if TruthyString(role) then role.value else DefaultRole);
      && r == Json(201, (old(db.nextId), u))
      && old(db.nextId) !in old(db.users)
      && db.users == old(db.users)[old(db.nextId) := u]
      && |db.users| == |old(db.users)| + 1
      && db.books == old(db.books) && db.reviews == old(db.reviews)
    ensures EmailsUnique(old(db.users)) ==> EmailsUnique(db.users)
  {
    if EmailTaken(db.users, email) {
      return Message(400, UserExists);
    }
    var u := User(email, password, OrString(role, DefaultRole));
    var id := db.NewId();
    InsertKeepsEmailsUnique(db.users, id, u);
    db.users := db.users[id := u];
    r := Json(201, (id, u));
  }

  /** `updateUser`: 404 for an unknown id; otherwise email and role take the
      new values only when those are truthy, and the password and every other
      user stay as they were. */
  method UpdateUser(db: Database, id: Id, email: Option<string>, role: Option<string>)
    returns (r: Response<(Id, User)>)
    requires db.Valid()
    modifies db
    ensures db.Valid()
    ensures id !in old(db.users) ==> r == Message(404, UserNotFound) && unchanged(db)
    ensures id in old(db.users) ==>
      var u := MergeUser(old(db.users)[id], email, role);
      && r == Json(200, (id, u))
      && db.users == old(db.users)[id := u]
      && db.books == old(db.books) && db.reviews == old(db.reviews) && db.nextId == old(db.nextId)
  {
    if id !in db.users {
      return Message(404, UserNotFound);
    }
    var user := db.users[id];
    user := user.(email := OrString(email, user.email));
    user := user.(role := OrString(role, user.role));
    db.users := db.users[id := user];
    r := Json(200, (id, user));
  }

  /** `deleteUser`: 404 for an unknown id; otherwise exactly that user goes,
      and the books and reviews that refer to it stay. */
  method DeleteUser(db: Database, id: Id) returns (r: Response<User>)
    requires db.Valid()
    modifies db
    ensures db.Valid()
    ensures id !in old(db.users) ==> r == Message(404, UserNotFound) && unchanged(db)
    ensures id in old(db.users) ==>
      && r == Message(200, UserDeleted)
      && db.users == old(db.users) - {id}
      && db.books == old(db.books) && db.reviews == old(db.reviews) && db.nextId == old(db.nextId)
  {
    if id !in db.users {
      return Message(404, UserNotFound);
    }
    db.users := db.users - {id};
    r := Message(200, UserDeleted);
  }

  /** Adding a user whose email is unused keeps emails unique. */
  lemma InsertKeepsEmailsUnique(users: map<Id, User>, id: Id, u: User)
    requires id !in users && !EmailTaken(users, u.email)
    ensures EmailsUnique(users) ==> EmailsUnique(users[id := u])
  {
  }

  /** An update keeps the password, takes a truthy email or role and keeps the
      old one otherwise. */
  lemma MergeUserRule(u: User, email: Option<string>, role: Option<string>)
    ensures var m := MergeUser(u, email, role);
      && m.password == u.password
      && (TruthyString(email) ==> m.email == email.value)
      && (!TruthyString(email) ==> m.email == u.email)
      && (TruthyString(role) ==> m.role == role.value)
      && (!TruthyString(role) ==> m.role == u.role)
  {
  }
}
