/** The credential store: a map from username to `{password}`.

    The JSON file that holds the map between calls is replaced by the map
    itself: `userExists` and `validateUser` are lookups in it, and
    `registerUser` is a method of the object that owns it. */
module Auth {

  datatype UserRecord = UserRecord(password: string)

  type Users = map<string, UserRecord>

  /** `userExists`: the store holds a record for the name. */
  predicate UserExists(users: Users, username: string): (b: bool)
    ensures b <==> exists p :: ValidateUser(users, username, p)
  {
    // the stored password is the one that validates
    username in users && (assert ValidateUser(users, username, users[username].password); true)
  }

  /** `validateUser`: a record exists for the name and its password is the one given. */
  predicate ValidateUser(users: Users, username: string, password: string): (b: bool)
    ensures b ==> username in users && users[username] == UserRecord(password)
  {
    username in users && users[username].password == password
  }

  /** What `registerUser` returns, with the store it leaves behind. */
  datatype Registration = Registration(ok: bool, users: Users)

  /** `registerUser` as a function of the loaded store. */
  function Register(users: Users, username: string, password: string): (r: Registration)
    ensures r.ok <==> !UserExists(users, username)
    ensures r.users.Keys == users.Keys + {username}
    ensures forall other :: other in users ==> r.users[other] == users[other]
    ensures r.ok ==> ValidateUser(r.users, username, password)
  {
    if username in users then Registration(false, users)
    else Registration(true, users[username := UserRecord(password)])
  }

  /** A taken name is refused and the store is left as it was. */
  lemma RegisterTakenName(users: Users, username: string, password: string)
    requires UserExists(users, username)
    ensures Register(users, username, password) == Registration(false, users)
  {
  }

  /** A fresh name is accepted; exactly `{password}` is stored for it and
      every other entry is kept. */
  lemma RegisterFreshName(users: Users, username: string, password: string)
    requires !UserExists(users, username)
    ensures var r := Register(users, username, password);
      && r.ok
      && r.users.Keys == users.Keys + {username}
      && r.users[username] == UserRecord(password)
      && forall other :: other in users ==> r.users[other] == users[other]
  {
  }

  /** After a successful registration the pair validates and the name exists. */
  lemma RegisterThenValidate(users: Users, username: string, password: string)
    requires Register(users, username, password).ok
    ensures ValidateUser(Register(users, username, password).users, username, password)
    ensures UserExists(Register(users, username, password).users, username)
  {
  }

  /** Registration never changes a password already stored, so a pair that
      validated before still validates. */
  lemma RegisterKeepsCredentials(users: Users, username: string, password: string, other: string, secret: string)
    requires ValidateUser(users, other, secret)
    ensures ValidateUser(Register(users, username, password).users, other, secret)
  {
  }

  /** An unknown name never validates; a known name with another password does not either. */
  lemma ValidateRejects(users: Users, username: string, password: string)
    requires !UserExists(users, username) || users[username].password != password
    ensures !ValidateUser(users, username, password)
  {
  }

  /** The owner of the store: `registerUser` updates it in place. */
  class CredentialStore {
    var users: Users

    constructor (initial: Users)
      ensures users == initial
    {
      users := initial;
    }

    /** `registerUser(username, password)`. */
    method RegisterUser(username: string, password: string) returns (ok: bool)
      modifies this
      ensures Registration(ok, users) == Register(old(users), username, password)
      ensures ok <==> !UserExists(old(users), username)
      ensures ok ==> ValidateUser(users, username, password)
    {
      if username in users {
        return false;
      }
      users := users[username := UserRecord(password)];
      ok := true;
    }
  }
}
