/**
 * The user application service over the `users` table. bcrypt is an abstract salted hash
 * `hash(password, salt)` with a comparison that accepts exactly the hashed password; each
 * hash draws a new salt. Repository failures the model cannot see are boolean parameters.
 */
module UserService {
  import opened Wrappers
  import opened Search

  /** The 16 bytes of a `uuid.UUID`. */
  type Uuid = seq<bv8>

  datatype User = User(id: Uuid, username: string, email: string, password: string, roleId: int, tenantId: int)

  datatype UserError = HashFailed | RepositoryFailed | NotFound | InvalidOldPassword | InvalidCredentials

  /**
   * The `Error()` text of an error: the service's own two messages, gorm's not-found text, and
   * stand-ins for the texts of bcrypt and database failures, which are not part of this model.
   */
  function ErrorText(e: UserError): string {
    match e
    case HashFailed => "<bcrypt error>"
    case RepositoryFailed => "<database error>"
    case NotFound => "record not found"
    case InvalidOldPassword => "invalid old password"
    case InvalidCredentials => "invalid credentials"
  }

  function UserId(u: User): Uuid { u.id }

  function UserEmail(u: User): string { u.email }

  /** `First(&u, "id = ?", id)`: index of the first row with that id. */
  function FindById(users: seq<User>, id: Uuid): Option<nat> {
    First(users, UserId, id)
  }

  /** `Where("email = ?", email).First(&u)`: index of the first row with that email. */
  function FindByEmail(users: seq<User>, email: string): Option<nat> {
    First(users, UserEmail, email)
  }

  /** The table without the rows with that id (`db.Delete(&User{}, "id = ?", id)`). */
  function DeleteRows(users: seq<User>, id: Uuid): (r: seq<User>)
    ensures forall j :: 0 <= j < |r| ==> r[j].id != id && r[j] in users
    ensures forall j :: 0 <= j < |users| && users[j].id != id ==> users[j] in r
  {
    if users == [] then []
    else if users[0].id == id then DeleteRows(users[1..], id)
    else [users[0]] + DeleteRows(users[1..], id)
  }

  class UserService {
    /** The `users` table. */
    var users: seq<User>
    /** bcrypt's `GenerateFromPassword`, given the salt it draws. */
    var hash: (string, nat) -> string
    /** bcrypt's `CompareHashAndPassword`: true when it returns nil. */
    var compare: (string, string) -> bool
    /** The salt the next hash draws. */
    var salt: nat

    /** A hash accepts exactly the password it was made from. */
    ghost predicate Valid()
      reads this
    {
      forall p, s, q :: compare(hash(p, s), q) <==> p == q
    }

    constructor(h: (string, nat) -> string, c: (string, string) -> bool)
      requires forall p, s, q :: c(h(p, s), q) <==> p == q
      ensures Valid() && users == [] && hash == h && compare == c
    {
      users, hash, compare, salt := [], h, c, 0;
    }

    /**
     * `CreateUser`: the password is hashed first; a hashing failure creates nothing. The row
     * stores the hash, a fresh id and the given role.
     */
    method CreateUser(username: string, email: string, password: string, roleId: int, freshId: Uuid,
                      hashOk: bool, createOk: bool) returns (r: Result<User, UserError>)
      requires Valid()
      modifies this
      ensures Valid() && hash == old(hash) && compare == old(compare)
      ensures !hashOk ==> r == Err(HashFailed) && users == old(users)
      ensures hashOk && !createOk ==> r == Err(RepositoryFailed) && users == old(users)
      ensures hashOk && createOk ==>
        var u := User(freshId, username, email, hash(password, old(salt)), roleId, 0);
        r == Ok(u) && users == old(users) + [u]
        && forall q :: compare(u.password, q) <==> q == password
    {
      if !hashOk {
        return Err(HashFailed);
      }
      var hashed := hash(password, salt);
      salt := salt + 1;
      var u := User(freshId, username, email, hashed, roleId, 0);
      if !createOk {
        return Err(RepositoryFailed);
      }
      users := users + [u];
      return Ok(u);
    }

    /** `GetUserByID`. */
    method GetUserById(id: Uuid) returns (r: Result<User, UserError>)
      ensures FindById(users, id).None? <==> r == Err(NotFound)
      ensures r.Ok? ==> r.value == users[FindById(users, id).value] && r.value.id == id
      ensures r.Ok? || r == Err(NotFound)
    {
      var k := FindById(users, id);
      if k.None? {
        return Err(NotFound);
      }
      return Ok(users[k.value]);
    }

    /**
     * `ListUsers` ends in `repo.List(page, pageSize)`; the out-parameters are the arguments of
     * that call, after a page below 1 became 1 and a size below 1 became 10.
     */
    method ListUsers(page: int, pageSize: int) returns (listPage: int, listSize: int)
      ensures listPage >= 1 && listSize >= 1
      ensures page >= 1 ==> listPage == page
      ensures page < 1 ==> listPage == 1
      ensures pageSize >= 1 ==> listSize == pageSize
      ensures pageSize < 1 ==> listSize == 10
    {
      listPage, listSize := page, pageSize;
      if listPage < 1 {
        listPage := 1;
      }
      if listSize < 1 {
        listSize := 10;
      }
    }

    /** `UpdateUser`: only the username and the email change; a missing user writes nothing. */
    method UpdateUser(id: Uuid, username: string, email: string, updateOk: bool) returns (r: Result<User, UserError>)
      requires Valid()
      modifies this
      ensures Valid() && hash == old(hash) && compare == old(compare) && salt == old(salt)
      ensures FindById(old(users), id).None? ==> r == Err(NotFound) && users == old(users)
      ensures FindById(old(users), id).Some? ==>
        var k := FindById(old(users), id).value;
        var u := old(users)[k].(username := username, email := email);
        if updateOk then r == Ok(u) && users == old(users)[k := u]
        else r == Err(RepositoryFailed) && users == old(users)
    {
      var k := FindById(users, id);
      if k.None? {
        return Err(NotFound);
      }
      var u := users[k.value];
      u := u.(username := username, email := email);
      if !updateOk {
        return Err(RepositoryFailed);
      }
      users := users[k.value := u];
      return Ok(u);
    }

    /** `DeleteUser`: deleting an id with no row is not an error. */
    method DeleteUser(id: Uuid, deleteOk: bool) returns (r: Result<(), UserError>)
      modifies this
      ensures hash == old(hash) && compare == old(compare) && salt == old(salt)
      ensures deleteOk ==> r == Ok(()) && users == DeleteRows(old(users), id)
      ensures !deleteOk ==> r == Err(RepositoryFailed) && users == old(users)
    {
      if !deleteOk {
        return Err(RepositoryFailed);
      }
      users := DeleteRows(users, id);
      return Ok(());
    }

    /**
     * `UpdatePassword`: the old password must match the stored hash; otherwise the error is
     * "invalid old password" and nothing is written. On success the stored hash accepts
     * exactly the new password.
     */
    method UpdatePassword(id: Uuid, oldPassword: string, newPassword: string, hashOk: bool, updateOk: bool)
      returns (r: Result<(), UserError>)
      requires Valid()
      modifies this
      ensures Valid() && hash == old(hash) && compare == old(compare)
      ensures FindById(old(users), id).None? ==> r == Err(NotFound) && users == old(users)
      ensures FindById(old(users), id).Some? && !compare(old(users)[FindById(old(users), id).value].password, oldPassword) ==>
                r == Err(InvalidOldPassword) && users == old(users)
      ensures r.Ok? ==>
        var k := FindById(old(users), id).value;
        users == old(users)[k := old(users)[k].(password := hash(newPassword, old(salt)))]
        && forall q :: compare(users[k].password, q) <==> q == newPassword
      ensures r.Err? ==> users == old(users)
      ensures r.Ok? <==> FindById(old(users), id).Some?
                         && compare(old(users)[FindById(old(users), id).value].password, oldPassword)
                         && hashOk && updateOk
    {
      var k := FindById(users, id);
      if k.None? {
        return Err(NotFound);
      }
      var u := users[k.value];
      if !compare(u.password, oldPassword) {
        return Err(InvalidOldPassword);
      }
      if !hashOk {
        return Err(HashFailed);
      }
      var hashed := hash(newPassword, salt);
      salt := salt + 1;
      u := u.(password := hashed);
      if !updateOk {
        return Err(RepositoryFailed);
      }
      users := users[k.value := u];
      return Ok(());
    }

    /** The first user with that email exists and its stored hash accepts the password. */
    predicate Accepts(email: string, password: string)
      reads this
    {
      var k := FindByEmail(users, email);
      k.Some? && compare(users[k.value].password, password)
    }

    /**
     * `ValidateCredentials`: an unknown email and a wrong password give the same
     * "invalid credentials" error.
     */
    method ValidateCredentials(email: string, password: string) returns (r: Result<User, UserError>)
      ensures r.Err? ==> r.error == InvalidCredentials
      ensures r.Ok? <==> Accepts(email, password)
      ensures r.Ok? ==> r.value == users[FindByEmail(users, email).value]
    {
      var k := FindByEmail(users, email);
      if k.None? {
        return Err(InvalidCredentials);
      }
      var u := users[k.value];
      if !compare(u.password, password) {
        return Err(InvalidCredentials);
      }
      return Ok(u);
    }
  }
}
