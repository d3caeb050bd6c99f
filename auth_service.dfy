/**
  The user service: registration, log-in and update, driving a user repository. The
  repository stands for the `users` table; the service reads the pepper, the salt and
  the key derivation it needs from its parameters.
 */
module AuthService {
  import opened Wrappers
  import opened Errors
  import opened Numbers
  import opened Models
  import opened Password
  import opened UserValidation
  import opened Strings

  const InvalidPassword := Message("invalid password")

  function EmailNotFound(email: string): Error {
    Message("user with email " + email + " not found")
  }

  function IdNotFound(id: int): Error {
    Message("user with id " + FormatInt(id) + " not found")
  }

  function WithoutPassword(u: User): UserWithoutPassword {
    UserWithoutPassword(u.id, u.email, u.name)
  }

  /** The SQL `UPDATE ... SET col = COALESCE($n, col)`: a field left out keeps its
      stored value, a given one replaces it as it is. */
  function Coalesce(u: User, input: UpdateUser): (v: User)
    ensures v.id == u.id
    ensures input.email.None? ==> v.email == u.email
    ensures input.email.Some? ==> v.email == input.email.value
    ensures input.name.None? ==> v.name == u.name
    ensures input.name.Some? ==> v.name == input.name.value
    ensures input.password.None? ==> v.hashedPassword == u.hashedPassword
    ensures input.password.Some? ==> v.hashedPassword == input.password.value
  {
    User(u.id,
         if input.email.Some? then input.email.value else u.email,
         if input.name.Some? then input.name.value else u.name,
         if input.password.Some? then input.password.value else u.hashedPassword)
  }

  /**
    The `users` table behind `UserRepository`: rows by id, ids handed out in
    increasing order from 1, and at most one row per email.
   */
  class UserRepository {
    var rows: map<int, User>
    var nextId: int

    ghost predicate Valid()
      reads this
    {
      nextId >= 1
      && (forall id :: id in rows ==> rows[id].id == id && 1 <= id < nextId)
      && (forall i, j :: i in rows && j in rows && rows[i].email == rows[j].email ==> i == j)
    }

    constructor ()
      ensures Valid() && rows == map[] && nextId == 1
    {
      rows := map[];
      nextId := 1;
    }

    predicate HasEmail(email: string)
      reads this
    {
      exists id :: id in rows && rows[id].email == email
    }

    /** The one row with this email. */
    ghost function ByEmail(email: string): (u: User)
      reads this
      requires Valid() && HasEmail(email)
      ensures u.id in rows && rows[u.id] == u && u.email == email
    {
      var id :| id in rows && rows[id].email == email; rows[id]
    }

    /** `GetUserByEmail`: the row with this email, or a not-found error naming it. */
    method GetUserByEmail(email: string) returns (user: Option<User>, err: Outcome)
      requires Valid()
      ensures HasEmail(email) ==> user == Some(ByEmail(email)) && err == Pass
      ensures !HasEmail(email) ==> user == None && err == Fail(EmailNotFound(email))
    {
      if id :| id in rows && rows[id].email == email {
        return Some(rows[id]), Pass;
      }
      return None, Fail(EmailNotFound(email));
    }

    /** `GetUserByID`: the row with this id, without its credential, or a not-found
        error naming the id. */
    method GetUserByID(id: int) returns (user: Option<UserWithoutPassword>, err: Outcome)
      requires Valid()
      ensures id in rows ==> user == Some(WithoutPassword(rows[id])) && err == Pass
      ensures id !in rows ==> user == None && err == Fail(IdNotFound(id))
    {
      if id in rows {
        return Some(WithoutPassword(rows[id])), Pass;
      }
      return None, Fail(IdNotFound(id));
    }

    /**
      `CreateUser`: insert a row with the next id and the given password column; an
      email already in use is refused. `nextId` is the sequence behind the `id` column:
      its value is drawn before the uniqueness check, so a refused insert uses one up.
     */
    method CreateUser(input: CreateUser) returns (user: Option<UserWithoutPassword>, err: Outcome)
      requires Valid()
      modifies this
      ensures Valid()
      ensures old(HasEmail(input.email)) ==>
                user == None && err == Fail(ConstraintViolation) && rows == old(rows) && nextId == old(nextId) + 1
      ensures !old(HasEmail(input.email)) ==>
                var id := old(nextId);
                rows == old(rows)[id := User(id, input.email, input.name, input.password)]
                && nextId == id + 1
                && user == Some(UserWithoutPassword(id, input.email, input.name)) && err == Pass
    {
      if HasEmail(input.email) {
        nextId := nextId + 1;
        return None, Fail(ConstraintViolation);
      }
      var id := nextId;
      rows := rows[id := User(id, input.email, input.name, input.password)];
      nextId := nextId + 1;
      return Some(UserWithoutPassword(id, input.email, input.name)), Pass;
    }

    /** Some other row than `id` already has this email. */
    predicate EmailTakenByOther(id: int, email: string)
      reads this
    {
      exists other :: other in rows && other != id && rows[other].email == email
    }

    /**
      `UpdateUser`: overwrite the given fields of row `id` (COALESCE), the password
      column included, as given. A missing id is `pgx.ErrNoRows`; an email in use by
      another row is refused.
     */
    method UpdateUser(id: int, input: UpdateUser) returns (user: Option<UserWithoutPassword>, err: Outcome)
      requires Valid()
      modifies this
      ensures Valid() && nextId == old(nextId)
      ensures id !in old(rows) ==> user == None && err == Fail(NoRows) && rows == old(rows)
      ensures id in old(rows) && input.email.Some? && old(EmailTakenByOther(id, input.email.value)) ==>
                user == None && err == Fail(ConstraintViolation) && rows == old(rows)
      ensures id in old(rows) && !(input.email.Some? && old(EmailTakenByOther(id, input.email.value))) ==>
                rows == old(rows)[id := Coalesce(old(rows)[id], input)]
                && user == Some(WithoutPassword(rows[id])) && err == Pass
    {
      if id !in rows {
        return None, Fail(NoRows);
      }
      if input.email.Some? && EmailTakenByOther(id, input.email.value) {
        return None, Fail(ConstraintViolation);
      }
      var updated := Coalesce(rows[id], input);
      rows := rows[id := updated];
      return Some(WithoutPassword(updated)), Pass;
    }

    /** `DeleteUser`: remove row `id`; no such row is a not-found error. */
    method DeleteUser(id: int) returns (err: Outcome)
      requires Valid()
      modifies this
      ensures Valid() && nextId == old(nextId)
      ensures id in old(rows) ==> err == Pass && rows == old(rows) - {id}
      ensures id !in old(rows) ==> err == Fail(IdNotFound(id)) && rows == old(rows)
    {
      if id !in rows {
        return Fail(IdNotFound(id));
      }
      rows := rows - {id};
      return Pass;
    }
  }

  /** `UserService`: the use cases, each a chain of calls with early returns. */
  class UserService {
    const repository: UserRepository

    constructor (repository: UserRepository)
      ensures this.repository == repository
    {
      this.repository := repository;
    }

    /**
      `Registration`: validate, hash the password with the pepper, and store the user
      with the credential string in the password column. A validation failure returns
      before anything is hashed or stored, a hashing failure (an empty pepper
      included) before anything is stored. The plain password never reaches the
      repository: the stored value is the credential, which verifies against the
      password and pepper it was made from.
     */
    method Registration(input: CreateUser, pepper: string, random: RandomRead, kdf: KeyDerivation)
      returns (created: Option<UserWithoutPassword>, err: Outcome)
      requires repository.Valid()
      modifies repository
      ensures repository.Valid()
      ensures var check := ValidateCreateUserInput(input.email, input.name, input.password);
              check.Fail? ==> created == None && err == check && unchanged(repository)
      ensures var check := ValidateCreateUserInput(input.email, input.name, input.password);
              var hashed := HashPassword(input.password, pepper, random, kdf);
              check == Pass && hashed.1.Fail? ==> created == None && err == hashed.1 && unchanged(repository)
      ensures var check := ValidateCreateUserInput(input.email, input.name, input.password);
              var hashed := HashPassword(input.password, pepper, random, kdf);
              check == Pass && hashed.1 == Pass && old(repository.HasEmail(input.email)) ==>
                created == None && err == Fail(ConstraintViolation)
                && repository.rows == old(repository.rows) && repository.nextId == old(repository.nextId) + 1
      ensures var check := ValidateCreateUserInput(input.email, input.name, input.password);
              var hashed := HashPassword(input.password, pepper, random, kdf);
              var id := old(repository.nextId);
              check == Pass && hashed.1 == Pass && !old(repository.HasEmail(input.email)) ==>
                err == Pass && created == Some(UserWithoutPassword(id, input.email, input.name))
                && repository.rows == old(repository.rows)[id := User(id, input.email, input.name, hashed.0)]
                && repository.nextId == id + 1
      ensures err == Pass ==>
                (created.Some? && created.value.id in repository.rows
                 && Verify(input.password, pepper, repository.rows[created.value.id].hashedPassword, kdf) == (true, Pass))
    {
      var check := ValidateCreateUserInput(input.email, input.name, input.password);
      if check.Fail? {
        return None, check;
      }
      var (hashPassword, hashErr) := HashPassword(input.password, pepper, random, kdf);
      if hashErr.Fail? {
        return None, hashErr;
      }
      assert random == Read(random.salt);
      VerifyHashPassword(input.password, pepper, random.salt, kdf);
      assert Verify(input.password, pepper, hashPassword, kdf) == (true, Pass);
      ghost var taken := repository.HasEmail(input.email);
      created, err := repository.CreateUser(CreateUser(input.email, input.name, hashPassword));
      assert taken ==> repository.rows == old(repository.rows) && repository.nextId == old(repository.nextId) + 1;
      assert err == Pass ==> repository.rows[created.value.id].hashedPassword == hashPassword;
    }

    /**
      `Authorization`: look the user up by email, refuse an empty pepper, verify the
      password against the stored credential, and return the user without its
      credential. A lookup error and a verification error are returned as they are; a
      well-formed mismatch becomes "invalid password".
     */
    method Authorization(email: string, password: string, pepper: string, kdf: KeyDerivation)
      returns (user: Option<UserWithoutPassword>, err: Outcome)
      requires repository.Valid()
      ensures !repository.HasEmail(email) ==> user == None && err == Fail(EmailNotFound(email))
      ensures repository.HasEmail(email) && pepper == "" ==> user == None && err == Fail(PepperMissing)
      ensures repository.HasEmail(email) && pepper != "" ==>
                var stored := repository.ByEmail(email);
                var verdict := Verify(password, pepper, stored.hashedPassword, kdf);
                (verdict.1.Fail? ==> user == None && err == verdict.1)
                && (verdict == (false, Pass) ==> user == None && err == Fail(InvalidPassword))
                && (verdict.0 ==> user == Some(WithoutPassword(stored)) && err == Pass)
    {
      var found, lookupErr := repository.GetUserByEmail(email);
      if lookupErr.Fail? {
        return None, lookupErr;
      }
      if pepper == "" {
        return None, Fail(PepperMissing);
      }
      var stored := found.value;
      var ok, verifyErr := VerifyPassword(password, pepper, stored.hashedPassword, kdf);
      if verifyErr.Fail? {
        return None, verifyErr;
      }
      if !ok {
        return None, Fail(InvalidPassword);
      }
      return Some(WithoutPassword(stored)), Pass;
    }

    /** `GetUserByID`: the repository's answer, unchanged. */
    method GetUserByID(id: int) returns (user: Option<UserWithoutPassword>, err: Outcome)
      requires repository.Valid()
      ensures id in repository.rows ==> user == Some(WithoutPassword(repository.rows[id])) && err == Pass
      ensures id !in repository.rows ==> user == None && err == Fail(IdNotFound(id))
    {
      user, err := repository.GetUserByID(id);
    }

    /**
      `UpdateUser`: validate the given fields, then hand the request to the
      repository as it is. A new password is stored as typed, not hashed.
     */
    method UpdateUser(id: int, input: UpdateUser) returns (updated: Option<UserWithoutPassword>, err: Outcome)
      requires repository.Valid()
      modifies repository
      ensures repository.Valid() && repository.nextId == old(repository.nextId)
      ensures var check := ValidateUpdateUserInput(input.email, input.name, input.password);
              check.Fail? ==> updated == None && err == check && unchanged(repository)
      ensures var check := ValidateUpdateUserInput(input.email, input.name, input.password);
              check == Pass && id !in old(repository.rows) ==>
                updated == None && err == Fail(NoRows) && repository.rows == old(repository.rows)
      ensures var check := ValidateUpdateUserInput(input.email, input.name, input.password);
              check == Pass && id in old(repository.rows)
              && !(input.email.Some? && old(repository.EmailTakenByOther(id, input.email.value))) ==>
                err == Pass && repository.rows == old(repository.rows)[id := Coalesce(old(repository.rows)[id], input)]
                && updated == Some(WithoutPassword(repository.rows[id]))
      ensures var check := ValidateUpdateUserInput(input.email, input.name, input.password);
              check == Pass && id in old(repository.rows)
              && input.email.Some? && old(repository.EmailTakenByOther(id, input.email.value)) ==>
                updated == None && err == Fail(ConstraintViolation) && repository.rows == old(repository.rows)
      ensures err == Pass && input.password.Some? ==>
                id in repository.rows && repository.rows[id].hashedPassword == input.password.value
    {
      var check := ValidateUpdateUserInput(input.email, input.name, input.password);
      if check.Fail? {
        return None, check;
      }
      updated, err := repository.UpdateUser(id, input);
    }

    /** `DeleteUser`: the repository's answer, unchanged. */
    method DeleteUser(id: int) returns (err: Outcome)
      requires repository.Valid()
      modifies repository
      ensures repository.Valid()
      ensures id in old(repository.rows) ==> err == Pass && repository.rows == old(repository.rows) - {id}
      ensures id !in old(repository.rows) ==> err == Fail(IdNotFound(id)) && repository.rows == old(repository.rows)
      ensures repository.nextId == old(repository.nextId)
    {
      err := repository.DeleteUser(id);
    }
  }

  /**
    On an empty users table, a registration that passes validation with a working
    randomness source and a non-empty pepper is followed by a successful log-in with
    the same email, password and pepper, which returns the registered user.
   */
  method RegisterThenLogIn(input: CreateUser, pepper: string, salt: Salt, kdf: KeyDerivation)
    returns (registered: Option<UserWithoutPassword>, loggedIn: Option<UserWithoutPassword>, err: Outcome)
    requires ValidateCreateUserInput(input.email, input.name, input.password) == Pass
    requires pepper != ""
    ensures registered == Some(UserWithoutPassword(1, input.email, input.name))
    ensures loggedIn == registered && err == Pass
  {
    var repository := new UserRepository();
    var service := new UserService(repository);
    registered, err := service.Registration(input, pepper, Read(salt), kdf);
    assert repository.rows == map[1 := User(1, input.email, input.name, HashPassword(input.password, pepper, Read(salt), kdf).0)];
    assert repository.HasEmail(input.email) && repository.ByEmail(input.email) == repository.rows[1];
    loggedIn, err := service.Authorization(input.email, input.password, pepper, kdf);
  }

  /**
    After a user changes their password through `UpdateUser` to one without a `$`,
    logging in with their email and the new password fails with "invalid password hash
    format": the new password was stored as typed and is not a credential. This holds
    for any user in any state of the table.
   */
  method UpdatePasswordThenLogIn(service: UserService, id: int, newPassword: string, pepper: string, kdf: KeyDerivation)
    returns (err: Outcome)
    requires service.repository.Valid() && id in service.repository.rows
    requires !IsBlank(newPassword) && '$' !in newPassword
    requires pepper != ""
    modifies service.repository
    ensures err == Fail(InvalidFormat)
  {
    var repository := service.repository;
    var email := repository.rows[id].email;
    var change := UpdateUser(None, None, Some(newPassword));
    assert ValidateUpdateUserInput(change.email, change.name, change.password) == Pass;
    var _, _ := service.UpdateUser(id, change);
    assert repository.rows[id].email == email && repository.rows[id].hashedPassword == newPassword;
    assert repository.HasEmail(email) && repository.ByEmail(email) == repository.rows[id];
    NoSeparatorIsMalformed(newPassword, pepper, newPassword, kdf);
    var _, e := service.Authorization(email, newPassword, pepper, kdf);
    err := e;
  }
}
