/**
 * The account life cycle: sign-up, login, token refresh, the
 * security-question check, password change, profile update and deletion,
 * over a user repository.
 *
 * The repository is an in-memory table from id to user (`UserStore`) with
 * the contract of the database wrapper: a lookup of a missing row is
 * `ErrUserNotFound`, any other database failure is passed through, and an
 * update writes only the fields of the request that are not the zero value.
 */
module Users {
  import opened Wrappers
  import opened Errors
  import opened Validate
  import opened Encrypt
  import opened Jwt
  import opened Replies
  import opened Auth

  /** A user record (`entities.User`, without its timestamps). */
  datatype User = User(
    id: string, name: string, surname: string, email: string, phone: string,
    password: string, salt: string, role: string, question: string, answer: string,
    points: int)

  /** The role every new account gets. */
  const ClientRole: string := "client"

  /** The error text of a delete with neither a primary key nor a condition. */
  const MissingWhereClause: string := "WHERE conditions required"

  /** The error text of an insert whose primary key is taken. */
  const DuplicateKey: string := "duplicate key value violates unique constraint"

  /** A field of an update: the stored value when the request's is the zero value, the request's otherwise. */
  function Pick(stored: string, requested: string): (v: string)
    ensures v == stored || v == requested
    ensures requested != "" ==> v == requested
  {
    if requested == "" then stored else requested
  }

  /**
   * The record an update leaves: every non-zero field of the request
   * replaces the stored one, and every zero field (empty text, zero points)
   * leaves it alone.
   */
  function Merge(stored: User, upd: User): (m: User)
    ensures upd == User("", "", "", "", "", "", "", "", "", "", 0) ==> m == stored
    ensures m.points == (if upd.points == 0 then stored.points else upd.points)
  {
    User(
      Pick(stored.id, upd.id), Pick(stored.name, upd.name), Pick(stored.surname, upd.surname),
      Pick(stored.email, upd.email), Pick(stored.phone, upd.phone), Pick(stored.password, upd.password),
      Pick(stored.salt, upd.salt), Pick(stored.role, upd.role), Pick(stored.question, upd.question),
      Pick(stored.answer, upd.answer), if upd.points == 0 then stored.points else upd.points)
  }

  /** Applying the same update twice is applying it once. */
  lemma MergeIdempotent(stored: User, upd: User)
    ensures Merge(Merge(stored, upd), upd) == Merge(stored, upd)
  {
  }

  /**
   * The request the profile handler builds: the caller's id, the profile
   * fields, and neither role, points, password nor salt. Applying it keeps
   * the stored role, points and credentials.
   */
  lemma ProfileUpdateKeepsRoleAndCredentials(stored: User, id: string, name: string, surname: string,
                                              email: string, phone: string, question: string, answer: string)
    ensures var m := Merge(stored, User(id, name, surname, email, phone, "", "", "", question, answer, 0));
      m.role == stored.role && m.points == stored.points
      && m.password == stored.password && m.salt == stored.salt
  {
  }

  /**
   * The request the password handler builds carries the id and the new
   * password; once the service has put the hash and salt in it, applying
   * it changes exactly the password and the salt of the stored record.
   */
  lemma PasswordChangeTouchesOnlyCredentials(stored: User, password: string, hash: string, salt: string)
    requires hash != "" && salt != ""
    ensures Merge(stored, User(stored.id, "", "", "", "", password, "", "", "", "", 0).(password := hash, salt := salt))
         == stored.(password := hash, salt := salt)
  {
  }

  /** The user repository: the table of users by id, and a database failure, if the database is failing. */
  class UserStore {
    var users: map<string, User>
    var fault: Option<string>

    /** Every row is stored under its own id. */
    ghost predicate Valid()
      reads this
    {
      forall id :: id in users ==> users[id].id == id
    }

    /** An empty table, failing with `fault` when that is given. */
    constructor (fault: Option<string>)
      ensures users == map[] && this.fault == fault && Valid()
    {
      users := map[];
      this.fault := fault;
    }

    /** Some row has this e-mail address. */
    predicate HasEmail(email: string)
      reads this
    {
      exists id :: id in users && users[id].email == email
    }

    /** `Create`: inserts the row; a failing database or a taken id is an error and inserts nothing. */
    method Create(u: User) returns (r: Outcome<Error>)
      modifies this
      ensures fault == old(fault)
      ensures old(fault).Some? ==> r == Fail(Store(old(fault).value)) && users == old(users)
      ensures old(fault).None? && u.id in old(users) ==> r == Fail(Store(DuplicateKey)) && users == old(users)
      ensures old(fault).None? && u.id !in old(users) ==> r == Pass && users == old(users)[u.id := u]
      ensures old(Valid()) ==> Valid()
    {
      if fault.Some? {
        return Fail(Store(fault.value));
      }
      if u.id in users {
        return Fail(Store(DuplicateKey));
      }
      users := users[u.id := u];
      return Pass;
    }

    /**
     * `ReadByEmail`: a row with that address, or `ErrUserNotFound` when
     * there is none. Which row, when several share the address, is left open.
     */
    method ReadByEmail(email: string) returns (r: Result<User, Error>)
      ensures fault.Some? ==> r == Err(Store(fault.value))
      ensures fault.None? && !HasEmail(email) ==> r == Err(UserNotFound)
      ensures fault.None? && HasEmail(email) ==> r.Ok? && r.value.email == email && r.value in users.Values
      ensures Valid() && r.Ok? ==> r.value.id in users && users[r.value.id] == r.value
    {
      if fault.Some? {
        return Err(Store(fault.value));
      }
      if !HasEmail(email) {
        return Err(UserNotFound);
      }
      var id :| id in users && users[id].email == email;
      return Ok(users[id]);
    }

    /** `ReadById`: the row with that id, or `ErrUserNotFound`. */
    method ReadById(id: string) returns (r: Result<User, Error>)
      ensures fault.Some? ==> r == Err(Store(fault.value))
      ensures fault.None? && id !in users ==> r == Err(UserNotFound)
      ensures fault.None? && id in users ==> r == Ok(users[id])
    {
      if fault.Some? {
        return Err(Store(fault.value));
      }
      if id !in users {
        return Err(UserNotFound);
      }
      return Ok(users[id]);
    }

    /** `Update`: merges the request into the row with the request's id, and returns the result. */
    method Update(upd: User) returns (r: Result<User, Error>)
      modifies this
      ensures fault == old(fault)
      ensures old(fault).Some? ==> r == Err(Store(old(fault).value)) && users == old(users)
      ensures old(fault).None? && upd.id !in old(users) ==> r == Err(UserNotFound) && users == old(users)
      ensures old(fault).None? && upd.id in old(users) ==>
        r == Ok(Merge(old(users)[upd.id], upd)) && users == old(users)[upd.id := Merge(old(users)[upd.id], upd)]
      ensures old(Valid()) ==> Valid()
    {
      if fault.Some? {
        return Err(Store(fault.value));
      }
      if upd.id !in users {
        return Err(UserNotFound);
      }
      var merged := Merge(users[upd.id], upd);
      users := users[upd.id := merged];
      return Ok(merged);
    }

    /**
     * `Delete`: removes the row if there is one; a missing row is not an
     * error. An empty id leaves the delete without a condition, which the
     * database layer refuses.
     */
    method Delete(id: string) returns (r: Outcome<Error>)
      modifies this
      ensures fault == old(fault)
      ensures old(fault).Some? ==> r == Fail(Store(old(fault).value)) && users == old(users)
      ensures old(fault).None? && id == "" ==> r == Fail(Store(MissingWhereClause)) && users == old(users)
      ensures old(fault).None? && id != "" ==> r == Pass && users == old(users) - {id}
      ensures old(Valid()) ==> Valid()
    {
      if fault.Some? {
        return Fail(Store(fault.value));
      }
      if id == "" {
        return Fail(Store(MissingWhereClause));
      }
      users := users - {id};
      return Pass;
    }
  }

  /** The map the service hands to the token generators: the user's id and role. */
  function Identity(id: string, role: string): (d: Claims)
    ensures d.Keys == {"id", "role"} && d["id"] == Str(id) && d["role"] == Str(role)
  {
    map["id" := Str(id), "role" := Str(role)]
  }

  /** The identity map holds neither `exp` nor `sub`, so the generators leave it as it is. */
  lemma IdentityUntouched(id: string, role: string)
    ensures Identity(id, role) - {"exp"} == Identity(id, role)
    ensures "sub" !in Identity(id, role)
  {
    assert (Identity(id, role) - {"exp"}).Keys == Identity(id, role).Keys;
  }

  /** A token for an identity carries exactly its expiry, the id as `sub`, and the role. */
  lemma IdentityClaims(id: string, role: string, exp: int)
    ensures ClaimsOf(Identity(id, role), exp) == map["exp" := Int(exp), "sub" := Str(id), "role" := Str(role)]
  {
    var c := ClaimsOf(Identity(id, role), exp);
    var d := map["exp" := Int(exp), "sub" := Str(id), "role" := Str(role)];
    assert c.Keys == d.Keys;
  }

  /** The access token and then the refresh token for an identity, or the first signing error. */
  function Tokens(j: JwtService, id: string, role: string, now: int): (r: Result<(string, string), Error>)
    ensures r.Ok? ==> Issue(j, Identity(id, role), now + j.accessDuration) == Ok((r.value.0, now + j.accessDuration))
    ensures r.Ok? ==> Issue(j, Identity(id, role), now + j.refreshDuration) == Ok((r.value.1, now + j.refreshDuration))
    ensures r.Err? ==> r.error.SignToken?
  {
    match Issue(j, Identity(id, role), now + j.accessDuration)
    case Err(e) => Err(e)
    case Ok(access) =>
      match Issue(j, Identity(id, role), now + j.refreshDuration)
      case Err(e) => Err(e)
      case Ok(refresh) => Ok((access.0, refresh.0))
  }

  /** `Tokens` in terms of the two issued tokens. */
  lemma TokensOfIssued(j: JwtService, id: string, role: string, now: int,
                       a: Result<(string, int), Error>, b: Result<(string, int), Error>)
    requires a == Issue(j, Identity(id, role), now + j.accessDuration)
    requires a.Ok? ==> b == Issue(j, Identity(id, role), now + j.refreshDuration)
    ensures a.Err? ==> Tokens(j, id, role, now) == Err(a.error)
    ensures a.Ok? && b.Err? ==> Tokens(j, id, role, now) == Err(b.error)
    ensures a.Ok? && b.Ok? ==> Tokens(j, id, role, now) == Ok((a.value.0, b.value.0))
  {
  }

  /** The salt drawn from the entropy pool is available: the source works and holds enough bytes. */
  predicate CanDraw(e: EncryptService, pool: seq<Base64.byte>, broken: bool)
  {
    !broken && e.saltLength <= |pool|
  }

  /** The user service, with the collaborators it is wired to. */
  class UserService {
    const store: UserStore
    const entropy: Entropy
    const jwt: JwtService
    const encrypt: EncryptService
    const minPasswordSize: int

    constructor (store: UserStore, entropy: Entropy, jwt: JwtService, encrypt: EncryptService, minPasswordSize: int)
      ensures this.store == store && this.entropy == entropy && this.jwt == jwt
      ensures this.encrypt == encrypt && this.minPasswordSize == minPasswordSize
    {
      this.store := store;
      this.entropy := entropy;
      this.jwt := jwt;
      this.encrypt := encrypt;
      this.minPasswordSize := minPasswordSize;
    }

    /** One token for the identity in `data`: the access token, or the refresh token. */
    method IssueOne(data: ClaimData, now: int, refresh: bool) returns (r: Result<(string, int), Error>)
      requires "sub" !in data.entries && "exp" !in data.entries
      modifies data
      ensures data.entries == old(data.entries)
      ensures r == Issue(jwt, data.entries, now + (if refresh then jwt.refreshDuration else jwt.accessDuration))
    {
      ghost var claims;
      assert data.entries - {"exp"} == data.entries;
      if refresh {
        r, claims := GenerateRefreshJWT(jwt, data, now);
      } else {
        r, claims := GenerateAccessJWT(jwt, data, now);
      }
    }

    /** The pair of tokens for `{id, role}`: access first, then refresh, from the same map. */
    method IssueTokens(id: string, role: string, now: int) returns (r: Result<(string, string), Error>)
      ensures r == Tokens(jwt, id, role, now)
    {
      IdentityUntouched(id, role);
      var data := new ClaimData(Identity(id, role));
      var access := IssueOne(data, now, false);
      if access.Err? {
        TokensOfIssued(jwt, id, role, now, access, access);
        return Err(access.error);
      }
      var refresh := IssueOne(data, now, true);
      TokensOfIssued(jwt, id, role, now, access, refresh);
      if refresh.Err? {
        return Err(refresh.error);
      }
      return Ok((access.value.0, refresh.value.0));
    }

    /** What a login with this stored user and password yields: the comparison's error, or the tokens. */
    function LoginWith(u: User, password: string, now: int): (r: Result<(string, string), Error>)
      ensures PasswordComparison(encrypt, u.password, password, u.salt).Fail? ==>
        r == Err(PasswordComparison(encrypt, u.password, password, u.salt).error)
      ensures PasswordComparison(encrypt, u.password, password, u.salt) == Pass ==> r == Tokens(jwt, u.id, u.role, now)
    {
      match PasswordComparison(encrypt, u.password, password, u.salt)
      case Fail(e) => Err(e)
      case Pass => Tokens(jwt, u.id, u.role, now)
    }

    /**
     * `Login`: the store's error for an unknown address or a failing
     * database; otherwise the outcome of `LoginWith` for a stored user with
     * that address. The store is not changed.
     */
    method Login(email: string, password: string, now: int) returns (r: Result<(string, string), Error>)
      ensures store.fault.Some? ==> r == Err(Store(store.fault.value))
      ensures store.fault.None? && !store.HasEmail(email) ==> r == Err(UserNotFound)
      ensures store.fault.None? && store.HasEmail(email) ==>
        exists u :: u in store.users.Values && u.email == email && r == LoginWith(u, password, now)
    {
      var user := store.ReadByEmail(email);
      if user.Err? {
        return Err(user.error);
      }
      var u := user.value;
      var compared := PasswordComparison(encrypt, u.password, password, u.salt);
      if compared.Fail? {
        return Err(compared.error);
      }
      r := IssueTokens(u.id, u.role, now);
    }

    /**
     * The checks `SignUp` makes before hashing, in their order: the lookup
     * by address (a failing database, then an existing account), the
     * address format, the password strength.
     */
    ghost function Admission(users: map<string, User>, fault: Option<string>, u: User): (r: Outcome<Error>)
    {
      if fault.Some? then Fail(Store(fault.value))
      else if exists id :: id in users && users[id].email == u.email then Fail(UserAlreadyExists)
      else if IsValidEmail(u.email).Fail? then Fail(BadEmail)
      else if !IsStrong(u.password, minPasswordSize) then Fail(BadPassword)
      else Pass
    }

    /** The record `SignUp` stores: the request with the fresh id, the hash, the salt and the client role. */
    function Registered(u: User, id: string, hash: string, salt: string): (v: User)
      ensures v.role == ClientRole && v.id == id && v.password == hash && v.salt == salt
      ensures v.(id := u.id, password := u.password, salt := u.salt, role := u.role) == u
    {
      u.(id := id, password := hash, salt := salt, role := ClientRole)
    }

    /**
     * `SignUp`: the first failing check is returned with nothing stored;
     * then the password is hashed with a fresh salt, the record is stored
     * under `freshId`, and the tokens are issued. A token failure leaves the
     * record stored and returns it with empty tokens and the error.
     */
    method SignUp(u: User, freshId: string, now: int)
      returns (created: Option<User>, access: string, refresh: string, err: Outcome<Error>)
      modifies store, entropy
      ensures store.fault == old(store.fault) && entropy.broken == old(entropy.broken)
      ensures old(store.Valid()) ==> store.Valid()
      ensures Admission(old(store.users), old(store.fault), u).Fail? ==>
        created.None? && access == "" && refresh == "" && err == Admission(old(store.users), old(store.fault), u)
        && store.users == old(store.users) && entropy.pool == old(entropy.pool)
      ensures (Admission(old(store.users), old(store.fault), u) == Pass
               && !CanDraw(encrypt, old(entropy.pool), old(entropy.broken))) ==>
        created.None? && access == "" && refresh == "" && err == Fail(GeneratingSalt)
        && store.users == old(store.users) && entropy.pool == old(entropy.pool)
      ensures (Admission(old(store.users), old(store.fault), u) == Pass
               && CanDraw(encrypt, old(entropy.pool), old(entropy.broken))) ==>
        var salt := Salt(old(entropy.pool)[..encrypt.saltLength]);
        entropy.pool == old(entropy.pool)[encrypt.saltLength..]
        && match HashWithSalt(encrypt, salt, u.password)
          case Err(e) => created.None? && access == "" && refresh == "" && err == Fail(e) && store.users == old(store.users)
          case Ok(hashed) =>
            if freshId in old(store.users) then
              created.None? && access == "" && refresh == "" && err == Fail(Store(DuplicateKey))
              && store.users == old(store.users)
            else
              var v := Registered(u, freshId, hashed.0, salt);
              created == Some(v) && store.users == old(store.users)[freshId := v]
              && match Tokens(jwt, freshId, ClientRole, now)
                case Err(e) => access == "" && refresh == "" && err == Fail(e)
                case Ok(tokens) => access == tokens.0 && refresh == tokens.1 && err == Pass
    {
      created, access, refresh := None, "", "";
      var existing := store.ReadByEmail(u.email);
      if existing.Err? && existing.error != UserNotFound {
        return None, "", "", Fail(existing.error);
      }
      if existing.Ok? {
        return None, "", "", Fail(UserAlreadyExists);
      }
      err := IsValidEmail(u.email);
      if err.Fail? {
        return;
      }
      err := IsStrongPassword(minPasswordSize, u.password);
      if err.Fail? {
        return;
      }
      var hashed := HashPassword(encrypt, entropy, u.password);
      if hashed.Err? {
        return None, "", "", Fail(hashed.error);
      }
      var v := Registered(u, freshId, hashed.value.0, hashed.value.1);
      err := store.Create(v);
      if err.Fail? {
        return;
      }
      var tokens := IssueTokens(v.id, v.role, now);
      if tokens.Err? {
        return Some(v), "", "", Fail(tokens.error);
      }
      return Some(v), tokens.value.0, tokens.value.1, Pass;
    }

    /** `ReedUserById`: the repository's answer, unchanged. */
    method ReadUserById(id: string) returns (r: Result<User, Error>)
      ensures store.fault.Some? ==> r == Err(Store(store.fault.value))
      ensures store.fault.None? ==> r == (if id in store.users then Ok(store.users[id]) else Err(UserNotFound))
    {
      r := store.ReadById(id);
    }

    /** `UpdateUser`: the repository's update, unchanged. */
    method UpdateUser(upd: User) returns (r: Result<User, Error>)
      modifies store
      ensures store.fault == old(store.fault)
      ensures old(store.fault).Some? ==> r == Err(Store(old(store.fault).value)) && store.users == old(store.users)
      ensures old(store.fault).None? && upd.id !in old(store.users) ==> r == Err(UserNotFound) && store.users == old(store.users)
      ensures old(store.fault).None? && upd.id in old(store.users) ==>
        r == Ok(Merge(old(store.users)[upd.id], upd))
        && store.users == old(store.users)[upd.id := Merge(old(store.users)[upd.id], upd)]
    {
      r := store.Update(upd);
    }

    /**
     * `UpdatePassword`: a weak password is refused before anything is
     * drawn or written; otherwise a fresh salt and hash go into the request,
     * which the repository merges into the stored record.
     */
    method UpdatePassword(upd: User) returns (err: Outcome<Error>)
      modifies store, entropy
      ensures store.fault == old(store.fault) && entropy.broken == old(entropy.broken)
      ensures !IsStrong(upd.password, minPasswordSize) ==>
        err == Fail(BadPassword) && store.users == old(store.users) && entropy.pool == old(entropy.pool)
      ensures IsStrong(upd.password, minPasswordSize) && !CanDraw(encrypt, old(entropy.pool), old(entropy.broken)) ==>
        err == Fail(GeneratingSalt) && store.users == old(store.users) && entropy.pool == old(entropy.pool)
      ensures IsStrong(upd.password, minPasswordSize) && CanDraw(encrypt, old(entropy.pool), old(entropy.broken)) ==>
        var salt := Salt(old(entropy.pool)[..encrypt.saltLength]);
        entropy.pool == old(entropy.pool)[encrypt.saltLength..]
        && match HashWithSalt(encrypt, salt, upd.password)
          case Err(e) => err == Fail(e) && store.users == old(store.users)
          case Ok(hashed) =>
            var w := upd.(password := hashed.0, salt := salt);
            if old(store.fault).Some? then
              err == Fail(Store(old(store.fault).value)) && store.users == old(store.users)
            else if upd.id !in old(store.users) then
              err == Fail(UserNotFound) && store.users == old(store.users)
            else
              err == Pass && store.users == old(store.users)[upd.id := Merge(old(store.users)[upd.id], w)]
    {
      err := IsStrongPassword(minPasswordSize, upd.password);
      if err.Fail? {
        return;
      }
      var hashed := HashPassword(encrypt, entropy, upd.password);
      if hashed.Err? {
        return Fail(hashed.error);
      }
      var w := upd.(password := hashed.value.0, salt := hashed.value.1);
      var updated := store.Update(w);
      if updated.Err? {
        return Fail(updated.error);
      }
      return Pass;
    }

    /** `DeleteUser`: the repository's delete, unchanged. */
    method DeleteUser(id: string) returns (err: Outcome<Error>)
      modifies store
      ensures store.fault == old(store.fault)
      ensures old(store.fault).Some? ==> err == Fail(Store(old(store.fault).value)) && store.users == old(store.users)
      ensures old(store.fault).None? && id == "" ==> err == Fail(Store(MissingWhereClause)) && store.users == old(store.users)
      ensures old(store.fault).None? && id != "" ==> err == Pass && store.users == old(store.users) - {id}
    {
      err := store.Delete(id);
    }

    /** `RefreshTokens`: tokens for the given id and role, without consulting the store. */
    method RefreshTokens(id: string, role: string, now: int) returns (r: Result<(string, string), Error>)
      ensures r == Tokens(jwt, id, role, now)
    {
      r := IssueTokens(id, role, now);
    }

    /** `ResetPassword`: success exactly when the answer equals the stored one; the store is not changed. */
    method ResetPassword(id: string, answer: string) returns (err: Outcome<Error>)
      ensures store.fault.Some? ==> err == Fail(Store(store.fault.value))
      ensures store.fault.None? && id !in store.users ==> err == Fail(UserNotFound)
      ensures store.fault.None? && id in store.users ==>
        (err == Pass <==> answer == store.users[id].answer)
        && (err.Fail? ==> err.error == WrongAnswer)
    {
      var user := store.ReadById(id);
      if user.Err? {
        return Fail(user.error);
      }
      if answer == user.value.answer {
        return Pass;
      }
      return Fail(WrongAnswer);
    }

    /**
     * Sign-up then login: a record stored with the hash and salt made from
     * a password lets that password log in, with tokens for the record's id
     * and role, provided bcrypt accepts its own hashes.
     */
    lemma RegisteredUserCanLogIn(u: User, freshId: string, salt: string, now: int)
      requires AcceptsOwnHash(encrypt.bcrypt)
      requires HashWithSalt(encrypt, salt, u.password).Ok?
      ensures var v := Registered(u, freshId, HashWithSalt(encrypt, salt, u.password).value.0, salt);
        LoginWith(v, u.password, now) == Tokens(jwt, freshId, ClientRole, now)
    {
      HashThenCompare(encrypt, salt, u.password);
    }

    /**
     * ... and any other password is refused with `ErrInvalidPassword`,
     * provided bcrypt matches no other input and reads both salted
     * passwords whole.
     */
    lemma RegisteredUserOtherPasswordRefused(u: User, freshId: string, salt: string, other: string, now: int)
      requires RejectsOtherPasswords(encrypt.bcrypt)
      requires HashWithSalt(encrypt, salt, u.password).Ok?
      requires WithinKey(salt + u.password) && WithinKey(salt + other)
      requires other != u.password
      ensures var v := Registered(u, freshId, HashWithSalt(encrypt, salt, u.password).value.0, salt);
        LoginWith(v, other, now).Err? && LoginWith(v, other, now).error.InvalidPassword?
    {
      HashRejectsOtherPassword(encrypt, salt, u.password, other);
    }

    /**
     * ... but when the salted password fills bcrypt's 72-byte key, the
     * password with any character appended logs in as well: nothing in
     * the password rules bounds its length.
     */
    lemma RegisteredUserExtendedPasswordLogsIn(u: User, freshId: string, salt: string, c: char, now: int)
      requires AcceptsOwnHash(encrypt.bcrypt) && ReadsKeyPrefix(encrypt.bcrypt)
      requires HashWithSalt(encrypt, salt, u.password).Ok?
      requires |salt + u.password| >= KeyBytes
      ensures u.password + [c] != u.password
      ensures var v := Registered(u, freshId, HashWithSalt(encrypt, salt, u.password).value.0, salt);
        LoginWith(v, u.password + [c], now) == Tokens(jwt, freshId, ClientRole, now)
    {
      ExtendedPasswordAccepted(encrypt, salt, u.password, c);
    }
  }

  /**
   * `ReadUser` up to the service call: an empty id is a bad request; the
   * context's `role` must be a string (the type assertion panics
   * otherwise); a client must also carry a string `id`, and may read only
   * its own record.
   */
  function ReadUserChecks(id: string, role: Value, tokenId: Value): (r: Outcome<Reply>)
    ensures r == Pass <==> id != "" && role.Str? && (role.s == ClientRole ==> tokenId == Str(id))
    ensures id == "" ==> r == Fail(InvalidRequest)
    ensures id != "" && !role.Str? ==> r == Fail(Panicked)
    ensures id != "" && role == Str(ClientRole) && !tokenId.Str? ==> r == Fail(Panicked)
    ensures id != "" && role == Str(ClientRole) && tokenId.Str? && tokenId.s != id ==> r == Fail(AccessDenied)
  {
    if id == "" then Fail(InvalidRequest)
    else
      match AsString(role)
      case Err(e) => Fail(e)
      case Ok(name) =>
        if name != ClientRole then Pass
        else
          match AsString(tokenId)
          case Err(e) => Fail(e)
          case Ok(own) => if own == id then Pass else Fail(AccessDenied)
  }

  /**
   * The claims of a token the service issued, as the middleware reads them
   * back (JSON numbers as floats), put `id` and `role` in the context as
   * strings: such a token never makes a handler's type assertion panic.
   */
  lemma IssuedIdentityReadsBack(id: string, role: string, exp: int)
    ensures var claims := AsJson(ClaimsOf(Identity(id, role), exp));
      AsString(Lookup(claims, "sub")) == Ok(id) && AsString(Lookup(claims, "role")) == Ok(role)
  {
    IdentityClaims(id, role, exp);
    var claims := AsJson(ClaimsOf(Identity(id, role), exp));
    assert claims["sub"] == Json(Str(id)) && claims["role"] == Json(Str(role));
  }

  /** Holding a client's token, a user reads its own record and no other. */
  lemma ClientReadsOnlyOwnRecord(id: string, other: string, exp: int)
    requires other != ""
    ensures var claims := AsJson(ClaimsOf(Identity(id, ClientRole), exp));
      var r := ReadUserChecks(other, Lookup(claims, "role"), Lookup(claims, "sub"));
      (r == Pass <==> other == id) && (other != id ==> r == Fail(AccessDenied))
  {
    IssuedIdentityReadsBack(id, ClientRole, exp);
  }

  /** Holding a token of any other role, a user reads every record. */
  lemma StaffReadsEveryRecord(id: string, role: string, other: string, exp: int)
    requires role != ClientRole && other != ""
    ensures var claims := AsJson(ClaimsOf(Identity(id, role), exp));
      ReadUserChecks(other, Lookup(claims, "role"), Lookup(claims, "sub")) == Pass
  {
    IssuedIdentityReadsBack(id, role, exp);
  }
}
