/** `AuthService`: registration and login. Password hashing, the password
    comparison and token signing are library calls, so they are parameters
    here: `hash`, `compare` and `sign`. */
module Auth {

  import opened Exceptions
  import opened Tables
  import opened Store

  datatype RegisterInput = RegisterInput(email: string, password: string, name: string)

  datatype LoginInput = LoginInput(email: string, password: string)

  /** `{ sub: user.id, email: user.email }` */
  datatype TokenPayload = TokenPayload(sub: string, email: string)

  /** A user without its password: `Omit<User, 'password'>`. */
  datatype PublicUser = PublicUser(
    id: string, name: string, email: string, age: Option<int>, customizer: Option<string>)

  datatype AuthResponse = AuthResponse(accessToken: string, user: PublicUser)

  const EmailTakenMessage := "User with this email already exists"
  const InvalidCredentials := Unauthorized("Invalid credentials")

  function PublicOf(u: UserRow): (p: PublicUser)
    ensures p.id == u.id && p.email == u.data.email && p.name == u.data.name
    ensures p.age == u.data.age && p.customizer == u.data.customizer
  {
    PublicUser(u.id, u.data.name, u.data.email, u.data.age, u.data.customizer)
  }

  /** `findUnique({ where: { email } })`: the row holding this email, if any. */
  function WithEmail(users: seq<UserRow>, email: string): (r: Option<nat>)
    ensures r.Some? ==> r.value < |users| && users[r.value].data.email == email
    ensures r.Some? ==> forall j :: 0 <= j < r.value ==> users[j].data.email != email
    ensures r.None? <==> forall j :: 0 <= j < |users| ==> users[j].data.email != email
  {
    FirstWhere(users, (u: UserRow) => u.data.email == email)
  }

  /** The Error `bcrypt.compare` rejects with when the stored hash is null,
      as it is for a user created through the users endpoint. */
  const HashMissing := PlainError("data and hash arguments required")

  /** `login`: an unknown email and a wrong password throw the same
      exception; a user with no stored hash makes the comparison itself
      fail; a match returns a token for the user and the user without its
      password. */
  function LoginOn(users: seq<UserRow>, dto: LoginInput, compare: (string, string) -> bool,
                   sign: TokenPayload -> string): (r: Result<AuthResponse>)
    ensures r.Err? ==> r.error == InvalidCredentials || r.error == HashMissing
    ensures WithEmail(users, dto.email).None? ==> r == Err(InvalidCredentials)
    ensures WithEmail(users, dto.email).Some? ==>
              var u := users[WithEmail(users, dto.email).value];
              && (u.data.password.None? ==> r == Err(HashMissing))
              && (u.data.password.Some? && !compare(dto.password, u.data.password.value) ==> r == Err(InvalidCredentials))
              && (u.data.password.Some? && compare(dto.password, u.data.password.value) ==>
                    r == Ok(AuthResponse(sign(TokenPayload(u.id, u.data.email)), PublicOf(u))))
    ensures r.Ok? ==> r.value.user.email == dto.email
  {
    match WithEmail(users, dto.email)
    case None => Err(InvalidCredentials)
    case Some(i) =>
      var u := users[i];
      if u.data.password.None? then Err(HashMissing)
      else if !compare(dto.password, u.data.password.value) then Err(InvalidCredentials)
      else Ok(AuthResponse(sign(TokenPayload(u.id, u.data.email)), PublicOf(u)))
  }

  /** The two login failures cannot be told apart: an unknown email and a
      known email with a wrong password give the same exception. */
  lemma LoginFailuresIndistinguishable(users: seq<UserRow>, known: string, unknown: string, password: string,
                                       compare: (string, string) -> bool, sign: TokenPayload -> string)
    requires WithEmail(users, unknown).None?
    requires WithEmail(users, known).Some?
    requires var hash := users[WithEmail(users, known).value].data.password;
             hash.Some? && !compare(password, hash.value)
    ensures LoginOn(users, LoginInput(unknown, password), compare, sign)
         == LoginOn(users, LoginInput(known, password), compare, sign)
         == Err(Unauthorized("Invalid credentials"))
  {
  }

  /** The row `register` writes: the hash of the password, never the
      password itself, and no customizer. */
  function RegisteredRow(dto: RegisterInput, newId: string, hash: string -> string): UserRow {
    Row(newId, User(dto.name, dto.email, Some(hash(dto.password)), None, None))
  }

  /** Registering and then logging in with the same password succeeds, with
      the same token and the same public user, as long as `compare` accepts
      a password against its own hash. */
  lemma {:induction false} RegisterThenLogin(users: seq<UserRow>, dto: RegisterInput, newId: string,
                                             hash: string -> string, compare: (string, string) -> bool,
                                             sign: TokenPayload -> string)
    requires WithEmail(users, dto.email).None?
    requires compare(dto.password, hash(dto.password))
    ensures var row := RegisteredRow(dto, newId, hash);
            LoginOn(users + [row], LoginInput(dto.email, dto.password), compare, sign)
              == Ok(AuthResponse(sign(TokenPayload(newId, dto.email)), PublicOf(row)))
  {
    var row := RegisteredRow(dto, newId, hash);
    var t := users + [row];
    var found := WithEmail(t, dto.email);
    assert t[|users|].data.email == dto.email;
    assert found.Some?;
    assert forall j :: 0 <= j < |users| ==> t[j] == users[j];
  }

  class AuthService {
    const db: Database

    constructor (db: Database)
      ensures this.db == db
    {
      this.db := db;
    }

    /** `register`: an email already in use raises Conflict and no user is
        created; otherwise one user is added and a token for it returned. */
    method Register(dto: RegisterInput, newId: string, hash: string -> string, sign: TokenPayload -> string)
      returns (r: Result<AuthResponse>)
      requires db.Valid() && newId !in Ids(db.users)
      modifies db
      ensures db.Valid()
      ensures WithEmail(old(db.users), dto.email).Some? ==>
                r == Err(Conflict(EmailTakenMessage)) && db.State() == old(db.State())
      ensures WithEmail(old(db.users), dto.email).None? ==>
                var row := RegisteredRow(dto, newId, hash);
                && db.State() == old(db.State()).(users := old(db.users) + [row])
                && r == Ok(AuthResponse(sign(TokenPayload(newId, dto.email)), PublicOf(row)))
    {
      if WithEmail(db.users, dto.email).Some? {
        return Err(Conflict(EmailTakenMessage));
      }
      var row := RegisteredRow(dto, newId, hash);
      ghost var after := db.State().(users := db.users + [row]);
      AppendKeepsWellFormed(db.users, row);
      db.users := db.users + [row];
      assert db.State() == after;
      r := Ok(AuthResponse(sign(TokenPayload(row.id, row.data.email)), PublicOf(row)));
    }

    /** `login`: reads the user table and changes nothing. */
    function Login(dto: LoginInput, compare: (string, string) -> bool, sign: TokenPayload -> string)
      : (r: Result<AuthResponse>)
      reads db
      ensures r == LoginOn(db.users, dto, compare, sign)
      ensures r.Err? ==> r.error == InvalidCredentials || r.error == HashMissing
      ensures r.Ok? ==>
                exists u :: (u in db.users && u.data.email == dto.email && u.data.password.Some?
                             && compare(dto.password, u.data.password.value)
                             && r.value == AuthResponse(sign(TokenPayload(u.id, u.data.email)), PublicOf(u)))
    {
      LoginOn(db.users, dto, compare, sign)
    }
  }
}
