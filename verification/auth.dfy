/** The credential store: the `users` table and the `POST /register` and
    `POST /login` handlers. Passwords are kept only as bcrypt hashes; bcrypt's
    key derivation is a parameter of the store, and the random salt that
    `bcrypt.hash` draws is a parameter of registration. */
module Auth {
  import opened Api
  import opened Schema

  /** bcrypt's key derivation at the configured cost: (salt, password) to digest. */
  type Kdf = (string, string) -> string

  /** A stored bcrypt hash: the salt it was made with and the digest. */
  datatype PasswordHash = PasswordHash(salt: string, digest: string)

  /** `bcrypt.hash(password, cost)` drawing `salt`. */
  function Hash(kdf: Kdf, password: string, salt: string): PasswordHash {
    PasswordHash(salt, kdf(salt, password))
  }

  /** `bcrypt.compare(password, h)`: derive again with the salt kept in `h`. */
  predicate Compare(kdf: Kdf, password: string, h: PasswordHash) {
    kdf(h.salt, password) == h.digest
  }

  /** A password always matches a hash made from it, whatever the salt. */
  lemma CompareAcceptsHash(kdf: Kdf, password: string, salt: string)
    ensures Compare(kdf, password, Hash(kdf, password, salt))
  {
  }

  /** A row of `users`: integer key, username, password hash, role. */
  datatype User = User(id: int, username: string, password: PasswordHash, role: string)

  function UserId(u: User): int { u.id }

  /** The token handed out on register and login, derived from the user alone. */
  datatype Token = Token(userId: int, username: string, role: string)

  function IssueToken(u: User): Token {
    Token(u.id, u.username, u.role)
  }

  /** The body of a successful register or login reply: its message and the token. */
  datatype Granted = Granted(message: string, token: Token)

  predicate UniqueUsernames(users: seq<User>) {
    forall i, j :: 0 <= i < j < |users| ==> users[i].username != users[j].username
  }

  predicate UniqueUserIds(users: seq<User>) {
    forall i, j :: 0 <= i < j < |users| ==> users[i].id != users[j].id
  }

  /** `select ... where username = ?` then `.get()`: the first row with that
      username, if there is one. */
  function FindUser(users: seq<User>, username: string): (found: Option<User>)
    ensures found.Some? <==> exists i :: 0 <= i < |users| && users[i].username == username
    ensures found.Some? ==> exists i :: 0 <= i < |users| && users[i] == found.value
    ensures found.Some? ==> found.value.username == username
  {
    if users == [] then None
    else if users[0].username == username then Some(users[0])
    else
      var rest := FindUser(users[1..], username);
      assert forall i :: 0 < i < |users| ==> users[i] == users[1..][i - 1];
      rest
  }

  /** `POST /register` with body `{username, password, role}`, hashing with
      `salt`, as a transition of the `users` table. */
  function RegisterStep(kdf: Kdf, users: seq<User>, username: Option<string>, password: Option<string>,
                        role: Option<string>, salt: string)
    : (out: (Reply<Granted>, seq<User>))
    ensures !(Given(username) && Given(password)) ==> out == (BadRequest(CredentialsRequired), users)
    ensures Given(username) && Given(password) && (exists i :: 0 <= i < |users| && users[i].username == username.value)
            ==> out == (BadRequest(UsernameTaken), users)
    ensures out.0.Created? <==>
            Given(username) && Given(password) && forall i :: 0 <= i < |users| ==> users[i].username != username.value
    ensures !out.0.Created? ==> out.1 == users
    ensures out.0.Created? ==>
      && |out.1| == |users| + 1
      && out.1[..|users|] == users
      && var u := out.1[|users|];
         && u.username == username.value
         && u.password == Hash(kdf, password.value, salt)
         && u.role == (if role.None? then "user" else role.value)
         && (forall i :: 0 <= i < |users| ==> users[i].id != u.id)
         && out.0.body == Granted(UserCreated, IssueToken(u))
  {
    if !Given(username) || !Given(password) then (BadRequest(CredentialsRequired), users)
    else if FindUser(users, username.value).Some? then (BadRequest(UsernameTaken), users)
    else
      var u := User(NextRowId(users, UserId), username.value, Hash(kdf, password.value, salt), role.GetOr("user"));
      assert forall i :: 0 <= i < |users| ==> UserId(users[i]) < u.id;
      assert (users + [u])[..|users|] == users;
      (Created(Granted(UserCreated, IssueToken(u))), users + [u])
  }

  /** Registration keeps usernames and user ids unique. */
  lemma RegisterKeepsUnique(kdf: Kdf, users: seq<User>, username: Option<string>, password: Option<string>,
                            role: Option<string>, salt: string)
    requires UniqueUsernames(users) && UniqueUserIds(users)
    ensures var users' := RegisterStep(kdf, users, username, password, role, salt).1;
      UniqueUsernames(users') && UniqueUserIds(users')
  {
    var (r, users') := RegisterStep(kdf, users, username, password, role, salt);
    if r.Created? {
      assert users' == users + [users'[|users|]];
    }
  }

  /** `POST /login` with body `{username, password}`: a decision over the
      current `users` table, which it only reads. Both an unknown username and
      a wrong password give the same 401 reply. */
  function LoginDecision(kdf: Kdf, users: seq<User>, username: Option<string>, password: Option<string>)
    : (r: Reply<Granted>)
    ensures !(Given(username) && Given(password)) ==> r == BadRequest(CredentialsRequired)
    ensures Given(username) && Given(password) ==> r.Ok? || r == Unauthorized(InvalidCredentials)
    ensures r.Ok? ==> exists i :: 0 <= i < |users| && users[i].username == username.value
                                  && Compare(kdf, password.value, users[i].password)
                                  && r.body == Granted(LoginSucceeded, IssueToken(users[i]))
  {
    if !Given(username) || !Given(password) then BadRequest(CredentialsRequired)
    else
      match FindUser(users, username.value)
      case None => Unauthorized(InvalidCredentials)
      case Some(user) =>
        if !Compare(kdf, password.value, user.password) then Unauthorized(InvalidCredentials)
        else Ok(Granted(LoginSucceeded, IssueToken(user)))
  }

  /** With unique usernames, login succeeds exactly when a user of that name
      exists and the password matches its stored hash. */
  lemma LoginSucceedsIff(kdf: Kdf, users: seq<User>, username: string, password: string)
    requires UniqueUsernames(users)
    requires username != "" && password != ""
    ensures LoginDecision(kdf, users, Some(username), Some(password)).Ok? <==>
            exists i :: 0 <= i < |users| && users[i].username == username && Compare(kdf, password, users[i].password)
  {
    var found := FindUser(users, username);
    if found.Some? {
      var j :| 0 <= j < |users| && users[j] == found.value;
      assert forall i :: 0 <= i < |users| && users[i].username == username ==> i == j;
    }
  }

  /** Login does not reveal which usernames exist: an unknown username and a
      known one with a wrong password get identical replies. */
  lemma LoginFailuresIndistinguishable(kdf: Kdf, users: seq<User>, unknown: string, anyPassword: string,
                                       known: string, wrongPassword: string)
    requires UniqueUsernames(users)
    requires unknown != "" && anyPassword != "" && known != "" && wrongPassword != ""
    requires forall i :: 0 <= i < |users| ==> users[i].username != unknown
    requires exists i :: 0 <= i < |users| && users[i].username == known && !Compare(kdf, wrongPassword, users[i].password)
    ensures LoginDecision(kdf, users, Some(unknown), Some(anyPassword))
         == LoginDecision(kdf, users, Some(known), Some(wrongPassword))
         == Unauthorized(InvalidCredentials)
  {
    LoginSucceedsIff(kdf, users, known, wrongPassword);
  }

  /** The `users` table together with the key derivation bcrypt uses. */
  class CredentialStore {
    const kdf: Kdf
    var users: seq<User>

    ghost predicate Valid()
      reads this
    {
      UniqueUsernames(users) && UniqueUserIds(users)
    }

    constructor (kdf: Kdf)
      ensures Valid() && this.kdf == kdf && users == []
    {
      this.kdf := kdf;
      users := [];
    }

    /** `POST /register`: validate, reject a taken username, insert the user
        with the hashed password and the role (default "user"), answer 201
        with a token for the new user. */
    method Register(username: Option<string>, password: Option<string>, role: Option<string>, salt: string)
      returns (r: Reply<Granted>)
      requires Valid()
      modifies this
      ensures Valid()
      ensures (r, users) == RegisterStep(kdf, old(users), username, password, role, salt)
    {
      if !Given(username) || !Given(password) {
        return BadRequest(CredentialsRequired);
      }
      var existing := FindUser(users, username.value);
      if existing.Some? {
        return BadRequest(UsernameTaken);
      }
      var hashed := Hash(kdf, password.value, salt);
      var newUser := User(NextRowId(users, UserId), username.value, hashed, role.GetOr("user"));
      RegisterKeepsUnique(kdf, users, username, password, role, salt);
      users := users + [newUser];
      r := Created(Granted(UserCreated, IssueToken(newUser)));
    }

    /** `POST /login`: validate, look the user up, compare the password with
        the stored hash; the table is only read. */
    method Login(username: Option<string>, password: Option<string>) returns (r: Reply<Granted>)
      ensures r == LoginDecision(kdf, users, username, password)
    {
      if !Given(username) || !Given(password) {
        return BadRequest(CredentialsRequired);
      }
      var user := FindUser(users, username.value);
      if user.None? {
        return Unauthorized(InvalidCredentials);
      }
      var validPassword := Compare(kdf, password.value, user.value.password);
      if !validPassword {
        return Unauthorized(InvalidCredentials);
      }
      r := Ok(Granted(LoginSucceeded, IssueToken(user.value)));
    }
  }
}
