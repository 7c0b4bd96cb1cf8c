/**
 * The account routes `/register` and `/login`: a chain of request guards in
 * front of a user table. Password hashing, password comparison and token
 * signing are library calls and appear here as the functions of a `Crypto`
 * value; a failing library or database call is chosen by a `Fault` argument.
 * The user schema trims the username before storing it and before a
 * `findOne` on it, and `create` enforces its length bounds on the trimmed
 * name; the route's own guards see the name as sent.
 */
module AuthRoutes {
  import opened Wrappers
  import opened Tokens
  import opened JsString

  /** A stored account; `email` is "" when none was given, `password` holds the hash. */
  datatype User = User(id: nat, username: string, email: string, password: string)

  /** The public part of an account returned to the client. */
  datatype UserView = UserView(id: nat, username: string, email: string)

  /** What `/register` answers and the table it leaves behind. */
  datatype Registered = Registered(reply: Reply, users: seq<User>)

  /** The route's JSON reply: `{ error }` with a status, or `{ token, user }` with status 200. */
  datatype Reply = Failure(status: nat, error: string) | Success(token: string, user: UserView)

  /**
   * The library calls. `hash(plain, salt)` is bcrypt's hash under a fresh
   * salt, `compare(plain, hashed)` its check, and `sign` issues the token.
   */
  datatype Crypto = Crypto(hash: (string, string) -> string, compare: (string, string) -> bool, sign: Signer)

  /**
   * Which awaited call, if any, throws. `CreateFails` also stands for the
   * store's unique index on emails; the username schema checks are modelled
   * by `SchemaName`.
   */
  datatype Fault = NoFault | FindFails | HashFails | CreateFails | CompareFails | SignFails

  const MinUsernameLength: nat := 3
  const MinPasswordLength: nat := 6
  const MaxUsernameLength: nat := 24

  /** The schema's `minlength: 3` and `maxlength: 24`, checked by `create` on the trimmed name. */
  predicate SchemaName(name: string)
  {
    MinUsernameLength <= Utf16Length(name) <= MaxUsernameLength
  }

  function View(u: User): UserView
  {
    UserView(u.id, u.username, u.email)
  }

  /** The claims signed into a session token. */
  function Claims(u: User): Identity
  {
    Identity(u.id, u.username)
  }

  /** `User.findOne({ username })`: the first account with that name. */
  function FindUser(users: seq<User>, username: string): (r: Option<User>)
    ensures r.Some? <==> exists i :: 0 <= i < |users| && users[i].username == username
    ensures r.Some? ==> r.value in users && r.value.username == username
  {
    if users == [] then None
    else if users[0].username == username then Some(users[0])
    else
      var r := FindUser(users[1..], username);
      assert forall i :: 1 <= i < |users| ==> users[i] == users[1..][i - 1];
      assert r.Some? ==> r.value in users by {
        if r.Some? {
          assert r.value in users[1..];
        }
      }
      r
  }

  /** Account ids are their positions in the table, and no two accounts share a username. */
  ghost predicate TableValid(users: seq<User>)
  {
    && (forall i :: 0 <= i < |users| ==> users[i].id == i)
    && (forall i, j :: 0 <= i < j < |users| ==> users[i].username != users[j].username)
  }

  /** The three 400 checks of `/register`, in order; None when the request passes them. */
  function RegisterValidation(username: string, password: string): (r: Option<string>)
    ensures r.Some? <==> username == "" || password == "" || Utf16Length(username) < MinUsernameLength
                         || Utf16Length(password) < MinPasswordLength
  {
    if username == "" || password == "" then Some("Username and password required")
    else if Utf16Length(username) < MinUsernameLength then Some("Username too short")
    else if Utf16Length(password) < MinPasswordLength then Some("Password too short")
    else None
  }

  /**
   * `/register`: the reply and the new table. `salt` is the randomness bcrypt
   * draws. The store assigns the next position as the id.
   */
  function Register(users: seq<User>, username: string, password: string, email: string, salt: string,
                    crypto: Crypto, fault: Fault): Registered
  {
    match RegisterValidation(username, password)
    case Some(error) => Registered(Failure(400, error), users)
    case None =>
      var name := Trim(username);
      if fault == FindFails then Registered(Failure(500, "Registration failed"), users)
      else if FindUser(users, name).Some? then Registered(Failure(409, "Username already taken"), users)
      else if fault == HashFails || fault == CreateFails || !SchemaName(name) then
        Registered(Failure(500, "Registration failed"), users)
      else
        var user := User(|users|, name, Trim(email), crypto.hash(password, salt));
        if fault == SignFails then Registered(Failure(500, "Registration failed"), users + [user])
        else Registered(Success(crypto.sign(Claims(user)), View(user)), users + [user])
  }

  /**
   * The request passes the guards, the trimmed name is free and meets the
   * schema, and hashing and creation succeed.
   */
  predicate Creates(users: seq<User>, username: string, password: string, fault: Fault)
  {
    && RegisterValidation(username, password).None?
    && fault != FindFails && fault != HashFails && fault != CreateFails
    && FindUser(users, Trim(username)).None?
    && SchemaName(Trim(username))
  }

  /**
   * The guards run in order and each ends the request with 400 and its own
   * message, before the table is consulted.
   */
  lemma RegisterGuardOrder(users: seq<User>, username: string, password: string, email: string, salt: string,
                           crypto: Crypto, fault: Fault)
    ensures var Registered(reply, users') := Register(users, username, password, email, salt, crypto, fault);
            && (username == "" || password == "" ==>
                  reply == Failure(400, "Username and password required") && users' == users)
            && (username != "" && password != "" && Utf16Length(username) < MinUsernameLength ==>
                  reply == Failure(400, "Username too short") && users' == users)
            && (username != "" && password != "" && Utf16Length(username) >= MinUsernameLength
                && Utf16Length(password) < MinPasswordLength ==>
                  reply == Failure(400, "Password too short") && users' == users)
  {
  }

  /**
   * A name already in the table is refused with 409 and the table is left as
   * it was; the lookup is by the trimmed name, so " alice" is refused when
   * "alice" exists.
   */
  lemma RegisterTaken(users: seq<User>, username: string, password: string, email: string, salt: string,
                      crypto: Crypto, fault: Fault)
    requires RegisterValidation(username, password).None? && fault != FindFails
    requires exists i :: 0 <= i < |users| && users[i].username == Trim(username)
    ensures Register(users, username, password, email, salt, crypto, fault) ==
            Registered(Failure(409, "Username already taken"), users)
  {
  }

  /**
   * The table either stays as it was or gains exactly one account at the end,
   * and it gains one exactly when the request creates it. The new account
   * carries the next id, the trimmed name and email, and the hash of the
   * password under the salt, never the plaintext unless the hash returns it.
   */
  lemma RegisterStores(users: seq<User>, username: string, password: string, email: string, salt: string,
                       crypto: Crypto, fault: Fault)
    ensures var Registered(reply, users') := Register(users, username, password, email, salt, crypto, fault);
            && (!Creates(users, username, password, fault) ==> users' == users)
            && (Creates(users, username, password, fault) ==>
                  users' == users + [User(|users|, Trim(username), Trim(email), crypto.hash(password, salt))])
  {
  }

  /**
   * A register reply is a session exactly when the account is created and the
   * token is signed; the token is signed over the new account's id and
   * trimmed name and the reply shows that account. Past the guards, a throwing
   * lookup, and for a free name a throwing hash, create or sign or a name the
   * schema rejects, end in 500.
   */
  lemma RegisterReply(users: seq<User>, username: string, password: string, email: string, salt: string,
                      crypto: Crypto, fault: Fault)
    ensures var Registered(reply, users') := Register(users, username, password, email, salt, crypto, fault);
            && (reply.Success? <==> Creates(users, username, password, fault) && fault != SignFails)
            && (reply.Success? ==>
                  && reply.token == crypto.sign(Identity(|users|, Trim(username)))
                  && reply.user == UserView(|users|, Trim(username), Trim(email))
                  && users'[|users|].password == crypto.hash(password, salt))
            && (reply.Failure? && reply.status == 500 ==> reply.error == "Registration failed")
            && (reply.Failure? ==> reply.status in {400, 409, 500})
            && (RegisterValidation(username, password).None?
                && (fault == FindFails
                    || (FindUser(users, Trim(username)).None?
                    && (fault in {HashFails, CreateFails, SignFails} || !SchemaName(Trim(username)))))
                ==> reply == Failure(500, "Registration failed"))
  {
  }

  /**
   * A name that passes the route's guards only thanks to surrounding
   * whitespace, such as " ab", is refused by the schema after trimming: 500
   * and no account.
   */
  lemma ShortAfterTrimRefused(users: seq<User>, username: string, password: string, email: string, salt: string,
                              crypto: Crypto, fault: Fault)
    requires RegisterValidation(username, password).None? && fault != FindFails
    requires FindUser(users, Trim(username)).None? && Utf16Length(Trim(username)) < MinUsernameLength
    ensures Register(users, username, password, email, salt, crypto, fault) ==
            Registered(Failure(500, "Registration failed"), users)
  {
  }

  /** " ab" passes the route's length guard, and trims to a two-character name. */
  lemma PaddedShortName()
    ensures RegisterValidation(" ab", "secret").None?
    ensures Trim(" ab") == "ab" && Utf16Length(Trim(" ab")) < MinUsernameLength
  {
    assert IsWhitespace(" ab"[0]) && " ab"[1..] == "ab";
    TrimOfTrimmed("ab");
    Utf16LengthOfBmp("ab");
    Utf16LengthOfBmp(" ab");
  }

  /** Registration keeps ids equal to positions and usernames unique. */
  lemma RegisterKeepsTableValid(users: seq<User>, username: string, password: string, email: string, salt: string,
                                crypto: Crypto, fault: Fault)
    requires TableValid(users)
    ensures TableValid(Register(users, username, password, email, salt, crypto, fault).users)
  {
    if Creates(users, username, password, fault) {
      var users' := Register(users, username, password, email, salt, crypto, fault).users;
      forall i | 0 <= i < |users| ensures users'[i].username != Trim(username) {
        assert users'[i] == users[i];
      }
    }
  }

  /** `/login`. It reads the table and never writes it; the lookup is by the trimmed name. */
  function Login(users: seq<User>, username: string, password: string, crypto: Crypto, fault: Fault): Reply
  {
    if username == "" || password == "" then Failure(400, "Username and password required")
    else if fault == FindFails then Failure(500, "Login failed")
    else match FindUser(users, Trim(username))
      case None => Failure(401, "Invalid credentials")
      case Some(user) =>
        if fault == CompareFails then Failure(500, "Login failed")
        else if !crypto.compare(password, user.password) then Failure(401, "Invalid credentials")
        else if fault == SignFails then Failure(500, "Login failed")
        else Success(crypto.sign(Claims(user)), View(user))
  }

  /**
   * An unknown name and a wrong password give the same reply, so a client
   * cannot tell which one it hit; a session is returned exactly when the name
   * is known, the password matches the stored hash and no call fails. A call
   * that throws before the reply is decided ends in 500.
   */
  lemma LoginOutcomes(users: seq<User>, username: string, password: string, crypto: Crypto, fault: Fault)
    requires username != "" && password != ""
    ensures var reply := Login(users, username, password, crypto, fault);
            var found := FindUser(users, Trim(username));
            && (fault != FindFails && found.None? ==> reply == Failure(401, "Invalid credentials"))
            && ((fault != FindFails && fault != CompareFails && found.Some? && !crypto.compare(password, found.value.password))
                  ==> reply == Failure(401, "Invalid credentials"))
            && (reply.Success? <==> fault !in {FindFails, CompareFails, SignFails}
                                    && found.Some? && crypto.compare(password, found.value.password))
            && (reply.Failure? ==> reply.status == 401 || reply == Failure(500, "Login failed"))
            && (fault == FindFails ==> reply == Failure(500, "Login failed"))
            && (fault == CompareFails && found.Some? ==> reply == Failure(500, "Login failed"))
            && (fault == SignFails && found.Some? && crypto.compare(password, found.value.password)
                ==> reply == Failure(500, "Login failed"))
  {
  }

  /** A missing field is refused with 400 before the table is read. */
  lemma LoginMissingField(users: seq<User>, username: string, password: string, crypto: Crypto, fault: Fault)
    requires username == "" || password == ""
    ensures Login(users, username, password, crypto, fault) == Failure(400, "Username and password required")
  {
  }

  /** In a valid table a session names the stored account with the trimmed username. */
  lemma LoginSessionIsStoredUser(users: seq<User>, username: string, password: string, crypto: Crypto, fault: Fault)
    requires TableValid(users)
    requires Login(users, username, password, crypto, fault).Success?
    ensures var reply := Login(users, username, password, crypto, fault);
            exists i :: 0 <= i < |users| && users[i].username == Trim(username)
              && reply.user == View(users[i]) && reply.token == crypto.sign(Identity(i, Trim(username)))
  {
    var user := FindUser(users, Trim(username)).value;
    var i :| 0 <= i < |users| && users[i] == user;
  }

  /**
   * With a hash that its comparison accepts, an account just created can log
   * in with the same password and gets the same account back.
   */
  lemma RegisterThenLogin(users: seq<User>, username: string, password: string, email: string, salt: string,
                          crypto: Crypto)
    requires TableValid(users)
    requires crypto.compare(password, crypto.hash(password, salt))
    requires Register(users, username, password, email, salt, crypto, NoFault).reply.Success?
    ensures var Registered(reply, users') := Register(users, username, password, email, salt, crypto, NoFault);
            Login(users', username, password, crypto, NoFault) == reply
  {
    var users' := Register(users, username, password, email, salt, crypto, NoFault).users;
    var user := users'[|users|];
    assert FindUser(users, Trim(username)).None?;
    FindAfterAppend(users, user);
  }

  /** Looking up a name that is new to the table finds the account appended with it. */
  lemma {:induction false} FindAfterAppend(users: seq<User>, user: User)
    requires FindUser(users, user.username).None?
    ensures FindUser(users + [user], user.username) == Some(user)
  {
    if users != [] {
      assert (users + [user])[1..] == users[1..] + [user];
      forall i | 0 <= i < |users[1..]| ensures users[1..][i].username != user.username {
        assert users[1..][i] == users[i + 1];
      }
      FindAfterAppend(users[1..], user);
    }
  }

  /** The user collection as the register route changes it. */
  class UserStore {
    var users: seq<User>

    constructor ()
      ensures users == [] && TableValid(users)
    {
      users := [];
    }

    /** `/register`, performed on the stored table. */
    method PostRegister(username: string, password: string, email: string, salt: string, crypto: Crypto, fault: Fault)
      returns (reply: Reply)
      requires TableValid(users)
      modifies this
      ensures TableValid(users)
      ensures Registered(reply, users) == Register(old(users), username, password, email, salt, crypto, fault)
    {
      RegisterKeepsTableValid(users, username, password, email, salt, crypto, fault);
      var invalid := RegisterValidation(username, password);
      if invalid.Some? {
        return Failure(400, invalid.value);
      }
      if fault == FindFails {
        return Failure(500, "Registration failed");
      }
      var name := Trim(username);
      var existing := FindUser(users, name);
      if existing.Some? {
        return Failure(409, "Username already taken");
      }
      if fault == HashFails {
        return Failure(500, "Registration failed");
      }
      var hashed := crypto.hash(password, salt);
      if fault == CreateFails || !SchemaName(name) {
        return Failure(500, "Registration failed");
      }
      var user := User(|users|, name, Trim(email), hashed);
      users := users + [user];
      if fault == SignFails {
        return Failure(500, "Registration failed");
      }
      reply := Success(crypto.sign(Claims(user)), View(user));
    }
  }
}
