/** The user and session store behind the server's login. Users are kept by
    name with a password hash and a role; sessions are kept by token with the
    user's name and role and an expiry time. The password hash, the token and
    the clock come from outside: bcrypt is a pair of functions, the token and
    the current time are arguments, and times are whole seconds. */
module Auth {
  /** Sessions last this many hours after login. */
  const TokenExpiryHours: nat := 24

  /** The same lifetime in seconds, the unit of the model's clock. */
  const TokenLifetime: nat := TokenExpiryHours * 3600

  /** The role a user gets when registration names none. */
  const DefaultRole: string := "user"

  datatype User = User(password: string, role: string, createdAt: int)

  datatype Session = Session(username: string, role: string, expiresAt: int)

  /** The HTTP errors the handler raises. */
  datatype Error = UsernameExists | InvalidCredentials | InvalidToken | TokenExpired

  datatype Result<T> = Ok(value: T) | Err(error: Error)

  /** Only a taken username is a client error; every other failure is an
      authentication failure. */
  function StatusCode(e: Error): (code: nat)
    ensures code == 400 || code == 401
    ensures code == 400 <==> e == UsernameExists
  {
    if e == UsernameExists then 400 else 401
  }

  /** bcrypt: `hashpw(password, salt)` and `checkpw(password, stored)`. */
  datatype Hasher = Hasher(hashpw: (string, string) -> string, checkpw: (string, string) -> bool)

  /** The two maps the handler keeps. */
  datatype Store = Store(users: map<string, User>, sessions: map<string, Session>)

  // ---------------------------------------------------------------------
  // The four operations as transitions of the store

  /** A taken name is refused and nothing changes; a new name is added with
      the hash of its password, its role and the registration time, and no
      other user or session changes. */
  function Register(st: Store, username: string, password: string, role: string, salt: string, now: int, h: Hasher): (r: (Result<bool>, Store))
    ensures r.0.Err? <==> username in st.users
    ensures r.0.Err? ==> r.0.error == UsernameExists && r.1 == st
    ensures r.0.Ok? ==>
              (r.0.value && r.1.sessions == st.sessions &&
               r.1.users.Keys == st.users.Keys + {username} &&
               r.1.users[username] == User(h.hashpw(password, salt), role, now) &&
               forall u :: u in st.users ==> r.1.users[u] == st.users[u])
  {
    if username in st.users then (Err(UsernameExists), st)
    else (Ok(true), st.(users := st.users[username := User(h.hashpw(password, salt), role, now)]))
  }

  /** An unknown name or a password that fails the check is refused and
      nothing changes; otherwise the token is mapped to a session for that
      user, with the user's stored role, expiring TokenLifetime seconds from
      now, and every other session and every user is kept. */
  function Authenticate(st: Store, username: string, password: string, token: string, now: int, h: Hasher): (r: (Result<string>, Store))
    ensures r.0.Err? <==> username !in st.users || !h.checkpw(password, st.users[username].password)
    ensures r.0.Err? ==> r.0.error == InvalidCredentials && r.1 == st
    ensures r.0.Ok? ==>
              (r.0.value == token && r.1.users == st.users &&
               r.1.sessions.Keys == st.sessions.Keys + {token} &&
               r.1.sessions[token] == Session(username, st.users[username].role, now + TokenLifetime) &&
               forall t :: t in st.sessions && t != token ==> r.1.sessions[t] == st.sessions[t])
  {
    if username !in st.users then (Err(InvalidCredentials), st)
    else
      var user := st.users[username];
      if !h.checkpw(password, user.password) then (Err(InvalidCredentials), st)
      else (Ok(token), st.(sessions := st.sessions[token := Session(username, user.role, now + TokenLifetime)]))
  }

  /** A known token whose expiry is not before now yields its session and
      changes nothing. An unknown token is refused and changes nothing. An
      expired one is refused and its session is deleted, and only it. */
  function Verify(st: Store, token: string, now: int): (r: (Result<Session>, Store))
    ensures r.0.Ok? <==> token in st.sessions && now <= st.sessions[token].expiresAt
    ensures r.0.Ok? ==> r.0.value == st.sessions[token] && r.1 == st
    ensures r.0.Err? ==>
              ((r.0.error == TokenExpired <==> token in st.sessions) &&
               (r.0.error == TokenExpired || r.0.error == InvalidToken))
    ensures r.1.users == st.users
    ensures r.0.Err? ==> r.1.sessions.Keys == st.sessions.Keys - {token}
    ensures forall t :: t in r.1.sessions ==> t in st.sessions && r.1.sessions[t] == st.sessions[t]
  {
    if token !in st.sessions then (Err(InvalidToken), st)
    else if st.sessions[token].expiresAt < now then (Err(TokenExpired), st.(sessions := st.sessions - {token}))
    else (Ok(st.sessions[token]), st)
  }

  /** The token no longer has a session; every other session and every user
      is kept, and an unknown token changes nothing. */
  function Logout(st: Store, token: string): (r: Store)
    ensures token !in r.sessions && r.users == st.users
    ensures r.sessions.Keys == st.sessions.Keys - {token}
    ensures forall t :: t in r.sessions ==> r.sessions[t] == st.sessions[t]
    ensures token !in st.sessions ==> r == st
  {
    if token in st.sessions then st.(sessions := st.sessions - {token}) else st
  }

  // ---------------------------------------------------------------------
  // Properties of the store

  /** Every session belongs to a registered user and carries that user's role. */
  predicate SessionsOwned(st: Store)
  {
    forall t :: t in st.sessions ==>
      st.sessions[t].username in st.users && st.sessions[t].role == st.users[st.sessions[t].username].role
  }

  /** Users are never removed and never change, and sessions are only ever
      created for a registered user with that user's role, so every operation
      keeps each session tied to its owner. */
  lemma OperationsKeepSessionsOwned(st: Store, username: string, password: string, role: string, salt: string,
                                    token: string, now: int, h: Hasher)
    requires SessionsOwned(st)
    ensures SessionsOwned(Register(st, username, password, role, salt, now, h).1)
    ensures SessionsOwned(Authenticate(st, username, password, token, now, h).1)
    ensures SessionsOwned(Verify(st, token, now).1)
    ensures SessionsOwned(Logout(st, token))
  {
  }

  /** Registering a new name and then logging in with the same password, when
      the password checks against its own hash, yields a session for that
      user with the role given at registration. */
  lemma RegisterThenLogin(st: Store, username: string, password: string, role: string, salt: string,
                          regTime: int, token: string, now: int, h: Hasher)
    requires username !in st.users
    requires h.checkpw(password, h.hashpw(password, salt))
    ensures var afterReg := Register(st, username, password, role, salt, regTime, h).1;
            var (r, afterLogin) := Authenticate(afterReg, username, password, token, now, h);
            r == Ok(token) && afterLogin.sessions[token] == Session(username, role, now + TokenLifetime)
  {
  }

  /** A session issued at time now verifies, unchanged, up to and including
      now + TokenLifetime, and after that is refused as expired and evicted. */
  lemma SessionLifetime(st: Store, username: string, password: string, token: string, now: int, later: int, h: Hasher)
    requires Authenticate(st, username, password, token, now, h).0.Ok?
    ensures var afterLogin := Authenticate(st, username, password, token, now, h).1;
            var (r, after) := Verify(afterLogin, token, later);
            (later <= now + TokenLifetime ==>
               r == Ok(Session(username, st.users[username].role, now + TokenLifetime)) && after == afterLogin) &&
            (now + TokenLifetime < later ==> r == Err(TokenExpired) && token !in after.sessions)
  {
  }

  /** Once a token has been refused as expired, it is unknown. */
  lemma ExpiredThenUnknown(st: Store, token: string, now: int, later: int)
    requires Verify(st, token, now).0 == Err(TokenExpired)
    ensures Verify(Verify(st, token, now).1, token, later).0 == Err(InvalidToken)
  {
  }

  /** Logging out twice is logging out once, and a logged-out token is unknown. */
  lemma LogoutIdempotent(st: Store, token: string, now: int)
    ensures Logout(Logout(st, token), token) == Logout(st, token)
    ensures Verify(Logout(st, token), token, now).0 == Err(InvalidToken)
  {
  }

  // ---------------------------------------------------------------------
  // The handler

  class AuthHandler {
    var users: map<string, User>
    var sessions: map<string, Session>

    function State(): Store
      reads this
    {
      Store(users, sessions)
    }

    /** Starts from what the two JSON files held, or from empty maps when a
        file does not exist. */
    constructor (storedUsers: map<string, User>, storedSessions: map<string, Session>)
      ensures users == storedUsers && sessions == storedSessions
    {
      users := storedUsers;
      sessions := storedSessions;
    }

    /** The role defaults to DefaultRole when the caller names none. */
    method RegisterUser(username: string, password: string, salt: string, now: int, h: Hasher, role: string := DefaultRole)
      returns (r: Result<bool>)
      modifies this
      ensures (r, State()) == Register(old(State()), username, password, role, salt, now, h)
    {
      if username in users {
        return Err(UsernameExists);
      }
      var hashed := h.hashpw(password, salt);
      users := users[username := User(hashed, role, now)];
      r := Ok(true);
    }

    method AuthenticateUser(username: string, password: string, token: string, now: int, h: Hasher)
      returns (r: Result<string>)
      modifies this
      ensures (r, State()) == Authenticate(old(State()), username, password, token, now, h)
    {
      if username !in users {
        return Err(InvalidCredentials);
      }
      var user := users[username];
      if !h.checkpw(password, user.password) {
        return Err(InvalidCredentials);
      }
      var expiry := now + TokenLifetime;
      sessions := sessions[token := Session(username, user.role, expiry)];
      r := Ok(token);
    }

    method VerifyToken(token: string, now: int) returns (r: Result<Session>)
      modifies this
      ensures (r, State()) == Verify(old(State()), token, now)
    {
      if token !in sessions {
        return Err(InvalidToken);
      }
      var session := sessions[token];
      if session.expiresAt < now {
        sessions := sessions - {token};
        return Err(TokenExpired);
      }
      r := Ok(session);
    }

    method LogoutToken(token: string)
      modifies this
      ensures State() == Logout(old(State()), token)
    {
      if token in sessions {
        sessions := sessions - {token};
      }
    }
  }
}
