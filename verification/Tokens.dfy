/**
  Accounts and refresh tokens: what register, login, refresh, logout and logout_all do to the
  token table, and the service whose methods carry it out.  A token's secret is modelled by the
  token's place in the table: a new secret is one nobody held before, and a secret that was never
  issued is a number past the table's end.
 */
module Tokens {
  import opened Ledger

  type Secret = nat

  /** An account; `email` in the lower-case form in which it is stored and looked up. */
  datatype User = User(email: string, username: string, active: bool)

  datatype Token = Token(user: nat, expires: int, revoked: bool)

  datatype Auth = Auth(users: seq<User>, tokens: seq<Token>, clock: int)

  datatype AuthError = EmailTaken | UsernameTaken | InvalidCredentials | MissingRefresh | InvalidRefresh

  datatype Reply = Issued(user: nat, secret: Secret) | Done | Refused(error: AuthError)

  datatype Request =
    | Register(email: string, username: string)
    | Login(email: string, passwordOk: bool)
    | Refresh(plain: Option<Secret>)
    | Logout(plain: Option<Secret>)
    | LogoutAll(user: nat)
    | SetActive(user: nat, active: bool)
    | Tick(seconds: nat)

  const REFRESH_TTL := 604800

  const NOBODY := Auth([], [], 0)

  // ---------------------------------------------------------------- queries and updates

  function ByEmail(users: seq<User>, email: string): Option<nat> {
    if users == [] then None
    else if users[|users| - 1].email == email then Some(|users| - 1)
    else ByEmail(users[..|users| - 1], email)
  }

  function ByUsername(users: seq<User>, username: string): Option<nat> {
    if users == [] then None
    else if users[|users| - 1].username == username then Some(|users| - 1)
    else ByUsername(users[..|users| - 1], username)
  }

  /** get_active_by_hash finds a row: one that exists, was not revoked and has not expired. */
  predicate Active(tokens: seq<Token>, clock: int, secret: Secret) {
    secret < |tokens| && !tokens[secret].revoked && clock < tokens[secret].expires
  }

  function Revoke(tokens: seq<Token>, secret: Secret): seq<Token>
    requires secret < |tokens|
  {
    tokens[secret := tokens[secret].(revoked := true)]
  }

  function RevokeAllFor(tokens: seq<Token>, user: nat): seq<Token> {
    seq(|tokens|, i requires 0 <= i < |tokens| =>
      if tokens[i].user == user then tokens[i].(revoked := true) else tokens[i])
  }

  function Fresh(user: nat, clock: int): Token {
    Token(user, clock + REFRESH_TTL, false)
  }

  predicate MayUse(users: seq<User>, user: nat) {
    user < |users| && users[user].active
  }

  // ---------------------------------------------------------------- one request

  function Handle(s: Auth, request: Request): (Auth, Reply) {
    match request
    case Register(email, username) =>
      if ByEmail(s.users, email).Some? then (s, Refused(EmailTaken))
      else if ByUsername(s.users, username).Some? then (s, Refused(UsernameTaken))
      else
        var user := |s.users|;
        (s.(users := s.users + [User(email, username, true)], tokens := s.tokens + [Fresh(user, s.clock)]),
         Issued(user, |s.tokens|))
    case Login(email, passwordOk) =>
      var user := ByEmail(s.users, email);
      if user.None? || !MayUse(s.users, user.value) || !passwordOk then (s, Refused(InvalidCredentials))
      else
        (s.(tokens := s.tokens + [Fresh(user.value, s.clock)]), Issued(user.value, |s.tokens|))
    case Refresh(plain) =>
      if plain.None? then (s, Refused(MissingRefresh))
      else if !Active(s.tokens, s.clock, plain.value) then (s, Refused(InvalidRefresh))
      else
        var user := s.tokens[plain.value].user;
        if !MayUse(s.users, user) then (s, Refused(InvalidRefresh))
        else
          (s.(tokens := Revoke(s.tokens, plain.value) + [Fresh(user, s.clock)]), Issued(user, |s.tokens|))
    case Logout(plain) =>
      if plain.Some? && Active(s.tokens, s.clock, plain.value)
      then (s.(tokens := Revoke(s.tokens, plain.value)), Done)
      else (s, Done)
    case LogoutAll(user) => (s.(tokens := RevokeAllFor(s.tokens, user)), Done)
    case SetActive(user, active) =>
      if user < |s.users| then (s.(users := s.users[user := s.users[user].(active := active)]), Done) else (s, Done)
    case Tick(seconds) => (s.(clock := s.clock + seconds), Done)
  }

  function After(s: Auth, requests: seq<Request>): Auth {
    if requests == [] then s
    else Handle(After(s, requests[..|requests| - 1]), requests[|requests| - 1]).0
  }

  // ---------------------------------------------------------------- the service

  class AuthService {
    var users: seq<User>
    var tokens: seq<Token>
    var clock: int

    ghost function Snapshot(): Auth
      reads this
    {
      Auth(users, tokens, clock)
    }

    constructor ()
      ensures Snapshot() == NOBODY
    {
      users, tokens, clock := [], [], 0;
    }

    method Register(email: string, username: string) returns (reply: Reply)
      modifies this`users, this`tokens
      ensures (Snapshot(), reply) == Handle(old(Snapshot()), Request.Register(email, username))
    {
      if ByEmail(users, email).Some? {
        return Refused(EmailTaken);
      }
      if ByUsername(users, username).Some? {
        return Refused(UsernameTaken);
      }
      var user := |users|;
      users := users + [User(email, username, true)];
      var secret := IssueTokens(user);
      reply := Issued(user, secret);
    }

    method Login(email: string, passwordOk: bool) returns (reply: Reply)
      modifies this`tokens
      ensures (Snapshot(), reply) == Handle(old(Snapshot()), Request.Login(email, passwordOk))
    {
      var user := ByEmail(users, email);
      if user.None? || !MayUse(users, user.value) || !passwordOk {
        return Refused(InvalidCredentials);
      }
      var secret := IssueTokens(user.value);
      reply := Issued(user.value, secret);
    }

    method Refresh(plain: Option<Secret>) returns (reply: Reply)
      modifies this`tokens
      ensures (Snapshot(), reply) == Handle(old(Snapshot()), Request.Refresh(plain))
    {
      if plain.None? {
        return Refused(MissingRefresh);
      }
      var token := plain.value;
      if !Active(tokens, clock, token) {
        return Refused(InvalidRefresh);
      }
      var user := tokens[token].user;
      if !MayUse(users, user) {
        return Refused(InvalidRefresh);
      }
      tokens := Revoke(tokens, token);
      var secret := IssueTokens(user);
      reply := Issued(user, secret);
    }

    method Logout(plain: Option<Secret>)
      modifies this`tokens
      ensures Snapshot() == Handle(old(Snapshot()), Request.Logout(plain)).0
    {
      if plain.Some? {
        if Active(tokens, clock, plain.value) {
          tokens := Revoke(tokens, plain.value);
        }
      }
    }

    method LogoutAll(user: nat)
      modifies this`tokens
      ensures Snapshot() == Handle(old(Snapshot()), Request.LogoutAll(user)).0
    {
      tokens := RevokeAllFor(tokens, user);
    }

    method IssueTokens(user: nat) returns (secret: Secret)
      modifies this`tokens
      ensures tokens == old(tokens) + [Fresh(user, clock)]
      ensures secret == old(|tokens|)
    {
      secret := |tokens|;
      tokens := tokens + [Fresh(user, clock)];
    }
  }
}
