/**
  Rotation over whole runs: each sign-in starts a chain, each refresh moves it to a new token, and
  at any moment only the chain's newest token can still be accepted.
 */
module TokenLineage {
  import opened Ledger
  import opened Tokens

  // ---------------------------------------------------------------- chains

  /** The request was a refresh that spent this token and issued another. */
  ghost predicate Rotates(s: Auth, request: Request, secret: Secret) {
    request.Refresh? && request.plain == Some(secret) && Handle(s, request).1.Issued?
  }

  /** The request was a logout that found this token active. */
  ghost predicate SignsOut(s: Auth, request: Request, secret: Secret) {
    request.Logout? && request.plain == Some(secret) && Active(s.tokens, s.clock, secret)
  }

  /** The chains once the request has issued a token: a refresh continues the spent token's
      chain, a sign-in begins one. */
  ghost function Grown(s: Auth, request: Request, chains: seq<nat>): (next: seq<nat>)
    requires |chains| == |s.tokens| && Handle(s, request).1.Issued?
    ensures |next| == |Handle(s, request).0.tokens|
  {
    chains + [if request.Refresh? then chains[request.plain.value] else |chains|]
  }

  /** For each token of the table the token its chain began with: a sign-in's own, or for a
      refresh the beginning of the chain it continues. */
  ghost function Chains(s: Auth, requests: seq<Request>): (chains: seq<nat>)
    requires s.tokens == []
    ensures |chains| == |After(s, requests).tokens|
  {
    if requests == [] then []
    else
      var before, request := After(s, requests[..|requests| - 1]), requests[|requests| - 1];
      var chains := Chains(s, requests[..|requests| - 1]);
      if Handle(before, request).1.Issued? then Grown(before, request, chains) else chains
  }

  ghost predicate OneLive(tokens: seq<Token>, chains: seq<nat>, older: nat, newer: nat) {
    older < newer < |tokens| == |chains| && chains[older] == chains[newer] ==>
      tokens[older].revoked && tokens[older].user == tokens[newer].user
  }

  /** The token table is in order: tokens belong to accounts, expire within the lifetime, and in
      a chain all but the newest are revoked. */
  ghost predicate TableOk(s: Auth, chains: seq<nat>) {
    && |chains| == |s.tokens|
    && (forall i | 0 <= i < |s.tokens| :: s.tokens[i].user < |s.users| && s.tokens[i].expires <= s.clock + REFRESH_TTL)
    && (forall i | 0 <= i < |chains| :: chains[i] <= i)
    && (forall i: nat, j: nat :: OneLive(s.tokens, chains, i, j))
  }

  /** A table in which nothing is less revoked, and nothing else about old tokens has changed. */
  ghost predicate Ages(before: seq<Token>, after: seq<Token>) {
    && |before| <= |after|
    && forall i | 0 <= i < |before| ::
         && after[i].user == before[i].user && after[i].expires == before[i].expires
         && (before[i].revoked ==> after[i].revoked)
  }

  lemma HandleAges(s: Auth, request: Request)
    ensures Ages(s.tokens, Handle(s, request).0.tokens)
    ensures s.clock <= Handle(s, request).0.clock
    ensures |s.users| <= |Handle(s, request).0.users|
  {
  }

  lemma AgesOn(a: seq<Token>, b: seq<Token>, c: seq<Token>)
    requires Ages(a, b) && Ages(b, c)
    ensures Ages(a, c)
  {
  }

  lemma {:induction false} AfterAges(s: Auth, requests: seq<Request>, more: seq<Request>)
    ensures Ages(After(s, requests).tokens, After(s, requests + more).tokens)
    ensures After(s, requests).clock <= After(s, requests + more).clock
  {
    if more == [] {
      assert requests + more == requests;
    } else {
      var n := |more| - 1;
      assert (requests + more)[..|requests + more| - 1] == requests + more[..n];
      AfterAges(s, requests, more[..n]);
      HandleAges(After(s, requests + more[..n]), more[n]);
      AgesOn(After(s, requests).tokens, After(s, requests + more[..n]).tokens, After(s, requests + more).tokens);
    }
  }

  /** Only an active token of an active account is rotated, and it is revoked by it. */
  lemma IssueShape(s: Auth, request: Request)
    requires Handle(s, request).1.Issued?
    ensures var (now, reply) := Handle(s, request);
            && |now.tokens| == |s.tokens| + 1 && reply.secret == |s.tokens| && now.clock == s.clock
            && MayUse(now.users, reply.user) && now.tokens[|s.tokens|] == Fresh(reply.user, s.clock)
    ensures request.Refresh? ==> request.plain.Some? && Rotates(s, request, request.plain.value)
    ensures request.Refresh? ==>
              var (now, reply) := Handle(s, request);
              var spent := request.plain.value;
              && Active(s.tokens, s.clock, spent) && now.tokens[spent].revoked && reply.user == s.tokens[spent].user
  {
    EmailLookup(s.users, if request.Login? then request.email else "");
  }

  lemma {:induction false} EmailLookup(users: seq<User>, email: string)
    ensures ByEmail(users, email).Some? <==> exists i :: 0 <= i < |users| && users[i].email == email
    ensures ByEmail(users, email).Some? ==>
              ByEmail(users, email).value < |users| && users[ByEmail(users, email).value].email == email
  {
    if users != [] && users[|users| - 1].email != email {
      var init := users[..|users| - 1];
      EmailLookup(init, email);
      assert forall i | 0 <= i < |init| :: users[i] == init[i];
      if i :| 0 <= i < |users| && users[i].email == email {
        assert init[i].email == email;
      }
    }
  }

  lemma IssueKeepsOneLive(s: Auth, request: Request, chains: seq<nat>, i: nat, j: nat)
    requires TableOk(s, chains) && Handle(s, request).1.Issued?
    ensures OneLive(Handle(s, request).0.tokens, Grown(s, request, chains), i, j)
  {
    var now := Handle(s, request).0;
    IssueShape(s, request);
    HandleAges(s, request);
    assert OneLive(s.tokens, chains, i, j);
    if i < j == |s.tokens| && request.Refresh? {
      var spent := request.plain.value;
      if chains[i] == chains[spent] {
        assert OneLive(s.tokens, chains, i, spent) && OneLive(s.tokens, chains, spent, i);
      }
    }
  }

  lemma HandleKeepsTable(s: Auth, request: Request, chains: seq<nat>)
    requires TableOk(s, chains)
    ensures var (now, reply) := Handle(s, request);
            TableOk(now, if reply.Issued? then Grown(s, request, chains) else chains)
  {
    var (now, reply) := Handle(s, request);
    HandleAges(s, request);
    if reply.Issued? {
      IssueShape(s, request);
      var next := Grown(s, request, chains);
      forall i: nat, j: nat ensures OneLive(now.tokens, next, i, j) {
        IssueKeepsOneLive(s, request, chains, i, j);
      }
    } else {
      forall i: nat, j: nat ensures OneLive(now.tokens, chains, i, j) {
        assert OneLive(s.tokens, chains, i, j);
      }
    }
  }

  lemma {:induction false} RunKeepsTable(s: Auth, requests: seq<Request>)
    requires s.tokens == []
    ensures TableOk(After(s, requests), Chains(s, requests))
  {
    if requests != [] {
      RunKeepsTable(s, requests[..|requests| - 1]);
      var init, request := requests[..|requests| - 1], requests[|requests| - 1];
      HandleKeepsTable(After(s, init), request, Chains(s, init));
    }
  }

  /** In every reachable table, of two tokens of one chain the older is revoked and both are the
      same user's: a chain has at most one token that can be accepted, its newest. */
  lemma {:induction false} ChainHasOneLiveToken(s: Auth, requests: seq<Request>, older: nat, newer: nat)
    requires s.tokens == [] && older < newer < |After(s, requests).tokens|
    requires Chains(s, requests)[older] == Chains(s, requests)[newer]
    ensures var now := After(s, requests);
            && now.tokens[older].revoked && !Active(now.tokens, now.clock, older)
            && now.tokens[older].user == now.tokens[newer].user
  {
    RunKeepsTable(s, requests);
    assert OneLive(After(s, requests).tokens, Chains(s, requests), older, newer);
  }

  // ---------------------------------------------------------------- each token is spent once

  /** How often, over a run, the token was accepted: rotated by a refresh or ended by a logout. */
  ghost function Spent(s: Auth, requests: seq<Request>, secret: Secret): nat {
    if requests == [] then 0
    else
      var before, request := After(s, requests[..|requests| - 1]), requests[|requests| - 1];
      Spent(s, requests[..|requests| - 1], secret) +
      if Rotates(before, request, secret) || SignsOut(before, request, secret) then 1 else 0
  }

  /** No token is ever accepted twice, and an accepted one stays revoked. */
  lemma {:induction false} SpentAtMostOnce(s: Auth, requests: seq<Request>, secret: Secret)
    requires s.tokens == []
    ensures Spent(s, requests, secret) <= 1
    ensures Spent(s, requests, secret) == 1 ==>
              var now := After(s, requests);
              secret < |now.tokens| && now.tokens[secret].revoked
  {
    if requests != [] {
      var before, request := After(s, requests[..|requests| - 1]), requests[|requests| - 1];
      SpentAtMostOnce(s, requests[..|requests| - 1], secret);
      HandleAges(before, request);
      if Rotates(before, request, secret) {
        IssueShape(before, request);
      }
    }
  }

  // ---------------------------------------------------------------- open sessions

  function Unrevoked(tokens: seq<Token>, user: nat): nat {
    if tokens == [] then 0
    else
      var last := tokens[|tokens| - 1];
      Unrevoked(tokens[..|tokens| - 1], user) + if last.user == user && !last.revoked then 1 else 0
  }

  /** The user's open sessions counted from the requests alone: sign-ins since the last logout
      everywhere, less the logouts that found an active token of that user.  Refreshes do not
      count. */
  ghost function Sessions(s: Auth, requests: seq<Request>, user: nat): int {
    if requests == [] then 0
    else
      var before, request := After(s, requests[..|requests| - 1]), requests[|requests| - 1];
      var sessions := Sessions(s, requests[..|requests| - 1], user);
      match request
      case Register(_, _) => if SignsIn(before, request, user) then sessions + 1 else sessions
      case Login(_, _) => if SignsIn(before, request, user) then sessions + 1 else sessions
      case Logout(Some(secret)) =>
        if SignsOut(before, request, secret) && before.tokens[secret].user == user then sessions - 1 else sessions
      case LogoutAll(who) => if who == user then 0 else sessions
      case _ => sessions
  }

  ghost predicate SignsIn(s: Auth, request: Request, user: nat) {
    Handle(s, request).1.Issued? && Handle(s, request).1.user == user
  }

  lemma UnrevokedAppend(tokens: seq<Token>, token: Token, user: nat)
    ensures Unrevoked(tokens + [token], user) ==
            Unrevoked(tokens, user) + if token.user == user && !token.revoked then 1 else 0
  {
    assert (tokens + [token])[..|tokens|] == tokens;
  }

  lemma {:induction false} UnrevokedAfterRevoke(tokens: seq<Token>, secret: Secret, user: nat)
    requires secret < |tokens| && !tokens[secret].revoked
    ensures Unrevoked(Revoke(tokens, secret), user) ==
            Unrevoked(tokens, user) - if tokens[secret].user == user then 1 else 0
  {
    var n := |tokens| - 1;
    if secret < n {
      UnrevokedAfterRevoke(tokens[..n], secret, user);
      assert Revoke(tokens, secret)[..n] == Revoke(tokens[..n], secret);
    } else {
      assert Revoke(tokens, secret)[..n] == tokens[..n];
    }
  }

  lemma {:induction false} UnrevokedAfterAll(tokens: seq<Token>, who: nat, user: nat)
    ensures Unrevoked(RevokeAllFor(tokens, who), user) == if who == user then 0 else Unrevoked(tokens, user)
  {
    if tokens != [] {
      var n := |tokens| - 1;
      UnrevokedAfterAll(tokens[..n], who, user);
      assert RevokeAllFor(tokens, who)[..n] == RevokeAllFor(tokens[..n], who);
    }
  }

  lemma HandleMovesUnrevoked(s: Auth, request: Request, user: nat)
    ensures var (now, reply) := Handle(s, request);
            Unrevoked(now.tokens, user) ==
            match request
            case Register(_, _) => Unrevoked(s.tokens, user) + (if SignsIn(s, request, user) then 1 else 0)
            case Login(_, _) => Unrevoked(s.tokens, user) + (if SignsIn(s, request, user) then 1 else 0)
            case Logout(Some(secret)) =>
              Unrevoked(s.tokens, user) -
              (if SignsOut(s, request, secret) && s.tokens[secret].user == user then 1 else 0)
            case LogoutAll(who) => if who == user then 0 else Unrevoked(s.tokens, user)
            case _ => Unrevoked(s.tokens, user)
  {
    hide Unrevoked;
    var (now, reply) := Handle(s, request);
    match request
    case Register(_, _) => UnrevokedAppend(s.tokens, Fresh(|s.users|, s.clock), user);
    case Login(_, _) => if reply.Issued? { UnrevokedAppend(s.tokens, Fresh(reply.user, s.clock), user); }
    case Refresh(plain) =>
      if reply.Issued? {
        UnrevokedAfterRevoke(s.tokens, plain.value, user);
        UnrevokedAppend(Revoke(s.tokens, plain.value), Fresh(reply.user, s.clock), user);
      }
    case Logout(plain) =>
      if plain.Some? && SignsOut(s, request, plain.value) {
        UnrevokedAfterRevoke(s.tokens, plain.value, user);
      }
    case LogoutAll(who) => UnrevokedAfterAll(s.tokens, who, user);
    case _ =>
  }

  /** In every reachable state a user's unrevoked tokens are as many as the open sessions the
      requests account for. */
  lemma {:induction false} UnrevokedAreSessions(s: Auth, requests: seq<Request>, user: nat)
    requires s.tokens == []
    ensures Unrevoked(After(s, requests).tokens, user) == Sessions(s, requests, user)
  {
    if requests != [] {
      UnrevokedAreSessions(s, requests[..|requests| - 1], user);
      HandleMovesUnrevoked(After(s, requests[..|requests| - 1]), requests[|requests| - 1], user);
    }
  }

  // ---------------------------------------------------------------- who can still get in

  lemma StaysRevoked(s: Auth, requests: seq<Request>, more: seq<Request>, secret: Secret)
    requires secret < |After(s, requests).tokens| && After(s, requests).tokens[secret].revoked
    ensures var later := After(s, requests + more);
            secret < |later.tokens| && later.tokens[secret].revoked && !Active(later.tokens, later.clock, secret)
  {
    AfterAges(s, requests, more);
  }

  /** After a logout everywhere no token the user held is accepted again, whatever follows. */
  lemma LogoutAllEndsEverySession(
      s: Auth, requests: seq<Request>, user: nat, more: seq<Request>, secret: Secret)
    requires secret < |After(s, requests).tokens| && After(s, requests).tokens[secret].user == user
    ensures var later := After(s, requests + [LogoutAll(user)] + more);
            Handle(later, Refresh(Some(secret))) == (later, Refused(InvalidRefresh))
  {
    var out := requests + [LogoutAll(user)];
    assert out[..|out| - 1] == requests;
    StaysRevoked(s, out, more, secret);
  }

  /** Replaying a token that a refresh has spent is refused for ever after. */
  lemma ReplayIsRefused(s: Auth, requests: seq<Request>, secret: Secret, more: seq<Request>)
    requires Handle(After(s, requests), Refresh(Some(secret))).1.Issued?
    ensures var later := After(s, requests + [Refresh(Some(secret))] + more);
            Handle(later, Refresh(Some(secret))) == (later, Refused(InvalidRefresh))
  {
    var out := requests + [Refresh(Some(secret))];
    assert out[..|out| - 1] == requests;
    IssueShape(After(s, requests), Refresh(Some(secret)));
    StaysRevoked(s, out, more, secret);
  }

  /** The lifetime slides: whatever the run, a session left alone for seven days is over. */
  lemma {:induction false} IdleSessionsEnd(s: Auth, requests: seq<Request>, seconds: nat, secret: Secret)
    requires s.tokens == [] && 7 * 24 * 60 * 60 <= seconds
    ensures var later := After(s, requests + [Tick(seconds)]);
            Handle(later, Refresh(Some(secret))) == (later, Refused(InvalidRefresh))
  {
    var all := requests + [Tick(seconds)];
    assert all[..|all| - 1] == requests;
    RunKeepsTable(s, requests);
  }
}
