/**
  Who gets in: when a sign-in succeeds in terms of the accounts, and when a refresh succeeds in
  terms of the requests made so far.
 */
module TokenAcceptance {
  import opened Ledger
  import opened Tokens
  import opened TokenLineage

  // ---------------------------------------------------------------- accounts

  ghost predicate AccountsDistinct(users: seq<User>) {
    forall i, j | 0 <= i < j < |users| :: users[i].email != users[j].email && users[i].username != users[j].username
  }

  lemma {:induction false} UsernameLookup(users: seq<User>, username: string)
    ensures ByUsername(users, username).Some? <==> exists i :: 0 <= i < |users| && users[i].username == username
  {
    if users != [] && users[|users| - 1].username != username {
      var init := users[..|users| - 1];
      UsernameLookup(init, username);
      assert forall i | 0 <= i < |init| :: users[i] == init[i];
      if i :| 0 <= i < |users| && users[i].username == username {
        assert init[i].username == username;
      }
    }
  }

  /** Registration refuses exactly the addresses and names in use, the address first. */
  lemma RegisterRefuses(s: Auth, email: string, username: string)
    ensures var reply := Handle(s, Request.Register(email, username)).1;
            && (reply == Refused(EmailTaken) <==> exists i :: 0 <= i < |s.users| && s.users[i].email == email)
            && (reply.Issued? <==> forall i | 0 <= i < |s.users| ::
                  s.users[i].email != email && s.users[i].username != username)
  {
    EmailLookup(s.users, email);
    UsernameLookup(s.users, username);
  }

  /** No run makes two accounts share an address or a name. */
  lemma {:induction false} RunKeepsAccounts(s: Auth, requests: seq<Request>)
    requires AccountsDistinct(s.users)
    ensures AccountsDistinct(After(s, requests).users)
  {
    if requests != [] {
      var before, request := After(s, requests[..|requests| - 1]), requests[|requests| - 1];
      RunKeepsAccounts(s, requests[..|requests| - 1]);
      if request.Register? {
        RegisterRefuses(before, request.email, request.username);
      }
    }
  }

  /** A sign-in issues a token for an account exactly when that account has the address, is
      active, and the password was right. */
  lemma LoginSucceedsIff(s: Auth, requests: seq<Request>, email: string, passwordOk: bool, user: nat)
    requires AccountsDistinct(s.users)
    ensures var now := After(s, requests);
            Handle(now, Login(email, passwordOk)).1 == Issued(user, |now.tokens|) <==>
            passwordOk && user < |now.users| && now.users[user].active && now.users[user].email == email
  {
    var now := After(s, requests);
    RunKeepsAccounts(s, requests);
    EmailLookup(now.users, email);
  }

  /** Why a request is refused; and a refused request leaves everything as it was. */
  lemma Refusals(s: Auth, request: Request)
    ensures var (now, reply) := Handle(s, request);
            && (reply.Refused? ==> now == s)
            && (reply == Refused(EmailTaken) <==>
                  request.Register? && exists i :: 0 <= i < |s.users| && s.users[i].email == request.email)
            && (reply == Refused(UsernameTaken) <==>
                  && request.Register?
                  && (forall i | 0 <= i < |s.users| :: s.users[i].email != request.email)
                  && (exists i :: 0 <= i < |s.users| && s.users[i].username == request.username))
            && (reply == Refused(InvalidCredentials) <==> request.Login? && !reply.Issued?)
            && (reply == Refused(MissingRefresh) <==> request == Refresh(None))
            && (reply == Refused(InvalidRefresh) <==> request.Refresh? && request.plain.Some? && !reply.Issued?)
            && (reply.Done? <==> !(request.Register? || request.Login? || request.Refresh?))
  {
    if request.Register? {
      EmailLookup(s.users, request.email);
      UsernameLookup(s.users, request.username);
    }
  }

  /** A sign-up adds one account, active and under its address and name, at the end of the table,
      leaves the earlier ones as they were, and its token and reply are that account's: a login with
      the address and the right password goes to the same account. */
  lemma RegisterCreates(s: Auth, email: string, username: string)
    requires Handle(s, Request.Register(email, username)).1.Issued?
    ensures var (now, reply) := Handle(s, Request.Register(email, username));
            && |now.users| == |s.users| + 1 && now.users[..|s.users|] == s.users
            && reply.user == |s.users| && now.users[reply.user] == User(email, username, true)
            && reply.secret == |s.tokens| && |now.tokens| == |s.tokens| + 1
            && now.tokens[..|s.tokens|] == s.tokens && now.tokens[reply.secret].user == reply.user
            && now.clock == s.clock
            && Handle(now, Login(email, true)).1 == Issued(reply.user, |now.tokens|)
            && (AccountsDistinct(s.users) ==> AccountsDistinct(now.users))
  {
    RegisterRefuses(s, email, username);
    EmailLookup(Handle(s, Request.Register(email, username)).0.users, email);
  }

  /** What each request may change at all: accounts change by sign-ups and suspensions only, the
      clock by time only, and tokens of the table by revocation only. */
  lemma RequestsKeep(s: Auth, request: Request, user: nat, secret: Secret)
    ensures var (now, reply) := Handle(s, request);
            && (now.clock == s.clock + if request.Tick? then request.seconds else 0)
            && |now.tokens| == |s.tokens| + (if reply.Issued? then 1 else 0)
            && |now.users| == |s.users| + (if request.Register? && reply.Issued? then 1 else 0)
            && (user < |s.users| ==>
                  now.users[user]
                  == if request.SetActive? && request.user == user then s.users[user].(active := request.active)
                     else s.users[user])
            && (secret < |s.tokens| ==>
                  now.tokens[secret].(revoked := true) == s.tokens[secret].(revoked := true))
            && (reply.Issued? ==> reply.secret == |s.tokens| && now.tokens[reply.secret] == Fresh(reply.user, s.clock))
  {
  }

  // ---------------------------------------------------------------- the life of a token

  ghost function Moment(s: Auth, requests: seq<Request>, k: nat): Auth
    requires k <= |requests|
  {
    After(s, requests[..k])
  }

  lemma MomentOfPrefix(s: Auth, requests: seq<Request>, n: nat, k: nat)
    requires k <= n <= |requests|
    ensures Moment(s, requests[..n], k) == Moment(s, requests, k)
  {
    assert requests[..n][..k] == requests[..k];
  }

  lemma MomentsAge(s: Auth, requests: seq<Request>, i: nat, j: nat)
    requires i <= j <= |requests|
    ensures |Moment(s, requests, i).tokens| <= |Moment(s, requests, j).tokens|
  {
    hide After;
    AfterAges(s, requests[..i], requests[i..j]);
    assert requests[..i] + requests[i..j] == requests[..j];
  }

  /** Request k put this token into the table, for this user. */
  ghost predicate IssuedBy(s: Auth, requests: seq<Request>, secret: Secret, k: nat, user: nat) {
    && k < |requests|
    && Handle(Moment(s, requests, k), requests[k]).1 == Issued(user, secret)
  }

  /** Request k ended the token: rotated it, signed it out, or was a logout everywhere of its
      user made while it was in the table. */
  ghost predicate EndedBy(s: Auth, requests: seq<Request>, secret: Secret, k: nat) {
    && k < |requests|
    && var past := Moment(s, requests, k);
       && secret < |past.tokens|
       && (Rotates(past, requests[k], secret) || SignsOut(past, requests[k], secret)
           || requests[k] == LogoutAll(past.tokens[secret].user))
  }

  /** What one request does to one old token. */
  lemma HandleEnds(s: Auth, request: Request, secret: Secret)
    requires secret < |s.tokens|
    ensures var now := Handle(s, request).0;
            && secret < |now.tokens|
            && (now.tokens[secret].revoked <==>
                  s.tokens[secret].revoked || Rotates(s, request, secret) || SignsOut(s, request, secret)
                  || request == LogoutAll(s.tokens[secret].user))
  {
  }

  ghost predicate Ended(s: Auth, requests: seq<Request>, secret: Secret) {
    exists k: nat :: EndedBy(s, requests, secret, k)
  }

  lemma EndedLater(s: Auth, requests: seq<Request>, secret: Secret)
    requires requests != []
    ensures var n := |requests| - 1;
            Ended(s, requests, secret) <==> Ended(s, requests[..n], secret) || EndedBy(s, requests, secret, n)
  {
    hide After, Rotates, SignsOut;
    var n := |requests| - 1;
    if k: nat :| EndedBy(s, requests, secret, k) && k < n {
      MomentOfPrefix(s, requests, n, k);
      assert EndedBy(s, requests[..n], secret, k);
    }
    if k: nat :| EndedBy(s, requests[..n], secret, k) {
      MomentOfPrefix(s, requests, n, k);
      assert EndedBy(s, requests, secret, k);
    }
  }

  /** Every token in the table was issued by one request, to an account active then, with the
      lifetime counted from that moment; and it is revoked exactly if some request ended it. */
  ghost predicate LifeOf(s: Auth, requests: seq<Request>, secret: Secret, k: nat, user: nat) {
    var now := After(s, requests);
    && IssuedBy(s, requests, secret, k, user)
    && secret < |now.tokens|
    && now.tokens[secret].user == user
    && now.tokens[secret].expires == Moment(s, requests, k).clock + REFRESH_TTL
    && (now.tokens[secret].revoked <==> Ended(s, requests, secret))
  }

  lemma NotYetEnded(s: Auth, requests: seq<Request>, secret: Secret)
    requires |After(s, requests).tokens| <= secret
    ensures !Ended(s, requests, secret)
  {
    hide After, Rotates, SignsOut;
    assert Moment(s, requests, |requests|) == After(s, requests) by {
      assert requests[..|requests|] == requests;
    }
    if k: nat :| EndedBy(s, requests, secret, k) {
      MomentsAge(s, requests, k, |requests|);
    }
  }

  lemma LifeGoesOn(s: Auth, requests: seq<Request>, secret: Secret, k: nat, user: nat)
    requires requests != [] && LifeOf(s, requests[..|requests| - 1], secret, k, user)
    ensures LifeOf(s, requests, secret, k, user)
  {
    hide Ended, Rotates, SignsOut;
    var n := |requests| - 1;
    MomentOfPrefix(s, requests, n, k);
    MomentOfPrefix(s, requests, n, n);
    assert requests[..n][..n] == requests[..n];
    HandleAges(After(s, requests[..n]), requests[n]);
    HandleEnds(After(s, requests[..n]), requests[n], secret);
    EndedLater(s, requests, secret);
  }

  lemma {:induction false} LifeBegins(s: Auth, requests: seq<Request>, secret: Secret)
    requires requests != [] && |After(s, requests[..|requests| - 1]).tokens| <= secret < |After(s, requests).tokens|
    ensures exists k: nat, user: nat :: LifeOf(s, requests, secret, k, user)
  {
    hide Ended, Rotates, SignsOut;
    var n := |requests| - 1;
    var before := After(s, requests[..n]);
    var reply := Handle(before, requests[n]).1;
    assert Moment(s, requests, n) == before;
    if reply.Issued? {
      IssueShape(before, requests[n]);
      NotYetEnded(s, requests[..n], secret);
      EndedLater(s, requests, secret);
      assert LifeOf(s, requests, secret, n, reply.user);
    } else {
      assert false;
    }
  }

  lemma {:induction false} EveryTokenHasALife(s: Auth, requests: seq<Request>, secret: Secret)
    requires s.tokens == [] && secret < |After(s, requests).tokens|
    ensures exists k: nat, user: nat :: LifeOf(s, requests, secret, k, user)
  {
    if requests != [] {
      var init := requests[..|requests| - 1];
      if secret < |After(s, init).tokens| {
        EveryTokenHasALife(s, init, secret);
        var k: nat, user: nat :| LifeOf(s, init, secret, k, user);
        LifeGoesOn(s, requests, secret, k, user);
      } else {
        LifeBegins(s, requests, secret);
      }
    }
  }

  /** A refresh succeeds exactly when some earlier request issued the token less than seven days
      ago to an account that is active now, and no request since has rotated it, signed it out or
      logged its user out everywhere. */
  lemma {:induction false} RefreshSucceedsIff(s: Auth, requests: seq<Request>, secret: Secret)
    requires s.tokens == []
    ensures var now := After(s, requests);
            Handle(now, Refresh(Some(secret))).1.Issued? <==>
            && !Ended(s, requests, secret)
            && exists k: nat, user: nat ::
                 && IssuedBy(s, requests, secret, k, user)
                 && now.clock < Moment(s, requests, k).clock + 7 * 24 * 60 * 60
                 && MayUse(now.users, user)
  {
    hide Ended, IssuedBy, After, Moment;
    var now := After(s, requests);
    if secret < |now.tokens| {
      EveryTokenHasALife(s, requests, secret);
      var k: nat, user: nat :| LifeOf(s, requests, secret, k, user);
      forall j: nat, who: nat | IssuedBy(s, requests, secret, j, who) ensures j == k && who == user {
        IssuedOnce(s, requests, secret, k, user, j, who);
      }
    } else {
      forall j: nat, who: nat | IssuedBy(s, requests, secret, j, who) ensures false {
        IssuedStays(s, requests, secret, j, who);
      }
    }
  }

  lemma {:induction false} IssuedStays(s: Auth, requests: seq<Request>, secret: Secret, k: nat, user: nat)
    requires IssuedBy(s, requests, secret, k, user)
    ensures |Moment(s, requests, k).tokens| == secret < |After(s, requests).tokens|
    ensures secret < |Moment(s, requests, k + 1).tokens|
  {
    assert requests[..k + 1][..k] == requests[..k];
    IssueShape(Moment(s, requests, k), requests[k]);
    AfterAges(s, requests[..k + 1], requests[k + 1..]);
    assert requests[..k + 1] + requests[k + 1..] == requests;
  }

  /** No secret is issued twice. */
  lemma {:induction false} IssuedOnce(
      s: Auth, requests: seq<Request>, secret: Secret, k: nat, user: nat, j: nat, who: nat)
    requires IssuedBy(s, requests, secret, k, user) && IssuedBy(s, requests, secret, j, who)
    ensures j == k && who == user
  {
    IssuedStays(s, requests, secret, k, user);
    IssuedStays(s, requests, secret, j, who);
    if j < k { MomentsAge(s, requests, j + 1, k); }
    if k < j { MomentsAge(s, requests, k + 1, j); }
  }
}
