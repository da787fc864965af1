/** The account tables as the program changes them: rows are updated one by one inside each request, and every
    request is proved to have the effect that `Lifecycle.Handle` states. */
module Accounts {
  import opened Wrappers
  import opened Lifecycle

  /** The new token is the one open token of its user and purpose, for its lifetime; the others are as they were. */
  ghost predicate Replaces(before: map<string, Token>, after: map<string, Token>, user: nat, purpose: Purpose, env: Env, creator: Option<nat>) {
    && OnlyOpen(after, user, purpose, env.raw) && after.Keys == before.Keys + {env.raw}
    && after[env.raw].expires == env.now + env.minutes && after[env.raw].creator == creator
    && ClosedNow(before, after, user, Some(purpose), env.now, env.raw)
    && (env.raw !in before ==> OthersKept(before, after, user, Some(purpose)))
  }

  class Tables {
    var users: map<nat, User>
    var byEmail: map<string, nat>
    var tokens: map<string, Token>
    var nextId: nat
    ghost var issued: set<string>

    ghost function State(): Db
      reads this
    {
      Db(users, byEmail, tokens, nextId, issued)
    }

    function ActorOf(email: string): Option<nat>
      reads this
    {
      if email in byEmail then Some(byEmail[email]) else None
    }

    predicate Known(email: string)
      reads this
    {
      email in byEmail && byEmail[email] in users
    }

    constructor ()
      ensures State() == Db(map[], map[], map[], 0, {})
    {
      users, byEmail, tokens, nextId, issued := map[], map[], map[], 0, {};
    }

    /** The open tokens of a user, of one purpose or of all. */
    method ListActiveTokens(user: nat, purpose: Option<Purpose>) returns (rows: set<string>)
      ensures forall raw :: raw in rows <==> raw in tokens && Open(tokens[raw]) && Concerns(tokens[raw], user, purpose)
    {
      rows := set raw | raw in tokens && Open(tokens[raw]) && Concerns(tokens[raw], user, purpose);
    }

    method Revoke(user: nat, purpose: Option<Purpose>, now: int)
      modifies this`tokens
      ensures tokens == Revoked(old(tokens), user, purpose, now)
    {
      var rows := ListActiveTokens(user, purpose);
      ghost var all := rows;
      while rows != {}
        invariant rows <= all && tokens.Keys == old(tokens).Keys
        invariant forall raw :: raw in tokens ==>
          tokens[raw] == if raw in all - rows then old(tokens)[raw].(revoked := Some(now)) else old(tokens)[raw]
        decreases |rows|
      {
        var raw :| raw in rows;
        tokens := tokens[raw := tokens[raw].(revoked := Some(now))];
        rows := rows - {raw};
      }
    }

    method Create(u: User) returns (id: nat)
      modifies this`users, this`byEmail, this`nextId
      ensures id == old(nextId) && State() == Created(old(State()), u)
    {
      id := nextId;
      users, byEmail, nextId := users[id := u], byEmail[u.email := id], nextId + 1;
    }

    /** The open tokens of the same purpose are revoked before the new one is stored. */
    method Issue(user: nat, purpose: Purpose, env: Env, creator: Option<nat>)
      modifies this`tokens, this`issued
      ensures State() == Issued(old(State()), user, purpose, env.raw, env.minutes, creator, env.now)
    {
      Revoke(user, Some(purpose), env.now);
      tokens := tokens[env.raw := Token(user, purpose, env.now + env.minutes, creator, None, None)];
      issued := issued + {env.raw};
    }

    method FindActor(email: string) returns (id: Option<nat>)
      ensures id == Actor(State(), email)
    {
      id := if email in byEmail then Some(byEmail[email]) else None;
    }

    method ValidToken(raw: string, purpose: Purpose, now: int) returns (user: Option<nat>)
      ensures user.Some? <==> Usable(State(), raw, purpose, now)
      ensures user.Some? ==> user.value == tokens[raw].user
    {
      if raw !in tokens || tokens[raw].purpose != purpose || tokens[raw].consumed.Some? || tokens[raw].revoked.Some?
         || tokens[raw].expires <= now || tokens[raw].user !in users
      {
        return None;
      }
      return Some(tokens[raw].user);
    }

    /** The steps that an activation and a reset share: the row first, then the token, then the revocations. */
    method Complete(raw: string, password: string, now: int)
      requires raw in tokens && tokens[raw].user in users
      modifies this`users, this`tokens
      ensures State() == Completed(old(State()), raw, password, now)
    {
      var id := tokens[raw].user;
      var u := users[id];
      u := u.(password := Some(password));
      u := u.(active := true);
      u := u.(version := u.version + 1);
      users := users[id := u];
      tokens := tokens[raw := tokens[raw].(consumed := Some(now))];
      Revoke(id, None, now);
    }

    method Invite(email: string, env: Env) returns (r: Response)
      modifies this
      ensures (State(), r) == InviteUser(old(State()), email, env)
      // A known address is refused; otherwise there is one new inactive account, and its only token.
      ensures r == Fine <==> env.allowed && !env.disabled && email !in old(byEmail)
      ensures r != Fine ==> State() == old(State())
      ensures r == Fine ==> users == old(users)[old(nextId) := User(email, Local, None, false, false, 0)]
                            && byEmail == old(byEmail)[email := old(nextId)]
      ensures r == Fine && Valid(old(State())) && env.raw !in old(tokens) ==>
                && OnlyOpen(tokens, old(nextId), Invitation, env.raw) && tokens.Keys == old(tokens).Keys + {env.raw}
                && (forall raw :: raw in old(tokens) ==> tokens[raw] == old(tokens)[raw])
                && tokens[env.raw].expires == env.now + env.minutes
                && tokens[env.raw].creator == old(ActorOf(env.actor))
    {
      if !env.allowed || env.disabled || email in byEmail { return Denied; }
      var actor := FindActor(env.actor);
      var id := Create(User(email, Local, None, false, false, 0));
      Issue(id, Invitation, env, actor);
      return Fine;
    }

    method Reissue(id: nat, env: Env) returns (r: Response)
      modifies this
      ensures (State(), r) == ReissueInvitation(old(State()), id, env)
      // A new invitation replaces the earlier ones of an inactive local account, whether or not it can be delivered.
      ensures users == old(users) && byEmail == old(byEmail)
      ensures var pending := env.allowed && id in old(users) && old(users)[id].provider == Local && !old(users)[id].active;
              && (r == Fine <==> pending && !env.disabled)
              && (pending ==> Replaces(old(tokens), tokens, id, Invitation, env, old(ActorOf(env.actor)))) && (!pending ==> tokens == old(tokens))
    {
      if !env.allowed || id !in users || users[id].provider != Local || users[id].active { return Denied; }
      var actor := FindActor(env.actor);
      Issue(id, Invitation, env, actor);
      return if env.disabled then Denied else Fine;
    }

    method RevokeInvitation(id: nat, env: Env) returns (r: Response)
      modifies this
      ensures (State(), r) == RevokeUserInvitation(old(State()), id, env)
      // All open invitations of an existing user are closed, and nothing else changes.
      ensures users == old(users) && byEmail == old(byEmail) && tokens.Keys == old(tokens).Keys
      ensures r == Fine <==> env.allowed && id in old(users)
      ensures r == Fine ==> NoneOpen(tokens, id, Some(Invitation)) && OthersKept(old(tokens), tokens, id, Some(Invitation))
                            && forall raw :: raw in tokens ==> ClosedNow(old(tokens), tokens, id, Some(Invitation), env.now, raw)
      ensures r != Fine ==> tokens == old(tokens)
    {
      if !env.allowed || id !in users { return Denied; }
      Revoke(id, Some(Invitation), env.now);
      return Fine;
    }

    method AdminReset(id: nat, env: Env) returns (r: Response)
      modifies this
      ensures (State(), r) == IssueAdminReset(old(State()), id, env)
      // A new reset token replaces the earlier ones of an active local account.
      ensures users == old(users) && byEmail == old(byEmail)
      ensures r == Fine <==> env.allowed && id in old(users) && old(users)[id].provider == Local && old(users)[id].active && !env.disabled
      ensures if r == Fine then Replaces(old(tokens), tokens, id, PasswordReset, env, old(ActorOf(env.actor))) else tokens == old(tokens)
    {
      if !env.allowed || id !in users || users[id].provider != Local || !users[id].active || env.disabled { return Denied; }
      var actor := FindActor(env.actor);
      Issue(id, PasswordReset, env, actor);
      return Fine;
    }

    method Forgot(email: string, env: Env) returns (r: Response)
      modifies this
      ensures (State(), r) == ForgotPassword(old(State()), email, env)
      // The answer does not depend on the address; an eligible account gets a reset token in place of earlier ones.
      ensures users == old(users) && byEmail == old(byEmail) && r == if env.disabled then Denied else Fine
      ensures if !env.disabled && old(Known(email))
                 && var u := old(users)[old(byEmail)[email]]; u.provider == Local && u.active && u.password.Some?
              then Replaces(old(tokens), tokens, old(byEmail)[email], PasswordReset, env, None) else tokens == old(tokens)
    {
      if env.disabled { return Denied; }
      if email in byEmail && byEmail[email] in users {
        var u := users[byEmail[email]];
        if u.provider == Local && u.active && u.password.Some? {
          Issue(byEmail[email], PasswordReset, env, None);
        }
      }
      return Fine;
    }

    method Activate(raw: string, password: string, env: Env) returns (r: Response)
      modifies this
      ensures (State(), r) == ActivateInvitation(old(State()), raw, password, env)
      // The account of a usable token gets the password in the next epoch, and all its tokens are closed.
      ensures r == Fine <==> env.strong && raw in old(tokens) && var t := old(tokens)[raw];
                t.purpose == Invitation && t.consumed.None? && t.revoked.None? && env.now < t.expires && t.user in old(users)
                && old(users)[t.user].provider == Local && old(users)[t.user].active == false
      ensures r != Fine ==> r == Denied && State() == old(State())
      ensures r == Fine ==> raw in old(tokens) && old(tokens)[raw].user in old(users) && byEmail == old(byEmail)
      ensures r == Fine ==> var id := old(tokens)[raw].user; var was := old(users)[id];
                && was.provider == Local && was.active == false && tokens[raw].consumed == Some(env.now)
                && users == old(users)[id := User(was.email, Local, Some(password), true, was.pending, was.version + 1)]
                && NoneOpen(tokens, id, None) && OthersKept(old(tokens), tokens, id, None)
                && tokens.Keys == old(tokens).Keys && ClosedNow(old(tokens), tokens, id, None, env.now, raw)
    {
      if !env.strong { return Denied; }
      var id := ValidToken(raw, Invitation, env.now);
      if id.None? || users[id.value].provider != Local || users[id.value].active { return Denied; }
      Complete(raw, password, env.now);
      return Fine;
    }

    method CompleteReset(raw: string, password: string, env: Env) returns (r: Response)
      modifies this
      ensures (State(), r) == CompletePasswordReset(old(State()), raw, password, env)
      // The account of a usable token gets the password in the next epoch, and all its tokens are closed.
      ensures r == Fine <==> env.strong && raw in old(tokens) && var t := old(tokens)[raw];
                t.purpose == PasswordReset && t.consumed.None? && t.revoked.None? && env.now < t.expires && t.user in old(users)
                && old(users)[t.user].provider == Local && old(users)[t.user].active == true
      ensures r != Fine ==> r == Denied && State() == old(State())
      ensures r == Fine ==> raw in old(tokens) && old(tokens)[raw].user in old(users) && byEmail == old(byEmail)
      ensures r == Fine ==> var id := old(tokens)[raw].user; var was := old(users)[id];
                && was.provider == Local && was.active == true && tokens[raw].consumed == Some(env.now)
                && users == old(users)[id := User(was.email, Local, Some(password), true, was.pending, was.version + 1)]
                && NoneOpen(tokens, id, None) && OthersKept(old(tokens), tokens, id, None)
                && tokens.Keys == old(tokens).Keys && ClosedNow(old(tokens), tokens, id, None, env.now, raw)
    {
      if !env.strong { return Denied; }
      var id := ValidToken(raw, PasswordReset, env.now);
      if id.None? || users[id.value].provider != Local || !users[id.value].active { return Denied; }
      Complete(raw, password, env.now);
      return Fine;
    }

    method Login(email: string, password: string, env: Env) returns (r: Response)
      modifies this
      ensures (State(), r) == LogIn(old(State()), email, password, env)
      // Whoever logs in has a local row with this password, and claims that are honoured; only the first login of an
      // empty system writes anything.
      ensures tokens == old(tokens) && (old(users) != map[] ==> State() == old(State()))
      ensures old(users) == map[] ==>
                users == map[] || users == map[old(nextId) := User(email, Local, Some(password), true, false, 0)]
      ensures r.LoggedIn? && Valid(old(State())) && email !in old(byEmail) ==> old(users) == map[]
      ensures r.LoggedIn? && (Valid(old(State())) || old(users) == map[]) ==>
                && Honoured(State(), r.claims) && r.claims.email == email
                && users[byEmail[email]].provider == Local && users[byEmail[email]].password == Some(password)
      // In a system with accounts, exactly these can log in.
      ensures old(users) != map[] ==>
                (r.LoggedIn? <==> env.allowed && old(Known(email))
                                  && var u := old(users)[old(byEmail)[email]];
                                     u.provider == Local && u.password == Some(password) && (u.active || u.pending))
      // In an empty one, whoever comes first with a strong password, as its administrator.
      ensures old(users) == map[] ==> (r.LoggedIn? <==> env.allowed && env.strong)
    {
      if !env.allowed { return Denied; }
      if users == map[] {
        if !env.strong { return Denied; }
        var _ := Create(User(email, Local, Some(password), true, false, 0));
      }
      if email !in byEmail || byEmail[email] !in users { return Denied; }
      var u := users[byEmail[email]];
      if u.provider != Local || u.password != Some(password) || (!u.active && !u.pending) { return Denied; }
      return LoggedIn(Claims(u.email, u.version));
    }

    method SelfRegister(email: string, password: string, env: Env) returns (r: Response)
      modifies this
      ensures (State(), r) == SelfRegisterUser(old(State()), email, password, env)
      // A local account without a password is claimed only while delivery is disabled; an unknown address becomes an
      // inactive account.
      ensures tokens == old(tokens) && (r != Fine ==> State() == old(State()))
      ensures r == Fine <==> env.allowed && (old(Known(email)) ==>
                var was := old(users)[old(byEmail)[email]]; was.provider == Local && was.password.None? && env.disabled)
      ensures r == Fine && !old(Known(email)) ==> byEmail == old(byEmail)[email := old(nextId)]
      ensures r == Fine && old(Known(email)) ==> var id := old(byEmail)[email]; var was := old(users)[id];
                && was.provider == Local && was.password.None? && env.disabled
                && users == old(users)[id := User(was.email, Local, Some(password), true, was.pending, was.version + 1)]
      ensures r == Fine && !old(Known(email)) ==>
                users == old(users)[old(nextId) := User(email, Local, Some(password), false, false, 0)]
    {
      if !env.allowed { return Denied; }
      if email in byEmail && byEmail[email] in users {
        var id := byEmail[email];
        var u := users[id];
        if u.provider != Local || u.password.Some? || !env.disabled { return Denied; }
        u := u.(password := Some(password));
        u := u.(active := true);
        u := u.(version := u.version + 1);
        users := users[id := u];
        return Fine;
      }
      var _ := Create(User(email, Local, Some(password), false, false, 0));
      return Fine;
    }

    method Register(email: string, provider: Provider, env: Env) returns (r: Response)
      modifies this
      ensures (State(), r) == RegisterUser(old(State()), email, provider, env)
      // A known address is refused; otherwise there is one new account without a password, active if it is an OIDC one.
      ensures tokens == old(tokens) && (r == Fine <==> env.allowed && email !in old(byEmail))
      ensures r == Fine ==> users == old(users)[old(nextId) := User(email, provider, None, provider == Oidc, false, 0)]
                            && byEmail == old(byEmail)[email := old(nextId)]
      ensures r != Fine ==> State() == old(State())
    {
      if !env.allowed || email in byEmail { return Denied; }
      var _ := Create(User(email, provider, None, provider == Oidc, false, 0));
      return Fine;
    }

    /** One statement deletes the user's tokens, a second detaches those the user created, a third the row. */
    method Delete(id: nat, env: Env) returns (r: Response)
      modifies this
      ensures (State(), r) == DeleteUser(old(State()), id, env)
      // The row goes with its tokens; every other row and token stays, but for the note who created it.
      ensures r == Fine <==> env.allowed && id in old(users)
      ensures r != Fine ==> State() == old(State())
      ensures r == Fine ==> users == old(users) - {id}
      ensures r == Fine ==>
                && (forall raw :: raw in tokens <==> raw in old(tokens) && old(tokens)[raw].user != id)
                && (forall raw :: raw in tokens ==>
                      var was := old(tokens)[raw];
                      tokens[raw] == Token(was.user, was.purpose, was.expires, if was.creator == Some(id) then None else was.creator,
                                           was.consumed, was.revoked))
      ensures r == Fine ==> byEmail == old(byEmail) - {old(users)[id].email}
    {
      if !env.allowed || id !in users { return Denied; }
      tokens := map raw | raw in tokens && tokens[raw].user != id :: tokens[raw];
      tokens := map raw | raw in tokens :: if tokens[raw].creator == Some(id) then tokens[raw].(creator := None) else tokens[raw];
      assert tokens == DeleteUser(old(State()), id, env).0.tokens;
      byEmail := byEmail - {users[id].email};
      users := users - {id};
      return Fine;
    }

    /** Any request has exactly the modelled effect, and keeps the tables valid. */
    method Serve(request: Request, env: Env) returns (r: Response)
      modifies this
      ensures (State(), r) == Handle(old(State()), request, env)
      ensures Valid(old(State())) && env.raw !in old(issued) ==> Valid(State())
    {
      ghost var before := State();
      match request {
        case Invite(email) => r := Invite(email, env);
        case Reissue(user) => r := Reissue(user, env);
        case RevokeInvitation(user) => r := RevokeInvitation(user, env);
        case AdminReset(user) => r := AdminReset(user, env);
        case Forgot(email) => r := Forgot(email, env);
        case Activate(raw, password) => r := Activate(raw, password, env);
        case CompleteReset(raw, password) => r := CompleteReset(raw, password, env);
        case Login(email, password) => r := Login(email, password, env);
        case SelfRegister(email, password) => r := SelfRegister(email, password, env);
        case Register(email, provider) => r := Register(email, provider, env);
        case Delete(user) => r := Delete(user, env);
      }
      if Valid(before) && env.raw !in before.issued { HandleKeeps(before, request, env); }
    }

    /** Resolving a local access token.  A token of another epoch clears the session cookie; a good bearer token
        puts its own claims there, so a cookie is never refreshed with another epoch than the current one. */
    method ResolveLocal(claims: Claims, allowPending: bool, syncs: bool, session: Option<Claims>)
      returns (ok: bool, cookie: Option<Claims>)
      ensures ok ==> Honoured(State(), claims)
      ensures Honoured(State(), claims) ==> 
                ok == (allowPending || (users[byEmail[claims.email]].active && !users[byEmail[claims.email]].pending))
      ensures ok && syncs && users[byEmail[claims.email]].provider == Local ==> cookie == Some(claims)
      ensures claims.email in byEmail && byEmail[claims.email] in users && !Honoured(State(), claims) ==> cookie == None
      ensures ok && !(syncs && users[byEmail[claims.email]].provider == Local) ==> cookie == session
      ensures !ok && (Honoured(State(), claims) || claims.email !in byEmail || byEmail[claims.email] !in users) ==> cookie == session
    {
      ok, cookie := false, session;
      if claims.email !in byEmail || byEmail[claims.email] !in users { return; }
      var u := users[byEmail[claims.email]];
      if claims.version != u.version {
        cookie := None;
        return;
      }
      if !allowPending && !HasAccess(u) { return; }
      if syncs && u.provider == Local {
        cookie := Some(Claims(claims.email, u.version));
      }
      ok := true;
    }
  }

  predicate HasAccess(u: User) { u.active && !u.pending }
}
