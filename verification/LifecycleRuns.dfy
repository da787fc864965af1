/** Properties of whole runs of account requests, in any order and by any callers. */
module LifecycleRuns {
  import opened Wrappers
  import opened Lifecycle

  datatype Step = Step(request: Request, env: Env)

  function After(db: Db, s: Step): Db { Handle(db, s.request, s.env).0 }

  function Run(db: Db, steps: seq<Step>): Db
    decreases |steps|
  {
    if steps == [] then db else Run(After(db, steps[0]), steps[1..])
  }

  /** The generated tokens never repeat. */
  ghost predicate Legal(db: Db, steps: seq<Step>)
    decreases |steps|
  {
    steps != [] ==> steps[0].env.raw !in db.issued && Legal(After(db, steps[0]), steps[1..])
  }

  lemma {:induction false} RunKeeps(db: Db, steps: seq<Step>)
    requires Valid(db) && Legal(db, steps)
    ensures Valid(Run(db, steps))
    decreases |steps|
  {
    if steps != [] {
      HandleKeeps(db, steps[0].request, steps[0].env);
      RunKeeps(After(db, steps[0]), steps[1..]);
    }
  }

  /** The same token up to its audit reference. */
  predicate SameFate(a: Token, b: Token) {
    a.user == b.user && a.purpose == b.purpose && a.consumed == b.consumed && a.revoked == b.revoked
  }

  /** A token that can never be used again: deleted, consumed or revoked. */
  predicate Spent(db: Db, raw: string) { raw in db.issued && (raw in db.tokens ==> !Open(db.tokens[raw])) }

  predicate Settled(db: Db, t: Db, raw: string) {
    Spent(t, raw) && (raw in t.tokens ==> raw in db.tokens && SameFate(db.tokens[raw], t.tokens[raw]))
  }

  lemma IssueSettles(db: Db, s: Step, raw: string)
    requires Valid(db) && s.env.raw !in db.issued && Spent(db, raw)
    requires s.request.Invite? || s.request.Reissue? || s.request.AdminReset? || s.request.Forgot?
    ensures Settled(db, After(db, s), raw)
  {
    match s.request {
      case Invite(email) =>
      case Reissue(id) =>
      case AdminReset(id) =>
      case Forgot(email) =>
    }
  }

  lemma CompletionSettles(db: Db, s: Step, raw: string)
    requires Valid(db) && Spent(db, raw) && (s.request.Activate? || s.request.CompleteReset?)
    ensures Settled(db, After(db, s), raw)
  {
    match s.request {
      case Activate(token, password) =>
      case CompleteReset(token, password) =>
    }
  }

  lemma StepSettles(db: Db, s: Step, raw: string)
    requires Valid(db) && s.env.raw !in db.issued && Spent(db, raw)
    ensures Settled(db, After(db, s), raw)
  {
    match s.request {
      case Invite(email) => IssueSettles(db, s, raw);
      case Reissue(id) => IssueSettles(db, s, raw);
      case RevokeInvitation(id) =>
      case AdminReset(id) => IssueSettles(db, s, raw);
      case Forgot(email) => IssueSettles(db, s, raw);
      case Activate(token, password) => CompletionSettles(db, s, raw);
      case CompleteReset(token, password) => CompletionSettles(db, s, raw);
      case Login(email, password) =>
      case SelfRegister(email, password) =>
      case Register(email, provider) =>
      case Delete(id) =>
    }
  }

  /** Consumed and revoked are final, and deleted tokens do not come back. */
  lemma {:induction false} RunSettles(db: Db, steps: seq<Step>, raw: string)
    requires Valid(db) && Legal(db, steps) && Spent(db, raw)
    ensures Settled(db, Run(db, steps), raw)
    decreases |steps|
  {
    if steps != [] {
      StepSettles(db, steps[0], raw);
      HandleKeeps(db, steps[0].request, steps[0].env);
      RunSettles(After(db, steps[0]), steps[1..], raw);
    }
  }

  predicate Presents(r: Request, raw: string) {
    (r.Activate? && r.raw == raw) || (r.CompleteReset? && r.raw == raw)
  }

  predicate Completes(db: Db, s: Step, raw: string) {
    Presents(s.request, raw) && Handle(db, s.request, s.env).1 == Fine
  }

  function Completions(db: Db, steps: seq<Step>, raw: string): nat
    decreases |steps|
  {
    if steps == [] then 0
    else (if Completes(db, steps[0], raw) then 1 else 0) + Completions(After(db, steps[0]), steps[1..], raw)
  }

  /** A completion needs an open, unexpired token of the right purpose, for an inactive local account when it is an
      invitation and an active one when it is a reset; it spends the token. */
  lemma CompletionNeeds(db: Db, s: Step, raw: string)
    requires Valid(db) && s.env.raw !in db.issued && Completes(db, s, raw)
    ensures raw in db.tokens && Open(db.tokens[raw]) && Spent(After(db, s), raw) && s.env.now < db.tokens[raw].expires
    ensures db.tokens[raw].purpose == if s.request.Activate? then Invitation else PasswordReset
    ensures var was := db.users[db.tokens[raw].user]; was.provider == Local && was.active == s.request.CompleteReset?
  {
  }

  /** It closes every open token of the user, of any purpose, and changes only that user's row and tokens: the new
      password, active, in the next epoch. */
  lemma CompletionCloses(db: Db, s: Step, raw: string)
    requires Valid(db) && s.env.raw !in db.issued && Completes(db, s, raw)
    ensures raw in db.tokens
    ensures var user := db.tokens[raw].user; var was := db.users[user]; var t := After(db, s);
            && t.users == db.users[user := User(was.email, Local, Some(s.request.password), true, was.pending, was.version + 1)]
            && (forall r :: r in t.tokens && t.tokens[r].user == user ==> !Open(t.tokens[r]))
            && (forall r :: r in db.tokens && db.tokens[r].user != user ==> r in t.tokens && t.tokens[r] == db.tokens[r])
  {
    CompletionNeeds(db, s, raw);
    assert After(db, s) == Completed(db, raw, s.request.password, s.env.now);
    CompletedKeeps(db, raw, s.request.password, s.env.now);
    CompletedChanges(db, raw, s.request.password, s.env.now);
  }

  lemma {:induction false} SpentCompletesNothing(db: Db, steps: seq<Step>, raw: string)
    requires Valid(db) && Legal(db, steps) && Spent(db, raw)
    ensures Completions(db, steps, raw) == 0
    decreases |steps|
  {
    if steps != [] {
      StepSettles(db, steps[0], raw);
      HandleKeeps(db, steps[0].request, steps[0].env);
      SpentCompletesNothing(After(db, steps[0]), steps[1..], raw);
    }
  }

  /** Over a whole run each token completes at most one operation. */
  lemma {:induction false} CompletesAtMostOnce(db: Db, steps: seq<Step>, raw: string)
    requires Valid(db) && Legal(db, steps)
    ensures Completions(db, steps, raw) <= 1
    decreases |steps|
  {
    if steps != [] {
      HandleKeeps(db, steps[0].request, steps[0].env);
      if Completes(db, steps[0], raw) {
        CompletionNeeds(db, steps[0], raw);
        SpentCompletesNothing(After(db, steps[0]), steps[1..], raw);
      } else {
        CompletesAtMostOnce(After(db, steps[0]), steps[1..], raw);
      }
    }
  }

  /** A step that gives `user` new credentials: an activation, a completed reset, or a self-registration that
      claims the account. */
  predicate Rekeys(db: Db, s: Step, user: nat) {
    Handle(db, s.request, s.env).1 == Fine &&
    match s.request
    case Activate(raw, _) => raw in db.tokens && db.tokens[raw].user == user
    case CompleteReset(raw, _) => raw in db.tokens && db.tokens[raw].user == user
    case SelfRegister(email, _) => email in db.byEmail && db.byEmail[email] == user
    case _ => false
  }

  function Rekeyings(db: Db, steps: seq<Step>, user: nat): nat
    decreases |steps|
  {
    if steps == [] then 0
    else (if Rekeys(db, steps[0], user) then 1 else 0) + Rekeyings(After(db, steps[0]), steps[1..], user)
  }

  function VersionOf(db: Db, user: nat): nat { if user in db.users then db.users[user].version else 0 }

  predicate Deleted(db: Db, user: nat) { user < db.nextId && user !in db.users }

  /** What a step does to the row of `user`, when it rekeys it `n` times. */
  ghost predicate Counts(db: Db, t: Db, user: nat, n: nat) {
    && db.nextId <= t.nextId
    && (Deleted(db, user) ==> Deleted(t, user))
    && (user in t.users ==> t.users[user].version == VersionOf(db, user) + n)
    && (user in db.users && user in t.users ==> t.users[user].email == db.users[user].email)
  }

  lemma CreatedCounts(db: Db, u: User, user: nat)
    requires Valid(db) && u.email !in db.byEmail && u.version == 0
    ensures Counts(db, Created(db, u), user, 0)
  {
  }

  lemma LoginCounts(db: Db, email: string, password: string, env: Env, user: nat)
    requires Valid(db)
    ensures Counts(db, LogIn(db, email, password, env).0, user, 0)
  {
    if db.users == map[] { CreatedCounts(db, User(email, Local, Some(password), true, false, 0), user); }
  }

  lemma CompletionCounts(db: Db, s: Step, user: nat)
    requires Valid(db) && (s.request.Activate? || s.request.CompleteReset?)
    ensures Counts(db, After(db, s), user, if Rekeys(db, s, user) then 1 else 0)
  {
  }

  lemma StepCounts(db: Db, s: Step, user: nat)
    requires Valid(db) && s.env.raw !in db.issued
    ensures Counts(db, After(db, s), user, if Rekeys(db, s, user) then 1 else 0)
  {
    match s.request {
      case Login(email, password) => LoginCounts(db, email, password, s.env, user);
      case Activate(raw, password) => CompletionCounts(db, s, user);
      case CompleteReset(raw, password) => CompletionCounts(db, s, user);
      case SelfRegister(email, password) =>
      case _ =>
    }
  }

  /** The epoch of a row counts exactly the rekeyings since it was created, and its address never changes. */
  lemma {:induction false} EpochCounts(db: Db, steps: seq<Step>, user: nat)
    requires Valid(db) && Legal(db, steps)
    ensures Counts(db, Run(db, steps), user, Rekeyings(db, steps, user))
    decreases |steps|
  {
    if steps != [] {
      StepCounts(db, steps[0], user);
      HandleKeeps(db, steps[0].request, steps[0].env);
      EpochCounts(After(db, steps[0]), steps[1..], user);
    }
  }

  lemma TokensOnlyKeepRow(db: Db, s: Step, user: nat)
    requires Valid(db) && user in db.users && (s.request.Activate? || s.request.CompleteReset?) && !Rekeys(db, s, user)
    ensures user in After(db, s).users && After(db, s).users[user] == db.users[user]
  {
  }

  /** A request changes a row only by rekeying or deleting it. */
  lemma StepKeepsRow(db: Db, s: Step, user: nat)
    requires Valid(db) && user in db.users && !Rekeys(db, s, user)
    ensures user in After(db, s).users ==> After(db, s).users[user] == db.users[user]
  {
    match s.request {
      case Activate(raw, password) => TokensOnlyKeepRow(db, s, user);
      case CompleteReset(raw, password) => TokensOnlyKeepRow(db, s, user);
      case _ =>
    }
  }

  /** Over every run, a row that is not rekeyed and not deleted is as it was. */
  lemma {:induction false} RunKeepsRow(db: Db, steps: seq<Step>, user: nat)
    requires Valid(db) && Legal(db, steps) && user in db.users && user in Run(db, steps).users && Rekeyings(db, steps, user) == 0
    ensures Run(db, steps).users[user] == db.users[user]
    decreases |steps|
  {
    if steps != [] {
      var next := After(db, steps[0]);
      StepKeepsRow(db, steps[0], user);
      HandleKeeps(db, steps[0].request, steps[0].env);
      if user !in next.users {
        StepCounts(db, steps[0], user);
        EpochCounts(next, steps[1..], user);
        assert Deleted(next, user);
      }
      RunKeepsRow(next, steps[1..], user);
    }
  }

  /** In a system with accounts, a login succeeds exactly with the password of a local row that is active or pending. */
  lemma LogsInExactly(db: Db, email: string, password: string, env: Env)
    requires Valid(db) && db.users != map[]
    ensures Handle(db, Login(email, password), env).1.LoggedIn? <==>
            && env.allowed && email in db.byEmail
            && var u := db.users[db.byEmail[email]]; u.provider == Local && u.password == Some(password) && (u.active || u.pending)
  {
  }

  /** Whoever registers an unknown address cannot log in, with any password, until a step of the run activates the
      account. */
  lemma SelfRegisteredWaits(db: Db, register: Step, steps: seq<Step>, password: string, env: Env)
    requires Valid(db) && register.env.raw !in db.issued && register.request.SelfRegister?
    requires register.request.email !in db.byEmail && Handle(db, register.request, register.env).1 == Fine
    requires Legal(After(db, register), steps) && Rekeyings(After(db, register), steps, db.nextId) == 0
    requires db.nextId in Run(After(db, register), steps).users
    ensures Handle(Run(After(db, register), steps), Login(register.request.email, password), env).1 == Denied
  {
    var now := After(db, register);
    var later := Run(now, steps);
    HandleKeeps(db, register.request, register.env);
    RunKeeps(now, steps);
    RunKeepsRow(now, steps, db.nextId);
    LogsInExactly(later, register.request.email, password, env);
  }

  /** While the row that logged in exists, its token is honoured exactly until the next rekeying. */
  lemma OldLoginsAreRejected(db: Db, login: Step, steps: seq<Step>, c: Claims)
    requires Valid(db) && login.env.raw !in db.issued && login.request.Login?
    requires Handle(db, login.request, login.env).1 == LoggedIn(c) && Legal(After(db, login), steps)
    ensures c.email in After(db, login).byEmail
    ensures var user := After(db, login).byEmail[c.email];
            user in Run(After(db, login), steps).users ==>
              (Honoured(Run(After(db, login), steps), c) <==> Rekeyings(After(db, login), steps, user) == 0)
  {
    var now := After(db, login);
    HandleKeeps(db, login.request, login.env);
    var user := now.byEmail[c.email];
    EpochCounts(now, steps, user);
    RunKeeps(now, steps);
  }

  /** The exact condition in general: a row created after the login honours the token too, when it has been
      rekeyed as often as the epoch of the token says. */
  lemma HonouredExactly(db: Db, login: Step, steps: seq<Step>, c: Claims)
    requires Valid(db) && login.env.raw !in db.issued && login.request.Login?
    requires Handle(db, login.request, login.env).1 == LoggedIn(c) && Legal(After(db, login), steps)
    ensures var now := After(db, login); var later := Run(now, steps);
            && c.email in now.byEmail
            && (Honoured(later, c) <==>
                c.email in later.byEmail
                && Rekeyings(now, steps, later.byEmail[c.email]) ==
                   (if later.byEmail[c.email] == now.byEmail[c.email] then 0 else c.version))
  {
    var now := After(db, login);
    var later := Run(now, steps);
    HandleKeeps(db, login.request, login.env);
    RunKeeps(now, steps);
    if c.email in later.byEmail {
      EpochCounts(now, steps, later.byEmail[c.email]);
    }
  }

  function Plain(raw: string): Env { Env(0, true, true, false, raw, 60, "") }

  /** So deleting an account and creating it again revives its old tokens: here the administrator of an empty
      system logs in, is deleted, and the next first login, with another password, honours the old token. */
  lemma RecreatedAccountHonoursOldToken()
    ensures var db := Db(map[], map[], map[], 0, {});
            var login := Step(Login("a", "one"), Plain("x"));
            var steps := [Step(Delete(0), Plain("y")), Step(Login("a", "two"), Plain("z"))];
            && Valid(db) && Legal(After(db, login), steps)
            && Handle(db, login.request, login.env).1 == LoggedIn(Claims("a", 0))
            && Run(After(db, login), steps).users[1].password == Some("two")
            && Honoured(Run(After(db, login), steps), Claims("a", 0))
  {
  }
}
