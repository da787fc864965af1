/** Local accounts: invitations, password resets, logins and their tokens (account_lifecycle.py,
    local_auth.py, security.py and the repositories behind them).  Each request is one atomic step. */
module Lifecycle {
  import opened Wrappers

  datatype Provider = Local | Oidc
  datatype Purpose = Invitation | PasswordReset

  /** `version` is the credential epoch; `pending` says that the role is "pending". */
  datatype User = User(email: string, provider: Provider, password: Option<string>, active: bool, pending: bool, version: nat)

  /** Times are minutes.  A raw token and its hash determine each other, so tokens are keyed by the raw one. */
  datatype Token = Token(user: nat, purpose: Purpose, expires: int, creator: Option<nat>,
                         consumed: Option<int>, revoked: Option<int>)

  /** The tables.  `byEmail` is the unique index on the address; ids are never reused; `issued` holds every
      raw token ever generated, none of which is generated again. */
  datatype Db = Db(users: map<nat, User>, byEmail: map<string, nat>, tokens: map<string, Token>, nextId: nat,
                   issued: set<string>)

  predicate Open(t: Token) { t.consumed.None? && t.revoked.None? }

  predicate Concerns(t: Token, user: nat, purpose: Option<Purpose>) {
    t.user == user && (purpose.Some? ==> t.purpose == purpose.value)
  }

  /** Revoking the open tokens of a user, of one purpose or of all. */
  function Revoked(tokens: map<string, Token>, user: nat, purpose: Option<Purpose>, now: int): map<string, Token> {
    map raw | raw in tokens ::
      if Open(tokens[raw]) && Concerns(tokens[raw], user, purpose) then tokens[raw].(revoked := Some(now)) else tokens[raw]
  }

  function Issued(db: Db, user: nat, purpose: Purpose, raw: string, minutes: int, creator: Option<nat>, now: int): Db {
    db.(tokens := Revoked(db.tokens, user, Some(purpose), now)
                  [raw := Token(user, purpose, now + minutes, creator, None, None)],
        issued := db.issued + {raw})
  }

  function Created(db: Db, u: User): Db {
    db.(users := db.users[db.nextId := u], byEmail := db.byEmail[u.email := db.nextId], nextId := db.nextId + 1)
  }

  /** A token that can be used now: right purpose, open, not expired, its user still there. */
  predicate Usable(db: Db, raw: string, purpose: Purpose, now: int) {
    && raw in db.tokens && db.tokens[raw].purpose == purpose && Open(db.tokens[raw]) && db.tokens[raw].expires > now
    && db.tokens[raw].user in db.users
  }

  /** A completion: new password, next epoch, the token consumed, every other open token revoked. */
  function Completed(db: Db, raw: string, password: string, now: int): Db
    requires raw in db.tokens && db.tokens[raw].user in db.users
  {
    var user := db.tokens[raw].user;
    var u := db.users[user];
    db.(users := db.users[user := u.(password := Some(password), active := true, version := u.version + 1)],
        tokens := Revoked(db.tokens[raw := db.tokens[raw].(consumed := Some(now))], user, None, now))
  }

  /** What the environment decides for a request: the clock, the caller's rights and the configuration
      (`allowed`), the password policy (`strong`), whether delivery is disabled, the token generated and
      its lifetime, and the address of the calling administrator. */
  datatype Env = Env(now: int, allowed: bool, strong: bool, disabled: bool, raw: string, minutes: int, actor: string)

  datatype Request =
    | Invite(email: string)
    | Reissue(user: nat)
    | RevokeInvitation(user: nat)
    | AdminReset(user: nat)
    | Forgot(email: string)
    | Activate(raw: string, password: string)
    | CompleteReset(raw: string, password: string)
    | Login(email: string, password: string)
    | SelfRegister(email: string, password: string)
    | Register(email: string, provider: Provider)
    | Delete(user: nat)

  /** The claims of a local access token that matter here. */
  datatype Claims = Claims(email: string, version: nat)

  datatype Response = Fine | Denied | LoggedIn(claims: Claims)

  /** A local access token is honoured while its address has a row in its epoch. */
  predicate Honoured(db: Db, c: Claims) {
    c.email in db.byEmail && db.byEmail[c.email] in db.users && db.users[db.byEmail[c.email]].version == c.version
  }

  /** The caller's own row, if there is one. */
  function Actor(db: Db, email: string): Option<nat> {
    if email in db.byEmail then Some(db.byEmail[email]) else None
  }

  function InviteUser(db: Db, email: string, env: Env): (Db, Response) {
    if !env.allowed || env.disabled || email in db.byEmail then (db, Denied)
    else
      (Issued(Created(db, User(email, Local, None, false, false, 0)), db.nextId, Invitation, env.raw, env.minutes,
              Actor(db, env.actor), env.now), Fine)
  }

  function ReissueInvitation(db: Db, user: nat, env: Env): (Db, Response) {
    if !env.allowed || user !in db.users || db.users[user].provider != Local || db.users[user].active then (db, Denied)
    else
      // The token is issued before delivery finds that it is disabled.
      (Issued(db, user, Invitation, env.raw, env.minutes, Actor(db, env.actor), env.now), if env.disabled then Denied else Fine)
  }

  function RevokeUserInvitation(db: Db, user: nat, env: Env): (Db, Response) {
    if !env.allowed || user !in db.users then (db, Denied)
    else (db.(tokens := Revoked(db.tokens, user, Some(Invitation), env.now)), Fine)
  }

  function IssueAdminReset(db: Db, user: nat, env: Env): (Db, Response) {
    if !env.allowed || user !in db.users || db.users[user].provider != Local || !db.users[user].active || env.disabled
    then (db, Denied)
    else (Issued(db, user, PasswordReset, env.raw, env.minutes, Actor(db, env.actor), env.now), Fine)
  }

  /** An address whose account can recover its password. */
  predicate Recoverable(db: Db, email: string) {
    email in db.byEmail && db.byEmail[email] in db.users
    && var u := db.users[db.byEmail[email]]; u.provider == Local && u.active && u.password.Some?
  }

  /** An unthrottled recovery request; the answer does not tell whether the address is known. */
  function ForgotPassword(db: Db, email: string, env: Env): (Db, Response) {
    if env.disabled then (db, Denied)
    else if Recoverable(db, email) then (Issued(db, db.byEmail[email], PasswordReset, env.raw, env.minutes, None, env.now), Fine)
    else (db, Fine)
  }

  function ActivateInvitation(db: Db, raw: string, password: string, env: Env): (Db, Response) {
    if !env.strong || !Usable(db, raw, Invitation, env.now) then (db, Denied)
    else
      var u := db.users[db.tokens[raw].user];
      if u.provider != Local || u.active then (db, Denied) else (Completed(db, raw, password, env.now), Fine)
  }

  function CompletePasswordReset(db: Db, raw: string, password: string, env: Env): (Db, Response) {
    if !env.strong || !Usable(db, raw, PasswordReset, env.now) then (db, Denied)
    else
      var u := db.users[db.tokens[raw].user];
      if u.provider != Local || !u.active then (db, Denied) else (Completed(db, raw, password, env.now), Fine)
  }

  /** The first login of an empty system creates its administrator. */
  function LogIn(db: Db, email: string, password: string, env: Env): (Db, Response) {
    if !env.allowed || (db.users == map[] && !env.strong) then (db, Denied)
    else
      var db' := if db.users == map[] then Created(db, User(email, Local, Some(password), true, false, 0)) else db;
      if email !in db'.byEmail || db'.byEmail[email] !in db'.users then (db', Denied)
      else
        var u := db'.users[db'.byEmail[email]];
        if u.provider != Local || u.password != Some(password) || (!u.active && !u.pending) then (db', Denied)
        else (db', LoggedIn(Claims(u.email, u.version)))
  }

  function SelfRegisterUser(db: Db, email: string, password: string, env: Env): (Db, Response) {
    if !env.allowed then (db, Denied)
    else if email in db.byEmail && db.byEmail[email] in db.users then
      var id := db.byEmail[email];
      var u := db.users[id];
      if u.provider != Local || u.password.Some? || !env.disabled then (db, Denied)
      else (db.(users := db.users[id := u.(password := Some(password), active := true, version := u.version + 1)]), Fine)
    else (Created(db, User(email, Local, Some(password), false, false, 0)), Fine)
  }

  function RegisterUser(db: Db, email: string, provider: Provider, env: Env): (Db, Response) {
    if !env.allowed || email in db.byEmail then (db, Denied)
    else (Created(db, User(email, provider, None, provider == Oidc, false, 0)), Fine)
  }

  /** Deleting a user deletes the tokens of the user and detaches those the user created for others. */
  function DeleteUser(db: Db, user: nat, env: Env): (Db, Response) {
    if !env.allowed || user !in db.users then (db, Denied)
    else
      (db.(users := db.users - {user}, byEmail := db.byEmail - {db.users[user].email},
           tokens := map raw | raw in db.tokens && db.tokens[raw].user != user ::
             if db.tokens[raw].creator == Some(user) then db.tokens[raw].(creator := None) else db.tokens[raw]), Fine)
  }

  function Handle(db: Db, r: Request, env: Env): (Db, Response) {
    match r
    case Invite(email) => InviteUser(db, email, env)
    case Reissue(user) => ReissueInvitation(db, user, env)
    case RevokeInvitation(user) => RevokeUserInvitation(db, user, env)
    case AdminReset(user) => IssueAdminReset(db, user, env)
    case Forgot(email) => ForgotPassword(db, email, env)
    case Activate(raw, password) => ActivateInvitation(db, raw, password, env)
    case CompleteReset(raw, password) => CompletePasswordReset(db, raw, password, env)
    case Login(email, password) => LogIn(db, email, password, env)
    case SelfRegister(email, password) => SelfRegisterUser(db, email, password, env)
    case Register(email, provider) => RegisterUser(db, email, provider, env)
    case Delete(user) => DeleteUser(db, user, env)
  }

  /** The tables hang together: the address index, and tokens that refer to existing users. */
  ghost predicate Linked(db: Db) {
    && (forall e :: e in db.byEmail ==> db.byEmail[e] in db.users && db.users[db.byEmail[e]].email == e)
    && (forall id :: id in db.users ==> id < db.nextId && db.users[id].email in db.byEmail && db.byEmail[db.users[id].email] == id)
    && (forall raw :: raw in db.tokens ==> raw in db.issued && db.tokens[raw].user in db.users)
    && (forall raw :: raw in db.tokens ==> db.tokens[raw].creator.Some? ==> db.tokens[raw].creator.value in db.users)
  }

  /** No token is both consumed and revoked, and a user has at most one open token of each purpose. */
  ghost predicate SingleUse(tokens: map<string, Token>) {
    && (forall raw :: raw in tokens ==> tokens[raw].consumed.None? || tokens[raw].revoked.None?)
    && (forall a, b | a in tokens && b in tokens && Open(tokens[a]) && Open(tokens[b]) ::
          tokens[a].user == tokens[b].user && tokens[a].purpose == tokens[b].purpose ==> a == b)
  }

  /** `raw` is the one open token of this user and purpose. */
  ghost predicate OnlyOpen(tokens: map<string, Token>, user: nat, purpose: Purpose, raw: string) {
    && raw in tokens && Open(tokens[raw]) && Concerns(tokens[raw], user, Some(purpose))
    && forall r :: r in tokens && Open(tokens[r]) && Concerns(tokens[r], user, Some(purpose)) ==> r == raw
  }

  ghost predicate NoneOpen(tokens: map<string, Token>, user: nat, purpose: Option<Purpose>) {
    forall r :: r in tokens && Concerns(tokens[r], user, purpose) ==> !Open(tokens[r])
  }

  /** Tokens of other users and purposes are as they were. */
  ghost predicate OthersKept(before: map<string, Token>, after: map<string, Token>, user: nat, purpose: Option<Purpose>) {
    forall r :: r in before && !Concerns(before[r], user, purpose) ==> r in after && after[r] == before[r]
  }

  /** Apart from `raw`, exactly the open tokens of the user and purpose are closed now; the others are as they were. */
  ghost predicate ClosedNow(before: map<string, Token>, after: map<string, Token>, user: nat, purpose: Option<Purpose>, now: int, raw: string) {
    forall r :: r in before && r != raw ==>
      r in after
      && var t := before[r];
         var concerned := t.user == user && (purpose.None? || t.purpose == purpose.value) && t.consumed.None? && t.revoked.None?;
         after[r] == Token(t.user, t.purpose, t.expires, t.creator, t.consumed, if concerned then Some(now) else t.revoked)
  }

  ghost predicate Valid(db: Db) {
    Linked(db) && SingleUse(db.tokens)
  }

  lemma RevokedKeeps(tokens: map<string, Token>, user: nat, purpose: Option<Purpose>, now: int)
    requires SingleUse(tokens)
    ensures SingleUse(Revoked(tokens, user, purpose, now))
    ensures forall raw :: raw in tokens && Concerns(tokens[raw], user, purpose) ==> !Open(Revoked(tokens, user, purpose, now)[raw])
  {
  }

  lemma CreatedKeeps(db: Db, u: User)
    requires Valid(db) && u.email !in db.byEmail
    ensures Valid(Created(db, u))
  {
  }

  lemma IssuedKeeps(db: Db, user: nat, purpose: Purpose, raw: string, minutes: int, creator: Option<nat>, now: int)
    requires Valid(db) && user in db.users && raw !in db.issued && (creator.Some? ==> creator.value in db.users)
    ensures Valid(Issued(db, user, purpose, raw, minutes, creator, now))
  {
    RevokedKeeps(db.tokens, user, Some(purpose), now);
  }

  /** A new token supersedes: it is usable exactly until its lifetime ends, no other token of its user and purpose is
      usable any more, and the tokens of other users and purposes are as they were. */
  lemma IssueSupersedes(db: Db, user: nat, purpose: Purpose, raw: string, minutes: int, creator: Option<nat>, now: int)
    requires Valid(db) && user in db.users && raw !in db.issued
    ensures var after := Issued(db, user, purpose, raw, minutes, creator, now);
            && (forall t :: Usable(after, raw, purpose, t) <==> t < now + minutes)
            && (forall r, t :: Usable(after, r, purpose, t) && after.tokens[r].user == user ==> r == raw)
            && (forall r :: r in db.tokens && !Concerns(db.tokens[r], user, Some(purpose)) ==> after.tokens[r] == db.tokens[r])
  {
  }

  lemma CompletedLinked(db: Db, raw: string, password: string, now: int)
    requires Linked(db) && raw in db.tokens
    ensures Linked(Completed(db, raw, password, now))
  {
  }

  lemma CompletedKeeps(db: Db, raw: string, password: string, now: int)
    requires Valid(db) && raw in db.tokens && Open(db.tokens[raw])
    ensures Valid(Completed(db, raw, password, now))
    ensures forall r :: r in db.tokens && db.tokens[r].user == db.tokens[raw].user ==> !Open(Completed(db, raw, password, now).tokens[r])
  {
    CompletedLinked(db, raw, password, now);
    var consumed := db.tokens[raw := db.tokens[raw].(consumed := Some(now))];
    assert SingleUse(consumed);
    RevokedKeeps(consumed, db.tokens[raw].user, None, now);
  }

  /** Only the row and the tokens of the completing user change. */
  lemma CompletedChanges(db: Db, raw: string, password: string, now: int)
    requires Valid(db) && raw in db.tokens
    ensures var user := db.tokens[raw].user; var was := db.users[user]; var t := Completed(db, raw, password, now);
            && t.users == db.users[user := User(was.email, was.provider, Some(password), true, was.pending, was.version + 1)]
            && t.tokens.Keys == db.tokens.Keys
            && (forall r :: r in db.tokens && db.tokens[r].user != user ==> t.tokens[r] == db.tokens[r])
            && (forall r :: r in db.tokens ==> t.tokens[r].user == db.tokens[r].user)
  {
  }

  lemma DeleteKeeps(db: Db, user: nat, env: Env)
    requires Valid(db)
    ensures Valid(DeleteUser(db, user, env).0)
  {
  }

  lemma InviteKeeps(db: Db, email: string, env: Env)
    requires Valid(db) && env.raw !in db.issued
    ensures Valid(InviteUser(db, email, env).0)
  {
    if email !in db.byEmail {
      var u := User(email, Local, None, false, false, 0);
      CreatedKeeps(db, u);
      IssuedKeeps(Created(db, u), db.nextId, Invitation, env.raw, env.minutes, Actor(db, env.actor), env.now);
    }
  }

  lemma ReissueKeeps(db: Db, user: nat, env: Env)
    requires Valid(db) && env.raw !in db.issued
    ensures Valid(ReissueInvitation(db, user, env).0)
  {
    if user in db.users { IssuedKeeps(db, user, Invitation, env.raw, env.minutes, Actor(db, env.actor), env.now); }
  }

  lemma AdminResetKeeps(db: Db, user: nat, env: Env)
    requires Valid(db) && env.raw !in db.issued
    ensures Valid(IssueAdminReset(db, user, env).0)
  {
    if user in db.users { IssuedKeeps(db, user, PasswordReset, env.raw, env.minutes, Actor(db, env.actor), env.now); }
  }

  lemma ForgotKeeps(db: Db, email: string, env: Env)
    requires Valid(db) && env.raw !in db.issued
    ensures Valid(ForgotPassword(db, email, env).0)
  {
    if email in db.byEmail { IssuedKeeps(db, db.byEmail[email], PasswordReset, env.raw, env.minutes, None, env.now); }
  }

  lemma RevokeKeeps(db: Db, user: nat, env: Env)
    requires Valid(db)
    ensures Valid(RevokeUserInvitation(db, user, env).0)
  {
  }

  lemma CompletionsKeep(db: Db, raw: string, password: string, env: Env)
    requires Valid(db)
    ensures Valid(ActivateInvitation(db, raw, password, env).0)
    ensures Valid(CompletePasswordReset(db, raw, password, env).0)
  {
    if raw in db.tokens && Open(db.tokens[raw]) { CompletedKeeps(db, raw, password, env.now); }
  }

  lemma LoginKeeps(db: Db, email: string, password: string, env: Env)
    requires Valid(db)
    ensures Valid(LogIn(db, email, password, env).0)
  {
    if db.users == map[] { CreatedKeeps(db, User(email, Local, Some(password), true, false, 0)); }
  }

  lemma RegistrationsKeep(db: Db, email: string, password: string, provider: Provider, env: Env)
    requires Valid(db)
    ensures Valid(SelfRegisterUser(db, email, password, env).0)
    ensures Valid(RegisterUser(db, email, provider, env).0)
  {
    if email !in db.byEmail {
      CreatedKeeps(db, User(email, Local, Some(password), false, false, 0));
      CreatedKeeps(db, User(email, provider, None, provider == Oidc, false, 0));
    }
  }

  /** Every request keeps the tables valid. */
  lemma HandleKeeps(db: Db, r: Request, env: Env)
    requires Valid(db) && env.raw !in db.issued
    ensures Valid(Handle(db, r, env).0)
  {
    match r {
      case Invite(email) => InviteKeeps(db, email, env);
      case Reissue(user) => ReissueKeeps(db, user, env);
      case RevokeInvitation(user) => RevokeKeeps(db, user, env);
      case AdminReset(user) => AdminResetKeeps(db, user, env);
      case Forgot(email) => ForgotKeeps(db, email, env);
      case Activate(raw, password) => CompletionsKeep(db, raw, password, env);
      case CompleteReset(raw, password) => CompletionsKeep(db, raw, password, env);
      case Login(email, password) => LoginKeeps(db, email, password, env);
      case SelfRegister(email, password) => RegistrationsKeep(db, email, password, Local, env);
      case Register(email, provider) => RegistrationsKeep(db, email, "", provider, env);
      case Delete(user) => DeleteKeeps(db, user, env);
    }
  }
}
