/** Credential rotation for the Ingress of one deployment (update_access and _reconcile_access in
    access.py), as a state machine over its Kubernetes API calls.

    Any number of updates may run at once; each makes one API call per step.  A call is done, definitively
    rejected, or ends in an error that leaves open whether it was committed.  The safety theorem says that
    the live Ingress never names a missing Secret or a Secret without its Middleware. */
module Exposure {
  import opened Wrappers

  type Name = string

  /** `owned`: carries this deployment's owner label.  `users`: holds credentials. */
  datatype Secret = Secret(uid: nat, owned: bool, users: bool)

  /** A Middleware goes when the Secret that owns it goes.  `intact`: label and spec are as generated. */
  datatype Middleware = Middleware(owner: Option<nat>, intact: bool)

  /** `auth` names the Secret in this system's annotation, `legacy` the one in nginx's. */
  datatype Ingress = Ingress(version: nat, auth: Option<Name>, legacy: Option<Name>, host: string)

  /** The namespace of the deployment.  Names are never given out twice; versions and uids neither. */
  datatype Cluster = Cluster(secrets: map<Name, Secret>, middlewares: map<Name, Middleware>, ingress: Option<Ingress>,
                             used: set<Name>, nextUid: nat, nextVersion: nat)

  /** `password`: new credentials were supplied. */
  datatype Request = Request(host: Option<string>, basicAuth: bool, password: bool)

  datatype Stage =
    | Begin            // nothing read
    | Loaded           // the Ingress was read
    | Prepared         // credentials chosen, everything validated, nothing written
    | SecretMade       // a new Secret exists
    | Routable         // the Middleware exists, or none is needed
    | Undo             // a write was refused: look up the new Secret to delete it
    | UndoDelete
    | Written          // the Ingress is as requested; the instance row is next
    | Cleanup          // look up the obsolete Secret
    | CleanupDelete
    | Finished(result: Result)

  datatype Result = Success | Invalid | Refused | Unknown | Unclean

  /** One run of update_access. */
  datatype Process = Process(stage: Stage, request: Request, previous: Option<Ingress>, retained: Option<Name>,
                             own: Option<Name>, obsolete: Option<Name>)

  /** How an API call ends: `ServerError` is an API error that is no definitive rejection, `Transport` a
      connection failure; both leave open whether the call was committed. */
  datatype Outcome = Done | Rejected | ServerError(committed: bool) | Transport(committed: bool)

  /** What the environment decides in one step: validation results, the generated name, the call's outcome. */
  datatype Move = Move(valid: bool, name: Name, outcome: Outcome)

  function OldSecret(previous: Option<Ingress>): Option<Name> {
    match previous
    case None => None
    case Some(i) => if i.auth.Some? then i.auth else i.legacy
  }

  predicate Committed(o: Outcome) {
    o.Done? || ((o.ServerError? || o.Transport?) && o.committed)
  }

  /** The resourceVersion precondition: the Ingress is still the one that was read. */
  predicate Matches(c: Cluster, previous: Option<Ingress>) {
    match previous
    case None => c.ingress.None?
    case Some(i) => c.ingress.Some? && c.ingress.value.version == i.version
  }

  function PutSecret(c: Cluster, n: Name): Cluster {
    c.(secrets := c.secrets[n := Secret(c.nextUid, true, true)], nextUid := c.nextUid + 1)
  }

  function PutMiddleware(c: Cluster, n: Name): Cluster
    requires n in c.secrets
  {
    c.(middlewares := c.middlewares[n := Middleware(Some(c.secrets[n].uid), true)])
  }

  function PutIngress(c: Cluster, auth: Option<Name>, host: string): Cluster {
    c.(ingress := Some(Ingress(c.nextVersion, auth, None, host)), nextVersion := c.nextVersion + 1)
  }

  /** Deleting a Secret deletes the Middlewares it owns. */
  function DropSecret(c: Cluster, n: Name): Cluster {
    if n !in c.secrets then c
    else c.(secrets := c.secrets - {n},
            middlewares := map m | m in c.middlewares && c.middlewares[m].owner != Some(c.secrets[n].uid) :: c.middlewares[m])
  }

  function Ends(p: Process, result: Result): Process { p.(stage := Finished(result)) }

  function Auth(p: Process): Option<Name> {
    if p.own.Some? then p.own else p.retained
  }

  /** What the environment may decide in this state: names are fresh, and a write is committed only when
      its preconditions hold. */
  predicate Enabled(c: Cluster, p: Process, m: Move) {
    match p.stage
    case Loaded => m.name !in c.used
    case Prepared =>
      if p.request.host.None? then p.previous.Some? && Committed(m.outcome) ==> Matches(c, p.previous)
      else p.own.Some? && Committed(m.outcome) ==> p.own.value !in c.secrets
    case SecretMade => Committed(m.outcome) ==> p.own.Some? && p.own.value in c.secrets && p.own.value !in c.middlewares
    case Routable => Committed(m.outcome) ==> Matches(c, p.previous)
    case _ => true
  }

  /** Choose credentials: new ones, the ones in use, or none. */
  function Choose(c: Cluster, p: Process, m: Move): Process {
    var r := p.request;
    var current := OldSecret(p.previous);
    var keep := r.basicAuth && !r.password && current.Some?;
    if keep && current.value !in c.secrets then Ends(p, Invalid)
    else
      var retained := if keep && c.secrets[current.value].owned && c.secrets[current.value].users then current else None;
      if r.host.Some? && r.basicAuth && !r.password && retained.None? then Ends(p, Invalid)
      else
        var own := if r.host.Some? && r.basicAuth && r.password then Some(m.name) else None;
        p.(stage := Prepared, retained := retained, own := own,
           obsolete := if current != retained then current else None)
  }

  /** One API call (or local decision) of one run. */
  function Next(c: Cluster, p: Process, m: Move): (Cluster, Process)
    requires Enabled(c, p, m)
  {
    match p.stage
    case Begin =>
      if !m.valid then (c, Ends(p, Invalid)) else (c, p.(stage := Loaded, previous := c.ingress))
    case Loaded =>
      if !m.valid then (c, Ends(p, Invalid)) else (c.(used := c.used + {m.name}), Choose(c, p, m))
    case Prepared =>
      if p.request.host.None? then
        if p.previous.None? then (c, p.(stage := Written))
        else
          (if Committed(m.outcome) then c.(ingress := None) else c,
           if m.outcome.Done? then p.(stage := Written) else Ends(p, if m.outcome.Rejected? then Refused else Unknown))
      else if p.own.Some? then
        (if Committed(m.outcome) then PutSecret(c, p.own.value) else c,
         if m.outcome.Done? then p.(stage := SecretMade) else Ends(p, if m.outcome.Rejected? then Refused else Unknown))
      else if p.retained.Some? && !(m.valid && p.retained.value in c.middlewares && c.middlewares[p.retained.value].intact) then
        (c, Ends(p, Invalid))
      else (c, p.(stage := Routable))
    case SecretMade =>
      (if Committed(m.outcome) then PutMiddleware(c, p.own.value) else c,
       match m.outcome
       case Done => p.(stage := Routable)
       case Transport(_) => Ends(p, Unknown)
       case _ => p.(stage := Undo))
    case Routable =>
      (if Committed(m.outcome) then PutIngress(c, Auth(p), p.request.host.GetOr("")) else c,
       match m.outcome
       case Done => p.(stage := Written)
       case Rejected => if p.own.Some? then p.(stage := Undo) else Ends(p, Refused)
       case _ => Ends(p, Unknown))
    case Undo =>
      if !m.outcome.Done? then (c, Ends(p, Unclean))
      else if p.own.Some? && p.own.value in c.secrets && c.secrets[p.own.value].owned then (c, p.(stage := UndoDelete))
      else (c, Ends(p, Refused))
    case UndoDelete =>
      (if p.own.Some? && Committed(m.outcome) then DropSecret(c, p.own.value) else c,
       Ends(p, if m.outcome.Done? then Refused else Unclean))
    case Written =>
      (c, if m.valid then p.(stage := Cleanup) else Ends(p, Unclean))
    case Cleanup =>
      if p.obsolete.None? then (c, Ends(p, Success))
      else if !m.outcome.Done? then (c, Ends(p, Unclean))
      else if p.obsolete.value in c.secrets && c.secrets[p.obsolete.value].owned then (c, p.(stage := CleanupDelete))
      else (c, Ends(p, Success))
    case CleanupDelete =>
      (if p.obsolete.Some? && Committed(m.outcome) then DropSecret(c, p.obsolete.value) else c,
       Ends(p, if m.outcome.Done? then Success else Unclean))
    case Finished(_) => (c, p)
  }

  /** The Secrets an Ingress names. */
  function Named(i: Option<Ingress>): set<Name> {
    match i
    case None => {}
    case Some(i) => (if i.auth.Some? then {i.auth.value} else {}) + (if i.legacy.Some? then {i.legacy.value} else {})
  }

  /** The new Secret of a run while only that run knows its name. */
  function Own(p: Process): set<Name> {
    if p.own.Some? && (p.stage.Prepared? || p.stage.SecretMade? || p.stage.Routable? || p.stage.Undo? || p.stage.UndoDelete?)
    then {p.own.value} else {}
  }

  /** The Secret a run is about to delete because the Ingress no longer uses it. */
  function Pending(p: Process): set<Name> {
    if p.obsolete.Some? && (p.stage.Written? || p.stage.Cleanup? || p.stage.CleanupDelete?)
    then {p.obsolete.value} else {}
  }

  /** A Secret with the Middleware that enforces it. */
  predicate Guarded(c: Cluster, n: Name) {
    n in c.secrets && n in c.middlewares
  }

  /** A Secret with its Middleware as generated: nobody gets past it without the credentials. */
  predicate Enforces(c: Cluster, n: Name) {
    Guarded(c, n) && c.middlewares[n].intact
  }

  /** The live Ingress, if it names an auth Secret, names one that exists with its Middleware. */
  predicate Safe(c: Cluster) {
    c.ingress.Some? && c.ingress.value.auth.Some? ==> Guarded(c, c.ingress.value.auth.value)
  }

  /** Uids identify Secrets, and a Middleware owned by a live Secret bears that Secret's name. */
  ghost predicate Sound(c: Cluster) {
    && c.secrets.Keys + c.middlewares.Keys + Named(c.ingress) <= c.used
    && (c.ingress.Some? ==> c.ingress.value.version < c.nextVersion)
    && (forall n :: n in c.secrets ==> c.secrets[n].uid < c.nextUid)
    && (forall m, n :: m in c.secrets && n in c.secrets && c.secrets[m].uid == c.secrets[n].uid ==> m == n)
    && (forall m :: m in c.middlewares ==> c.middlewares[m].owner.Some? ==> c.middlewares[m].owner.value < c.nextUid)
    && (forall m, n :: m in c.middlewares && n in c.secrets && c.middlewares[m].owner == Some(c.secrets[n].uid) ==> m == n)
  }

  /** What one run knows agrees with the cluster. */
  ghost predicate Knows(c: Cluster, p: Process) {
    && Named(p.previous) + Own(p) + Pending(p) <= c.used
    && (p.previous.Some? ==> p.previous.value.version < c.nextVersion)
    && (p.previous.Some? && c.ingress.Some? && p.previous.value.version == c.ingress.value.version ==> p.previous == c.ingress)
    && Own(p) !! Named(c.ingress) && Pending(p) !! Named(c.ingress)
    && (p.own.Some? ==> p.retained.None?) && (p.retained.Some? ==> p.retained == OldSecret(p.previous))
    && (p.obsolete.Some? ==> p.obsolete == OldSecret(p.previous) && p.retained.None?)
    && (!p.stage.Begin? && !p.stage.Loaded? && !p.stage.Finished? && OldSecret(p.previous).Some? ==>
          p.retained.Some? || p.obsolete == OldSecret(p.previous))
    && Own(p) !! Named(p.previous)
    && (p.stage.Begin? || p.stage.Loaded? ==> p.own.None? && p.retained.None? && p.obsolete.None?)
    && (p.stage.SecretMade? ==> p.own.Some? && p.own.value in c.secrets)
    && (p.stage.Routable? && p.own.Some? ==> Enforces(c, p.own.value))
    && (p.stage.Prepared? && p.retained.Some? && Matches(c, p.previous) ==> p.retained.value in c.secrets)
    && (p.stage.Routable? && p.retained.Some? && Matches(c, p.previous) ==> Enforces(c, p.retained.value))
  }

  /** A name that is still private to one run is unknown to the others. */
  ghost predicate Apart(p: Process, q: Process) {
    Own(p) !! Named(q.previous) + Own(q) + Pending(q)
  }

  datatype System = System(cluster: Cluster, runs: map<nat, Process>)

  ghost predicate Inv(s: System) {
    && Safe(s.cluster) && Sound(s.cluster)
    && (forall i :: i in s.runs ==> Knows(s.cluster, s.runs[i]))
    && (forall i, j :: i in s.runs && j in s.runs && i != j ==> Apart(s.runs[i], s.runs[j]))
  }

  /** One step of one of the runs. */
  function Step(s: System, i: nat, m: Move): System
    requires i in s.runs && Enabled(s.cluster, s.runs[i], m)
  {
    var (c, p) := Next(s.cluster, s.runs[i], m);
    System(c, s.runs[i := p])
  }

  lemma PutSecretSound(c: Cluster, n: Name)
    requires Sound(c) && n in c.used && n !in c.secrets
    ensures Sound(PutSecret(c, n)) && (Safe(c) ==> Safe(PutSecret(c, n)))
  {
  }

  lemma PutMiddlewareSound(c: Cluster, n: Name)
    requires Sound(c) && n in c.secrets
    ensures Sound(PutMiddleware(c, n)) && (Safe(c) ==> Safe(PutMiddleware(c, n)))
  {
  }

  lemma PutIngressSound(c: Cluster, auth: Option<Name>, host: string)
    requires Sound(c) && (auth.Some? ==> Guarded(c, auth.value))
    ensures Sound(PutIngress(c, auth, host)) && Safe(PutIngress(c, auth, host))
  {
  }

  /** Deleting a Secret takes away its own Middleware only. */
  lemma DropSecretSound(c: Cluster, n: Name)
    requires Sound(c)
    ensures Sound(DropSecret(c, n))
    ensures forall o :: o != n && Guarded(c, o) ==> Guarded(DropSecret(c, n), o)
    ensures forall o :: o != n && Enforces(c, o) ==> Enforces(DropSecret(c, n), o)
    ensures forall o :: o != n && o in c.secrets ==> o in DropSecret(c, n).secrets
  {
  }

  lemma BeginKeeps(c: Cluster, p: Process, m: Move)
    requires p.stage.Begin? && Knows(c, p) && (c.ingress.Some? ==> c.ingress.value.version < c.nextVersion) && Named(c.ingress) <= c.used
    ensures Next(c, p, m).0 == c && Knows(c, Next(c, p, m).1)
  {
  }

  lemma LookKeeps(c: Cluster, p: Process, m: Move)
    requires (p.stage.Undo? || p.stage.Written? || p.stage.Cleanup? || p.stage.Finished?) && Knows(c, p)
    ensures Next(c, p, m).0 == c && Knows(c, Next(c, p, m).1)
  {
  }

  /** A step that only decides something locally. */
  lemma LocalKeeps(c: Cluster, p: Process, m: Move)
    requires p.stage.Begin? || p.stage.Undo? || p.stage.Written? || p.stage.Cleanup? || p.stage.Finished?
    requires Knows(c, p) && (c.ingress.Some? ==> c.ingress.value.version < c.nextVersion) && Named(c.ingress) <= c.used
    ensures Next(c, p, m).0 == c && Knows(c, Next(c, p, m).1)
  {
    if p.stage.Begin? { BeginKeeps(c, p, m); } else { LookKeeps(c, p, m); }
  }

  lemma LoadedKeeps(c: Cluster, p: Process, m: Move)
    requires p.stage.Loaded? && Knows(c, p) && Enabled(c, p, m) && Named(c.ingress) <= c.used
    ensures Knows(Next(c, p, m).0, Next(c, p, m).1)
  {
  }

  lemma PreparedWithdraws(c: Cluster, p: Process, m: Move)
    requires p.stage.Prepared? && p.request.host.None? && Knows(c, p) && Enabled(c, p, m)
    ensures Knows(Next(c, p, m).0, Next(c, p, m).1)
  {
  }

  lemma PreparedCreates(c: Cluster, p: Process, m: Move)
    requires p.stage.Prepared? && p.request.host.Some? && p.own.Some? && Knows(c, p) && Enabled(c, p, m)
    ensures Knows(Next(c, p, m).0, Next(c, p, m).1)
  {
  }

  lemma PreparedRetains(c: Cluster, p: Process, m: Move)
    requires p.stage.Prepared? && p.request.host.Some? && p.own.None? && Safe(c) && Knows(c, p)
    ensures Knows(Next(c, p, m).0, Next(c, p, m).1)
  {
  }

  lemma PreparedKeeps(c: Cluster, p: Process, m: Move)
    requires p.stage.Prepared? && Safe(c) && Knows(c, p) && Enabled(c, p, m)
    ensures Knows(Next(c, p, m).0, Next(c, p, m).1)
  {
    if p.request.host.None? {
      PreparedWithdraws(c, p, m);
    } else if p.own.Some? {
      PreparedCreates(c, p, m);
    } else {
      PreparedRetains(c, p, m);
    }
  }

  lemma SecretMadeKeeps(c: Cluster, p: Process, m: Move)
    requires p.stage.SecretMade? && Knows(c, p) && Enabled(c, p, m)
    ensures Knows(Next(c, p, m).0, Next(c, p, m).1)
  {
  }

  lemma RoutableKeeps(c: Cluster, p: Process, m: Move)
    requires p.stage.Routable? && Knows(c, p) && Enabled(c, p, m)
    ensures Knows(Next(c, p, m).0, Next(c, p, m).1)
  {
  }

  lemma DeleteKeeps(c: Cluster, p: Process, m: Move)
    requires (p.stage.UndoDelete? || p.stage.CleanupDelete?) && Knows(c, p)
    ensures Knows(Next(c, p, m).0, Next(c, p, m).1)
  {
  }

  /** The kinds of effect a step has on the cluster. */
  datatype Effect = Local | NewSecret(n: Name) | NewMiddleware(n: Name) | NewIngress(auth: Option<Name>, host: string)
                  | NoIngress | Dropped(n: Name)

  function EffectOf(c: Cluster, p: Process, m: Move): Effect {
    if !Committed(m.outcome) then Local
    else match p.stage
      case Prepared =>
        if p.request.host.None? then (if p.previous.Some? then NoIngress else Local)
        else if p.own.Some? then NewSecret(p.own.value) else Local
      case SecretMade => if p.own.Some? then NewMiddleware(p.own.value) else Local
      case Routable => NewIngress(Auth(p), p.request.host.GetOr(""))
      case UndoDelete => if p.own.Some? then Dropped(p.own.value) else Local
      case CleanupDelete => if p.obsolete.Some? then Dropped(p.obsolete.value) else Local
      case _ => Local
  }

  lemma EffectIs(c: Cluster, p: Process, m: Move)
    requires Enabled(c, p, m)
    ensures Next(c, p, m).0 == match EffectOf(c, p, m)
                               case Local => c.(used := Next(c, p, m).0.used)
                               case NewSecret(n) => PutSecret(c, n)
                               case NewMiddleware(n) => if n in c.secrets then PutMiddleware(c, n) else c
                               case NewIngress(auth, host) => PutIngress(c, auth, host)
                               case NoIngress => c.(ingress := None)
                               case Dropped(n) => DropSecret(c, n)
    ensures c.used <= Next(c, p, m).0.used
  {
  }

  lemma ClusterKeeps(c: Cluster, p: Process, m: Move)
    requires Safe(c) && Sound(c) && Knows(c, p) && Enabled(c, p, m)
    ensures Safe(Next(c, p, m).0) && Sound(Next(c, p, m).0)
  {
    EffectIs(c, p, m);
    match EffectOf(c, p, m) {
      case NewSecret(n) => PutSecretSound(c, n);
      case NewMiddleware(n) => if n in c.secrets { PutMiddlewareSound(c, n); }
      case NewIngress(auth, host) => PutIngressSound(c, auth, host);
      case Dropped(n) => DropSecretSound(c, n);
      case _ =>
    }
  }

  lemma MoverKeeps(c: Cluster, p: Process, m: Move)
    requires Safe(c) && Sound(c) && Knows(c, p) && Enabled(c, p, m)
    ensures Safe(Next(c, p, m).0) && Sound(Next(c, p, m).0) && Knows(Next(c, p, m).0, Next(c, p, m).1)
  {
    ClusterKeeps(c, p, m);
    match p.stage {
      case Loaded => LoadedKeeps(c, p, m);
      case Prepared => PreparedKeeps(c, p, m);
      case SecretMade => SecretMadeKeeps(c, p, m);
      case Routable => RoutableKeeps(c, p, m);
      case UndoDelete => DeleteKeeps(c, p, m);
      case CleanupDelete => DeleteKeeps(c, p, m);
      case _ => LocalKeeps(c, p, m);
    }
  }

  lemma ReadFootprint(c: Cluster, p: Process, m: Move)
    requires Knows(c, p) && Enabled(c, p, m) && (p.stage.Begin? || p.stage.Loaded? || p.stage.Finished?)
    ensures var p' := Next(c, p, m).1;
            && Own(p') <= Own(p) + (if p.stage.Loaded? then {m.name} else {})
            && Named(p'.previous) <= Named(p.previous) + Named(c.ingress)
            && Pending(p') <= Pending(p) + Named(p.previous)
  {
  }

  /** Later steps keep what was read and chosen. */
  lemma LaterFootprint(c: Cluster, p: Process, m: Move)
    requires Knows(c, p) && Enabled(c, p, m) && !p.stage.Begin? && !p.stage.Loaded? && !p.stage.Finished?
    ensures var p' := Next(c, p, m).1;
            && p'.previous == p.previous && p'.own == p.own && p'.obsolete == p.obsolete
            && Own(p') <= Own(p) && Pending(p') <= Pending(p) + Named(p.previous)
  {
  }

  /** The names a run comes to know in one step. */
  lemma Footprint(c: Cluster, p: Process, m: Move)
    requires Knows(c, p) && Enabled(c, p, m)
    ensures var p' := Next(c, p, m).1;
            && Own(p') <= Own(p) + (if p.stage.Loaded? then {m.name} else {})
            && Named(p'.previous) <= Named(p.previous) + Named(c.ingress)
            && Pending(p') <= Pending(p) + Named(p.previous)
  {
    if p.stage.Begin? || p.stage.Loaded? || p.stage.Finished? { ReadFootprint(c, p, m); } else { LaterFootprint(c, p, m); }
  }

  lemma StaysApart(c: Cluster, p: Process, m: Move, q: Process)
    requires Knows(c, p) && Knows(c, q) && Apart(p, q) && Apart(q, p) && Enabled(c, p, m)
    ensures Apart(Next(c, p, m).1, q) && Apart(q, Next(c, p, m).1)
  {
    Footprint(c, p, m);
    var known := Named(q.previous) + Own(q) + Pending(q);
    assert p.stage.Loaded? ==> m.name !in known;
    assert Own(Next(c, p, m).1) !! known;
    assert Own(q) !! Named(p.previous) && Own(q) !! Own(p) && Own(q) !! Pending(p);
  }

  lemma NewIngressKnown(c: Cluster, p: Process, q: Process, auth: Option<Name>, host: string)
    requires Knows(c, p) && Knows(c, q) && Apart(p, q) && Apart(q, p) && p.stage.Routable? && auth == Auth(p)
    requires Matches(c, p.previous)
    ensures Knows(PutIngress(c, auth, host), q)
  {
  }

  lemma DroppedKnown(c: Cluster, p: Process, q: Process, n: Name)
    requires Sound(c) && Knows(c, p) && Knows(c, q) && Apart(p, q) && Apart(q, p)
    requires n in Own(p) + Pending(p)
    ensures Knows(DropSecret(c, n), q)
  {
  }

  /** New objects, new names in use, or the end of the Ingress take nothing from what a run knows. */
  lemma HarmlessKnown(c: Cluster, q: Process, used: set<Name>, n: Name)
    requires Knows(c, q) && c.used <= used
    ensures Knows(c.(used := used), q) && Knows(PutSecret(c, n), q) && Knows(c.(ingress := None), q)
    ensures n in c.secrets ==> Knows(PutMiddleware(c, n), q)
  {
  }

  /** A step leaves what another run knows intact. */
  lemma OtherKeeps(c: Cluster, p: Process, m: Move, q: Process)
    requires Sound(c) && Knows(c, p) && Knows(c, q) && Apart(p, q) && Apart(q, p) && Enabled(c, p, m)
    ensures Knows(Next(c, p, m).0, q)
  {
    EffectIs(c, p, m);
    match EffectOf(c, p, m) {
      case NewIngress(auth, host) => NewIngressKnown(c, p, q, auth, host);
      case Dropped(n) => DroppedKnown(c, p, q, n);
      case Local => HarmlessKnown(c, q, Next(c, p, m).0.used, "");
      case NewSecret(n) => HarmlessKnown(c, q, c.used, n);
      case NewMiddleware(n) => HarmlessKnown(c, q, c.used, n);
      case NoIngress => HarmlessKnown(c, q, c.used, "");
    }
  }

  /** One step leaves another run as it was, knowing what it knew and apart from the one that moved. */
  lemma StepOther(s: System, i: nat, m: Move, j: nat)
    requires Inv(s) && i in s.runs && Enabled(s.cluster, s.runs[i], m) && j in s.runs && j != i
    ensures var t := Step(s, i, m);
            && t.runs[j] == s.runs[j] && Knows(t.cluster, t.runs[j])
            && Apart(t.runs[i], t.runs[j]) && Apart(t.runs[j], t.runs[i])
  {
    OtherKeeps(s.cluster, s.runs[i], m, s.runs[j]);
    StaysApart(s.cluster, s.runs[i], m, s.runs[j]);
  }

  lemma StepMover(s: System, i: nat, m: Move)
    requires Inv(s) && i in s.runs && Enabled(s.cluster, s.runs[i], m)
    ensures var t := Step(s, i, m); Safe(t.cluster) && Sound(t.cluster) && Knows(t.cluster, t.runs[i])
  {
    MoverKeeps(s.cluster, s.runs[i], m);
  }

  lemma StepApart(s: System, i: nat, m: Move, a: nat, b: nat)
    requires Inv(s) && i in s.runs && Enabled(s.cluster, s.runs[i], m) && a in s.runs && b in s.runs && a != b
    ensures Apart(Step(s, i, m).runs[a], Step(s, i, m).runs[b])
  {
    if a == i {
      StepOther(s, i, m, b);
    } else if b == i {
      StepOther(s, i, m, a);
    }
  }

  lemma StepKeeps(s: System, i: nat, m: Move)
    requires Inv(s) && i in s.runs && Enabled(s.cluster, s.runs[i], m)
    ensures Inv(Step(s, i, m))
  {
    var t := Step(s, i, m);
    assert t.runs.Keys == s.runs.Keys;
    StepMover(s, i, m);
    forall j | j in t.runs ensures Knows(t.cluster, t.runs[j]) {
      if j != i { StepOther(s, i, m, j); }
    }
    forall a, b | a in t.runs && b in t.runs && a != b ensures Apart(t.runs[a], t.runs[b]) {
      StepApart(s, i, m, a, b);
    }
  }

  function Start(request: Request): Process {
    Process(Begin, request, None, None, None, None)
  }

  /** Any cluster that is safe to begin with, and any number of updates not yet begun. */
  ghost predicate Initial(s: System) {
    && Safe(s.cluster) && Sound(s.cluster)
    && forall i :: i in s.runs ==> s.runs[i] == Start(s.runs[i].request)
  }

  /** `t` is reached from `s` when these runs take these steps in this order. */
  ghost predicate Reaches(s: System, steps: seq<(nat, Move)>, t: System)
    decreases |steps|
  {
    if steps == [] then s == t
    else
      var (i, m) := steps[0];
      i in s.runs && Enabled(s.cluster, s.runs[i], m) && Reaches(Step(s, i, m), steps[1..], t)
  }

  lemma {:induction false} InvAlways(s: System, steps: seq<(nat, Move)>, t: System)
    requires Inv(s) && Reaches(s, steps, t)
    ensures Inv(t)
    decreases |steps|
  {
    if steps != [] {
      StepKeeps(s, steps[0].0, steps[0].1);
      InvAlways(Step(s, steps[0].0, steps[0].1), steps[1..], t);
    }
  }

  /** Credential safety: whatever order any number of updates run in and however their calls end, the live
      Ingress never names a Secret that is missing or has no Middleware. */
  lemma CredentialSafety(s: System, steps: seq<(nat, Move)>, t: System)
    requires Initial(s) && Reaches(s, steps, t)
    ensures Safe(t.cluster)
  {
    InvAlways(s, steps, t);
  }

  // ---------- A refused update leaves no Secret, whatever the others do ----------

  /** The new Secret of a run that ended refused. */
  function Gone(p: Process): set<Name> {
    if p.own.Some? && p.stage in {Finished(Invalid), Finished(Refused)} then {p.own.value} else {}
  }

  /** A run's new Secret is its own from the moment it exists, and gone once the run has ended refused. */
  ghost predicate Tidy(c: Cluster, p: Process) {
    && Gone(p) <= c.used && Gone(p) !! c.secrets.Keys
    && (p.stage.Prepared? ==> Own(p) !! c.secrets.Keys)
    && (forall n :: n in Own(p) && n in c.secrets ==> c.secrets[n].owned)
  }

  ghost predicate AllTidy(s: System) {
    && (forall i :: i in s.runs ==> Tidy(s.cluster, s.runs[i]))
    && (forall i, j :: i in s.runs && j in s.runs && i != j ==> Own(s.runs[i]) !! Gone(s.runs[j]))
  }

  lemma TidyReads(c: Cluster, p: Process, m: Move)
    requires (p.stage.Begin? || p.stage.Loaded? || p.stage.Finished?) && Sound(c) && Knows(c, p) && Tidy(c, p) && Enabled(c, p, m)
    ensures Tidy(Next(c, p, m).0, Next(c, p, m).1)
  {
  }

  lemma TidyPrepared(c: Cluster, p: Process, m: Move)
    requires p.stage.Prepared? && Sound(c) && Knows(c, p) && Tidy(c, p) && Enabled(c, p, m)
    ensures Tidy(Next(c, p, m).0, Next(c, p, m).1)
  {
  }

  lemma TidyWrites(c: Cluster, p: Process, m: Move)
    requires (p.stage.SecretMade? || p.stage.Routable?) && Tidy(c, p) && Enabled(c, p, m)
    ensures Tidy(Next(c, p, m).0, Next(c, p, m).1)
  {
  }

  lemma TidyUndoes(c: Cluster, p: Process, m: Move)
    requires (p.stage.Undo? || p.stage.UndoDelete?) && Knows(c, p) && Tidy(c, p)
    ensures Tidy(Next(c, p, m).0, Next(c, p, m).1)
  {
  }

  lemma TidyCleans(c: Cluster, p: Process, m: Move)
    requires (p.stage.Written? || p.stage.Cleanup? || p.stage.CleanupDelete?) && Tidy(c, p)
    ensures Tidy(Next(c, p, m).0, Next(c, p, m).1)
  {
  }

  lemma TidyMover(c: Cluster, p: Process, m: Move)
    requires Sound(c) && Knows(c, p) && Tidy(c, p) && Enabled(c, p, m)
    ensures Tidy(Next(c, p, m).0, Next(c, p, m).1)
  {
    match p.stage {
      case Begin => TidyReads(c, p, m);
      case Loaded => TidyReads(c, p, m);
      case Prepared => TidyPrepared(c, p, m);
      case SecretMade => TidyWrites(c, p, m);
      case Routable => TidyWrites(c, p, m);
      case Undo => TidyUndoes(c, p, m);
      case UndoDelete => TidyUndoes(c, p, m);
      case Finished(_) => TidyReads(c, p, m);
      case _ => TidyCleans(c, p, m);
    }
  }

  lemma TidyOther(c: Cluster, p: Process, m: Move, q: Process)
    requires Knows(c, p) && Tidy(c, q) && Apart(p, q) && Own(p) !! Gone(q) && Enabled(c, p, m)
    ensures Tidy(Next(c, p, m).0, q)
  {
    EffectIs(c, p, m);
  }

  lemma StaysGone(c: Cluster, p: Process, m: Move, q: Process)
    requires Knows(c, p) && Knows(c, q) && Tidy(c, p) && Tidy(c, q) && Apart(p, q) && Enabled(c, p, m)
    requires Own(p) !! Gone(q) && Own(q) !! Gone(p)
    ensures Own(Next(c, p, m).1) !! Gone(q) && Own(q) !! Gone(Next(c, p, m).1)
  {
    Footprint(c, p, m);
    assert Gone(Next(c, p, m).1) <= Own(p) + Gone(p);
  }

  lemma StepTidiesOne(s: System, i: nat, m: Move, j: nat)
    requires Inv(s) && AllTidy(s) && i in s.runs && Enabled(s.cluster, s.runs[i], m) && j in s.runs
    ensures Tidy(Step(s, i, m).cluster, Step(s, i, m).runs[j])
  {
    if j == i { TidyMover(s.cluster, s.runs[i], m); } else { TidyOther(s.cluster, s.runs[i], m, s.runs[j]); }
  }

  lemma StepKeepsGone(s: System, i: nat, m: Move, a: nat, b: nat)
    requires Inv(s) && AllTidy(s) && i in s.runs && Enabled(s.cluster, s.runs[i], m) && a in s.runs && b in s.runs && a != b
    ensures Own(Step(s, i, m).runs[a]) !! Gone(Step(s, i, m).runs[b])
  {
    if a == i {
      StaysGone(s.cluster, s.runs[i], m, s.runs[b]);
    } else if b == i {
      StaysGone(s.cluster, s.runs[i], m, s.runs[a]);
    }
  }

  lemma StepTidies(s: System, i: nat, m: Move)
    requires Inv(s) && AllTidy(s) && i in s.runs && Enabled(s.cluster, s.runs[i], m)
    ensures AllTidy(Step(s, i, m))
  {
    var t := Step(s, i, m);
    assert t.runs.Keys == s.runs.Keys;
    forall j | j in t.runs ensures Tidy(t.cluster, t.runs[j]) { StepTidiesOne(s, i, m, j); }
    forall a, b | a in t.runs && b in t.runs && a != b ensures Own(t.runs[a]) !! Gone(t.runs[b]) {
      StepKeepsGone(s, i, m, a, b);
    }
  }

  lemma {:induction false} TidyAlways(s: System, steps: seq<(nat, Move)>, t: System)
    requires Inv(s) && AllTidy(s) && Reaches(s, steps, t)
    ensures AllTidy(t)
    decreases |steps|
  {
    if steps != [] {
      StepKeeps(s, steps[0].0, steps[0].1);
      StepTidies(s, steps[0].0, steps[0].1);
      TidyAlways(Step(s, steps[0].0, steps[0].1), steps[1..], t);
    }
  }

  /** Whatever other updates do meanwhile, one that ends refused has left no Secret of its own behind, and the Ingress
      does not name it. */
  lemma RefusedLeavesNoSecret(s: System, steps: seq<(nat, Move)>, t: System, i: nat)
    requires Initial(s) && Reaches(s, steps, t) && i in t.runs && t.runs[i].own.Some?
    requires t.runs[i].stage in {Finished(Invalid), Finished(Refused)}
    ensures t.runs[i].own.value !in t.cluster.secrets
    ensures t.cluster.ingress.Some? ==> t.cluster.ingress.value.auth != t.runs[i].own
  {
    TidyAlways(s, steps, t);
    CredentialSafety(s, steps, t);
    assert t.runs[i].own.value in Gone(t.runs[i]);
  }

  // ---------- An Ingress that an update wrote is behind an intact Middleware ----------

  /** An Ingress of version `from` or later, if it names an auth Secret, names one with an intact Middleware. */
  predicate EnforcedSince(c: Cluster, from: nat) {
    c.ingress.Some? && c.ingress.value.version >= from && c.ingress.value.auth.Some? ==> Enforces(c, c.ingress.value.auth.value)
  }

  lemma StepEnforces(c: Cluster, p: Process, m: Move, from: nat)
    requires Safe(c) && Sound(c) && Knows(c, p) && Enabled(c, p, m) && EnforcedSince(c, from)
    ensures EnforcedSince(Next(c, p, m).0, from)
  {
    EffectIs(c, p, m);
    match EffectOf(c, p, m) {
      case Dropped(n) => DropSecretSound(c, n);
      case _ =>
    }
  }

  lemma {:induction false} EnforcedAlways(s: System, steps: seq<(nat, Move)>, t: System, from: nat)
    requires Inv(s) && EnforcedSince(s.cluster, from) && Reaches(s, steps, t)
    ensures EnforcedSince(t.cluster, from)
    decreases |steps|
  {
    if steps != [] {
      var (i, m) := steps[0];
      StepEnforces(s.cluster, s.runs[i], m, from);
      StepKeeps(s, i, m);
      EnforcedAlways(Step(s, i, m), steps[1..], t, from);
    }
  }

  /** Whatever the Middlewares were at the start: an Ingress that any of the updates has written names no Secret but one
      that exists with an intact Middleware. */
  lemma WrittenIsEnforced(s: System, steps: seq<(nat, Move)>, t: System)
    requires Initial(s) && Reaches(s, steps, t)
    ensures EnforcedSince(t.cluster, s.cluster.nextVersion)
  {
    EnforcedAlways(s, steps, t, s.cluster.nextVersion);
  }

  /** The Secrets with this deployment's label that its Ingress does not name. */
  function Orphans(c: Cluster): set<Name> {
    (set n | n in c.secrets && c.secrets[n].owned) - Named(c.ingress)
  }

  /** An nginx annotation beside the system's own one: its Secret is in use, but no update cleans it up. */
  function Stranded(c: Cluster): set<Name> {
    if c.ingress.Some? && c.ingress.value.auth.Some? && c.ingress.value.legacy.Some?
       && c.ingress.value.legacy != c.ingress.value.auth && c.ingress.value.legacy.value in c.secrets
       && c.secrets[c.ingress.value.legacy.value].owned
    then {c.ingress.value.legacy.value} else {}
  }

  /** Everything a run can change is as it was. */
  predicate Same(c: Cluster, d: Cluster) {
    c.secrets == d.secrets && c.middlewares == d.middlewares && c.ingress == d.ingress
  }

  /** The start plus one new owned Secret and possibly its Middleware. */
  predicate Extended(c: Cluster, d: Cluster, own: Name, guarded: bool) {
    && own !in c.secrets && own !in c.middlewares && own !in Named(c.ingress) && own in d.secrets && d.secrets[own].owned
    && d.secrets[own].uid >= c.nextUid
    && d.secrets == c.secrets[own := d.secrets[own]] && d.ingress == c.ingress
    && (guarded ==> Enforces(d, own))
    && (d.middlewares == c.middlewares || (own in d.middlewares && d.middlewares[own].owner == Some(d.secrets[own].uid)
                                           && d.middlewares == c.middlewares[own := d.middlewares[own]]))
    && (forall m :: m in c.middlewares ==> c.middlewares[m].owner != Some(d.secrets[own].uid))
  }

  /** The credentials in use can stay: this deployment's own, filled, and behind an intact Middleware. */
  predicate Retainable(c: Cluster) {
    var n := OldSecret(c.ingress);
    n.Some? && Enforces(c, n.value) && c.secrets[n.value].owned && c.secrets[n.value].users
  }

  /** The Ingress in place is behind an intact Middleware, which does not go with the obsolete Secret. */
  ghost predicate Kept(d: Cluster, p: Process) {
    Auth(p).Some? ==>
      && Enforces(d, Auth(p).value) && Auth(p) != p.obsolete
      && (p.obsolete.Some? && p.obsolete.value in d.secrets ==>
            d.middlewares[Auth(p).value].owner != Some(d.secrets[p.obsolete.value].uid))
  }

  /** The requested Ingress is in place; only the obsolete Secret is left to delete. */
  ghost predicate Replaced(c: Cluster, d: Cluster, p: Process) {
    && (if p.own.Some? then
          p.own.value !in c.secrets && p.own.value !in Named(c.ingress) && p.own.value in d.secrets
          && d.secrets[p.own.value].owned && d.secrets == c.secrets[p.own.value := d.secrets[p.own.value]]
        else d.secrets == c.secrets)
    && Named(d.ingress) == (if Auth(p).Some? then {Auth(p).value} else {})
    && (p.own.Some? ==> p.retained.None?)
    && (p.retained.Some? ==> p.retained == OldSecret(c.ingress))
    && p.obsolete == if OldSecret(c.ingress) != p.retained then OldSecret(c.ingress) else None
  }

  /** The schema refuses basic authentication without an Ingress host. */
  predicate WellFormed(r: Request) {
    r.basicAuth ==> r.host.Some?
  }

  /** The Ingress is what was asked for: none, or this host with no credentials, new ones, or those it had. */
  ghost predicate Requested(c: Cluster, ingress: Option<Ingress>, r: Request) {
    match r.host
    case None => ingress.None?
    case Some(host) =>
      && ingress.Some? && ingress.value.host == host && ingress.value.legacy.None?
      && (ingress.value.auth.Some? <==> r.basicAuth)
      && (r.basicAuth && r.password ==> ingress.value.auth.value !in c.used)
      && (r.basicAuth && !r.password ==> ingress.value.auth == OldSecret(c.ingress) && Retainable(c))
  }

  ghost predicate Chosen(c: Cluster, p: Process) {
    && (p.own.Some? <==> p.request.basicAuth && p.request.password)
    && (p.retained.Some? <==> p.request.basicAuth && !p.request.password)
    && (p.own.Some? ==> p.own.value !in c.used && p.request.host.Some? && p.retained.None?)
    && (p.retained.Some? ==> p.retained == OldSecret(c.ingress) && p.request.host.Some? && p.retained.value in c.secrets
                             && c.secrets[p.retained.value].owned && c.secrets[p.retained.value].users)
    && p.obsolete == if OldSecret(c.ingress) != p.retained then OldSecret(c.ingress) else None
  }

  /** What a run that is alone has changed since `c`, by stage. */
  ghost predicate Alone(c: Cluster, d: Cluster, p: Process) {
    && WellFormed(p.request) && c.used <= d.used && c.nextUid <= d.nextUid
    && match p.stage
       case Begin => Same(c, d) && p.own.None? && p.retained.None? && p.obsolete.None?
       case Loaded => Same(c, d) && p.previous == c.ingress && p.own.None? && p.retained.None? && p.obsolete.None?
       case Prepared => Same(c, d) && p.previous == c.ingress && Chosen(c, p)
       case SecretMade => p.own.Some? && p.request.host.Some? && Chosen(c, p) && Extended(c, d, p.own.value, false) && d.middlewares == c.middlewares
       case Routable => p.request.host.Some? && Chosen(c, p)
                        && if p.own.Some? then Extended(c, d, p.own.value, true)
                           else Same(c, d) && (p.retained.Some? ==> Enforces(c, p.retained.value))
       case Undo => p.own.Some? && Extended(c, d, p.own.value, false)
       case UndoDelete => p.own.Some? && Extended(c, d, p.own.value, false)
       case Written => Replaced(c, d, p) && Requested(c, d.ingress, p.request) && Kept(d, p)
       case Cleanup => Replaced(c, d, p) && Requested(c, d.ingress, p.request) && Kept(d, p)
       case CleanupDelete => Replaced(c, d, p) && Requested(c, d.ingress, p.request) && Kept(d, p) && p.obsolete.Some? && p.obsolete.value in d.secrets
                             && d.secrets[p.obsolete.value].owned
       case Finished(Invalid) => Same(c, d)
       case Finished(Refused) => Same(c, d)
       case Finished(Success) => Orphans(d) == Orphans(c) + Stranded(c) && Requested(c, d.ingress, p.request) && EnforcedSince(d, 0)
       case _ => true
  }

  lemma ReplacedOrphans(c: Cluster, d: Cluster, p: Process)
    requires Replaced(c, d, p)
    ensures p.obsolete.None? || p.obsolete.value !in d.secrets || !d.secrets[p.obsolete.value].owned ==>
              Orphans(d) == Orphans(c) + Stranded(c)
    ensures p.obsolete.Some? && p.obsolete.value in d.secrets ==>
              Orphans(DropSecret(d, p.obsolete.value)) == Orphans(c) + Stranded(c)
  {
  }

  lemma UndoRestores(c: Cluster, d: Cluster, own: Name)
    requires Extended(c, d, own, false)
    ensures Same(c, DropSecret(d, own))
  {
  }

  lemma AloneReads(c: Cluster, d: Cluster, p: Process, m: Move)
    requires (p.stage.Begin? || p.stage.Loaded?) && Sound(c) && Alone(c, d, p) && Enabled(d, p, m)
    ensures Alone(c, Next(d, p, m).0, Next(d, p, m).1)
  {
  }

  lemma AloneCreates(c: Cluster, d: Cluster, p: Process, m: Move)
    requires p.stage.Prepared? && p.own.Some? && Sound(c) && Alone(c, d, p) && Enabled(d, p, m)
    ensures Alone(c, Next(d, p, m).0, Next(d, p, m).1)
  {
  }

  lemma AlonePrepared(c: Cluster, d: Cluster, p: Process, m: Move)
    requires p.stage.Prepared? && Sound(c) && Alone(c, d, p) && Enabled(d, p, m)
    ensures Alone(c, Next(d, p, m).0, Next(d, p, m).1)
  {
    if p.own.Some? { AloneCreates(c, d, p, m); }
  }

  lemma AloneSecretMade(c: Cluster, d: Cluster, p: Process, m: Move)
    requires p.stage.SecretMade? && Sound(c) && Alone(c, d, p) && Enabled(d, p, m)
    ensures Alone(c, Next(d, p, m).0, Next(d, p, m).1)
  {
  }

  lemma AloneReplaces(c: Cluster, d: Cluster, p: Process, m: Move)
    requires p.stage.Routable? && m.outcome.Done? && Sound(c) && Alone(c, d, p) && Enabled(d, p, m)
    ensures Alone(c, Next(d, p, m).0, Next(d, p, m).1)
  {
  }

  lemma AloneRoutable(c: Cluster, d: Cluster, p: Process, m: Move)
    requires p.stage.Routable? && Sound(c) && Alone(c, d, p) && Enabled(d, p, m)
    ensures Alone(c, Next(d, p, m).0, Next(d, p, m).1)
  {
    if m.outcome.Done? { AloneReplaces(c, d, p, m); }
  }

  lemma AloneUndoes(c: Cluster, d: Cluster, p: Process, m: Move)
    requires p.stage.Undo? && Alone(c, d, p)
    ensures Alone(c, Next(d, p, m).0, Next(d, p, m).1)
  {
  }

  lemma AloneUndone(c: Cluster, d: Cluster, p: Process, m: Move)
    requires p.stage.UndoDelete? && Alone(c, d, p)
    ensures Alone(c, Next(d, p, m).0, Next(d, p, m).1)
  {
    UndoRestores(c, d, p.own.value);
  }

  lemma AloneWritten(c: Cluster, d: Cluster, p: Process, m: Move)
    requires (p.stage.Written? || p.stage.Finished?) && Sound(c) && Alone(c, d, p) && Enabled(d, p, m)
    ensures Alone(c, Next(d, p, m).0, Next(d, p, m).1)
  {
  }

  lemma AloneLooks(c: Cluster, d: Cluster, p: Process, m: Move)
    requires p.stage.Cleanup? && Alone(c, d, p)
    ensures Alone(c, Next(d, p, m).0, Next(d, p, m).1)
  {
    ReplacedOrphans(c, d, p);
  }

  lemma AloneCleans(c: Cluster, d: Cluster, p: Process, m: Move)
    requires p.stage.CleanupDelete? && Alone(c, d, p)
    ensures Alone(c, Next(d, p, m).0, Next(d, p, m).1)
  {
    ReplacedOrphans(c, d, p);
  }

  lemma AloneKeeps(c: Cluster, d: Cluster, p: Process, m: Move)
    requires Sound(c) && Alone(c, d, p) && Enabled(d, p, m)
    ensures Alone(c, Next(d, p, m).0, Next(d, p, m).1)
  {
    match p.stage {
      case Begin => AloneReads(c, d, p, m);
      case Loaded => AloneReads(c, d, p, m);
      case Prepared => AlonePrepared(c, d, p, m);
      case SecretMade => AloneSecretMade(c, d, p, m);
      case Routable => AloneRoutable(c, d, p, m);
      case Undo => AloneUndoes(c, d, p, m);
      case UndoDelete => AloneUndone(c, d, p, m);
      case Written => AloneWritten(c, d, p, m);
      case Cleanup => AloneLooks(c, d, p, m);
      case CleanupDelete => AloneCleans(c, d, p, m);
      case Finished(_) => AloneWritten(c, d, p, m);
    }
  }

  /** `d`, `q` is where a run alone gets from `c`, `p` by these moves. */
  ghost predicate Goes(c: Cluster, p: Process, moves: seq<Move>, d: Cluster, q: Process)
    decreases |moves|
  {
    if moves == [] then c == d && p == q
    else Enabled(c, p, moves[0]) && var (c', p') := Next(c, p, moves[0]); Goes(c', p', moves[1..], d, q)
  }

  lemma RequestStays(c: Cluster, p: Process, m: Move)
    requires Enabled(c, p, m)
    ensures Next(c, p, m).1.request == p.request
  {
  }

  lemma {:induction false} AloneAlways(start: Cluster, c: Cluster, p: Process, moves: seq<Move>, d: Cluster, q: Process)
    requires Sound(start) && Alone(start, c, p) && Goes(c, p, moves, d, q)
    ensures Alone(start, d, q) && q.request == p.request
    decreases |moves|
  {
    if moves != [] {
      AloneKeeps(start, c, p, moves[0]);
      RequestStays(c, p, moves[0]);
      var (c', p') := Next(c, p, moves[0]);
      AloneAlways(start, c', p', moves[1..], d, q);
    }
  }

  /** Rollback and orphans, for an update nobody else interferes with.  Refused by a validation it wrote
      nothing; definitively rejected, with its rollback calls answered, it leaves Secrets, Middlewares and
      Ingress as they were; successful, the Ingress is as requested, behind an intact Middleware, and the unreferenced Secrets are those
      there were, plus one that an nginx annotation named beside the system's own one. */
  lemma RollbackAndOrphans(c: Cluster, request: Request, moves: seq<Move>, d: Cluster, q: Process)
    requires Sound(c) && WellFormed(request) && Goes(c, Start(request), moves, d, q)
    ensures q.stage == Finished(Invalid) || q.stage == Finished(Refused) ==> Same(c, d)
    ensures q.stage == Finished(Success) ==> Orphans(d) == Orphans(c) + Stranded(c) && Requested(c, d.ingress, q.request)
    ensures q.stage == Finished(Success) ==> EnforcedSince(d, 0)
    ensures q.request == request
  {
    AloneAlways(c, c, Start(request), moves, d, q);
  }

  // ---------- When an update succeeds ----------

  /** What an update needs of the cluster: where it keeps credentials, they can stay. */
  predicate Able(c: Cluster, r: Request) { r.basicAuth && !r.password ==> Retainable(c) }

  /** A run that meets no failure. */
  ghost predicate Smooth(c: Cluster, d: Cluster, p: Process) {
    && Alone(c, d, p) && !p.stage.Undo? && !p.stage.UndoDelete?
    && (p.stage.Begin? || p.stage.Loaded? ==> d.used == c.used)
    && (p.stage.Loaded? || p.stage.Prepared? || p.stage.SecretMade? || p.stage.Routable? ==>
          p.previous == c.ingress && d.ingress == c.ingress)
    && (!p.stage.Begin? && !p.stage.Loaded? && !p.stage.Prepared? && !p.stage.Finished? ==> Able(c, p.request))
    && (p.stage.Finished? ==> p.stage == Finished(if Able(c, p.request) then Success else Invalid))
  }

  function Rank(s: Stage): nat {
    match s
    case Begin => 9
    case Loaded => 8
    case Prepared => 7
    case SecretMade => 6
    case Routable => 5
    case Written => 4
    case Cleanup => 3
    case CleanupDelete => 2
    case UndoDelete => 1
    case Undo => 2
    case Finished(_) => 0
  }

  /** The environment grants everything, and every call is answered. */
  function Granted(name: Name): Move { Move(true, name, Done) }

  lemma SmoothReads(c: Cluster, d: Cluster, p: Process, name: Name)
    requires Sound(c) && name !in c.used && Smooth(c, d, p) && (p.stage.Begin? || p.stage.Loaded?)
    ensures Enabled(d, p, Granted(name))
    ensures var (d', p') := Next(d, p, Granted(name)); Smooth(c, d', p') && Rank(p'.stage) < Rank(p.stage)
  {
    AloneReads(c, d, p, Granted(name));
  }

  lemma SmoothPrepared(c: Cluster, d: Cluster, p: Process, name: Name)
    requires Sound(c) && Smooth(c, d, p) && p.stage.Prepared?
    ensures Enabled(d, p, Granted(name))
    ensures var (d', p') := Next(d, p, Granted(name)); Smooth(c, d', p') && Rank(p'.stage) < Rank(p.stage)
  {
    AlonePrepared(c, d, p, Granted(name));
  }

  lemma SmoothWrites(c: Cluster, d: Cluster, p: Process, name: Name)
    requires Sound(c) && Smooth(c, d, p) && (p.stage.SecretMade? || p.stage.Routable?)
    ensures Enabled(d, p, Granted(name))
    ensures var (d', p') := Next(d, p, Granted(name)); Smooth(c, d', p') && Rank(p'.stage) < Rank(p.stage)
  {
    AloneKeeps(c, d, p, Granted(name));
  }

  lemma SmoothEnds(c: Cluster, d: Cluster, p: Process, name: Name)
    requires Sound(c) && Smooth(c, d, p) && (p.stage.Written? || p.stage.Cleanup? || p.stage.CleanupDelete?)
    ensures Enabled(d, p, Granted(name))
    ensures var (d', p') := Next(d, p, Granted(name)); Smooth(c, d', p') && Rank(p'.stage) < Rank(p.stage)
  {
    AloneKeeps(c, d, p, Granted(name));
  }

  lemma {:induction false} SmoothRun(c: Cluster, d: Cluster, p: Process, name: Name)
      returns (moves: seq<Move>, e: Cluster, q: Process)
    requires Sound(c) && name !in c.used && Smooth(c, d, p)
    ensures Goes(d, p, moves, e, q) && q.stage == Finished(if Able(c, p.request) then Success else Invalid)
    ensures forall m :: m in moves ==> m == Granted(name)
    decreases Rank(p.stage)
  {
    if p.stage.Finished? {
      moves, e, q := [], d, p;
    } else {
      if p.stage.Begin? || p.stage.Loaded? {
        SmoothReads(c, d, p, name);
      } else if p.stage.Prepared? {
        SmoothPrepared(c, d, p, name);
      } else if p.stage.SecretMade? || p.stage.Routable? {
        SmoothWrites(c, d, p, name);
      } else {
        SmoothEnds(c, d, p, name);
      }
      RequestStays(d, p, Granted(name));
      moves, e, q := SmoothRun(c, Next(d, p, Granted(name)).0, Next(d, p, Granted(name)).1, name);
      GoesOn(d, p, Granted(name), moves, e, q);
      moves := [Granted(name)] + moves;
    }
  }

  /** An update whose checks are all granted and whose calls are all answered succeeds exactly when it keeps no
      credentials, or keeps ones of this deployment that are filled and behind an intact Middleware. */
  lemma SucceedsExactly(c: Cluster, request: Request, name: Name) returns (moves: seq<Move>, d: Cluster, q: Process)
    requires Sound(c) && WellFormed(request) && name !in c.used
    ensures Goes(c, Start(request), moves, d, q) && q.stage == Finished(if Able(c, request) then Success else Invalid)
    ensures forall m :: m in moves ==> m.valid && m.outcome == Done
  {
    moves, d, q := SmoothRun(c, c, Start(request), name);
  }

  /** So a successful update makes orphans grow exactly when such an annotation is there. */
  lemma OrphansGrowOnlyWhenStranded(c: Cluster, request: Request, moves: seq<Move>, d: Cluster, q: Process)
    requires Sound(c) && WellFormed(request) && Goes(c, Start(request), moves, d, q) && q.stage == Finished(Success)
    ensures |Orphans(d)| > |Orphans(c)| <==> Stranded(c) != {}
  {
    RollbackAndOrphans(c, request, moves, d, q);
    assert Orphans(c) !! Stranded(c);
    assert |Orphans(c) + Stranded(c)| == |Orphans(c)| + |Stranded(c)|;
  }

  /** A run's last steps, after its first. */
  lemma GoesOn(c: Cluster, p: Process, m: Move, rest: seq<Move>, d: Cluster, q: Process)
    requires Enabled(c, p, m) && Goes(Next(c, p, m).0, Next(c, p, m).1, rest, d, q)
    ensures Goes(c, p, [m] + rest, d, q)
  {
    assert ([m] + rest)[1..] == rest;
  }

  function Withdrawal(): Request { Request(None, false, false) }

  /** And each such annotation has its run: withdrawing the Ingress succeeds, and strands that Secret. */
  lemma StrandedSecretIsLeft(c: Cluster, name: Name) returns (moves: seq<Move>, d: Cluster, q: Process)
    requires Sound(c) && Stranded(c) != {} && name !in c.used
    ensures Goes(c, Start(Withdrawal()), moves, d, q) && q.stage == Finished(Success)
    ensures |Orphans(d)| > |Orphans(c)| && c.ingress.value.legacy.value in Orphans(d) - Orphans(c)
  {
    var m := Move(true, name, Done);
    var p0 := Start(Withdrawal());
    var (c1, p1) := Next(c, p0, m);
    var (c2, p2) := Next(c1, p1, m);
    var (c3, p3) := Next(c2, p2, m);
    var (c4, p4) := Next(c3, p3, m);
    var (c5, p5) := Next(c4, p4, m);
    if p5.stage.CleanupDelete? {
      d, q := Next(c5, p5, m).0, Next(c5, p5, m).1;
      assert Goes(d, q, [], d, q);
      GoesOn(c5, p5, m, [], d, q);
      moves := [m];
    } else {
      d, q, moves := c5, p5, [];
      assert Goes(d, q, [], d, q);
    }
    GoesOn(c4, p4, m, moves, d, q);
    GoesOn(c3, p3, m, [m] + moves, d, q);
    GoesOn(c2, p2, m, [m] + ([m] + moves), d, q);
    GoesOn(c1, p1, m, [m] + ([m] + ([m] + moves)), d, q);
    GoesOn(c, p0, m, [m] + ([m] + ([m] + ([m] + moves))), d, q);
    moves := [m] + ([m] + ([m] + ([m] + ([m] + moves))));
    OrphansGrowOnlyWhenStranded(c, Withdrawal(), moves, d, q);
    RollbackAndOrphans(c, Withdrawal(), moves, d, q);
    assert c.ingress.value.legacy.value in Stranded(c);
  }

  /** Such clusters exist, and are safe. */
  lemma StrandedClusterExists()
    ensures var c := Cluster(map["own" := Secret(0, true, true), "old" := Secret(1, true, true)],
                             map["own" := Middleware(Some(0), true)], Some(Ingress(0, Some("own"), Some("old"), "h")),
                             {"own", "old"}, 2, 1);
            Sound(c) && Safe(c) && Stranded(c) == {"old"}
  {
    assert "own"[1] != "old"[1];
  }
}
