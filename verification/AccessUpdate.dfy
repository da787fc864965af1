/** `update_access` as the program runs it: API calls in order, early exits and clean-up, while other updates act
    between its calls.  It is proved to be one run of the state machine in Exposure. */
module AccessUpdate {
  import opened Wrappers
  import opened Exposure

  lemma {:induction false} ReachesExtends(s: System, steps: seq<(nat, Move)>, t: System, i: nat, m: Move)
    requires Reaches(s, steps, t) && i in t.runs && Enabled(t.cluster, t.runs[i], m)
    ensures Reaches(s, steps + [(i, m)], Step(t, i, m))
    decreases |steps|
  {
    if steps == [] {
      assert ([] + [(i, m)])[1..] == [];
    } else {
      assert (steps + [(i, m)])[0] == steps[0] && (steps + [(i, m)])[1..] == steps[1..] + [(i, m)];
      ReachesExtends(Step(s, steps[0].0, steps[0].1), steps[1..], t, i, m);
    }
  }

  function Moves(steps: seq<(nat, Move)>): seq<Move> { seq(|steps|, i requires 0 <= i < |steps| => steps[i].1) }

  /** A run that is the only one goes where the system goes. */
  lemma {:induction false} OnlyRunGoes(s: System, steps: seq<(nat, Move)>, t: System, me: nat)
    requires Reaches(s, steps, t) && s.runs.Keys == {me}
    ensures t.runs.Keys == {me} && Goes(s.cluster, s.runs[me], Moves(steps), t.cluster, t.runs[me])
    decreases |steps|
  {
    if steps != [] {
      var next := Step(s, steps[0].0, steps[0].1);
      assert steps[0].0 in s.runs.Keys;
      OnlyRunGoes(next, steps[1..], t, me);
      assert Moves(steps)[1..] == Moves(steps[1..]);
    }
  }

  class Namespace {
    var cluster: Cluster
    /** The other updates, whose steps the environment schedules. */
    var others: map<nat, Process>
    ghost const me: nat
    ghost const initial: System
    ghost var self: Process
    ghost var steps: seq<(nat, Move)>

    ghost function State(): System
      reads this
    {
      System(cluster, others[me := self])
    }

    ghost predicate Valid()
      reads this
    {
      me !in others && Reaches(initial, steps, State())
    }

    constructor (start: Cluster, others: map<nat, Process>, me: nat, request: Request)
      requires me !in others
      ensures Valid() && cluster == start && this.others == others && self == Start(request)
      ensures this.me == me && initial == System(start, others[me := Start(request)]) && steps == []
    {
      cluster, this.others, this.me := start, others, me;
      initial, self, steps := System(start, others[me := Start(request)]), Start(request), [];
    }

    /** Other updates make any number of steps. */
    method OthersAct()
      requires Valid()
      modifies this`cluster, this`others, this`steps
      ensures Valid() && others.Keys == old(others).Keys
    {
      var n :| n >= 0;
      for k := 0 to n
        invariant Valid() && others.Keys == old(others).Keys
      {
        var i: nat := *;
        var m: Move := *;
        if i in others && Enabled(cluster, others[i], m) {
          ReachesExtends(initial, steps, State(), i, m);
          ghost var after := Step(State(), i, m);
          var (c, p) := Next(cluster, others[i], m);
          cluster, others := c, others[i := p];
          steps := steps + [(i, m)];
          assert State().runs == after.runs;
        }
      }
    }

    /** Books a step of this run. */
    ghost method Took(before: Cluster, m: Move)
      requires me !in others && Reaches(initial, steps, System(before, others[me := self]))
      requires Enabled(before, self, m) && cluster == Next(before, self, m).0
      modifies this`self, this`steps
      ensures Valid() && self == Next(before, old(self), m).1
    {
      ReachesExtends(initial, steps, System(before, others[me := self]), me, m);
      ghost var after := Step(System(before, others[me := self]), me, m);
      self := Next(before, self, m).1;
      steps := steps + [(me, m)];
      assert State().runs == after.runs;
    }

    /** A name that was never used. */
    method FreshName() returns (name: Name)
      ensures name !in cluster.used
    {
      name := "";
      var rest := cluster.used;
      while rest != {}
        invariant rest <= cluster.used && forall n :: n in cluster.used - rest ==> |n| < |name|
        decreases |rest|
      {
        var n :| n in rest;
        if |name| <= |n| { name := n + "x"; }
        rest := rest - {n};
      }
      assert forall n :: n in cluster.used ==> n in cluster.used - rest && |n| < |name|;
    }

    /** The checks before anything is read, then the Ingress. */
    method ReadIngress() returns (r: Reply<Option<Ingress>>)
      requires Valid() && self.stage.Begin?
      modifies this
      ensures Valid() && others.Keys == old(others).Keys
      ensures self == if r.Ok? then old(self).(stage := Loaded, previous := r.value) else Ends(old(self), Invalid)
    {
      OthersAct();
      var valid: bool := *;
      Took(cluster, Move(valid, "", Done));
      return if valid then Ok(cluster.ingress) else Failed;
    }

    /** Keep the credentials in use, if there are any and no new ones were given, then check everything. */
    method Prepare(request: Request, previous: Option<Ingress>)
      returns (r: Reply<(Option<Name>, Option<Name>, Option<Name>)>)
      requires Valid() && self.stage.Loaded? && self.request == request && self.previous == previous
      modifies this
      ensures Valid() && others.Keys == old(others).Keys
      ensures r.Failed? ==> self.stage == Finished(Invalid)
      ensures r.Ok? ==> self == old(self).(stage := Prepared, retained := r.value.0, own := r.value.1, obsolete := r.value.2)
      ensures r.Ok? ==> (r.value.1.Some? ==> request.host.Some? && r.value.0.None?)
    {
      OthersAct();
      var valid: bool := *;
      var name := FreshName();
      if !valid {
        Took(cluster, Move(false, name, Done));
        return Failed;
      }
      ghost var before := cluster;
      cluster := cluster.(used := cluster.used + {name});
      var current := if previous.None? then None else if previous.value.auth.Some? then previous.value.auth else previous.value.legacy;
      var retained := None;
      if request.basicAuth && !request.password && current.Some? {
        if current.value !in cluster.secrets {
          Took(before, Move(true, name, Done));
          return Failed;
        }
        if cluster.secrets[current.value].owned && cluster.secrets[current.value].users { retained := current; }
      }
      Took(before, Move(true, name, Done));
      if request.host.Some? && request.basicAuth && !request.password && retained.None? { return Failed; }
      var own := if request.host.Some? && request.basicAuth && request.password then Some(name) else None;
      return Ok((retained, own, if current != retained then current else None));
    }

    method CreateSecret(name: Name) returns (o: Outcome)
      requires Valid() && self.stage.Prepared? && self.request.host.Some? && self.own == Some(name)
      modifies this
      ensures Valid() && others.Keys == old(others).Keys
      ensures self == if o.Done? then old(self).(stage := SecretMade)
                      else Ends(old(self), if o.Rejected? then Refused else Unknown)
    {
      OthersAct();
      o := *;
      if name in cluster.secrets && Committed(o) { o := Rejected; }
      ghost var before := cluster;
      if Committed(o) { cluster := PutSecret(cluster, name); }
      Took(before, Move(true, "", o));
    }

    method CreateMiddleware(name: Name) returns (o: Outcome)
      requires Valid() && self.stage.SecretMade? && self.own == Some(name)
      modifies this
      ensures Valid() && others.Keys == old(others).Keys
      ensures self == if o.Done? then old(self).(stage := Routable)
                      else if o.Transport? then Ends(old(self), Unknown) else old(self).(stage := Undo)
    {
      OthersAct();
      o := *;
      if (name !in cluster.secrets || name in cluster.middlewares) && Committed(o) { o := Rejected; }
      ghost var before := cluster;
      if Committed(o) { cluster := PutMiddleware(cluster, name); }
      ghost var p := self;
      Took(before, Move(true, "", o));
      assert self == match o case Done => p.(stage := Routable) case Transport(_) => Ends(p, Unknown) case _ => p.(stage := Undo);
    }

    /** Retained credentials need an intact Middleware; a route without credentials needs nothing. */
    method ValidateMiddleware(retained: Option<Name>) returns (ok: bool)
      requires Valid() && self.stage.Prepared? && self.request.host.Some? && self.own.None? && self.retained == retained
      modifies this
      ensures Valid() && others.Keys == old(others).Keys
      ensures self == if ok then old(self).(stage := Routable) else Ends(old(self), Invalid)
      ensures ok && retained.Some? ==>
                retained.value in cluster.middlewares && cluster.middlewares[retained.value].intact
      ensures !ok ==> retained.Some?
    {
      OthersAct();
      var valid: bool := *;
      ok := retained.None? || (valid && retained.value in cluster.middlewares && cluster.middlewares[retained.value].intact);
      Took(cluster, Move(valid, "", Done));
    }

    /** Replaces the Ingress that was read, by its version, or creates one where there was none. */
    method WriteIngress(previous: Option<Ingress>, auth: Option<Name>, host: string) returns (o: Outcome)
      requires Valid() && self.stage.Routable? && self.previous == previous && auth == Auth(self) && self.request.host == Some(host)
      modifies this
      ensures Valid() && others.Keys == old(others).Keys
      ensures self == if o.Done? then old(self).(stage := Written)
                      else if o.Rejected? && old(self).own.Some? then old(self).(stage := Undo)
                      else Ends(old(self), if o.Rejected? then Refused else Unknown)
    {
      OthersAct();
      o := *;
      if !Matches(cluster, previous) && Committed(o) { o := Rejected; }
      ghost var before := cluster;
      if Committed(o) { cluster := PutIngress(cluster, auth, host); }
      Took(before, Move(true, "", o));
    }

    method DeleteIngress(previous: Option<Ingress>) returns (o: Outcome)
      requires Valid() && self.stage.Prepared? && self.request.host.None? && self.previous == previous
      modifies this
      ensures Valid() && others.Keys == old(others).Keys
      ensures self == if o.Done? then old(self).(stage := Written) else Ends(old(self), if o.Rejected? then Refused else Unknown)
    {
      OthersAct();
      o := *;
      if previous.None? {
        o := Done;
        Took(cluster, Move(true, "", o));
        return;
      }
      if !Matches(cluster, previous) && Committed(o) { o := Rejected; }
      ghost var before := cluster;
      if Committed(o) { cluster := cluster.(ingress := None); }
      Took(before, Move(true, "", o));
    }

    /** Reads the Secret, and deletes it if it bears this deployment's label.  A missing one is no error. */
    method DeleteSecret(name: Name) returns (ok: bool)
      requires Valid()
      requires (self.stage.Undo? && self.own == Some(name)) || (self.stage.Cleanup? && self.obsolete == Some(name))
      modifies this
      ensures Valid() && others.Keys == old(others).Keys
      ensures self.stage == Finished(if !ok then Unclean else if old(self).stage.Undo? then Refused else Success)
    {
      OthersAct();
      var read: Outcome := *;
      Took(cluster, Move(true, "", read));
      if !read.Done? { return false; }
      if !(name in cluster.secrets && cluster.secrets[name].owned) { return true; }
      OthersAct();
      var o: Outcome := *;
      ghost var before := cluster;
      if Committed(o) { cluster := DropSecret(cluster, name); }
      Took(before, Move(true, "", o));
      return o.Done?;
    }

    /** The instance row is saved once the Ingress is as requested. */
    method SaveInstance() returns (ok: bool)
      requires Valid() && self.stage.Written?
      modifies this
      ensures Valid() && others.Keys == old(others).Keys
      ensures self == if ok then old(self).(stage := Cleanup) else Ends(old(self), Unclean)
    {
      OthersAct();
      ok := *;
      Took(cluster, Move(ok, "", Done));
    }

    /** With no obsolete credentials there is nothing left to do. */
    method Finish()
      requires Valid() && self.stage.Cleanup? && self.obsolete.None?
      modifies this
      ensures Valid() && others.Keys == old(others).Keys && self.stage == Finished(Success)
    {
      Took(cluster, Move(true, "", Done));
    }

    /** New credentials exist before the route uses them; a refused write takes them back. */
    method Expose(previous: Option<Ingress>, host: string, retained: Option<Name>, own: Option<Name>) returns (r: Option<Result>)
      requires Valid() && self.stage.Prepared? && self.request.host == Some(host) && self.previous == previous
      requires self.retained == retained && self.own == own && (own.Some? ==> retained.None?)
      modifies this
      ensures Valid() && others.Keys == old(others).Keys
      ensures r.Some? ==> self.stage == Finished(r.value)
      ensures r.None? ==> self == old(self).(stage := Written)
    {
      if own.Some? {
        var made := CreateSecret(own.value);
        if !made.Done? { return Some(if made.Rejected? then Refused else Unknown); }
        var guarded := CreateMiddleware(own.value);
        if guarded.Transport? { return Some(Unknown); }
        if !guarded.Done? {
          var undone := DeleteSecret(own.value);
          return Some(if undone then Refused else Unclean);
        }
      } else {
        var ok := ValidateMiddleware(retained);
        if !ok { return Some(Invalid); }
      }
      var written := WriteIngress(previous, if own.Some? then own else retained, host);
      if written.Rejected? && own.Some? {
        var undone := DeleteSecret(own.value);
        return Some(if undone then Refused else Unclean);
      }
      return if written.Done? then None else Some(if written.Rejected? then Refused else Unknown);
    }

    method UpdateAccess(request: Request) returns (result: Result)
      requires Valid() && self == Start(request)
      modifies this
      ensures Valid() && others.Keys == old(others).Keys && self.stage == Finished(result)
      ensures Initial(initial) ==> Safe(cluster) && EnforcedSince(cluster, initial.cluster.nextVersion)
      ensures old(others) == map[] && old(steps) == [] && Sound(old(cluster)) && WellFormed(request) ==>
                && (result == Invalid || result == Refused ==> Same(old(cluster), cluster))
                && (result == Success ==> Requested(old(cluster), cluster.ingress, request) && EnforcedSince(cluster, 0)
                                          && Orphans(cluster) == Orphans(old(cluster)) + Stranded(old(cluster)))
    {
      result := Reconcile(request);
      if Initial(initial) {
        CredentialSafety(initial, steps, State());
        WrittenIsEnforced(initial, steps, State());
      }
      if old(others) == map[] && old(steps) == [] && Sound(old(cluster)) && WellFormed(request) {
        OnlyRunGoes(initial, steps, State(), me);
        RollbackAndOrphans(old(cluster), request, Moves(steps), cluster, self);
      }
    }

    method Reconcile(request: Request) returns (result: Result)
      requires Valid() && self == Start(request)
      modifies this
      ensures Valid() && others.Keys == old(others).Keys && self.stage == Finished(result)
    {
      var previous := ReadIngress();
      if previous.Failed? { return Invalid; }
      var chosen := Prepare(request, previous.value);
      if chosen.Failed? { return Invalid; }
      var (retained, own, obsolete) := chosen.value;
      if request.host.Some? {
        var r := Expose(previous.value, request.host.value, retained, own);
        if r.Some? { return r.value; }
      } else {
        var o := DeleteIngress(previous.value);
        if !o.Done? { return if o.Rejected? then Refused else Unknown; }
      }
      var saved := SaveInstance();
      if !saved { return Unclean; }
      if obsolete.None? {
        Finish();
        return Success;
      }
      var clean := DeleteSecret(obsolete.value);
      return if clean then Success else Unclean;
    }
  }
}
