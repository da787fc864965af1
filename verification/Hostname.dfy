/** Host rules of Ingresses: when two overlap, and the scan that keeps routes disjoint (hostname.py). */
module Hostname {
  import opened Wrappers
  import opened Text

  function TrimDots(s: string): (r: string)
    ensures r <= s && (r == "" || r[|r| - 1] != '.')
    ensures forall i :: |r| <= i < |s| ==> s[i] == '.'
  {
    if s != "" && s[|s| - 1] == '.' then TrimDots(s[..|s| - 1]) else s
  }

  /** DNS names compare case-insensitively (section 3.1 of RFC 1034) and without the root's dot. */
  function Normal(s: string): string { TrimDots(Lower(s)) }

  /** Case and trailing dots do not matter. */
  lemma CaseAndDots(s: string)
    ensures Normal(Lower(s)) == Normal(s) && Normal(s + ".") == Normal(s)
  {
    LowerTwice(s);
    LowerDot(s);
  }

  lemma LowerTwice(s: string)
    ensures Lower(Lower(s)) == Lower(s)
  {
  }

  lemma LowerDot(s: string)
    ensures Lower(s + ".") == Lower(s) + "." && TrimDots(Lower(s) + ".") == TrimDots(Lower(s))
  {
    var t := Lower(s) + ".";
    assert Lower(s + ".") == t;
    assert t[..|t| - 1] == Lower(s);
  }

  predicate IsWildcard(rule: string) { "*." <= rule }

  predicate DotFree(part: string) { forall i :: 0 <= i < |part| ==> part[i] != '.' }

  /** The label a wildcard rule leaves of a host is one non-empty, dot-free label. */
  predicate WildcardCovers(wildcard: string, host: string) {
    && IsWildcard(wildcard)
    && var suffix := wildcard[2..];
       && EndsWith(host, "." + suffix)
       && var part := host[..|host| - (|suffix| + 1)];
          part != "" && DotFree(part)
  }

  predicate HostsOverlap(first: string, second: string) {
    var a, b := Normal(first), Normal(second);
    a == "" || b == "" || a == b || WildcardCovers(a, b) || WildcardCovers(b, a)
  }

  /** What a rule means: which concrete hosts it routes.  An empty rule matches every host, `*.s` any host
      with one more label than `s`, anything else only itself. */
  ghost predicate Matches(rule: string, host: string) {
    Normal(host) != "" && Meets(Normal(rule), Normal(host))
  }

  ghost predicate Meets(r: string, h: string) {
    if r == "" then true
    else if IsWildcard(r) then exists part :: part != "" && DotFree(part) && h == part + "." + r[2..]
    else h == r
  }

  /** No upper-case letter, no trailing dot. */
  predicate IsNormal(s: string) {
    (forall i :: 0 <= i < |s| ==> LowerChar(s[i]) == s[i]) && (s == "" || s[|s| - 1] != '.')
  }

  lemma NormalIsFixed(s: string)
    ensures IsNormal(Normal(s))
    ensures IsNormal(s) ==> Normal(s) == s
  {
  }

  /** A host is cut into first label and rest in one way. */
  lemma SplitUnique(p: string, s: string, q: string, t: string)
    requires DotFree(p) && DotFree(q) && p + "." + s == q + "." + t
    ensures p == q && s == t
  {
    var h, g := p + "." + s, q + "." + t;
    assert h[|p|] == '.' && g[|q|] == '.';
    assert forall i :: 0 <= i < |p| ==> h[i] == p[i];
    assert forall i :: 0 <= i < |q| ==> g[i] == q[i];
    assert |p| == |q|;
    assert h[..|p|] == p && g[..|q|] == q;
    assert h[|p| + 1..] == s && g[|q| + 1..] == t;
  }

  /** Two ways to say that a host is a first part, a dot and a suffix. */
  lemma Cut(part: string, suffix: string, host: string)
    ensures host == part + "." + suffix <==> EndsWith(host, "." + suffix) && host[..|host| - (|suffix| + 1)] == part
  {
  }

  lemma CoversIffMatches(wildcard: string, host: string)
    requires IsNormal(wildcard) && IsNormal(host) && IsWildcard(wildcard) && host != ""
    ensures WildcardCovers(wildcard, host) <==> Matches(wildcard, host)
  {
    NormalIsFixed(wildcard);
    NormalIsFixed(host);
    var suffix := wildcard[2..];
    if WildcardCovers(wildcard, host) {
      var part := host[..|host| - (|suffix| + 1)];
      Cut(part, suffix, host);
    }
    if Matches(wildcard, host) {
      var part :| part != "" && DotFree(part) && host == part + "." + suffix;
      Cut(part, suffix, host);
    }
  }

  lemma LabelHost(suffix: string)
    requires IsNormal(suffix) && suffix != ""
    ensures IsNormal("x" + "." + suffix)
  {
  }

  /** A host that a client can ask for: a name, not a rule. */
  predicate Concrete(host: string) { IsNormal(host) && host != "" && !IsWildcard(host) }

  /** A rule matches a concrete host of its own. */
  lemma HasHost(rule: string) returns (host: string)
    ensures Concrete(host) && Matches(rule, host)
    ensures !IsWildcard(Normal(rule)) && Normal(rule) != "" ==> host == Normal(rule)
  {
    var r := Normal(rule);
    NormalIsFixed(rule);
    if r == "" {
      host := "x";
    } else if IsWildcard(r) {
      var suffix := r[2..];
      assert forall i :: 0 <= i < |suffix| ==> suffix[i] == r[i + 2];
      LabelHost(suffix);
      host := "x" + "." + suffix;
      assert DotFree("x");
    } else {
      host := r;
    }
    NormalIsFixed(host);
  }

  lemma NormalMatches(rule: string, host: string)
    ensures Matches(rule, host) <==> Matches(Normal(rule), host)
  {
    NormalIsFixed(rule);
    NormalIsFixed(Normal(rule));
  }

  /** Two rules that overlap route a common concrete host. */
  lemma OverlapHasHost(first: string, second: string) returns (host: string)
    requires HostsOverlap(first, second)
    ensures Concrete(host) && Matches(first, host) && Matches(second, host)
  {
    var a, b := Normal(first), Normal(second);
    NormalIsFixed(first);
    NormalIsFixed(second);
    NormalMatches(first, b);
    NormalMatches(second, a);
    if a == "" || (b != "" && WildcardCovers(a, b)) {
      host := HasHost(second);
      if a != "" {
        CoversIffMatches(a, b);
        if IsWildcard(b) { WildcardsDiffer(a, b); host := HasHost(first); }
      }
    } else {
      host := HasHost(first);
      if b != "" && a != b {
        CoversIffMatches(b, a);
        if IsWildcard(a) { WildcardsDiffer(b, a); }
      }
    }
  }

  lemma WildcardParts(a: string)
    requires IsWildcard(a)
    ensures a == "*" + "." + a[2..] && DotFree("*")
  {
  }

  /** One wildcard rule covers another only if they are the same rule. */
  lemma WildcardsDiffer(a: string, b: string)
    requires IsNormal(a) && IsNormal(b) && IsWildcard(b) && WildcardCovers(a, b)
    ensures a == b
  {
    var suffix := a[2..];
    var part := b[..|b| - (|suffix| + 1)];
    assert b == part + ("." + suffix) == part + "." + suffix;
    WildcardParts(a);
    WildcardParts(b);
    SplitUnique(part, suffix, "*", b[2..]);
  }

  /** Two rules with a common host overlap. */
  lemma CommonHostOverlaps(first: string, second: string, host: string)
    requires Matches(first, host) && Matches(second, host)
    ensures HostsOverlap(first, second)
  {
    NormalIsFixed(first);
    NormalIsFixed(second);
    NormalIsFixed(host);
    RoutesOverlap(Normal(first), Normal(second), Normal(host));
  }

  lemma TwoWildcards(a: string, b: string, h: string)
    requires IsWildcard(a) && IsWildcard(b) && Meets(a, h) && Meets(b, h)
    ensures a == b
  {
    var p :| p != "" && DotFree(p) && h == p + "." + a[2..];
    var q :| q != "" && DotFree(q) && h == q + "." + b[2..];
    SplitUnique(p, a[2..], q, b[2..]);
    assert a == "*." + a[2..] && b == "*." + b[2..];
  }

  lemma WildcardRoutes(a: string, h: string)
    requires IsWildcard(a) && Meets(a, h)
    ensures WildcardCovers(a, h)
  {
    var part :| part != "" && DotFree(part) && h == part + "." + a[2..];
    Cut(part, a[2..], h);
  }

  lemma RoutesOverlap(a: string, b: string, h: string)
    requires Meets(a, h) && Meets(b, h)
    ensures a == "" || b == "" || a == b || WildcardCovers(a, b) || WildcardCovers(b, a)
  {
    if a != "" && b != "" {
      if IsWildcard(a) && IsWildcard(b) {
        TwoWildcards(a, b, h);
      } else if IsWildcard(a) {
        WildcardRoutes(a, h);
      } else if IsWildcard(b) {
        WildcardRoutes(b, h);
      }
    }
  }

  /** The overlap test is exact: it holds if and only if some concrete host is routed by both rules. */
  lemma OverlapIsExact(first: string, second: string)
    ensures HostsOverlap(first, second) <==> exists host :: Concrete(host) && Matches(first, host) && Matches(second, host)
  {
    if HostsOverlap(first, second) {
      var host := OverlapHasHost(first, second);
    }
    if host :| Matches(first, host) && Matches(second, host) {
      CommonHostOverlaps(first, second, host);
    }
  }

  lemma OverlapIsSymmetric(first: string, second: string)
    ensures HostsOverlap(first, second) <==> HostsOverlap(second, first)
  {
  }

  datatype Id = Id(space: string, name: string)

  /** An Ingress as listed; a rule without a host has the host "". */
  datatype Route = Route(id: Id, hosts: seq<string>, specClass: Option<string>, annotation: Option<string>)

  /** The answer to reading an IngressClass. */
  datatype ClassReply = Controller(name: string) | NotFound | ApiFailure

  const TRAEFIK := "traefik.io/ingress-controller"

  function Present(s: Option<string>): Option<string> {
    if s == Some("") then None else s
  }

  /** The class of a route: its spec field, else its annotation; empty strings count as absent. */
  function ClassOf(r: Route): Option<string> {
    if Present(r.specClass).Some? then r.specClass else Present(r.annotation)
  }

  predicate Overlaps(r: Route, host: string) {
    exists h <- r.hosts :: HostsOverlap(host, h)
  }

  /** An overlapping route of another class, whose controller must be looked up. */
  predicate Asks(r: Route, host: string, cls: string, existing: Option<Id>) {
    existing != Some(r.id) && Overlaps(r, host) && ClassOf(r).Some? && ClassOf(r) != Some(cls)
  }

  /** The route rules the host out: it overlaps, is not the Ingress being updated, and its class is this
      one, none, unknown, or served by the same controller. */
  predicate Blocks(r: Route, host: string, cls: string, existing: Option<Id>, classes: string -> ClassReply) {
    && existing != Some(r.id) && Overlaps(r, host)
    && (Asks(r, host, cls, existing) ==>
          classes(ClassOf(r).value).NotFound? || classes(ClassOf(r).value) == Controller(TRAEFIK))
  }

  predicate Errs(r: Route, host: string, cls: string, existing: Option<Id>, classes: string -> ClassReply) {
    Asks(r, host, cls, existing) && classes(ClassOf(r).value).ApiFailure?
  }

  /** The class named by the spec decides, whatever the annotation says; without one the annotation does. */
  lemma SpecClassDecides(r: Route, host: string, cls: string, existing: Option<Id>, classes: string -> ClassReply, c: string)
    requires c != "" && (r.specClass == Some(c) || (r.specClass in {None, Some("")} && r.annotation == Some(c)))
    requires existing != Some(r.id) && Overlaps(r, host)
    ensures Blocks(r, host, cls, existing, classes) <==> c == cls || classes(c).NotFound? || classes(c) == Controller(TRAEFIK)
    ensures Errs(r, host, cls, existing, classes) <==> c != cls && classes(c).ApiFailure?
  {
    ClassIs(r, c);
  }

  lemma ClassIs(r: Route, c: string)
    requires c != "" && (r.specClass == Some(c) || (r.specClass in {None, Some("")} && r.annotation == Some(c)))
    ensures ClassOf(r) == Some(c)
  {
  }

  /** A route without a class counts, as does one of no class in either place. */
  lemma UnclassifiedBlocks(r: Route, host: string, cls: string, existing: Option<Id>, classes: string -> ClassReply)
    requires r.specClass in {None, Some("")} && r.annotation in {None, Some("")}
    ensures Blocks(r, host, cls, existing, classes) <==> existing != Some(r.id) && Overlaps(r, host)
    ensures !Errs(r, host, cls, existing, classes)
  {
  }

  /** Some route blocks the host, and no class lookup fails before it. */
  ghost predicate FirstBlocks(routes: seq<Route>, host: string, cls: string, existing: Option<Id>, classes: string -> ClassReply) {
    exists i :: 0 <= i < |routes| && Blocks(routes[i], host, cls, existing, classes)
                && forall j :: 0 <= j < i ==> !Errs(routes[j], host, cls, existing, classes)
  }

  datatype Verdict = Available | Conflict | Unverified

  /** The scan, with its cache of classes, gives the verdict of the cache-free definition: a conflict at the
      first blocking route, unless a class lookup failed before it. */
  method ValidateHostnameAvailable(routes: seq<Route>, host: Option<string>, cls: string, existing: Option<Id>,
                                   classes: string -> ClassReply)
    returns (v: Verdict)
    ensures Present(host).None? ==> v.Available?
    ensures Present(host).Some? ==>
              (v.Available? <==> forall r :: r in routes ==> !Blocks(r, host.value, cls, existing, classes)
                                                             && !Errs(r, host.value, cls, existing, classes))
    ensures Present(host).Some? ==> (v.Conflict? <==> FirstBlocks(routes, host.value, cls, existing, classes))
  {
    if Present(host).None? { return Available; }
    var shared: map<string, bool> := map[];
    for i := 0 to |routes|
      invariant forall c :: c in shared ==>
                  !classes(c).ApiFailure? && shared[c] == (classes(c).NotFound? || classes(c) == Controller(TRAEFIK))
      invariant forall j :: 0 <= j < i ==> !Blocks(routes[j], host.value, cls, existing, classes)
                                           && !Errs(routes[j], host.value, cls, existing, classes)
    {
      var r := routes[i];
      if existing == Some(r.id) || !Overlaps(r, host.value) { continue; }
      var c := ClassOf(r);
      if c.Some? && c.value != cls {
        if c.value !in shared {
          match classes(c.value) {
            case ApiFailure =>
              assert Errs(r, host.value, cls, existing, classes) && r in routes;
              return Unverified;
            case NotFound => shared := shared[c.value := true];
            case Controller(name) => shared := shared[c.value := name == TRAEFIK];
          }
        }
        if !shared[c.value] { continue; }
      }
      assert Blocks(r, host.value, cls, existing, classes) && r in routes;
      return Conflict;
    }
    return Available;
  }

  /** All Ingresses of the cluster; `managed` are those written by accepted requests. */
  datatype Routes = Routes(all: map<Id, Route>, managed: map<Id, string>)

  /** What can happen: an accepted write, which may take over an Ingress of its own name, the deletion of a managed
      Ingress, or anything someone else does to one that is not managed. */
  datatype Change = Expose(id: Id, host: string) | Withdraw(id: Id) | Foreign(id: Id, route: Option<Route>)

  ghost predicate Accepted(s: Routes, id: Id, host: string, cls: string, classes: string -> ClassReply) {
    var existing := if id in s.all then Some(id) else None;
    forall r :: r in s.all.Values ==> !Blocks(r, host, cls, existing, classes) && !Errs(r, host, cls, existing, classes)
  }

  ghost predicate Allowed(s: Routes, change: Change, cls: string, classes: string -> ClassReply) {
    match change
    case Expose(id, host) => Accepted(s, id, host, cls, classes)
    case Withdraw(id) => id in s.managed
    case Foreign(id, route) => id !in s.managed && (route.Some? ==> route.value.id == id)
  }

  function Apply(s: Routes, change: Change, cls: string): Routes {
    match change
    case Expose(id, host) => Routes(s.all[id := Route(id, [host], Some(cls), None)], s.managed[id := host])
    case Withdraw(id) => Routes(s.all - {id}, s.managed - {id})
    case Foreign(id, Some(route)) => s.(all := s.all[id := route])
    case Foreign(id, None) => s.(all := s.all - {id})
  }

  /** Managed Ingresses are stored as written, and no two of them overlap. */
  ghost predicate Disjoint(s: Routes, cls: string) {
    && (forall id :: id in s.managed ==> id in s.all && s.all[id] == Route(id, [s.managed[id]], Some(cls), None))
    && (forall a, b :: a in s.managed && b in s.managed && a != b ==> !HostsOverlap(s.managed[a], s.managed[b]))
  }

  lemma ChangeKeepsDisjoint(s: Routes, change: Change, cls: string, classes: string -> ClassReply)
    requires cls != "" && Disjoint(s, cls) && Allowed(s, change, cls, classes)
    ensures Disjoint(Apply(s, change, cls), cls)
  {
    if change.Expose? {
      var id, host := change.id, change.host;
      forall b | b in s.managed && b != id
        ensures !HostsOverlap(host, s.managed[b]) && !HostsOverlap(s.managed[b], host)
      {
        OverlapIsSymmetric(host, s.managed[b]);
        var r := s.all[b];
        assert r in s.all.Values && s.managed[b] in r.hosts;
        assert ClassOf(r) == Some(cls);
      }
    }
  }

  ghost predicate Happens(s: Routes, changes: seq<Change>, t: Routes, cls: string, classes: string -> ClassReply)
    decreases |changes|
  {
    if changes == [] then s == t
    else Allowed(s, changes[0], cls, classes) && Happens(Apply(s, changes[0], cls), changes[1..], t, cls, classes)
  }

  /** Over every history of accepted writes, deletions and foreign changes, no host is routed by two managed
      Ingresses. */
  lemma {:induction false} HostsStayDisjoint(s: Routes, changes: seq<Change>, t: Routes, cls: string, classes: string -> ClassReply)
    requires cls != "" && Disjoint(s, cls) && Happens(s, changes, t, cls, classes)
    ensures Disjoint(t, cls)
    ensures forall a, b, host :: a in t.managed && b in t.managed && Matches(t.managed[a], host) && Matches(t.managed[b], host)
                                 ==> a == b
    decreases |changes|
  {
    if changes == [] {
      forall a, b, host | a in t.managed && b in t.managed && Matches(t.managed[a], host) && Matches(t.managed[b], host)
        ensures a == b
      {
        CommonHostOverlaps(t.managed[a], t.managed[b], host);
      }
    } else {
      ChangeKeepsDisjoint(s, changes[0], cls, classes);
      HostsStayDisjoint(Apply(s, changes[0], cls), changes[1..], t, cls, classes);
    }
  }
}
