/** The hourly buckets that throttle recovery requests (account_lifecycle.py).  Times are microseconds. */
module RateLimit {
  const HOUR: int := 3_600_000_000

  /** The two bucket keys of a request have different prefixes, and digests are injective. */
  datatype Key = ByEmail(email: string) | ByClient(client: string)

  datatype Attempt = Attempt(email: string, client: string, now: int)

  type Buckets = map<(Key, int), nat>

  function Window(now: int): int { now / HOUR }

  function Count(b: Buckets, key: Key, window: int): nat {
    if (key, window) in b then b[(key, window)] else 0
  }

  function Bumped(b: Buckets, key: Key, window: int): Buckets { b[(key, window) := Count(b, key, window) + 1] }

  /** What one key may use in one window, for a configured limit. */
  function Quota(key: Key, configured: int): int {
    var limit := if configured < 1 then 1 else configured;
    if key.ByEmail? then limit else limit * 5
  }

  predicate Uses(a: Attempt, key: Key) { key == ByEmail(a.email) || key == ByClient(a.client) }

  /** Both buckets count every attempt, also a throttled one. */
  function Tried(b: Buckets, a: Attempt): Buckets {
    Bumped(Bumped(b, ByEmail(a.email), Window(a.now)), ByClient(a.client), Window(a.now))
  }

  predicate Passes(b: Buckets, a: Attempt, configured: int) {
    && Count(b, ByEmail(a.email), Window(a.now)) < Quota(ByEmail(a.email), configured)
    && Count(b, ByClient(a.client), Window(a.now)) < Quota(ByClient(a.client), configured)
  }

  class Limiter {
    var buckets: Buckets

    constructor ()
      ensures buckets == map[]
    {
      buckets := map[];
    }

    /** A new row starts with the count one. */
    method Increment(key: Key, window: int) returns (count: nat)
      modifies this
      ensures buckets == Bumped(old(buckets), key, window) && count == Count(buckets, key, window)
    {
      if (key, window) !in buckets {
        buckets := buckets[(key, window) := 1];
      } else {
        buckets := buckets[(key, window) := buckets[(key, window)] + 1];
      }
      count := buckets[(key, window)];
    }

    method RateLimited(email: string, client: string, configured: int, now: int) returns (limited: bool)
      modifies this
      ensures buckets == Tried(old(buckets), Attempt(email, client, now))
      ensures limited <==> !Passes(old(buckets), Attempt(email, client, now), configured)
      // An address may use the configured limit, at least one, in one hour, a client five times that.
      ensures var limit := if configured < 1 then 1 else configured;
              limited <==> Count(old(buckets), ByEmail(email), now / 3_600_000_000) >= limit
                           || Count(old(buckets), ByClient(client), now / 3_600_000_000) >= 5 * limit
    {
      var limit := if configured < 1 then 1 else configured;
      var window := now / HOUR;
      var emailCount := Increment(ByEmail(email), window);
      var clientCount := Increment(ByClient(client), window);
      limited := emailCount > limit || clientCount > limit * 5;
    }
  }

  /** How many attempts of a trace pass that use `key` at a time from `lo` on and before `hi`. */
  function Passed(b: Buckets, trace: seq<Attempt>, configured: int, key: Key, lo: int, hi: int): nat
    decreases |trace|
  {
    if trace == [] then 0
    else
      (if Passes(b, trace[0], configured) && Uses(trace[0], key) && lo <= trace[0].now < hi then 1 else 0)
      + Passed(Tried(b, trace[0]), trace[1..], configured, key, lo, hi)
  }

  /** In an hour-aligned window a key passes at most its quota less what its bucket counted before. */
  lemma {:induction false} HourBound(b: Buckets, trace: seq<Attempt>, configured: int, key: Key, window: int)
    ensures var limit := if configured < 1 then 1 else configured;
            var left := (if key.ByEmail? then limit else 5 * limit) - Count(b, key, window);
            Passed(b, trace, configured, key, window * HOUR, (window + 1) * HOUR) <= if left < 0 then 0 else left
    decreases |trace|
  {
    if trace != [] {
      HourBound(Tried(b, trace[0]), trace[1..], configured, key, window);
      assert window * HOUR <= trace[0].now < (window + 1) * HOUR ==> Window(trace[0].now) == window;
    }
  }

  /** Passing attempts of an interval split at any point inside. */
  lemma {:induction false} PassedSplits(b: Buckets, trace: seq<Attempt>, configured: int, key: Key, lo: int, mid: int, hi: int)
    requires lo <= mid <= hi
    ensures Passed(b, trace, configured, key, lo, hi) ==
            Passed(b, trace, configured, key, lo, mid) + Passed(b, trace, configured, key, mid, hi)
    decreases |trace|
  {
    if trace != [] { PassedSplits(Tried(b, trace[0]), trace[1..], configured, key, lo, mid, hi); }
  }

  /** So in any sixty minutes a key passes at most twice its quota, whatever the order of the attempts. */
  lemma SpanBound(b: Buckets, trace: seq<Attempt>, configured: int, key: Key, start: int)
    ensures var limit := if configured < 1 then 1 else configured;
            Passed(b, trace, configured, key, start, start + 3_600_000_000) <= if key.ByEmail? then 2 * limit else 10 * limit
  {
    var w := Window(start);
    var lo, mid, hi := w * HOUR, (w + 1) * HOUR, (w + 2) * HOUR;
    PassedSplits(b, trace, configured, key, start, mid, start + HOUR);
    PassedSplits(b, trace, configured, key, lo, start, mid);
    PassedSplits(b, trace, configured, key, mid, start + HOUR, hi);
    HourBound(b, trace, configured, key, w);
    HourBound(b, trace, configured, key, w + 1);
  }

  /** `n` attempts by one caller at one time. */
  function Attempts(a: Attempt, n: nat): seq<Attempt> {
    if n == 0 then [] else [a] + Attempts(a, n - 1)
  }

  lemma PassingHead(b: Buckets, a: Attempt, rest: seq<Attempt>, configured: int, key: Key, lo: int, hi: int)
    requires Passes(b, a, configured) && Uses(a, key) && lo <= a.now < hi
    ensures Passed(b, [a] + rest, configured, key, lo, hi) == 1 + Passed(Tried(b, a), rest, configured, key, lo, hi)
  {
    assert ([a] + rest)[1..] == rest;
  }

  /** Attempts within the quota of a fresh window all pass, and touch no other window. */
  lemma {:induction false} FreshWindowPasses(b: Buckets, a: Attempt, n: nat, rest: seq<Attempt>, configured: int, lo: int, hi: int)
      returns (after: Buckets)
    requires lo <= a.now < hi
    requires Count(b, ByEmail(a.email), Window(a.now)) + n <= Quota(ByEmail(a.email), configured)
    requires Count(b, ByClient(a.client), Window(a.now)) + n <= Quota(ByEmail(a.email), configured)
    ensures Passed(b, Attempts(a, n) + rest, configured, ByEmail(a.email), lo, hi) ==
            n + Passed(after, rest, configured, ByEmail(a.email), lo, hi)
    ensures forall key, w | w != Window(a.now) :: Count(after, key, w) == Count(b, key, w)
    decreases n
  {
    if n == 0 {
      after := b;
      assert Attempts(a, n) + rest == rest;
    } else {
      var tail := Attempts(a, n - 1) + rest;
      assert Attempts(a, n) + rest == [a] + tail;
      PassingHead(b, a, tail, configured, ByEmail(a.email), lo, hi);
      after := FreshWindowPasses(Tried(b, a), a, n - 1, rest, configured, lo, hi);
    }
  }

  /** The bound is tight: bursts on both sides of a full hour pass twice the quota within sixty minutes. */
  lemma TwiceTheQuotaCanPass(email: string, client: string, configured: int) returns (trace: seq<Attempt>)
    ensures var limit := if configured < 1 then 1 else configured;
            Passed(map[], trace, configured, ByEmail(email), 3_599_999_999, 7_199_999_999) == 2 * limit
  {
    var n := Quota(ByEmail(email), configured);
    var first, second := Attempt(email, client, HOUR - 1), Attempt(email, client, HOUR);
    var tail := Attempts(second, n) + [];
    var b := FreshWindowPasses(map[], first, n, tail, configured, HOUR - 1, 2 * HOUR - 1);
    var _ := FreshWindowPasses(b, second, n, [], configured, HOUR - 1, 2 * HOUR - 1);
    trace := Attempts(first, n) + tail;
  }

  /** An address for every number. */
  function Address(n: nat): string { seq(n, i => 'x') }

  /** `n` attempts by one client at one time, each for another address. */
  function Sweep(client: string, now: int, n: nat): seq<Attempt> {
    if n == 0 then [] else [Attempt(Address(n), client, now)] + Sweep(client, now, n - 1)
  }

  lemma TriedOnlyThis(b: Buckets, client: string, now: int, n: nat)
    ensures var after := Tried(b, Attempt(Address(n), client, now));
            && (forall k :: 0 <= k < n ==> Count(after, ByEmail(Address(k)), Window(now)) == Count(b, ByEmail(Address(k)), Window(now)))
            && Count(after, ByClient(client), Window(now)) == Count(b, ByClient(client), Window(now)) + 1
            && forall key, w | w != Window(now) :: Count(after, key, w) == Count(b, key, w)
  {
    forall k | 0 <= k < n ensures Address(k) != Address(n) { assert |Address(k)| == k && |Address(n)| == n; }
  }

  /** A sweep over unused addresses passes up to the client's own quota, and touches no other window. */
  lemma {:induction false} SweepPasses(b: Buckets, client: string, now: int, n: nat, rest: seq<Attempt>, configured: int,
                                       lo: int, hi: int) returns (after: Buckets)
    requires lo <= now < hi && Count(b, ByClient(client), Window(now)) + n <= Quota(ByClient(client), configured)
    requires forall k :: 1 <= k <= n ==> Count(b, ByEmail(Address(k)), Window(now)) == 0
    ensures Passed(b, Sweep(client, now, n) + rest, configured, ByClient(client), lo, hi) ==
            n + Passed(after, rest, configured, ByClient(client), lo, hi)
    ensures forall key, w | w != Window(now) :: Count(after, key, w) == Count(b, key, w)
    decreases n
  {
    if n == 0 {
      after := b;
      assert Sweep(client, now, n) + rest == rest;
    } else {
      var a := Attempt(Address(n), client, now);
      var tail := Sweep(client, now, n - 1) + rest;
      assert Sweep(client, now, n) + rest == [a] + tail;
      PassingHead(b, a, tail, configured, ByClient(client), lo, hi);
      TriedOnlyThis(b, client, now, n);
      after := SweepPasses(Tried(b, a), client, now, n - 1, rest, configured, lo, hi);
    }
  }

  /** The client's bound is tight as well: sweeps over many addresses pass ten times the limit within sixty minutes. */
  lemma TenfoldCanPassForAClient(client: string, configured: int) returns (trace: seq<Attempt>)
    ensures var limit := if configured < 1 then 1 else configured;
            Passed(map[], trace, configured, ByClient(client), 3_599_999_999, 7_199_999_999) == 10 * limit
  {
    var n := Quota(ByClient(client), configured);
    var tail := Sweep(client, HOUR, n) + [];
    var b := SweepPasses(map[], client, HOUR - 1, n, tail, configured, HOUR - 1, 2 * HOUR - 1);
    var _ := SweepPasses(b, client, HOUR, n, [], configured, HOUR - 1, 2 * HOUR - 1);
    trace := Sweep(client, HOUR - 1, n) + tail;
  }
}
