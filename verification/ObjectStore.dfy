/** An S3 bucket service shared with other clients, and the requests s3-client.js sends to it.

    Every request is one atomic step.  Before each step other clients may have written or deleted
    anything, and every request may fail; a failed write may or may not have been committed.  The
    history of the service is a log of events, which is what the safety properties speak about. */
module ObjectStore {
  import opened Wrappers

  newtype byte = b: int | 0 <= b < 256

  type Content = seq<byte>
  type Metadata = map<string, string>

  /** A strong validator: equal tags mean equal content.  The server chooses the nonce, so writing the
      same content again may or may not produce the same tag. */
  datatype Etag = Etag(digest: Content, nonce: nat)

  datatype Blob = Blob(content: Content, metadata: Metadata, nonce: nat) {
    function Tag(): Etag { Etag(content, nonce) }
  }

  /** A bucket of a server: `server` is the one that answers, however its endpoint is spelled. */
  datatype Site = Site(server: string, bucket: string)
  datatype Loc = Loc(site: Site, key: string)
  type Store = map<Loc, Blob>

  /** If-Match and If-None-Match: * of RFC 9110, sections 13.1.1 and 13.1.2. */
  datatype Condition = IfMatch(tag: Etag) | IfNoneMatch

  datatype Choice = Skip | Replace | Cancel

  datatype Event =
    | Outside(loc: Loc, written: Option<Blob>)                 // another client wrote or deleted
    | Trouble                                                  // a request failed, an answer was lost or lacked its ETag,
                                                               // a profile was not usable, or the run was aborted
    | Seen(loc: Loc, found: Option<Blob>)                      // HEAD answered
    | Asked(loc: Loc, choice: Choice)                            // the overwrite question was answered
    | Fetched(loc: Loc, tag: Etag, content: Content)             // GET answered with this version
    | Stored(loc: Loc, condition: Condition, blob: Blob)     // conditional PUT committed
    | Removed(loc: Loc, expected: Option<Etag>)                     // DELETE committed, with If-Match if a tag was given

  function Lookup(store: Store, loc: Loc): Option<Blob> {
    if loc in store then Some(store[loc]) else None
  }

  predicate Holds(store: Store, loc: Loc, condition: Condition) {
    match condition
    case IfMatch(tag) => loc in store && store[loc].Tag() == tag
    case IfNoneMatch => loc !in store
  }

  function Apply(store: Store, e: Event): Store {
    match e
    case Outside(loc, Some(blob)) => store[loc := blob]
    case Outside(loc, None) => store - {loc}
    case Stored(loc, _, blob) => store[loc := blob]
    case Removed(loc, _) => store - {loc}
    case _ => store
  }

  /** What the service guarantees about an event, given the objects it held at that moment. */
  predicate Permits(store: Store, e: Event) {
    match e
    case Seen(loc, found) => found == Lookup(store, loc)
    case Fetched(loc, tag, content) => Holds(store, loc, IfMatch(tag)) && store[loc].content == content
    case Stored(loc, condition, _) => Holds(store, loc, condition)
    case Removed(loc, Some(tag)) => Holds(store, loc, IfMatch(tag))
    case _ => true
  }

  ghost function Run(initial: Store, log: seq<Event>): Store {
    if log == [] then initial else Apply(Run(initial, log[..|log| - 1]), log[|log| - 1])
  }

  ghost predicate Legal(initial: Store, log: seq<Event>) {
    log == [] || (Legal(initial, log[..|log| - 1]) && Permits(Run(initial, log[..|log| - 1]), log[|log| - 1]))
  }

  lemma RunExtends(initial: Store, log: seq<Event>, e: Event)
    ensures Run(initial, log + [e]) == Apply(Run(initial, log), e)
    ensures Legal(initial, log + [e]) <==> Legal(initial, log) && Permits(Run(initial, log), e)
  {
  }

  /** A legal history is legal at every point. */
  lemma {:induction false} LegalAt(initial: Store, log: seq<Event>, i: nat)
    requires Legal(initial, log) && i < |log|
    ensures Legal(initial, log[..i]) && Permits(Run(initial, log[..i]), log[i])
    ensures Run(initial, log[..i + 1]) == Apply(Run(initial, log[..i]), log[i])
    decreases |log|
  {
    var front := log[..|log| - 1];
    if i == |log| - 1 {
      assert log[..i + 1] == log;
    } else {
      LegalAt(initial, front, i);
      assert front[..i] == log[..i] && front[..i + 1] == log[..i + 1];
    }
  }

  /** Does the event change what is stored at loc? */
  predicate Writes(e: Event, loc: Loc) {
    (e.Outside? || e.Stored? || e.Removed?) && e.loc == loc
  }

  predicate Untouched(log: seq<Event>, lo: nat, hi: nat, loc: Loc) {
    forall k | lo <= k < hi && k < |log| :: !Writes(log[k], loc)
  }

  /** An object nobody wrote between two points is the same at both. */
  lemma {:induction false} UntouchedKeeps(initial: Store, log: seq<Event>, lo: nat, hi: nat, loc: Loc)
    requires lo <= hi <= |log|
    requires Untouched(log, lo, hi, loc)
    ensures Lookup(Run(initial, log[..lo]), loc) == Lookup(Run(initial, log[..hi]), loc)
    decreases hi
  {
    if lo < hi {
      UntouchedKeeps(initial, log, lo, hi - 1, loc);
      RunExtends(initial, log[..hi - 1], log[hi - 1]);
      assert log[..hi] == log[..hi - 1] + [log[hi - 1]];
    }
  }

  /** This client did nothing. */
  predicate AllOutside(log: seq<Event>, lo: nat, hi: nat) {
    forall k | lo <= k < hi && k < |log| :: log[k].Outside? || log[k].Trouble?
  }

  /** Nothing went wrong. */
  predicate NoTrouble(log: seq<Event>, lo: nat) {
    forall k | lo <= k < |log| :: !log[k].Trouble?
  }

  predicate NoneOutside(log: seq<Event>, lo: nat) {
    forall k | lo <= k < |log| :: !log[k].Outside?
  }

  /** Nobody interfered, and nothing went wrong. */
  predicate Smooth(log: seq<Event>, lo: nat) {
    forall k | lo <= k < |log| :: !log[k].Outside? && !log[k].Trouble?
  }

  /** The largest object the client reads or writes: 5 GiB. */
  const LIMIT: nat := 5 * 1024 * 1024 * 1024

  /** The precondition header an upload sends for the version it expects to replace. */
  function Require(existing: Option<Etag>): Condition {
    match existing
    case Some(tag) => IfMatch(tag)
    case None => IfNoneMatch
  }

  /** What HEAD reports: the server may omit the ETag header. */
  datatype Info = Info(tag: Option<Etag>, size: nat, metadata: Metadata)

  /** The log is the old one, then steps of other clients, then the given own events. */
  ghost predicate Grew(before: seq<Event>, log: seq<Event>, own: seq<Event>) {
    && |before| + |own| <= |log|
    && log[..|before|] == before
    && log[|log| - |own|..] == own
    && AllOutside(log, |before|, |log| - |own|)
  }

  /** Steps of other clients, then one own event. */
  lemma OneMore(before: seq<Event>, middle: seq<Event>, own: Event)
    requires Grew(before, middle, [])
    ensures Grew(before, middle + [own], [own])
    ensures NoneOutside(middle + [own], |before|) ==> NoneOutside(middle, |before|)
  {
  }

  /** Steps of other clients, then a trouble, count as steps of other clients. */
  lemma TroubleMore(before: seq<Event>, middle: seq<Event>)
    requires Grew(before, middle, [])
    ensures Grew(before, middle + [Trouble], []) && !NoTrouble(middle + [Trouble], |before|)
    ensures NoneOutside(middle + [Trouble], |before|) ==> NoneOutside(middle, |before|)
  {
    var log := middle + [Trouble];
    assert log[..|before|] == before && log[|middle|].Trouble?;
    assert forall k :: 0 <= k < |middle| ==> log[k] == middle[k];
  }

  class Remote {
    /** The server that requests for an endpoint reach.  Any endpoints may reach the same one. */
    const server: string -> string
    var store: Store
    ghost const initial: Store
    ghost var log: seq<Event>

    ghost predicate Valid() reads this {
      store == Run(initial, log) && Legal(initial, log)
    }

    constructor (server: string -> string, objects: Store)
      ensures Valid() && this.server == server && store == objects && log == []
    {
      this.server := server;
      store := objects;
      initial := objects;
      log := [];
    }

    /** Other clients write and delete as they please. */
    method Interfere()
      requires Valid()
      modifies this
      ensures Valid() && Grew(old(log), log, []) && NoTrouble(log, |old(log)|)
      ensures NoneOutside(log, |old(log)|) ==> store == old(store)
    {
      var steps :| steps >= 0;
      for n := 0 to steps
        invariant Valid() && Grew(old(log), log, [])
        invariant n == 0 ==> log == old(log) && store == old(store)
        invariant n > 0 ==> |log| > |old(log)|
        invariant forall k :: |old(log)| <= k < |log| ==> log[k].Outside?
      {
        var loc: Loc := *;
        var written: Option<Blob> := *;
        RunExtends(initial, log, Outside(loc, written));
        store := Apply(store, Outside(loc, written));
        log := log + [Outside(loc, written)];
      }
    }

    /** Records an event of this client that the service permits now. */
    ghost method Record(e: Event)
      requires Legal(initial, log) && Permits(Run(initial, log), e)
      modifies this`log
      ensures log == old(log) + [e] && Legal(initial, log) && Run(initial, log) == Apply(Run(initial, old(log)), e)
    {
      RunExtends(initial, log, e);
      log := log + [e];
    }

    /** Something goes wrong with this client. */
    ghost method Note()
      requires Valid()
      modifies this`log
      ensures Valid() && log == old(log) + [Trouble]
    {
      Record(Trouble);
    }

    /** Other clients act, and then something may go wrong. */
    method Wait(wrong: bool)
      requires Valid()
      modifies this
      ensures Valid() && Grew(old(log), log, [])
      ensures NoneOutside(log, |old(log)|) ==> store == old(store)
      ensures wrong ==> !NoTrouble(log, |old(log)|) && log[|log| - 1].Trouble?
    {
      Interfere();
      if wrong {
        TroubleMore(old(log), log);
        Note();
      }
    }

    /** HEAD; `None` is a 404. */
    method Stat(loc: Loc) returns (r: Reply<Option<Info>>)
      requires Valid()
      modifies this
      ensures Valid()
      ensures r.Failed? ==> Grew(old(log), log, [])
      ensures r.Ok? ==> Grew(old(log), log, [Seen(loc, Lookup(store, loc))])
      ensures NoneOutside(log, |old(log)|) ==> store == old(store)
      ensures r.Ok? && r.value.None? ==> loc !in store
      ensures r.Ok? && r.value.Some? ==> loc in store && r.value.value.metadata == store[loc].metadata
                                         && r.value.value.size == |store[loc].content|
      ensures r.Ok? && r.value.Some? && r.value.value.tag.Some? ==> r.value.value.tag.value == store[loc].Tag()
      ensures r.Failed? || (r.value.Some? && r.value.value.tag.None?) ==> !NoTrouble(log, |old(log)|)
      ensures r.Ok? && r.value.Some? && r.value.value.tag.None? ==> |log| > 1 && log[|log| - 2].Trouble?
    {
      var fails: bool, omitted: bool := *, *;
      Wait(fails || omitted);
      if fails { return Failed; }
      OneMore(old(log), log, Seen(loc, Lookup(store, loc)));
      Record(Seen(loc, Lookup(store, loc)));
      if loc !in store { return Ok(None); }
      var tag := if omitted then None else Some(store[loc].Tag());
      return Ok(Some(Info(tag, |store[loc].content|, store[loc].metadata)));
    }

    /** GET with If-Match: the bytes of exactly that version, or an error. */
    method Download(loc: Loc, tag: Etag) returns (r: Reply<Content>)
      requires Valid()
      modifies this
      ensures Valid()
      ensures r.Failed? ==> Grew(old(log), log, [])
      ensures r.Ok? ==> Grew(old(log), log, [Fetched(loc, tag, r.value)])
      ensures r.Ok? ==> Holds(store, loc, IfMatch(tag)) && store[loc].content == r.value && |r.value| <= LIMIT
      ensures r.Failed? && NoTrouble(log, |old(log)|) ==> !Holds(store, loc, IfMatch(tag)) || |store[loc].content| > LIMIT
      ensures NoneOutside(log, |old(log)|) ==> store == old(store)
    {
      var fails: bool := *;
      Wait(fails);
      if fails || !Holds(store, loc, IfMatch(tag)) || |store[loc].content| > LIMIT { return Failed; }
      OneMore(old(log), log, Fetched(loc, tag, store[loc].content));
      Record(Fetched(loc, tag, store[loc].content));
      return Ok(store[loc].content);
    }

    /** GET without a precondition: the bytes of whatever version is there. */
    method DownloadAny(loc: Loc) returns (r: Reply<Content>)
      requires Valid()
      modifies this
      ensures Valid()
      ensures r.Failed? ==> Grew(old(log), log, [])
      ensures r.Ok? ==> loc in store && store[loc].content == r.value
                        && Grew(old(log), log, [Fetched(loc, store[loc].Tag(), r.value)])
      ensures r.Failed? && NoTrouble(log, |old(log)|) ==> loc !in store || |store[loc].content| > LIMIT
      ensures NoneOutside(log, |old(log)|) ==> store == old(store)
    {
      var fails: bool := *;
      Wait(fails);
      if fails || loc !in store || |store[loc].content| > LIMIT { return Failed; }
      OneMore(old(log), log, Fetched(loc, store[loc].Tag(), store[loc].content));
      Record(Fetched(loc, store[loc].Tag(), store[loc].content));
      return Ok(store[loc].content);
    }

    /** PUT that replaces the version `existing`, or creates an object where there is none.  A failed
        call may have been committed: the answer can be lost. */
    method Upload(loc: Loc, content: Content, metadata: Metadata, existing: Option<Etag>)
      returns (r: Reply<Option<Etag>>)
      requires Valid()
      modifies this
      ensures Valid()
      ensures |content| > LIMIT ==> r.Failed? && log == old(log)
      ensures Grew(old(log), log, []) ||
              exists nonce :: Grew(old(log), log, [Stored(loc, Require(existing), Blob(content, metadata, nonce))])
      ensures r.Ok? ==> loc in store && Grew(old(log), log, [Stored(loc, Require(existing), store[loc])])
                        && store[loc].content == content && store[loc].metadata == metadata
                        && (r.value.Some? ==> r.value.value == store[loc].Tag())
      ensures r.Ok? && NoneOutside(log, |old(log)|) ==> store == old(store)[loc := store[loc]]
      ensures r.Ok? && r.value.None? ==> !NoTrouble(log, |old(log)|)
      ensures r.Failed? && NoTrouble(log, |old(log)|) ==> |content| > LIMIT || !Holds(store, loc, Require(existing))
      ensures r.Failed? && NoTrouble(log, |old(log)|) && NoneOutside(log, |old(log)|) ==> store == old(store)
    {
      if |content| > LIMIT { return Failed; }
      var fails: bool, lost: bool, omitted: bool := *, *, *;
      Wait(fails || lost || omitted);
      if fails || !Holds(store, loc, Require(existing)) { return Failed; }
      var nonce: nat :| true;
      var blob := Blob(content, metadata, nonce);
      OneMore(old(log), log, Stored(loc, Require(existing), blob));
      Record(Stored(loc, Require(existing), blob));
      store := store[loc := blob];
      if lost { return Failed; }
      return Ok(if omitted then None else Some(blob.Tag()));
    }

    /** DELETE, conditional when a tag is given.  A failed call may have been committed. */
    method Remove(loc: Loc, tag: Option<Etag>) returns (r: Reply<()>)
      requires Valid()
      modifies this
      ensures Valid()
      ensures loc.key == "" ==> r.Failed? && log == old(log)
      ensures Grew(old(log), log, []) || Grew(old(log), log, [Removed(loc, tag)])
      ensures r.Ok? ==> Grew(old(log), log, [Removed(loc, tag)])
      ensures r.Ok? && NoneOutside(log, |old(log)|) ==> store == old(store) - {loc}
      ensures r.Ok? && tag.Some? && NoneOutside(log, |old(log)|) ==> Holds(old(store), loc, IfMatch(tag.value))
      ensures r.Failed? && NoTrouble(log, |old(log)|) ==> loc.key == "" || (tag.Some? && !Holds(store, loc, IfMatch(tag.value)))
      ensures r.Failed? && NoTrouble(log, |old(log)|) && NoneOutside(log, |old(log)|) ==> store == old(store)
    {
      if loc.key == "" { return Failed; }
      var fails: bool, lost: bool := *, *;
      Wait(fails || lost);
      if fails || (tag.Some? && !Holds(store, loc, IfMatch(tag.value))) { return Failed; }
      OneMore(old(log), log, Removed(loc, tag));
      Record(Removed(loc, tag));
      store := store - {loc};
      return if lost then Failed else Ok(());
    }
  }
}
