/** The handle table of the S3 file system (open, write, close, abort in s3-filesystem.js).

    The editor runs calls on many handles at once.  Calls give way to each other only while they wait, so a call is
    a sequence of parts: `open` looks at the object, fetches it and registers the handle, `close` takes the handle
    out of the table and then uploads.  Every part keeps the invariant, whatever parts of other calls and steps of
    other clients came before it; so the invariant is a property of all interleavings. */
module FileHandles {
  import opened Wrappers
  import opened ObjectStore
  import opened Profiles
  import Text

  datatype Uri = Uri(profileId: string, key: string)

  /** A key that can be a workspace path, with a slash at its end or without. */
  predicate LocalName(key: string) {
    && (forall c :: c in DropSlash(key) ==> c != '\\' && c >= ' ')
    && forall part :: part in Text.Split(DropSlash(key)) ==> part !in {"", ".", ".."}
  }

  /** The saved prefix still covers the key, and the key is below the root. */
  predicate InScope(key: string, root: string) {
    root <= key && key != "" && key != root && key != DropSlash(root) && LocalName(key)
  }

  /** Reads the profile a resource belongs to. */
  method Resolve(uri: Uri) returns (r: Reply<Profile>, ghost read: Reply<Profile>)
    ensures r.Ok? <==> read.Ok? && InScope(uri.key, RootPrefix(read.value))
    ensures r.Ok? ==> r == read
    // Nothing is resolved that is not strictly below the folder of the profile's prefix, or that climbs out of it.
    ensures r.Ok? && read.value.prefix != "" ==> Text.Trim(read.value.prefix) + "/" < uri.key
    ensures r.Ok? ==> uri.key != "" && forall part :: part in Text.Split(DropSlash(uri.key)) ==> part !in {"", ".", ".."}
  {
    r := GetProfile(uri.profileId);
    read := r;
    if r.Ok? && !InScope(uri.key, RootPrefix(r.value)) { return Failed, read; }
  }

  /** `server` is the one that requests for the endpoint reach. */
  datatype Handle = Handle(uri: Uri, identity: Identity, server: string, write: bool, tag: Option<Etag>, metadata: Metadata,
                           data: Content, failed: bool) {
    function Loc(): Loc { ObjectStore.Loc(Site(server, identity.bucket), uri.key) }
  }

  /** The bytes of a file after writing `bytes` at `position`, zero-filled up to there. */
  function WriteAt(data: Content, position: nat, bytes: Content): Content {
    var padded := if position <= |data| then data[..position] else data + seq(position - |data|, _ => 0);
    padded + bytes + if position + |bytes| < |data| then data[position + |bytes|..] else []
  }

  /** `after` is `before` with `bytes` written at `position`: the other bytes are where they were, and a gap is zero. */
  ghost predicate Overwritten(before: Content, after: Content, position: nat, bytes: Content) {
    && |after| == (if |before| < position + |bytes| then position + |bytes| else |before|)
    && (forall i :: 0 <= i < |bytes| ==> after[position + i] == bytes[i])
    && (forall i :: 0 <= i < |before| && (i < position || position + |bytes| <= i) ==> after[i] == before[i])
    && (forall i :: |before| <= i < position ==> after[i] == 0)
  }

  lemma WritesThere(data: Content, position: nat, bytes: Content)
    ensures Overwritten(data, WriteAt(data, position, bytes), position, bytes)
  {
  }

  /** What the HEAD request of `open` answered at this point of the history: no object, or one with or without
      its ETag. */
  datatype Sight = Sight(loc: Loc, there: bool, tag: Option<Etag>, metadata: Metadata, at: nat)

  ghost predicate SawVersion(log: seq<Event>, s: Sight) {
    && s.at < |log| && log[s.at].Seen? && log[s.at].loc == s.loc && (s.there <==> log[s.at].found.Some?)
    && (s.tag.Some? ==> log[s.at].found.Some? && log[s.at].found.value.Tag() == s.tag.value)
    // The ETag of an object is missing only where the answer lacked it.
    && (s.there && s.tag.None? ==> s.at > 0 && log[s.at - 1].Trouble?)
    && s.metadata == if s.there then log[s.at].found.value.metadata else map[]
  }

  /** An upload that reached the store: which handle made it, and where in the history. */
  datatype Commit = Commit(id: nat, at: nat)

  /** The upload at `at` came after the sight and was conditional on exactly what was seen. */
  ghost predicate CommitsSight(log: seq<Event>, s: Sight, at: nat) {
    && s.at < at < |log| && log[at].Stored? && log[at].loc == s.loc
    && log[at].condition == Require(s.tag) && log[at].blob.metadata == s.metadata
  }

  predicate NoStores(log: seq<Event>, lo: nat) {
    forall k | lo <= k < |log| :: !log[k].Stored?
  }

  /** What has happened so far: what each handle's open saw, which uploads reached the store, and which
      handles must never upload (aborted, a write failed, or the profile changed). */
  datatype History = History(sights: map<nat, Sight>, commits: seq<Commit>, spoiled: set<nat>)

  /** The handle is bound to this sight. */
  predicate Saw(h: Handle, s: Sight) { s.loc == h.Loc() && s.tag == h.tag && s.metadata == h.metadata }

  /** Live handles agree with what their opens saw, and have not uploaded. */
  ghost predicate Agrees(handles: map<nat, Handle>, h: History) {
    && (forall id :: id in handles ==>
                       id in h.sights && Saw(handles[id], h.sights[id])
                       && (handles[id].failed <==> id in h.spoiled))
    && (forall c :: c in h.commits ==> c.id !in handles)
  }

  ghost predicate SightsValid(log: seq<Event>, sights: map<nat, Sight>) {
    forall id :: id in sights ==> SawVersion(log, sights[id])
  }

  /** Every upload is the only one of its handle, unspoiled, and conditional on what the handle's own open
      saw; and the file system stored nothing else. */
  ghost predicate CommitsValid(log: seq<Event>, start: nat, h: History) {
    && (forall c :: c in h.commits ==> c.id in h.sights && c.id !in h.spoiled && CommitsSight(log, h.sights[c.id], c.at))
    && (forall j, k :: 0 <= j < k < |h.commits| ==> h.commits[j].id != h.commits[k].id)
    && (forall i :: start <= i < |log| && log[i].Stored? ==> exists c :: c in h.commits && c.at == i)
  }

  /** Handle numbers are given out once. */
  ghost predicate Numbered(nextHandle: nat, h: History) {
    nextHandle >= 1 && (forall id :: id in h.sights ==> id < nextHandle) && h.spoiled <= h.sights.Keys
  }

  ghost predicate Consistent(log: seq<Event>, start: nat, handles: map<nat, Handle>, nextHandle: nat, h: History) {
    && start <= |log| && Numbered(nextHandle, h) && Agrees(handles, h)
    && SightsValid(log, h.sights) && CommitsValid(log, start, h)
  }

  /** The log of a step of this client, in the terms of the invariant. */
  lemma StepLog(before: seq<Event>, log: seq<Event>, own: seq<Event>)
    requires Grew(before, log, own)
    ensures before <= log
    ensures own == [] ==> NoStores(log, |before|)
    ensures |own| == 1 ==> log[|log| - 1] == own[0] && NoStores(log[..|log| - 1], |before|) && before <= log[..|log| - 1]
    ensures |own| == 1 && !own[0].Stored? ==> NoStores(log, |before|)
  {
  }

  /** A new handle, numbered freshly. */
  lemma HandleAdds(log: seq<Event>, start: nat, handles: map<nat, Handle>, nextHandle: nat, h: History, handle: Handle, seen: Sight)
    requires Consistent(log, start, handles, nextHandle, h) && !handle.failed
    requires Saw(handle, seen) && SawVersion(log, seen)
    ensures Consistent(log, start, handles[nextHandle := handle], nextHandle + 1, h.(sights := h.sights[nextHandle := seen]))
  {
  }

  /** Steps without an upload keep everything. */
  lemma QuietStep(before: seq<Event>, log: seq<Event>, start: nat, handles: map<nat, Handle>, nextHandle: nat, h: History)
    requires Consistent(before, start, handles, nextHandle, h) && before <= log && NoStores(log, |before|)
    ensures Consistent(log, start, handles, nextHandle, h)
  {
  }

  /** An upload of a handle that has left the table is booked. */
  lemma UploadStep(before: seq<Event>, log: seq<Event>, start: nat, handles: map<nat, Handle>, nextHandle: nat, h: History,
                   id: nat, blob: Blob)
    requires Consistent(before, start, handles, nextHandle, h)
    requires id in h.sights && id !in h.spoiled && id !in handles && forall c :: c in h.commits ==> c.id != id
    requires Grew(before, log, [Stored(h.sights[id].loc, Require(h.sights[id].tag), blob)]) && blob.metadata == h.sights[id].metadata
    ensures Consistent(log, start, handles, nextHandle, h.(commits := h.commits + [Commit(id, |log| - 1)]))
    ensures |log| > 0 && log[|log| - 1] == Stored(h.sights[id].loc, Require(h.sights[id].tag), blob)
  {
  }

  /** The last event stored exactly the bytes of this handle, and is its upload. */
  ghost predicate Committed(h: History, h': History, log: seq<Event>, id: nat, data: Content) {
    && |log| > 0 && log[|log| - 1].Stored? && log[|log| - 1].blob.content == data
    && h' == h.(commits := h.commits + [Commit(id, |log| - 1)])
  }

  /** Any upload of `id` stored exactly these bytes. */
  ghost predicate OnlyUploads(log: seq<Event>, h: History, id: nat, data: Content) {
    forall c :: c in h.commits && c.id == id ==> c.at < |log| && log[c.at].Stored? && log[c.at].blob.content == data
  }

  /** The upload request of this handle stored this blob, or did not reach the store. */
  ghost predicate Uploaded(before: seq<Event>, log: seq<Event>, h: Handle, answered: bool, stored: Option<Blob>) {
    match stored
    case Some(blob) => blob.content == h.data && blob.metadata == h.metadata
                       && Grew(before, log, [Stored(h.Loc(), Require(h.tag), blob)])
    case None => !answered && Grew(before, log, [])
  }

  /** The bytes are too many, or the object is not what open saw any more. */
  predicate Unstorable(store: Store, h: Handle) {
    |h.data| > LIMIT || !Holds(store, h.Loc(), Require(h.tag))
  }

  method Upload(remote: Remote, h: Handle) returns (answered: bool, ghost stored: Option<Blob>)
    requires remote.Valid()
    modifies remote
    ensures remote.Valid() && Uploaded(old(remote.log), remote.log, h, answered, stored)
    ensures !answered && NoTrouble(remote.log, |old(remote.log)|) ==> Unstorable(remote.store, h)
  {
    ghost var before := remote.log;
    var r := remote.Upload(h.Loc(), h.data, h.metadata, h.tag);
    answered, stored := r.Ok?, None;
    if nonce :| Grew(before, remote.log, [Stored(h.Loc(), Require(h.tag), Blob(h.data, h.metadata, nonce))]) {
      stored := Some(Blob(h.data, h.metadata, nonce));
    }
  }

  /** The outcome of an upload request: booked if it reached the store. */
  lemma Booked(before: seq<Event>, log: seq<Event>, start: nat, handles: map<nat, Handle>, nextHandle: nat, h: History,
               id: nat, handle: Handle, answered: bool, stored: Option<Blob>) returns (h': History)
    requires Consistent(before, start, handles, nextHandle, h)
    requires id in h.sights && id !in h.spoiled && id !in handles && forall c :: c in h.commits ==> c.id != id
    requires Saw(handle, h.sights[id])
    requires Uploaded(before, log, handle, answered, stored)
    ensures Consistent(log, start, handles, nextHandle, h') && before <= log && OnlyUploads(log, h', id, handle.data)
    ensures Committed(h, h', log, id, handle.data) || (h' == h && !answered)
  {
    if stored.Some? {
      h' := h.(commits := h.commits + [Commit(id, |log| - 1)]);
      UploadStep(before, log, start, handles, nextHandle, h, id, stored.value);
    } else {
      h' := h;
      StepLog(before, log, []);
      QuietStep(before, log, start, handles, nextHandle, h);
    }
  }

  /** A handle that leaves the table has not uploaded, and is spoiled if a write of it failed. */
  lemma Leaves(log: seq<Event>, start: nat, handles: map<nat, Handle>, nextHandle: nat, h: History, id: nat)
    requires Consistent(log, start, handles, nextHandle, h) && id in handles
    ensures Consistent(log, start, handles - {id}, nextHandle, h)
    ensures id in h.sights && Saw(handles[id], h.sights[id])
    ensures (id in h.spoiled <==> handles[id].failed) && forall c :: c in h.commits ==> c.id != id
  {
  }

  /** A handle that has left the table without an upload can be given up. */
  lemma GivenUp(log: seq<Event>, start: nat, handles: map<nat, Handle>, nextHandle: nat, h: History, id: nat)
    requires Consistent(log, start, handles, nextHandle, h)
    requires id in h.sights && id !in handles && forall c :: c in h.commits ==> c.id != id
    ensures Consistent(log, start, handles, nextHandle, h.(spoiled := h.spoiled + {id}))
  {
  }

  /** A live handle is written to, or a write of it fails. */
  lemma WrittenTo(log: seq<Event>, start: nat, handles: map<nat, Handle>, nextHandle: nat, h: History, id: nat, data: Content)
    requires Consistent(log, start, handles, nextHandle, h) && id in handles
    ensures Consistent(log, start, handles[id := handles[id].(data := data)], nextHandle, h)
    ensures Consistent(log, start, handles[id := handles[id].(failed := true)], nextHandle, h.(spoiled := h.spoiled + {id}))
  {
  }

  /** Histories only grow. */
  ghost predicate Evolves(h: History, later: History) {
    && (forall id :: id in h.sights ==> id in later.sights && later.sights[id] == h.sights[id])
    && h.commits <= later.commits && h.spoiled <= later.spoiled
  }

  lemma PutLive(a: map<nat, Handle>, b: map<nat, Handle>, id: nat, h: Handle)
    requires id !in b
    ensures a[id := h] + b == (a + b)[id := h]
  {
  }

  lemma MoveLive(a: map<nat, Handle>, b: map<nat, Handle>, id: nat)
    requires id in a && a.Keys !! b.Keys
    ensures (a - {id}) + b[id := a[id]] == a + b
  {
  }

  lemma DropLive(a: map<nat, Handle>, b: map<nat, Handle>, id: nat)
    ensures id !in b ==> (a - {id}) + b == (a + b) - {id}
    ensures id !in a ==> a + (b - {id}) == (a + b) - {id}
  {
  }

  function SightAt(loc: Loc, info: Option<Info>, at: nat): Sight {
    Sight(loc, info.Some?, if info.Some? then info.value.tag else None, if info.Some? then info.value.metadata else map[], at)
  }

  predicate SightOf(h: Handle, seen: Sight) { !h.failed && Saw(h, seen) }

  /** A handle for writing starts empty, one for reading with the bytes of the version it is bound to. */
  predicate Ready(h: Handle, uri: Uri, create: bool) {
    && h.uri == uri && h.write == create && !h.failed && (create ==> h.data == [])
    && (!create && h.tag.Some? ==> h.data == h.tag.value.digest)
  }

  /** The last request got exactly these bytes, of the handle's version if it has a tag. */
  ghost predicate FetchedNow(log: seq<Event>, h: Handle) {
    && |log| > 0 && log[|log| - 1].Fetched? && log[|log| - 1].loc == h.Loc() && log[|log| - 1].content == h.data
    && (h.tag.Some? ==> log[|log| - 1].tag == h.tag.value)
  }

  /** Every call of `open` in flight has seen what it is going to register. */
  ghost predicate Waiting(log: seq<Event>, opening: seq<Handle>, seen: seq<Sight>) {
    |opening| == |seen| && forall i :: 0 <= i < |opening| ==> SightOf(opening[i], seen[i]) && SawVersion(log, seen[i])
  }

  lemma WaitingStays(log: seq<Event>, longer: seq<Event>, opening: seq<Handle>, seen: seq<Sight>)
    requires log <= longer && Waiting(log, opening, seen)
    ensures Waiting(longer, opening, seen)
  {
  }

  lemma OneMoreWaits(log: seq<Event>, opening: seq<Handle>, seen: seq<Sight>, h: Handle, sight: Sight)
    requires Waiting(log, opening, seen) && SightOf(h, sight) && SawVersion(log, sight)
    ensures Waiting(log, opening + [h], seen + [sight])
  {
  }

  lemma FetchedWaits(log: seq<Event>, opening: seq<Handle>, seen: seq<Sight>, i: nat, data: Content)
    requires Waiting(log, opening, seen) && i < |opening|
    ensures Waiting(log, opening[i := opening[i].(data := data)], seen)
  {
  }

  /** Handles about to upload are writable, without a failed write, and no longer in the table. */
  ghost predicate Leaving(handles: map<nat, Handle>, closing: map<nat, Handle>) {
    handles.Keys !! closing.Keys && forall id :: id in closing ==> closing[id].write && !closing[id].failed
  }

  class FileSystem {
    const remote: Remote
    ghost const start: nat
    var handles: map<nat, Handle>
    /** The calls of `open` in flight: the handles they are to register, and what each has seen. */
    var opening: seq<Handle>
    ghost var seen: seq<Sight>
    /** The calls of `close` in flight: handles that have left the table and are about to upload. */
    var closing: map<nat, Handle>
    var nextHandle: nat
    ghost var history: History

    ghost predicate Valid() reads this, remote {
      && remote.Valid() && Consistent(remote.log, start, handles + closing, nextHandle, history)
      && Leaving(handles, closing) && Waiting(remote.log, opening, seen)
    }

    constructor (remote: Remote)
      requires remote.Valid()
      ensures Valid() && this.remote == remote && start == |remote.log|
      ensures handles == map[] && opening == [] && closing == map[] && nextHandle == 1 && history == History(map[], [], {})
    {
      this.remote := remote;
      start := |remote.log|;
      handles, opening, closing, nextHandle := map[], [], map[], 1;
      seen, history := [], History(map[], [], {});
    }

    /** Other clients act. */
    method Interfere()
      requires Valid()
      modifies remote
      ensures Valid() && old(remote.log) <= remote.log
    {
      ghost var before := remote.log;
      remote.Interfere();
      StepLog(before, remote.log, []);
      QuietStep(before, remote.log, start, handles + closing, nextHandle, history);
      WaitingStays(before, remote.log, opening, seen);
    }

    /** Something goes wrong with a call. */
    ghost method Note()
      requires Valid()
      modifies remote`log
      ensures Valid() && remote.log == old(remote.log) + [Trouble]
    {
      ghost var before := remote.log;
      remote.Note();
      QuietStep(before, remote.log, start, handles + closing, nextHandle, history);
      WaitingStays(before, remote.log, opening, seen);
    }

    /** HEAD; what it saw is a sight at the end of the history. */
    method Head(loc: Loc) returns (r: Reply<Option<Info>>)
      requires Valid()
      modifies remote
      ensures Valid() && old(remote.log) <= remote.log
      ensures r.Failed? ==> !NoTrouble(remote.log, |old(remote.log)|)
      ensures r.Ok? ==> (r.value.Some? <==> loc in remote.store) && (r.value.Some? ==> r.value.value.size == |remote.store[loc].content|)
      ensures r.Ok? ==> |remote.log| > |old(remote.log)|
                        && SawVersion(remote.log, SightAt(loc, r.value, |remote.log| - 1))
    {
      ghost var before := remote.log;
      r := remote.Stat(loc);
      StepLog(before, remote.log, if r.Ok? then [Seen(loc, Lookup(remote.store, loc))] else []);
      QuietStep(before, remote.log, start, handles + closing, nextHandle, history);
      WaitingStays(before, remote.log, opening, seen);
    }

    /** Why a file cannot be opened: it is out of the profile's scope, there is nothing to read, or it is too large. */
    ghost predicate Unopenable(remote: Remote, uri: Uri, create: bool, profile: Profile)
      reads remote
    {
      var loc := Loc(Site(remote.server(profile.endpoint), profile.bucket), uri.key);
      || !InScope(uri.key, RootPrefix(profile)) || (!create && loc !in remote.store)
      || (loc in remote.store && |remote.store[loc].content| > LIMIT)
    }

    /** The handle to be, with what its HEAD request saw. */
    method Peek(uri: Uri, create: bool) returns (r: Reply<Handle>, ghost sight: Sight, ghost read: Reply<Profile>)
      requires Valid()
      modifies remote
      ensures Valid() && old(remote.log) <= remote.log
      ensures r.Ok? ==> r.value.uri == uri && r.value.write == create && r.value.data == []
                        && r.value.server == remote.server(r.value.identity.endpoint)
                        && read.Ok? && r.value.identity == Location(read.value) && !Unopenable(remote, uri, create, read.value)
                        && SightOf(r.value, sight) && SawVersion(remote.log, sight) && |old(remote.log)| <= sight.at
      ensures r.Failed? && NoTrouble(remote.log, |old(remote.log)|) ==> read.Ok? && Unopenable(remote, uri, create, read.value)
    {
      sight := *;
      var profile;
      profile, read := Resolve(uri);
      if profile.Failed? {
        if read.Failed? { Note(); }
        return Failed, sight, read;
      }
      var identity := Location(profile.value);
      var answer := Head(Loc(Site(remote.server(identity.endpoint), identity.bucket), uri.key));
      if answer.Failed? { return Failed, sight, read; }
      var info := answer.value;
      if (!create && info.None?) || (info.Some? && info.value.size > LIMIT) { return Failed, sight, read; }
      var h := Handle(uri, identity, remote.server(identity.endpoint), create, if info.Some? then info.value.tag else None,
                      if info.Some? then info.value.metadata else map[], [], false);
      return Ok(h), SightAt(h.Loc(), info, |remote.log| - 1), read;
    }

    /** The first part of `open`. */
    method Look(uri: Uri, create: bool) returns (r: Reply<nat>, ghost read: Reply<Profile>)
      requires Valid()
      modifies this`opening, this`seen, remote
      ensures Valid() && old(remote.log) <= remote.log
      ensures r.Failed? ==> opening == old(opening) && seen == old(seen)
      ensures r.Failed? && NoTrouble(remote.log, |old(remote.log)|) ==> read.Ok? && Unopenable(remote, uri, create, read.value)
      ensures r.Ok? ==> r.value == |old(opening)| && r.value < |opening| && opening == old(opening) + [opening[r.value]]
                        && seen == old(seen) + [seen[r.value]] && |old(remote.log)| <= seen[r.value].at
                        && opening[r.value].uri == uri && opening[r.value].write == create && opening[r.value].data == []
                        && opening[r.value].server == remote.server(opening[r.value].identity.endpoint)
                        && read.Ok? && opening[r.value].identity == Location(read.value)
                        && !Unopenable(remote, uri, create, read.value)
    {
      var h;
      ghost var sight;
      h, sight, read := Peek(uri, create);
      if h.Failed? { return Failed, read; }
      OneMoreWaits(remote.log, opening, seen, h.value, sight);
      r := Ok(|opening|);
      opening := opening + [h.value];
      seen := seen + [sight];
    }

    /** The version of the handle, or without an ETag the object, is not there to be read any more. */
    predicate Gone(store: Store, h: Handle) {
      || h.Loc() !in store || |store[h.Loc()].content| > LIMIT
      || (h.tag.Some? && store[h.Loc()].Tag() != h.tag.value)
    }

    /** The second part of opening for reading: the bytes of exactly the version the handle is bound to. */
    method Fetch(call: nat) returns (ok: bool)
      requires Valid() && call < |opening|
      modifies this`opening, remote
      ensures Valid() && old(remote.log) <= remote.log
      ensures opening == old(opening)[call := old(opening)[call].(data := opening[call].data)]
      ensures ok && opening[call].tag.Some? ==> opening[call].data == opening[call].tag.value.digest
      ensures ok ==> FetchedNow(remote.log, opening[call])
      ensures !ok ==> opening == old(opening)
      ensures !ok && NoTrouble(remote.log, |old(remote.log)|) ==> Gone(remote.store, opening[call])
    {
      ghost var before := remote.log;
      var h := opening[call];
      var r;
      if h.tag.Some? {
        r := remote.Download(h.Loc(), h.tag.value);
        StepLog(before, remote.log, if r.Ok? then [Fetched(h.Loc(), h.tag.value, r.value)] else []);
      } else {
        r := remote.DownloadAny(h.Loc());
        StepLog(before, remote.log, if r.Ok? then [Fetched(h.Loc(), remote.store[h.Loc()].Tag(), r.value)] else []);
      }
      QuietStep(before, remote.log, start, handles + closing, nextHandle, history);
      WaitingStays(before, remote.log, opening, seen);
      ok := r.Ok?;
      if ok {
        FetchedWaits(remote.log, opening, seen, call, r.value);
        opening := opening[call := h.(data := r.value)];
      }
    }

    /** The last part of `open`: the handle enters the table under a number never given out before. */
    method Register(call: nat) returns (id: nat)
      requires Valid() && call < |opening|
      modifies this`handles, this`nextHandle, this`history
      ensures Valid() && id == old(nextHandle) && nextHandle == id + 1 && id !in old(history.sights)
      ensures handles == old(handles)[id := opening[call]]
      ensures history == old(history).(sights := old(history.sights)[id := seen[call]])
    {
      var h := opening[call];
      HandleAdds(remote.log, start, handles + closing, nextHandle, history, h, seen[call]);
      id := nextHandle;
      PutLive(handles, closing, id, h);
      handles := handles[id := h];
      history := history.(sights := history.sights[id := seen[call]]);
      nextHandle := nextHandle + 1;
    }

    /** The handle can never upload. */
    method Spoil(id: nat)
      requires Valid() && id in handles
      modifies this`handles, this`history
      ensures Valid() && handles == old(handles)[id := old(handles)[id].(failed := true)]
      ensures history == old(history).(spoiled := old(history.spoiled) + {id})
    {
      var h := handles[id];
      WrittenTo(remote.log, start, handles + closing, nextHandle, history, id, h.data);
      PutLive(handles, closing, id, h.(failed := true));
      handles := handles[id := h.(failed := true)];
      history := history.(spoiled := history.spoiled + {id});
    }

    method Replace(id: nat, data: Content)
      requires Valid() && id in handles
      modifies this`handles
      ensures Valid() && handles == old(handles)[id := old(handles)[id].(data := data)]
    {
      var h := handles[id];
      WrittenTo(remote.log, start, handles + closing, nextHandle, history, id, data);
      PutLive(handles, closing, id, h.(data := data));
      handles := handles[id := h.(data := data)];
    }

    /** Writes to the local copy.  A write that goes too far or fails makes the handle useless. */
    method Write(id: nat, position: nat, bytes: Content) returns (r: Reply<nat>, ghost fails: bool)
      requires Valid()
      modifies this`handles, this`history
      ensures Valid()
      ensures id in old(handles) && old(handles)[id].write && position + |bytes| <= LIMIT && !fails ==> r.Ok?
      ensures id !in old(handles) || !old(handles)[id].write ==>
                r.Failed? && handles == old(handles) && history == old(history)
      ensures id in old(handles) && old(handles)[id].write ==>
                var h := old(handles)[id];
                if r.Ok? then r.value == |bytes| && position + |bytes| <= LIMIT && history == old(history)
                              && id in handles && Overwritten(h.data, handles[id].data, position, bytes)
                              && handles == old(handles)[id := h.(data := WriteAt(h.data, position, bytes))]
                else handles == old(handles)[id := h.(failed := true)]
                     && history == old(history).(spoiled := old(history.spoiled) + {id})
    {
      fails := false;
      if id !in handles || !handles[id].write { return Failed, fails; }
      var h := handles[id];
      var wrong: bool := *;
      fails := wrong;
      if position + |bytes| > LIMIT || wrong {
        Spoil(id);
        return Failed, fails;
      }
      WritesThere(h.data, position, bytes);
      Replace(id, WriteAt(h.data, position, bytes));
      return Ok(|bytes|), fails;
    }

    /** Drops the handle; it never uploads.  An unknown handle is ignored. */
    method Abort(id: nat)
      requires Valid()
      modifies this`handles, this`history
      ensures Valid() && handles == old(handles) - {id}
      ensures history == if id in old(handles) then old(history).(spoiled := old(history.spoiled) + {id}) else old(history)
    {
      if id !in handles { return; }
      Leaves(remote.log, start, handles + closing, nextHandle, history, id);
      DropLive(handles, closing, id);
      handles := handles - {id};
      GivenUp(remote.log, start, handles + closing, nextHandle, history, id);
      history := history.(spoiled := history.spoiled + {id});
    }

    /** The first part of `close`: the handle leaves the table, and is to upload if it is writable and no write
        failed.  An unknown handle is ignored. */
    method Leave(id: nat) returns (uploads: bool)
      requires Valid()
      modifies this`handles, this`closing
      ensures Valid() && handles == old(handles) - {id}
      ensures uploads <==> id in old(handles) && old(handles)[id].write && !old(handles)[id].failed
      ensures closing == if uploads then old(closing)[id := old(handles)[id]] else old(closing)
    {
      if id !in handles { return false; }
      var h := handles[id];
      uploads := h.write && !h.failed;
      if uploads {
        MoveLive(handles, closing, id);
        closing := closing[id := h];
      } else {
        Leaves(remote.log, start, handles + closing, nextHandle, history, id);
        DropLive(handles, closing, id);
      }
      handles := handles - {id};
    }

    /** A handle of this sight that may still upload, and belongs to no table any more. */
    ghost predicate Detached(id: nat, h: Handle)
      reads this
    {
      && id in history.sights && Saw(h, history.sights[id]) && id !in history.spoiled && id !in handles && id !in closing
      && forall c :: c in history.commits ==> c.id != id
    }

    /** A handle gives up its place among those that are to upload. */
    method Detach(id: nat)
      requires Valid() && id in closing
      modifies this`closing
      ensures Valid() && closing == old(closing) - {id} && Detached(id, old(closing)[id])
    {
      Leaves(remote.log, start, handles + closing, nextHandle, history, id);
      DropLive(handles, closing, id);
      closing := closing - {id};
    }

    /** The upload of a handle. */
    method Transmit(id: nat, h: Handle) returns (r: Reply<()>)
      requires Valid() && Detached(id, h)
      modifies this`history, remote
      ensures Valid() && old(remote.log) <= remote.log
      ensures OnlyUploads(remote.log, history, id, h.data) && Evolves(old(history), history)
      ensures Committed(old(history), history, remote.log, id, h.data) || (r.Failed? && history == old(history))
      ensures r.Failed? && NoTrouble(remote.log, |old(remote.log)|) ==> Unstorable(remote.store, h)
    {
      ghost var before := remote.log;
      var answered;
      ghost var stored;
      answered, stored := Upload(remote, h);
      ghost var booked := Booked(before, remote.log, start, handles + closing, nextHandle, history, id, h, answered, stored);
      WaitingStays(before, remote.log, opening, seen);
      history := booked;
      r := if answered then Ok(()) else Failed;
    }

    /** The upload of a handle that has left the table. */
    method Send(id: nat) returns (r: Reply<()>)
      requires Valid() && id in closing
      modifies this`closing, this`history, remote
      ensures Valid() && old(remote.log) <= remote.log && closing == old(closing) - {id} && id !in handles
      ensures OnlyUploads(remote.log, history, id, old(closing)[id].data) && Evolves(old(history), history)
      ensures Committed(old(history), history, remote.log, id, old(closing)[id].data) || (r.Failed? && history == old(history))
      ensures r.Failed? && NoTrouble(remote.log, |old(remote.log)|) ==> Unstorable(remote.store, old(closing)[id])
    {
      var h := closing[id];
      Detach(id);
      r := Transmit(id, h);
    }

    /** Gives up a handle that was to upload; it is spoiled if its profile changed. */
    method Discard(id: nat, changed: bool)
      requires Valid() && id in closing
      modifies this`closing, this`history
      ensures Valid() && closing == old(closing) - {id} && id !in handles
      ensures OnlyUploads(remote.log, history, id, old(closing)[id].data) && Evolves(old(history), history)
      ensures history == if changed then old(history).(spoiled := old(history.spoiled) + {id}) else old(history)
    {
      Detach(id);
      if changed {
        GivenUp(remote.log, start, handles + closing, nextHandle, history, id);
        history := history.(spoiled := history.spoiled + {id});
      }
    }

    /** The second part of `close`: uploads the bytes, if the profile still points to the place the handle was
        opened at. */
    method Finish(id: nat) returns (r: Reply<()>, profile: Reply<Profile>)
      requires Valid() && id in closing
      modifies this`closing, this`history, remote
      ensures Valid() && old(remote.log) <= remote.log && closing == old(closing) - {id} && id !in handles
      ensures OnlyUploads(remote.log, history, id, old(closing)[id].data) && Evolves(old(history), history)
      ensures || Committed(old(history), history, remote.log, id, old(closing)[id].data)
              || (r.Failed? && history == old(history))
              || (r.Failed? && history == old(history).(spoiled := old(history.spoiled) + {id}))
      // Nothing is uploaded unless the profile, read again, still points to the place the handle was opened at.
      ensures profile.Failed? || Location(profile.value) != old(closing)[id].identity ==>
                r.Failed? && history.commits == old(history.commits) && remote.log == old(remote.log) + [Trouble]
      ensures r.Failed? && NoTrouble(remote.log, |old(remote.log)|) ==> Unstorable(remote.store, old(closing)[id])
    {
      profile := Failed;
      var h := closing[id];
      var local: bool := *;
      ghost var read;
      if local { profile, read := Resolve(h.uri); }
      if profile.Failed? || Location(profile.value) != h.identity {
        Discard(id, profile.Ok?);
        Note();
        return Failed, profile;
      }
      r := Send(id);
    }

    /** What parts of other calls leave to this caller: the history only grows, and its own call of `open` or the
        handle it is closing is as it was. */
    twostate predicate Undisturbed(opens: Option<nat>, closes: Option<nat>)
      reads this, remote
    {
      && old(remote.log) <= remote.log && Evolves(old(history), history) && old(seen) <= seen
      && (opens.Some? && opens.value < |old(opening)| ==>
            opens.value < |opening| && opening[opens.value] == old(opening)[opens.value])
      && (closes.Some? && closes.value in old(closing) ==>
            closes.value in closing && closing[closes.value] == old(closing)[closes.value])
    }

    /** A part of another call that waits for the store. */
    method OtherRequest(opens: Option<nat>, closes: Option<nat>)
      requires Valid()
      modifies this, remote
      ensures Valid() && Undisturbed(opens, closes)
    {
      var n: nat := *;
      if {
        case true => Interfere();
        case true =>
          var uri: Uri := *;
          var create: bool := *;
          var _, _ := Look(uri, create);
        case n < |opening| && opens != Some(n) => var _ := Fetch(n);
        case n in closing && closes != Some(n) => var _, _ := Finish(n);
      }
    }

    /** A part of another call that changes the table. */
    method OtherUpdate(opens: Option<nat>, closes: Option<nat>)
      requires Valid()
      modifies this, remote
      ensures Valid() && Undisturbed(opens, closes)
    {
      var n: nat := *;
      if {
        case n < |opening| => var _ := Register(n);
        case true =>
          var position: nat := *;
          var bytes: Content := *;
          var _, _ := Write(n, position, bytes);
        case true => Abort(n);
        case true => var _ := Leave(n);
      }
    }

    /** Any number of parts of other calls. */
    method Others(opens: Option<nat>, closes: Option<nat>)
      requires Valid()
      modifies this, remote
      ensures Valid() && Undisturbed(opens, closes)
    {
      var parts :| parts >= 0;
      for k := 0 to parts
        invariant Valid() && Undisturbed(opens, closes)
      {
        if * { OtherRequest(opens, closes); } else { OtherUpdate(opens, closes); }
      }
    }

    /** Everything in `open` before the handle is registered. */
    method Begin(uri: Uri, create: bool) returns (r: Reply<nat>)
      requires Valid()
      modifies this, remote
      ensures Valid() && Evolves(old(history), history)
      ensures r.Ok? ==> r.value < |opening| && |old(remote.log)| <= seen[r.value].at
      ensures r.Ok? ==> Ready(opening[r.value], uri, create)
    {
      ghost var read;
      r, read := Look(uri, create);
      if r.Failed? { return; }
      Others(Some(r.value), None);
      if !create {
        var ok := Fetch(r.value);
        if !ok { return Failed; }
        Others(Some(r.value), None);
      }
    }

    /** The new handle has a number nobody ever had, and is bound to the version its HEAD request saw; opened for
        reading it holds that version's bytes. */
    method Open(uri: Uri, create: bool) returns (r: Reply<nat>)
      requires Valid()
      modifies this, remote
      ensures Valid() && Evolves(old(history), history)
      ensures r.Ok? ==> r.value !in old(history.sights) && r.value in handles && r.value in history.sights
                        && SightOf(handles[r.value], history.sights[r.value]) && |old(remote.log)| <= history.sights[r.value].at
                        && Ready(handles[r.value], uri, create)
    {
      var call := Begin(uri, create);
      if call.Failed? { return Failed; }
      var local: bool := *;
      if !local { return Failed; }
      var id := Register(call.value);
      return Ok(id);
    }

    /** The upload of a handle that is being closed, after parts of other calls. */
    method Conclude(id: nat) returns (r: Reply<()>)
      requires Valid() && id in closing
      modifies this, remote
      ensures Valid() && Evolves(old(history), history) && id !in handles && id !in closing
      ensures r.Ok? ==> Commit(id, |remote.log| - 1) in history.commits
      ensures OnlyUploads(remote.log, history, id, old(closing)[id].data)
      ensures old(remote.log) <= remote.log
      ensures r.Failed? && NoTrouble(remote.log, |old(remote.log)|) ==> Unstorable(remote.store, old(closing)[id])
    {
      Others(None, Some(id));
      ghost var before := history;
      ghost var data := closing[id].data;
      var profile;
      r, profile := Finish(id);
      if r.Ok? { assert Committed(before, history, remote.log, id, data); }
    }

    /** The handle leaves the table for good, and uploads at most once: a writable one without a failed write its
        bytes, any other nothing.  An unknown handle is ignored. */
    method Close(id: nat) returns (r: Reply<()>)
      requires Valid()
      modifies this, remote
      ensures Valid() && Evolves(old(history), history)
      ensures id !in old(handles) || !old(handles)[id].write || old(handles)[id].failed ==>
                r.Ok? && history == old(history) && remote.log == old(remote.log) && handles == old(handles) - {id}
      ensures id in old(handles) ==> id !in handles && id !in closing
      ensures id in old(handles) && old(handles)[id].write && !old(handles)[id].failed ==>
                (r.Ok? ==> Commit(id, |remote.log| - 1) in history.commits)
                && OnlyUploads(remote.log, history, id, old(handles)[id].data)
                // It fails only where a request or the profile does, or the object is not what open saw any more.
                && (r.Failed? && NoTrouble(remote.log, |old(remote.log)|) ==> Unstorable(remote.store, old(handles)[id]))
    {
      var uploads := Leave(id);
      if !uploads { return Ok(()); }
      r := Conclude(id);
    }
  }

  /** The version a write leaves behind, if any. */
  function Left(e: Event): Option<Etag> {
    match e
    case Outside(_, Some(blob)) => Some(blob.Tag())
    case Stored(_, _, blob) => Some(blob.Tag())
    case _ => None
  }

  /** In a legal history an upload is conditional on exactly what the last write to its key left, so the
      writes to a key form a chain. */
  lemma ChainLink(initial: Store, log: seq<Event>, i: nat, j: nat, loc: Loc)
    requires Legal(initial, log) && i < j < |log|
    requires Writes(log[i], loc) && log[j].Stored? && log[j].loc == loc && Untouched(log, i + 1, j, loc)
    ensures log[j].condition == Require(Left(log[i]))
  {
    LegalAt(initial, log, i);
    LegalAt(initial, log, j);
    UntouchedKeeps(initial, log, i + 1, j, loc);
  }

  /** The condition of an upload is what the last write to its key left. */
  lemma CommitFollowsLastWrite(initial: Store, log: seq<Event>, start: nat, h: History, c: Commit, i: nat)
    requires Legal(initial, log) && CommitsValid(log, start, h) && c in h.commits && i < c.at
    requires Writes(log[i], h.sights[c.id].loc) && Untouched(log, i + 1, c.at, h.sights[c.id].loc)
    ensures h.sights[c.id].tag == Left(log[i])
  {
    ChainLink(initial, log, i, c.at, h.sights[c.id].loc);
  }

  /** No object, or the same version of one. */
  predicate SameVersion(a: Option<Blob>, b: Option<Blob>) {
    if a.Some? && b.Some? then a.value.Tag() == b.value.Tag() else a.None? && b.None?
  }

  /** What the HEAD request of `open` answered is enough to protect an upload: an ETag, or that there is no object. */
  predicate Protected(s: Sight) { s.tag.Some? || !s.there }

  /** An upload replaces exactly what its handle's own open saw, the version or the absence, if and only if the
      HEAD request of `open` answered with an ETag or with a 404. */
  lemma CommitReplacesWhatOpenSaw(initial: Store, log: seq<Event>, start: nat, h: History, c: Commit)
    requires Legal(initial, log) && SightsValid(log, h.sights) && CommitsValid(log, start, h) && c in h.commits
    ensures var s := h.sights[c.id];
            SameVersion(Lookup(Run(initial, log[..c.at]), s.loc), log[s.at].found) <==> Protected(s)
  {
    LegalAt(initial, log, c.at);
    assert SawVersion(log, h.sights[c.id]) && CommitsSight(log, h.sights[c.id], c.at);
  }

  /** An upload stores the metadata that its handle's own open saw. */
  lemma CommitStoresSeenMetadata(log: seq<Event>, start: nat, h: History, c: Commit)
    requires SightsValid(log, h.sights) && CommitsValid(log, start, h) && c in h.commits
    ensures var found := log[h.sights[c.id].at].found;
            log[c.at].blob.metadata == if found.Some? then found.value.metadata else map[]
  {
    assert SawVersion(log, h.sights[c.id]) && CommitsSight(log, h.sights[c.id], c.at);
  }

  /** In the other case, an object seen without its ETag, an upload reaches the store only over the absence that
      someone else's deletion left. */
  lemma UnprotectedCommitFollowsDeletion(initial: Store, log: seq<Event>, start: nat, h: History, c: Commit)
    requires Legal(initial, log) && SightsValid(log, h.sights) && CommitsValid(log, start, h) && c in h.commits
    requires !Protected(h.sights[c.id])
    ensures var s := h.sights[c.id];
            s.loc in Run(initial, log[..s.at]) && s.loc !in Run(initial, log[..c.at]) && !Untouched(log, s.at + 1, c.at, s.loc)
  {
    var s := h.sights[c.id];
    assert SawVersion(log, s) && CommitsSight(log, s, c.at);
    LegalAt(initial, log, s.at);
    LegalAt(initial, log, c.at);
    if Untouched(log, s.at + 1, c.at, s.loc) { UntouchedKeeps(initial, log, s.at + 1, c.at, s.loc); }
  }

  /** It happens: an object seen without its ETag is deleted by someone else before the upload. */
  lemma UnprotectedCommit(l: Loc, seen: Blob, stored: Blob)
    requires stored.metadata == seen.metadata
    ensures var log := [Outside(l, Some(seen)), Trouble, Seen(l, Some(seen)), Outside(l, None), Stored(l, IfNoneMatch, stored)];
            var h := History(map[1 := Sight(l, true, None, seen.metadata, 2)], [Commit(1, 4)], {});
            && Legal(map[], log) && SightsValid(log, h.sights) && CommitsValid(log, 0, h)
            && Lookup(Run(map[], log[..4]), l).None? && log[2].found.Some?
  {
    var log := [Outside(l, Some(seen)), Trouble, Seen(l, Some(seen)), Outside(l, None), Stored(l, IfNoneMatch, stored)];
    assert log[..0] == [];
    forall k | 0 <= k < 5 ensures log[..k + 1] == log[..k] + [log[k]] { }
    RunExtends(map[], log[..0], log[0]);
    RunExtends(map[], log[..1], log[1]);
    RunExtends(map[], log[..2], log[2]);
    RunExtends(map[], log[..3], log[3]);
    RunExtends(map[], log[..4], log[4]);
    assert log[..5] == log;
    assert Commit(1, 4) in [Commit(1, 4)];
  }

  /** No lost update: when a handle uploads over the upload of another that was made after it was opened,
      the bytes it replaces are the very bytes it saw when it was opened. */
  lemma NoLostUpdate(initial: Store, log: seq<Event>, start: nat, h: History, c: Commit, d: Commit)
    requires Legal(initial, log) && CommitsValid(log, start, h) && SightsValid(log, h.sights)
    requires c in h.commits && d in h.commits && h.sights[c.id].loc == h.sights[d.id].loc
    requires h.sights[d.id].at < c.at < d.at && Untouched(log, c.at + 1, d.at, h.sights[d.id].loc)
    ensures var saw := log[h.sights[d.id].at].found; saw.Some? && saw.value.content == log[c.at].blob.content
  {
    CommitFollowsLastWrite(initial, log, start, h, d, c.at);
  }
}
