/** Copying and moving objects between buckets (transfer in s3-transfers.js).

    The safety of a move is stated over the history of the service: whatever other clients do between
    requests and wherever the run fails, every source it deletes had been copied, was unchanged since,
    and its copy had just been seen in place. */
module Transfers {
  import opened Wrappers
  import opened ObjectStore
  import opened Profiles
  import opened Selection
  import opened Planning

  function FirstSegment(s: string): (n: nat)
    ensures n <= |s|
    ensures forall i :: 0 <= i < n ==> s[i] != '/'
    ensures n == |s| || s[n] == '/'
  {
    if s == "" || s[0] == '/' then 0 else 1 + FirstSegment(s[1..])
  }

  /** A new name, when given, replaces the first segment of the relative path. */
  function Renamed(relative: string, name: string): string {
    if name == "" then relative else name + relative[FirstSegment(relative)..]
  }

  function Dest(target: Binding, e: Entry, name: string): Loc {
    Loc(target.Site(), target.node.path + Renamed(e.relative, name))
  }

  datatype Commit = Commit(entry: Entry, tag: Etag, dest: Loc, copied: Option<Etag>)

  /** Between `lo` and `hi` this version of the source was read, then stored at the destination. */
  ghost predicate CopiedAt(log: seq<Event>, g: int, p: int, source: Loc, tag: Etag, dest: Loc) {
    && 0 <= g < p < |log|
    && log[g].Fetched? && log[g].loc == source && log[g].tag == tag
    && log[p].Stored? && log[p].loc == dest && log[p].blob.content == log[g].content
  }

  ghost predicate Settled(log: seq<Event>, lo: nat, hi: nat, e: Entry, dest: Loc) {
    || (exists g, p, tag :: lo <= g && p < hi && CopiedAt(log, g, p, e.Source(), tag, dest))
    || (exists a :: lo <= a < hi && a < |log| && log[a] == Asked(dest, Skip))
  }

  /** The destination held the copy made at `p` when last checked at `h`, and this client did nothing
      between that check and `i`. */
  ghost predicate JustChecked(log: seq<Event>, p: int, h: int, i: int, dest: Loc) {
    && 0 <= p < h < i <= |log| && log[p].Stored?
    && log[h].Seen? && log[h].loc == dest && log[h].found.Some? && log[h].found.value.Tag() == log[p].blob.Tag()
    && AllOutside(log, h + 1, i)
  }

  /** Why the run may delete a source at `i`: the deletion names the version that was copied, the copy was
      just seen in place, and every entry has been copied or skipped before. */
  ghost predicate JustifiedRemoval(log: seq<Event>, lo: nat, i: nat, entries: seq<Entry>, target: Binding, name: string)
    requires i < |log|
  {
    && log[i].Removed? && log[i].expected.Some?
    && (exists e, g, p, h :: e in entries && log[i].loc == e.Source() && lo <= g
                             && CopiedAt(log, g, p, e.Source(), log[i].expected.value, Dest(target, e, name))
                             && JustChecked(log, p, h, i, Dest(target, e, name)))
    && (forall e :: e in entries ==> Settled(log, lo, i, e, Dest(target, e, name)))
  }

  /** The overwrite question at `a` was about this version, seen at `h`, and the answer was to replace it: this
      client did nothing in between. */
  ghost predicate Confirmed(log: seq<Event>, h: int, a: int, dest: Loc, tag: Etag) {
    && 0 <= h < a < |log| && log[a] == Asked(dest, Replace) && AllOutside(log, h + 1, a)
    && log[h].Seen? && log[h].loc == dest && log[h].found.Some? && log[h].found.value.Tag() == tag
  }

  /** Why the run may write a destination at `p`: nothing is there, or the version there is the one the
      overwrite question was asked about. */
  ghost predicate JustifiedStore(log: seq<Event>, lo: nat, p: nat)
    requires p < |log|
  {
    && log[p].Stored?
    && (log[p].condition.IfMatch? ==>
          exists h, a :: lo <= h && a < p && Confirmed(log, h, a, log[p].loc, log[p].condition.tag))
  }

  lemma ConfirmedStays(log: seq<Event>, longer: seq<Event>, h: int, a: int, dest: Loc, tag: Etag)
    requires log <= longer && Confirmed(log, h, a, dest, tag)
    ensures Confirmed(longer, h, a, dest, tag)
  {
  }

  /** A longer history says the same about what it starts with. */
  lemma StoreStays(log: seq<Event>, longer: seq<Event>, lo: nat, p: nat)
    requires log <= longer && p < |log| && JustifiedStore(log, lo, p)
    ensures JustifiedStore(longer, lo, p)
  {
    if log[p].condition.IfMatch? {
      var h, a :| lo <= h && a < p && Confirmed(log, h, a, log[p].loc, log[p].condition.tag);
      ConfirmedStays(log, longer, h, a, log[p].loc, log[p].condition.tag);
    }
  }

  lemma RemovalStays(log: seq<Event>, longer: seq<Event>, lo: nat, i: nat, entries: seq<Entry>, target: Binding, name: string)
    requires log <= longer && i < |log| && JustifiedRemoval(log, lo, i, entries, target, name)
    ensures JustifiedRemoval(longer, lo, i, entries, target, name)
  {
    var e, g, p, h :| e in entries && log[i].loc == e.Source() && lo <= g
                      && CopiedAt(log, g, p, e.Source(), log[i].expected.value, Dest(target, e, name))
                      && JustChecked(log, p, h, i, Dest(target, e, name));
    assert CopiedAt(longer, g, p, e.Source(), log[i].expected.value, Dest(target, e, name));
    assert JustChecked(longer, p, h, i, Dest(target, e, name));
    forall e | e in entries ensures Settled(longer, lo, i, e, Dest(target, e, name)) {
      SettledStays(log, longer, lo, i, e, Dest(target, e, name));
    }
  }

  lemma SettledStays(log: seq<Event>, longer: seq<Event>, lo: nat, hi: nat, e: Entry, dest: Loc)
    requires log <= longer && hi <= |log| && Settled(log, lo, hi, e, dest)
    ensures forall hi' :: hi <= hi' ==> Settled(longer, lo, hi', e, dest)
  {
    if g, p, tag :| lo <= g && p < hi && CopiedAt(log, g, p, e.Source(), tag, dest) {
      assert CopiedAt(longer, g, p, e.Source(), tag, dest);
    } else {
      var a :| lo <= a < hi && a < |log| && log[a] == Asked(dest, Skip);
      assert longer[a] == Asked(dest, Skip);
    }
  }

  /** This client wrote nothing since `lo`. */
  predicate NoWrites(log: seq<Event>, lo: nat) {
    forall k | lo <= k < |log| :: !log[k].Stored? && !log[k].Removed?
  }

  /** What the report of a run counts. */
  datatype Deed = Storing | Removing | Skipping

  predicate IsDeed(e: Event, deed: Deed) {
    match deed
    case Storing => e.Stored?
    case Removing => e.Removed?
    case Skipping => e.Asked? && e.choice == Skip
  }

  /** The places of such events of this client since `lo`. */
  function Deeds(log: seq<Event>, deed: Deed, lo: nat): set<nat> {
    set k: nat | lo <= k < |log| && IsDeed(log[k], deed)
  }

  /** Objects stored and removed, and overwrite questions answered with "skip". */
  datatype Tally = Tally(stored: int, removed: int, skipped: int)

  /** These copies and skips, and unless it is sure of that perhaps one copy whose answer was lost. */
  predicate CopiesTold(t: Tally, copied: nat, skipped: nat, sure: bool) {
    copied <= t.stored <= copied + (if sure then 0 else 1) && t.removed == 0 && t.skipped == skipped
  }

  predicate RemovalsTold(t: Tally, removed: nat, sure: bool) {
    t.stored == 0 && removed <= t.removed <= removed + (if sure then 0 else 1) && t.skipped == 0
  }

  function Sum(a: Tally, b: Tally): Tally { Tally(a.stored + b.stored, a.removed + b.removed, a.skipped + b.skipped) }

  function Tallied(log: seq<Event>, lo: nat): Tally {
    Tally(|Deeds(log, Storing, lo)|, |Deeds(log, Removing, lo)|, |Deeds(log, Skipping, lo)|)
  }

  /** This client did nothing that counts since `lo`. */
  predicate Uncounted(log: seq<Event>, lo: nat) {
    forall k | lo <= k < |log| :: !log[k].Stored? && !log[k].Removed? && !IsDeed(log[k], Skipping)
  }

  lemma UncountedTally(log: seq<Event>, lo: nat)
    requires Uncounted(log, lo)
    ensures Tallied(log, lo) == Tally(0, 0, 0)
  {
    assert Deeds(log, Storing, lo) == Deeds(log, Removing, lo) == Deeds(log, Skipping, lo) == {};
  }

  lemma DeedsAdd(before: seq<Event>, log: seq<Event>, deed: Deed, lo: nat)
    requires before <= log && lo <= |before|
    ensures |Deeds(log, deed, lo)| == |Deeds(before, deed, lo)| + |Deeds(log, deed, |before|)|
  {
    assert Deeds(log, deed, lo) == Deeds(before, deed, lo) + Deeds(log, deed, |before|);
    assert Deeds(before, deed, lo) !! Deeds(log, deed, |before|);
  }

  /** The tally of a run is that of its parts. */
  lemma TallyAdds(before: seq<Event>, log: seq<Event>, lo: nat)
    requires before <= log && lo <= |before|
    ensures Tallied(log, lo) == Sum(Tallied(before, lo), Tallied(log, |before|))
  {
    DeedsAdd(before, log, Storing, lo);
    DeedsAdd(before, log, Removing, lo);
    DeedsAdd(before, log, Skipping, lo);
  }

  lemma LastDeed(log: seq<Event>, deed: Deed, lo: nat)
    requires lo < |log| && Uncounted(log[..|log| - 1], lo)
    ensures Deeds(log, deed, lo) == if IsDeed(log[|log| - 1], deed) then {|log| - 1} else {}
  {
    assert forall k :: lo <= k < |log| - 1 ==> log[..|log| - 1][k] == log[k];
  }

  /** A step that ends in one event of its own, after nothing else that counts, counts that event. */
  lemma LastTally(log: seq<Event>, lo: nat)
    requires lo < |log| && Uncounted(log[..|log| - 1], lo)
    ensures var e := log[|log| - 1];
            Tallied(log, lo) == Tally(if e.Stored? then 1 else 0, if e.Removed? then 1 else 0, if IsDeed(e, Skipping) then 1 else 0)
  {
    LastDeed(log, Storing, lo);
    LastDeed(log, Removing, lo);
    LastDeed(log, Skipping, lo);
  }

  /** The part of a growing log that is new. */
  lemma Grown(before: seq<Event>, log: seq<Event>, own: seq<Event>)
    requires Grew(before, log, own)
    ensures before <= log
    ensures forall k :: |log| - |own| <= k < |log| ==> log[k] == own[k - (|log| - |own|)]
    ensures (forall e :: e in own ==> !e.Stored? && !e.Removed?) ==> NoWrites(log, |before|)
    ensures (forall e :: e in own ==> !e.Stored? && !e.Removed? && !IsDeed(e, Skipping)) ==> Uncounted(log, |before|)
  {
    forall k | |log| - |own| <= k < |log| ensures log[k] == own[k - (|log| - |own|)] {
      assert log[|log| - |own|..][k - (|log| - |own|)] == log[k];
    }
  }

  datatype Decision = Proceed(existing: Option<Etag>) | SkipIt | Stop

  /** The overwrite question for the version `existing` at `dest` was answered with "replace". */
  ghost predicate ReplaceAsked(log: seq<Event>, lo: nat, hi: nat, dest: Loc, existing: Option<Etag>) {
    existing.Some? ==> exists h, a :: lo <= h && a < hi && Confirmed(log, h, a, dest, existing.value)
  }

  /** The question follows the HEAD request; only other clients act while the user thinks. */
  lemma AskedAbout(before: seq<Event>, seen: seq<Event>, waited: seq<Event>, dest: Loc, tag: Etag, choice: Choice)
    requires |before| < |seen| && Grew(seen, waited, []) && seen[|seen| - 1].Seen? && seen[|seen| - 1].loc == dest
    requires seen[|seen| - 1].found.Some? && seen[|seen| - 1].found.value.Tag() == tag
    ensures var log := waited + [Asked(dest, choice)];
            choice == Replace ==> ReplaceAsked(log, |before|, |log|, dest, Some(tag))
  {
    var log := waited + [Asked(dest, choice)];
    assert log[|seen| - 1] == waited[|seen| - 1] == seen[|seen| - 1];
    assert forall k :: |seen| <= k < |waited| ==> log[k] == waited[k];
    if choice == Replace { assert Confirmed(log, |seen| - 1, |waited|, dest, tag); }
  }

  lemma ReplaceAskedStays(log: seq<Event>, longer: seq<Event>, lo: nat, dest: Loc, existing: Option<Etag>)
    requires log <= longer && ReplaceAsked(log, lo, |log|, dest, existing)
    ensures ReplaceAsked(longer, lo, |longer|, dest, existing)
  {
    if existing.Some? {
      var h, a :| lo <= h && a < |log| && Confirmed(log, h, a, dest, existing.value);
      ConfirmedStays(log, longer, h, a, dest, existing.value);
    }
  }

  lemma NothingSince(start: seq<Event>, seen: seq<Event>, log: seq<Event>)
    requires start <= seen && Uncounted(seen, |start|) && Grew(seen, log, [])
    ensures start <= log && Uncounted(log, |start|)
  {
    Grown(seen, log, []);
    forall k | |start| <= k < |log| ensures !log[k].Stored? && !log[k].Removed? && !IsDeed(log[k], Skipping) {
      if k < |seen| { assert log[k] == seen[k]; }
    }
  }

  /** The question goes out after the HEAD request; only other clients act until the answer. */
  lemma AnswerCounts(before: seq<Event>, seen: seq<Event>, waited: seq<Event>, dest: Loc, choice: Choice)
    requires before <= seen && Uncounted(seen, |before|) && Grew(seen, waited, [])
    ensures var log := waited + [Asked(dest, choice)];
            && before <= log && NoWrites(log, |before|) && |before| < |log|
            && Uncounted(if choice == Skip then log[..|log| - 1] else log, |before|)
  {
    NothingSince(before, seen, waited);
    assert (waited + [Asked(dest, choice)])[..|waited|] == waited;
  }

  /** The user cancelled the run. */
  predicate Cancelled(log: seq<Event>, lo: nat) {
    exists k | lo <= k < |log| :: log[k].Asked? && log[k].choice == Cancel
  }

  /** Asks the user, and waits for the answer. */
  method Ask(remote: Remote, dest: Loc, tag: Etag, ghost before: seq<Event>) returns (d: Decision)
    requires remote.Valid() && before <= remote.log && |before| < |remote.log| && Uncounted(remote.log, |before|)
    requires remote.log[|remote.log| - 1].Seen? && remote.log[|remote.log| - 1].loc == dest
    requires remote.log[|remote.log| - 1].found.Some? && remote.log[|remote.log| - 1].found.value.Tag() == tag
    modifies remote
    ensures remote.Valid() && before <= remote.log && NoWrites(remote.log, |before|) && |before| < |remote.log|
    ensures old(remote.log) <= remote.log
    ensures NoneOutside(remote.log, |before|) ==> remote.store == old(remote.store)
    ensures d.SkipIt? ==> remote.log[|remote.log| - 1] == Asked(dest, Skip)
    ensures Uncounted(if d.SkipIt? then remote.log[..|remote.log| - 1] else remote.log, |before|)
    ensures d.Proceed? ==> d.existing == Some(tag) && ReplaceAsked(remote.log, |before|, |remote.log|, dest, d.existing)
    ensures d.Stop? ==> Cancelled(remote.log, |before|)
  {
    var choice: Choice := *;
    ghost var seen := remote.log;
    remote.Interfere();
    Grown(seen, remote.log, []);
    ghost var waited := remote.log;
    remote.Record(Asked(dest, choice));
    AskedAbout(before, seen, waited, dest, tag, choice);
    AnswerCounts(before, seen, waited, dest, choice);
    assert remote.log[|remote.log| - 1] == Asked(dest, choice);
    match choice {
      case Skip => return SkipIt;
      case Replace => return Proceed(Some(tag));
      case Cancel => return Stop;
    }
  }

  /** HEAD the destination and, if an object is there, ask whether to replace it. */
  method Decide(remote: Remote, dest: Loc) returns (d: Decision)
    requires remote.Valid()
    modifies remote
    ensures remote.Valid() && old(remote.log) <= remote.log && NoWrites(remote.log, |old(remote.log)|)
    ensures NoneOutside(remote.log, |old(remote.log)|) ==> remote.store == old(remote.store)
    ensures d.SkipIt? ==> |remote.log| > |old(remote.log)| && remote.log[|remote.log| - 1] == Asked(dest, Skip)
    ensures Uncounted(if d.SkipIt? then remote.log[..|remote.log| - 1] else remote.log, |old(remote.log)|)
    ensures d.Proceed? ==> ReplaceAsked(remote.log, |old(remote.log)|, |remote.log|, dest, d.existing)
    // Undisturbed, the run goes on unless the user cancels, and expects of the destination what is there.
    ensures d.Stop? && Smooth(remote.log, |old(remote.log)|) ==> Cancelled(remote.log, |old(remote.log)|)
    ensures d.Proceed? && Smooth(remote.log, |old(remote.log)|) ==> Holds(remote.store, dest, Require(d.existing))
  {
    ghost var before := remote.log;
    var head := remote.Stat(dest);
    if head.Failed? { Grown(before, remote.log, []); return Stop; }
    Grown(before, remote.log, [Seen(dest, Lookup(remote.store, dest))]);
    if head.value.None? || head.value.value.tag.None? { return Proceed(None); }
    ghost var seen := remote.log;
    d := Ask(remote, dest, head.value.value.tag.value, before);
    if NoneOutside(remote.log, |before|) { QuietParts(before, seen, remote.log); }
  }

  datatype Copy = Copy(tag: Etag, metadata: Metadata, content: Content)

  /** HEAD the source, then GET exactly the version seen. */
  method Read(remote: Remote, source: Loc) returns (r: Reply<Copy>)
    requires remote.Valid()
    modifies remote
    ensures remote.Valid() && old(remote.log) <= remote.log && NoWrites(remote.log, |old(remote.log)|)
    ensures NoneOutside(remote.log, |old(remote.log)|) ==> remote.store == old(remote.store)
    ensures Uncounted(remote.log, |old(remote.log)|)
    ensures r.Ok? ==> |remote.log| > |old(remote.log)|
                      && remote.log[|remote.log| - 1] == Fetched(source, r.value.tag, r.value.content)
    ensures r.Ok? && NoneOutside(remote.log, |old(remote.log)|) ==>
              source in remote.store && remote.store[source].content == r.value.content
              && remote.store[source].metadata == r.value.metadata
    ensures r.Ok? && NoneOutside(remote.log, |old(remote.log)|) ==>
              r.value.tag == remote.store[source].Tag() && |r.value.content| <= LIMIT
    ensures r.Failed? && Smooth(remote.log, |old(remote.log)|) ==>
              source !in remote.store || |remote.store[source].content| > LIMIT
  {
    ghost var before := remote.log;
    var info := remote.Stat(source);
    if info.Failed? { Grown(before, remote.log, []); return Failed; }
    Grown(before, remote.log, [Seen(source, Lookup(remote.store, source))]);
    if info.value.None? || info.value.value.tag.None? { return Failed; }
    ghost var middle := remote.log;
    var tag := info.value.value.tag.value;
    var content := remote.Download(source, tag);
    if content.Failed? { Grown(middle, remote.log, []); return Failed; }
    Grown(middle, remote.log, [Fetched(source, tag, content.value)]);
    assert forall k :: 0 <= k < |middle| ==> remote.log[k] == middle[k];
    return Ok(Copy(tag, info.value.value.metadata, content.value));
  }

  datatype Step = Copied(commit: Commit) | Skipped | Aborted

  /** A commit and the two events behind it. */
  ghost predicate Backed(log: seq<Event>, lo: nat, c: Commit) {
    exists g, p :: lo <= g && CopiedAt(log, g, p, c.entry.Source(), c.tag, c.dest)
                   && (c.copied.Some? ==> c.copied.value == log[p].blob.Tag())
  }

  /** Every write of this client since `lo` created its destination or replaced the version asked about. */
  ghost predicate StoresJustified(log: seq<Event>, lo: nat, start: nat) {
    forall p :: start <= p < |log| && log[p].Stored? ==> JustifiedStore(log, lo, p)
  }

  predicate NoRemovals(log: seq<Event>, lo: nat) {
    forall k | lo <= k < |log| :: !log[k].Removed?
  }

  type View = map<Loc, (Content, Metadata)>

  /** The store without the tags, which the server chooses. */
  function Contents(store: Store): View {
    map loc | loc in store :: (store[loc].content, store[loc].metadata)
  }

  /** There is an object that the client can read. */
  predicate Readable(store: Store, loc: Loc) {
    loc in store && |store[loc].content| <= LIMIT
  }

  datatype Preparation = Ready(existing: Option<Etag>, copy: Copy) | NotWanted | NotReady

  /** The decision about the destination, then the bytes of the source. */
  method Examine(remote: Remote, e: Entry, dest: Loc) returns (p: Preparation)
    requires remote.Valid()
    modifies remote
    ensures remote.Valid() && old(remote.log) <= remote.log && NoWrites(remote.log, |old(remote.log)|)
    ensures NoneOutside(remote.log, |old(remote.log)|) ==> remote.store == old(remote.store)
    ensures p.NotWanted? ==> |remote.log| > |old(remote.log)| && remote.log[|remote.log| - 1] == Asked(dest, Skip)
    ensures Uncounted(if p.NotWanted? then remote.log[..|remote.log| - 1] else remote.log, |old(remote.log)|)
    ensures p.Ready? ==>
              && |remote.log| > |old(remote.log)|
              && remote.log[|remote.log| - 1] == Fetched(e.Source(), p.copy.tag, p.copy.content)
              && ReplaceAsked(remote.log, |old(remote.log)|, |remote.log|, dest, p.existing)
    ensures p.Ready? && NoneOutside(remote.log, |old(remote.log)|) ==>
              e.Source() in remote.store && remote.store[e.Source()].content == p.copy.content
              && remote.store[e.Source()].metadata == p.copy.metadata
              && remote.store[e.Source()].Tag() == p.copy.tag && |p.copy.content| <= LIMIT
    ensures p.NotReady? && Smooth(remote.log, |old(remote.log)|) ==>
              Cancelled(remote.log, |old(remote.log)|) || !Readable(remote.store, e.Source())
    ensures p.Ready? && Smooth(remote.log, |old(remote.log)|) ==> Holds(remote.store, dest, Require(p.existing))
  {
    ghost var start := remote.log;
    var decision := Decide(remote, dest);
    match decision {
      case Stop => return NotReady;
      case SkipIt => return NotWanted;
      case Proceed(existing) =>
        ghost var decided := remote.log;
        var copy := Read(remote, e.Source());
        if Smooth(remote.log, |start|) { SmoothParts(start, decided, remote.log); }
        if copy.Failed? { return NotReady; }
        ReplaceAskedStays(decided, remote.log, |start|, dest, existing);
        return Ready(existing, copy.value);
    }
  }

  /** Everything before the upload: both profiles are as they were bound, the decision is made and the bytes are read. */
  method Prepare(remote: Remote, e: Entry, target: Binding, dest: Loc)
    returns (p: Preparation, ghost from: Reply<Profile>, ghost into: Reply<Profile>)
    requires remote.Valid()
    modifies remote
    ensures remote.Valid() && old(remote.log) <= remote.log && NoWrites(remote.log, |old(remote.log)|)
    ensures NoneOutside(remote.log, |old(remote.log)|) ==> remote.store == old(remote.store)
    ensures p.NotWanted? ==> |remote.log| > |old(remote.log)| && remote.log[|remote.log| - 1] == Asked(dest, Skip)
    ensures Uncounted(if p.NotWanted? then remote.log[..|remote.log| - 1] else remote.log, |old(remote.log)|)
    ensures p.Ready? ==>
              && |remote.log| > |old(remote.log)|
              && remote.log[|remote.log| - 1] == Fetched(e.Source(), p.copy.tag, p.copy.content)
              && ReplaceAsked(remote.log, |old(remote.log)|, |remote.log|, dest, p.existing)
    ensures p.Ready? && NoneOutside(remote.log, |old(remote.log)|) ==>
              e.Source() in remote.store && remote.store[e.Source()].content == p.copy.content
              && remote.store[e.Source()].metadata == p.copy.metadata
              && remote.store[e.Source()].Tag() == p.copy.tag && |p.copy.content| <= LIMIT
    ensures p.NotReady? && Smooth(remote.log, |old(remote.log)|) ==>
              Cancelled(remote.log, |old(remote.log)|) || !Readable(remote.store, e.Source())
    ensures p.Ready? && Smooth(remote.log, |old(remote.log)|) ==> Holds(remote.store, dest, Require(p.existing))
    ensures p.Ready? ==> Unchanged(from, e.binding) && Unchanged(into, target)
  {
    into := Failed;
    var source;
    source, from := Current(e.binding);
    if source.Failed? { remote.Note(); return NotReady, from, into; }
    var destination;
    destination, into := Current(target);
    if destination.Failed? { remote.Note(); return NotReady, from, into; }
    p := Examine(remote, e, dest);
  }

  lemma SmoothParts(start: seq<Event>, middle: seq<Event>, log: seq<Event>)
    requires start <= middle <= log && Smooth(log, |start|)
    ensures Smooth(middle, |start|) && Smooth(log, |middle|)
  {
  }

  lemma ReplaceJustifies(ready: seq<Event>, log: seq<Event>, lo: nat, start: nat, dest: Loc, existing: Option<Etag>, blob: Blob)
    requires lo <= start && ready <= log && |ready| < |log|
    requires ReplaceAsked(ready, start, |ready|, dest, existing)
    requires log[|log| - 1] == Stored(dest, Require(existing), blob)
    ensures JustifiedStore(log, lo, |log| - 1)
  {
    if existing.Some? {
      var h, a :| start <= h && a < |ready| && Confirmed(ready, h, a, dest, existing.value);
      ConfirmedStays(ready, log, h, a, dest, existing.value);
    }
  }

  /** An event of this client behind a stretch in which it did nothing that counts. */
  lemma UploadTally(start: seq<Event>, ready: seq<Event>, log: seq<Event>, own: Event)
    requires start <= ready && Uncounted(ready, |start|) && Grew(ready, log, [own])
    ensures Uncounted(log[..|log| - 1], |start|) && |start| < |log| && log[|log| - 1] == own
    ensures own.Stored? ==> Tallied(log, |start|) == Tally(1, 0, 0)
    ensures own.Removed? ==> Tallied(log, |start|) == Tally(0, 1, 0)
  {
    Grown(ready, log, [own]);
    var front := log[..|log| - 1];
    forall k | |start| <= k < |front| ensures !front[k].Stored? && !front[k].Removed? && !IsDeed(front[k], Skipping) {
      if k < |ready| { assert front[k] == log[k] == ready[k]; }
    }
    LastTally(log, |start|);
  }

  /** The upload that follows a preparation is justified and backed. */
  lemma UploadIsJustified(start: seq<Event>, ready: seq<Event>, log: seq<Event>, lo: nat, dest: Loc, source: Loc,
                          existing: Option<Etag>, copy: Copy, blob: Blob)
    requires lo <= |start| < |ready| && start <= ready && Uncounted(ready, |start|)
    requires ready[|ready| - 1] == Fetched(source, copy.tag, copy.content)
    requires ReplaceAsked(ready, |start|, |ready|, dest, existing)
    requires Grew(ready, log, [Stored(dest, Require(existing), blob)]) && blob.content == copy.content
    ensures start <= log && NoRemovals(log, |start|) && StoresJustified(log, lo, |start|)
    ensures Tallied(log, |start|) == Tally(1, 0, 0)
    ensures CopiedAt(log, |ready| - 1, |log| - 1, source, copy.tag, dest) && log[|log| - 1].blob == blob
  {
    var own := Stored(dest, Require(existing), blob);
    assert |ready| < |log| && ready <= log && log[|log| - 1] == own by { Grown(ready, log, [own]); }
    assert Tallied(log, |start|) == Tally(1, 0, 0) by {
      UploadTally(start, ready, log, own);
    }
    ReplaceJustifies(ready, log, lo, |start|, dest, existing, blob);
    forall k | |start| <= k < |log| - 1 ensures !log[k].Stored? && !log[k].Removed? {
      if k < |ready| { assert log[k] == ready[k]; }
    }
  }

  /** Whatever became of that upload, the run has been justified so far, and wrote once at most. */
  lemma UploadIsSafe(start: seq<Event>, ready: seq<Event>, log: seq<Event>, lo: nat, dest: Loc, source: Loc,
                     existing: Option<Etag>, copy: Copy)
    requires lo <= |start| < |ready| && start <= ready && Uncounted(ready, |start|)
    requires ready[|ready| - 1] == Fetched(source, copy.tag, copy.content)
    requires ReplaceAsked(ready, |start|, |ready|, dest, existing)
    requires Grew(ready, log, []) || exists nonce ::
               Grew(ready, log, [Stored(dest, Require(existing), Blob(copy.content, copy.metadata, nonce))])
    ensures ready <= log && NoRemovals(log, |start|) && StoresJustified(log, lo, |start|)
    ensures CopiesTold(Tallied(log, |start|), 0, 0, false)
  {
    if Grew(ready, log, []) {
      Grown(ready, log, []);
      UncountedTally(ready, |start|);
      UncountedTally(log, |ready|);
      TallyAdds(ready, log, |start|);
    } else {
      var nonce :| Grew(ready, log, [Stored(dest, Require(existing), Blob(copy.content, copy.metadata, nonce))]);
      UploadIsJustified(start, ready, log, lo, dest, source, existing, copy, Blob(copy.content, copy.metadata, nonce));
    }
  }

  lemma ContentsOfWrite(store: Store, loc: Loc, blob: Blob)
    ensures Contents(store[loc := blob]) == Contents(store)[loc := (blob.content, blob.metadata)]
  {
  }

  lemma QuietParts(start: seq<Event>, middle: seq<Event>, log: seq<Event>)
    requires start <= middle <= log && NoneOutside(log, |start|)
    ensures NoneOutside(middle, |start|) && NoneOutside(log, |middle|)
  {
  }

  /** What one iteration counts: an aborted one may have made a copy whose answer was lost. */
  predicate StepTally(step: Step, n: Tally) {
    match step
    case Copied(_) => n == Tally(1, 0, 0)
    case Skipped => n == Tally(0, 0, 1)
    case Aborted => CopiesTold(n, 0, 0, false)
  }

  lemma CopiedTally(before: seq<Event>, log: seq<Event>, lo: nat, copied: nat, skipped: nat, step: Step)
    requires before <= log && lo <= |before| && Tallied(before, lo) == Tally(copied, 0, skipped)
    requires StepTally(step, Tallied(log, |before|))
    ensures match step
            case Copied(_) => Tallied(log, lo) == Tally(copied + 1, 0, skipped)
            case Skipped => Tallied(log, lo) == Tally(copied, 0, skipped + 1)
            case Aborted => CopiesTold(Tallied(log, lo), copied, skipped, false)
  {
    TallyAdds(before, log, lo);
  }

  lemma PreparedTally(log: seq<Event>, lo: nat, skipped: bool, dest: Loc)
    requires skipped ==> |log| > lo && log[|log| - 1] == Asked(dest, Skip)
    requires Uncounted(if skipped then log[..|log| - 1] else log, lo)
    ensures Tallied(log, lo) == Tally(0, 0, if skipped then 1 else 0)
  {
    if skipped { LastTally(log, lo); } else { UncountedTally(log, lo); }
  }

  /** Undisturbed, a copy is of the version stored, and the commit tells both versions. */
  predicate CopiedSmoothly(before: Store, after: Store, e: Entry, dest: Loc, step: Step) {
    match step
    case Copied(c) =>
      && e.Source() in before && c.tag == before[e.Source()].Tag()
      && dest in after && after == before[dest := after[dest]] && c.copied == Some(after[dest].Tag())
    case Skipped => after == before
    case Aborted => true
  }

  /** One iteration of the copy loop. */
  method CopyEntry(remote: Remote, e: Entry, target: Binding, name: string, ghost lo: nat) returns (step: Step)
    requires remote.Valid() && lo <= |remote.log|
    modifies remote
    ensures remote.Valid() && old(remote.log) <= remote.log
    ensures NoRemovals(remote.log, |old(remote.log)|) && StoresJustified(remote.log, lo, |old(remote.log)|)
    ensures step.Copied? ==> step.commit.entry == e && step.commit.dest == Dest(target, e, name)
                             && Backed(remote.log, lo, step.commit)
    ensures step.Skipped? ==> Settled(remote.log, lo, |remote.log|, e, Dest(target, e, name))
    ensures StepTally(step, Tallied(remote.log, |old(remote.log)|))
    ensures step.Copied? && NoneOutside(remote.log, |old(remote.log)|) ==>
              var before := Contents(old(remote.store));
              e.Source() in before && Contents(remote.store) == before[Dest(target, e, name) := before[e.Source()]]
    ensures Smooth(remote.log, |old(remote.log)|) ==>
              CopiedSmoothly(old(remote.store), remote.store, e, Dest(target, e, name), step)
              && (step.Aborted? ==> Cancelled(remote.log, |old(remote.log)|) || !Readable(old(remote.store), e.Source()))
  {
    ghost var start := remote.log;
    var aborted: bool := *;
    if aborted { NoteTally(start, remote); return Aborted; }
    var dest := Dest(target, e, name);
    var p, _, _ := Prepare(remote, e, target, dest);
    ghost var ready := remote.log;
    PreparedTally(ready, |start|, p.NotWanted?, dest);
    if p.NotReady? { return Aborted; }
    if p.NotWanted? { return Skipped; }
    var sent, _, _ := Send(remote, e, target, dest, p.existing, p.copy, start, lo);
    step := sent;
    if step.Copied? && NoneOutside(remote.log, |start|) {
      QuietParts(start, ready, remote.log);
    }
    if Smooth(remote.log, |start|) { SmoothParts(start, ready, remote.log); }
  }

  /** Undisturbed, the upload succeeds where the destination is as expected, and changes nothing else. */
  predicate PutSmoothly(before: Store, after: Store, dest: Loc, existing: Option<Etag>, copy: Copy, step: Step) {
    && (|copy.content| <= LIMIT && Holds(before, dest, Require(existing)) ==> step.Copied?)
    && (step.Copied? ==> dest in after && after == before[dest := after[dest]] && step.commit.copied == Some(after[dest].Tag()))
  }

  /** A trouble before the upload. */
  ghost method NoteTally(start: seq<Event>, remote: Remote)
    requires remote.Valid() && start <= remote.log && Uncounted(remote.log, |start|)
    modifies remote`log
    ensures remote.Valid() && remote.log == old(remote.log) + [Trouble] && Uncounted(remote.log, |start|)
    ensures Tallied(remote.log, |start|) == Tally(0, 0, 0)
  {
    remote.Note();
    UncountedTally(remote.log, |start|);
  }

  /** The upload itself. */
  method Put(remote: Remote, e: Entry, dest: Loc, existing: Option<Etag>, copy: Copy,
             ghost start: seq<Event>, ghost lo: nat) returns (step: Step)
    requires remote.Valid() && lo <= |start| < |remote.log| && start <= remote.log && Uncounted(remote.log, |start|)
    requires remote.log[|remote.log| - 1] == Fetched(e.Source(), copy.tag, copy.content)
    requires ReplaceAsked(remote.log, |start|, |remote.log|, dest, existing)
    modifies remote
    ensures remote.Valid() && old(remote.log) <= remote.log && !step.Skipped?
    ensures NoRemovals(remote.log, |start|) && StoresJustified(remote.log, lo, |start|)
    ensures step.Copied? ==> step.commit.entry == e && step.commit.dest == dest && Backed(remote.log, lo, step.commit)
    ensures StepTally(step, Tallied(remote.log, |start|))
    ensures step.Copied? && NoneOutside(remote.log, |old(remote.log)|) ==>
              Contents(remote.store) == Contents(old(remote.store))[dest := (copy.content, copy.metadata)]
    ensures step.Copied? ==> step.commit.tag == copy.tag
    ensures Smooth(remote.log, |old(remote.log)|) ==> PutSmoothly(old(remote.store), remote.store, dest, existing, copy, step)
  {
    ghost var ready := remote.log;
    ghost var before := remote.store;
    var answer := remote.Upload(dest, copy.content, copy.metadata, existing);
    UploadIsSafe(start, ready, remote.log, lo, dest, e.Source(), existing, copy);
    if answer.Failed? { return Aborted; }
    UploadIsJustified(start, ready, remote.log, lo, dest, e.Source(), existing, copy, remote.store[dest]);
    ContentsOfWrite(before, dest, remote.store[dest]);
    return Copied(Commit(e, copy.tag, dest, answer.value));
  }

  /** The upload, after checking both profiles once more. */
  method Send(remote: Remote, e: Entry, target: Binding, dest: Loc, existing: Option<Etag>, copy: Copy,
              ghost start: seq<Event>, ghost lo: nat)
    returns (step: Step, ghost from: Reply<Profile>, ghost into: Reply<Profile>)
    requires remote.Valid() && lo <= |start| < |remote.log| && start <= remote.log && Uncounted(remote.log, |start|)
    requires remote.log[|remote.log| - 1] == Fetched(e.Source(), copy.tag, copy.content)
    requires ReplaceAsked(remote.log, |start|, |remote.log|, dest, existing)
    modifies remote
    ensures remote.Valid() && old(remote.log) <= remote.log && !step.Skipped?
    ensures NoRemovals(remote.log, |start|) && StoresJustified(remote.log, lo, |start|)
    ensures step.Copied? ==> step.commit.entry == e && step.commit.dest == dest && Backed(remote.log, lo, step.commit)
    ensures StepTally(step, Tallied(remote.log, |start|))
    ensures step.Copied? && NoneOutside(remote.log, |old(remote.log)|) ==>
              Contents(remote.store) == Contents(old(remote.store))[dest := (copy.content, copy.metadata)]
    ensures step.Copied? ==> step.commit.tag == copy.tag
    ensures Smooth(remote.log, |old(remote.log)|) ==> PutSmoothly(old(remote.store), remote.store, dest, existing, copy, step)
    ensures step.Copied? ==> Unchanged(from, e.binding) && Unchanged(into, target)
  {
    UncountedTally(remote.log, |start|);
    into := Failed;
    var source;
    source, from := Current(e.binding);
    if source.Failed? { NoteTally(start, remote); return Aborted, from, into; }
    var destination;
    destination, into := Current(target);
    if destination.Failed? { NoteTally(start, remote); return Aborted, from, into; }
    step := Put(remote, e, dest, existing, copy, start, lo);
  }

  /** Every entry has been copied or skipped. */
  ghost predicate AllSettled(log: seq<Event>, lo: nat, entries: seq<Entry>, target: Binding, name: string) {
    forall e :: e in entries ==> Settled(log, lo, |log|, e, Dest(target, e, name))
  }

  ghost predicate RemovalsJustified(log: seq<Event>, lo: nat, start: nat, entries: seq<Entry>, target: Binding, name: string) {
    forall i :: start <= i < |log| && log[i].Removed? ==> JustifiedRemoval(log, lo, i, entries, target, name)
  }

  predicate NoStores(log: seq<Event>, lo: nat) {
    forall k | lo <= k < |log| :: !log[k].Stored?
  }

  lemma BackedStays(log: seq<Event>, longer: seq<Event>, lo: nat, c: Commit)
    requires log <= longer && Backed(log, lo, c)
    ensures Backed(longer, lo, c)
  {
    var g, p :| lo <= g && CopiedAt(log, g, p, c.entry.Source(), c.tag, c.dest)
                && (c.copied.Some? ==> c.copied.value == log[p].blob.Tag());
    assert CopiedAt(longer, g, p, c.entry.Source(), c.tag, c.dest);
  }

  lemma AllSettledStays(log: seq<Event>, longer: seq<Event>, lo: nat, entries: seq<Entry>, target: Binding, name: string)
    requires log <= longer && AllSettled(log, lo, entries, target, name)
    ensures AllSettled(longer, lo, entries, target, name)
  {
    forall e | e in entries ensures Settled(longer, lo, |longer|, e, Dest(target, e, name)) {
      SettledStays(log, longer, lo, |log|, e, Dest(target, e, name));
    }
  }

  /** A deletion of a committed source right after its copy was seen in place is justified. */
  lemma RemovalIsJustified(start: seq<Event>, seen: seq<Event>, log: seq<Event>, lo: nat, c: Commit, found: Option<Blob>,
                           entries: seq<Entry>, target: Binding, name: string)
    requires lo <= |start| && c.entry in entries && c.dest == Dest(target, c.entry, name)
    requires Backed(start, lo, c) && AllSettled(start, lo, entries, target, name)
    requires Grew(start, seen, [Seen(c.dest, found)]) && c.copied.Some?
    requires found.Some? && found.value.Tag() == c.copied.value
    requires Grew(seen, log, [Removed(c.entry.Source(), Some(c.tag))])
    ensures JustifiedRemoval(log, lo, |log| - 1, entries, target, name)
  {
    assert start <= seen && |start| < |seen| && seen[|seen| - 1] == Seen(c.dest, found) by {
      Grown(start, seen, [Seen(c.dest, found)]);
    }
    assert seen <= log && |seen| < |log| && log[|log| - 1] == Removed(c.entry.Source(), Some(c.tag)) by {
      Grown(seen, log, [Removed(c.entry.Source(), Some(c.tag))]);
    }
    var i := |log| - 1;
    var g, p :| lo <= g && CopiedAt(start, g, p, c.entry.Source(), c.tag, c.dest)
                && (c.copied.Some? ==> c.copied.value == start[p].blob.Tag());
    assert forall k :: 0 <= k < |start| ==> start[k] == log[k];
    assert CopiedAt(log, g, p, c.entry.Source(), c.tag, c.dest);
    assert log[|seen| - 1] == seen[|seen| - 1];
    assert JustChecked(log, p, |seen| - 1, i, c.dest);
    forall e | e in entries ensures Settled(log, lo, i, e, Dest(target, e, name)) {
      SettledStays(start, log, lo, |start|, e, Dest(target, e, name));
    }
  }

  lemma RemovalLog(start: seq<Event>, seen: seq<Event>, log: seq<Event>, lo: nat, look: Event, own: Event)
    requires lo <= |start| && look.Seen? && own.Removed?
    requires Grew(start, seen, [look]) && Grew(seen, log, [own])
    ensures start <= seen <= log && |start| < |log| && NoStores(log, |start|)
    ensures forall k :: |start| <= k < |log| - 1 ==> !log[k].Removed?
    ensures Tallied(log, |start|) == Tally(0, 1, 0)
  {
    Grown(start, seen, [look]);
    Grown(seen, log, [own]);
    UploadTally(start, seen, log, own);
    forall k | |start| <= k < |log| - 1 ensures !log[k].Stored? && !log[k].Removed? {
      if k < |seen| { assert log[k] == seen[k]; }
    }
  }

  lemma OneRemoval(log: seq<Event>, lo: nat, start: nat, entries: seq<Entry>, target: Binding, name: string)
    requires start < |log| && JustifiedRemoval(log, lo, |log| - 1, entries, target, name)
    requires forall k :: start <= k < |log| - 1 ==> !log[k].Removed?
    ensures RemovalsJustified(log, lo, start, entries, target, name)
  {
  }

  lemma RemovalStep(start: seq<Event>, seen: seq<Event>, log: seq<Event>, lo: nat, c: Commit, found: Option<Blob>,
                    entries: seq<Entry>, target: Binding, name: string)
    requires lo <= |start| && c.entry in entries && c.dest == Dest(target, c.entry, name)
    requires Backed(start, lo, c) && AllSettled(start, lo, entries, target, name)
    requires Grew(start, seen, [Seen(c.dest, found)]) && c.copied.Some?
    requires found.Some? && found.value.Tag() == c.copied.value
    requires Grew(seen, log, [Removed(c.entry.Source(), Some(c.tag))])
    ensures start <= seen <= log && NoStores(log, |start|)
    ensures RemovalsJustified(log, lo, |start|, entries, target, name)
    ensures Tallied(log, |start|) == Tally(0, 1, 0)
  {
    RemovalLog(start, seen, log, lo, Seen(c.dest, found), Removed(c.entry.Source(), Some(c.tag)));
    RemovalIsJustified(start, seen, log, lo, c, found, entries, target, name);
    OneRemoval(log, lo, |start|, entries, target, name);
  }

  /** Whatever became of that deletion, it was justified if it was made at all. */
  lemma RemovalIsSafe(start: seq<Event>, seen: seq<Event>, log: seq<Event>, lo: nat, c: Commit, found: Option<Blob>,
                      entries: seq<Entry>, target: Binding, name: string, done: bool)
    requires lo <= |start| && c.entry in entries && c.dest == Dest(target, c.entry, name)
    requires Backed(start, lo, c) && AllSettled(start, lo, entries, target, name)
    requires Grew(start, seen, [Seen(c.dest, found)]) && c.copied.Some?
    requires found.Some? && found.value.Tag() == c.copied.value
    requires Grew(seen, log, [Removed(c.entry.Source(), Some(c.tag))]) || (!done && Grew(seen, log, []))
    ensures start <= seen <= log && NoStores(log, |start|)
    ensures RemovalsJustified(log, lo, |start|, entries, target, name)
    ensures RemovalsTold(Tallied(log, |start|), if done then 1 else 0, done)
  {
    if Grew(seen, log, [Removed(c.entry.Source(), Some(c.tag))]) {
      RemovalStep(start, seen, log, lo, c, found, entries, target, name);
    } else {
      Grown(start, seen, [Seen(c.dest, found)]);
      NothingSince(start, seen, log);
      UncountedTally(log, |start|);
    }
  }

  /** The destination holds the version that was uploaded. */
  predicate CopyInPlace(store: Store, c: Commit) {
    c.dest in store && c.copied == Some(store[c.dest].Tag())
  }

  /** The source is the version that was copied. */
  predicate SourceInPlace(store: Store, c: Commit) {
    c.entry.key != "" && Holds(store, c.entry.Source(), IfMatch(c.tag))
  }

  /** Is the copy of this commit in place? */
  method StillCopied(remote: Remote, c: Commit, target: Binding)
    returns (ok: bool, ghost found: Option<Blob>, ghost into: Reply<Profile>)
    requires remote.Valid()
    modifies remote
    ensures remote.Valid() && old(remote.log) <= remote.log && NoWrites(remote.log, |old(remote.log)|)
    ensures Uncounted(remote.log, |old(remote.log)|)
    ensures NoneOutside(remote.log, |old(remote.log)|) ==> remote.store == old(remote.store)
    ensures ok ==> c.copied.Some? && c.dest in remote.store && found.Some? && found.value.Tag() == c.copied.value
                   && Grew(old(remote.log), remote.log, [Seen(c.dest, found)])
    ensures !ok && Smooth(remote.log, |old(remote.log)|) ==> !CopyInPlace(old(remote.store), c)
    ensures ok ==> Unchanged(into, target)
  {
    found, into := None, Failed;
    var aborted: bool := *;
    if aborted { remote.Note(); return false, found, into; }
    var destination;
    destination, into := Current(target);
    if destination.Failed? { remote.Note(); return false, found, into; }
    if c.copied.None? { return false, found, into; }
    ghost var start := remote.log;
    var head := remote.Stat(c.dest);
    found := Lookup(remote.store, c.dest);
    Grown(start, remote.log, if head.Ok? then [Seen(c.dest, found)] else []);
    if head.Failed? || head.value.None? || head.value.value.tag != c.copied { return false, found, into; }
    return true, found, into;
  }

  /** One iteration of the delete loop of a move. */
  method RemoveSource(remote: Remote, c: Commit, target: Binding, name: string, ghost lo: nat, ghost entries: seq<Entry>)
    returns (done: bool, ghost from: Reply<Profile>, ghost into: Reply<Profile>)
    requires remote.Valid() && lo <= |remote.log| && c.entry in entries && c.dest == Dest(target, c.entry, name)
    requires Backed(remote.log, lo, c) && AllSettled(remote.log, lo, entries, target, name)
    modifies remote
    ensures remote.Valid() && old(remote.log) <= remote.log && NoStores(remote.log, |old(remote.log)|)
    ensures RemovalsJustified(remote.log, lo, |old(remote.log)|, entries, target, name)
    ensures RemovalsTold(Tallied(remote.log, |old(remote.log)|), if done then 1 else 0, done)
    ensures done && NoneOutside(remote.log, |old(remote.log)|) ==>
              c.entry.Source() in old(remote.store) && c.dest in old(remote.store)
              && remote.store == old(remote.store) - {c.entry.Source()}
    ensures !done && Smooth(remote.log, |old(remote.log)|) ==>
              !CopyInPlace(old(remote.store), c) || !SourceInPlace(old(remote.store), c)
    ensures done ==> Unchanged(from, c.entry.binding) && Unchanged(into, target)
  {
    from := Failed;
    ghost var start := remote.log;
    var ok;
    ghost var found;
    ok, found, into := StillCopied(remote, c, target);
    ghost var seen := remote.log;
    UncountedTally(seen, |start|);
    if !ok { return false, from, into; }
    var source;
    source, from := Current(c.entry.binding);
    if source.Failed? { NoteTally(start, remote); return false, from, into; }
    var answer := remote.Remove(c.entry.Source(), Some(c.tag));
    RemovalIsSafe(start, seen, remote.log, lo, c, found, entries, target, name, answer.Ok?);
    if NoneOutside(remote.log, |start|) { QuietParts(start, seen, remote.log); }
    if Smooth(remote.log, |start|) { SmoothParts(start, seen, remote.log); }
    return answer.Ok?, from, into;
  }

  /** What the copy phase has established for the entries it is done with. */
  ghost predicate CopiedSoFar(log: seq<Event>, lo: nat, done: seq<Entry>, commits: seq<Commit>, target: Binding, name: string) {
    && NoRemovals(log, lo) && StoresJustified(log, lo, lo)
    && AllSettled(log, lo, done, target, name)
    && forall c :: c in commits ==> c.entry in done && c.dest == Dest(target, c.entry, name) && Backed(log, lo, c)
  }

  lemma StoresStay(log: seq<Event>, longer: seq<Event>, lo: nat, start: nat)
    requires log <= longer && StoresJustified(log, lo, start) && StoresJustified(longer, lo, |log|)
    ensures StoresJustified(longer, lo, start)
  {
    forall p | start <= p < |longer| && longer[p].Stored? ensures JustifiedStore(longer, lo, p) {
      if p < |log| { StoreStays(log, longer, lo, p); }
    }
  }

  lemma CopyPhaseKeeps(log: seq<Event>, longer: seq<Event>, lo: nat, done: seq<Entry>, commits: seq<Commit>,
                       target: Binding, name: string)
    requires CopiedSoFar(log, lo, done, commits, target, name) && lo <= |log| && log <= longer
    requires NoRemovals(longer, |log|) && StoresJustified(longer, lo, |log|)
    ensures CopiedSoFar(longer, lo, done, commits, target, name)
  {
    StoresStay(log, longer, lo, lo);
    AllSettledStays(log, longer, lo, done, target, name);
    forall c | c in commits ensures Backed(longer, lo, c) {
      BackedStays(log, longer, lo, c);
    }
    assert forall k :: 0 <= k < |log| ==> longer[k] == log[k];
  }

  /** A copied entry is settled. */
  lemma BackedIsSettled(log: seq<Event>, lo: nat, c: Commit, target: Binding, name: string)
    requires Backed(log, lo, c) && c.dest == Dest(target, c.entry, name)
    ensures Settled(log, lo, |log|, c.entry, Dest(target, c.entry, name))
  {
  }

  lemma CopyPhaseAdds(log: seq<Event>, longer: seq<Event>, lo: nat, done: seq<Entry>, commits: seq<Commit>,
                      more: seq<Entry>, e: Entry, step: Step, target: Binding, name: string)
    requires more == done + [e]
    requires CopiedSoFar(log, lo, done, commits, target, name) && lo <= |log| && log <= longer
    requires NoRemovals(longer, |log|) && StoresJustified(longer, lo, |log|)
    requires step.Copied? ==> step.commit.entry == e && step.commit.dest == Dest(target, e, name)
                              && Backed(longer, lo, step.commit)
    requires step.Skipped? ==> Settled(longer, lo, |longer|, e, Dest(target, e, name))
    ensures CopiedSoFar(longer, lo, done, commits, target, name)
    ensures step.Copied? ==> CopiedSoFar(longer, lo, more, commits + [step.commit], target, name)
    ensures step.Skipped? ==> CopiedSoFar(longer, lo, more, commits, target, name)
  {
    CopyPhaseKeeps(log, longer, lo, done, commits, target, name);
    if step.Copied? {
      BackedIsSettled(longer, lo, step.commit, target, name);
    }
  }

  /** Copying entry after entry, each reading what the earlier ones left. */
  function CopyAll(view: View, entries: seq<Entry>, target: Binding, name: string): View {
    if entries == [] then view
    else
      var before := CopyAll(view, entries[..|entries| - 1], target, name);
      var e := entries[|entries| - 1];
      if e.Source() in before then before[Dest(target, e, name) := before[e.Source()]] else before
  }

  function Entries(commits: seq<Commit>): seq<Entry> {
    seq(|commits|, i requires 0 <= i < |commits| => commits[i].entry)
  }

  lemma CopyAllAdds(view: View, entries: seq<Entry>, i: nat, target: Binding, name: string)
    requires i < |entries|
    ensures entries[..i + 1] == entries[..i] + [entries[i]]
    ensures var before := CopyAll(view, entries[..i], target, name);
            var e := entries[i];
            e.Source() in before ==>
              CopyAll(view, entries[..i + 1], target, name) == before[Dest(target, e, name) := before[e.Source()]]
  {
  }

  /** Each source was there when it was read. */
  ghost predicate SourcesRead(view: View, entries: seq<Entry>, target: Binding, name: string) {
    forall k :: 0 <= k < |entries| ==> entries[k].Source() in CopyAll(view, entries[..k], target, name)
  }

  lemma SourcesReadAdds(view: View, entries: seq<Entry>, i: nat, target: Binding, name: string)
    requires i < |entries| && SourcesRead(view, entries[..i], target, name)
    requires entries[i].Source() in CopyAll(view, entries[..i], target, name)
    ensures SourcesRead(view, entries[..i + 1], target, name)
  {
    var more := entries[..i + 1];
    forall k | 0 <= k < |more| ensures more[k].Source() in CopyAll(view, more[..k], target, name) {
      assert more[..k] == entries[..k] && (k < i ==> entries[..i][..k] == entries[..k] && entries[..i][k] == entries[k]);
    }
  }

  /** Without skips and interference, the contents are those of copying the entries done so far. */
  ghost predicate CopiedQuietly(log: seq<Event>, lo: nat, view: View, contents: View, done: seq<Entry>, commits: seq<Commit>,
                                skipped: nat, target: Binding, name: string) {
    skipped == 0 && NoneOutside(log, lo) ==>
      Entries(commits) == done && contents == CopyAll(view, done, target, name) && SourcesRead(view, done, target, name)
  }

  lemma EntriesAdd(commits: seq<Commit>, c: Commit)
    ensures Entries(commits + [c]) == Entries(commits) + [c.entry]
  {
  }

  lemma CopyQuietAdds(log: seq<Event>, longer: seq<Event>, lo: nat, view: View, contents: View, after: View, entries: seq<Entry>,
                      i: nat, commits: seq<Commit>, c: Commit, skipped: nat, target: Binding, name: string)
    requires lo <= |log| && log <= longer && i < |entries| && c.entry == entries[i]
    requires CopiedQuietly(log, lo, view, contents, entries[..i], commits, skipped, target, name)
    requires NoneOutside(longer, |log|) ==>
               c.entry.Source() in contents && after == contents[Dest(target, c.entry, name) := contents[c.entry.Source()]]
    ensures CopiedQuietly(longer, lo, view, after, entries[..i + 1], commits + [c], skipped, target, name)
  {
    CopyAllAdds(view, entries, i, target, name);
    EntriesAdd(commits, c);
    if NoneOutside(longer, lo) {
      QuietParts(log[..lo], log, longer);
      if skipped == 0 { SourcesReadAdds(view, entries, i, target, name); }
    }
  }

  /** The state of the copy loop before entry `i`. */
  ghost predicate CopyState(log: seq<Event>, lo: nat, view: View, contents: View, entries: seq<Entry>, i: nat, commits: seq<Commit>,
                            skipped: nat, target: Binding, name: string)
    requires i <= |entries|
  {
    && CopiedSoFar(log, lo, entries[..i], commits, target, name)
    && |commits| + skipped == i
    && CopiedQuietly(log, lo, view, contents, entries[..i], commits, skipped, target, name)
  }

  lemma CopyStateAdds(log: seq<Event>, longer: seq<Event>, lo: nat, view: View, contents: View, after: View, entries: seq<Entry>,
                      i: nat, commits: seq<Commit>, step: Step, skipped: nat, target: Binding, name: string)
    requires lo <= |log| && log <= longer && i < |entries|
    requires CopyState(log, lo, view, contents, entries, i, commits, skipped, target, name)
    requires NoRemovals(longer, |log|) && StoresJustified(longer, lo, |log|)
    requires step.Copied? ==> step.commit.entry == entries[i] && step.commit.dest == Dest(target, entries[i], name)
                              && Backed(longer, lo, step.commit)
    requires step.Skipped? ==> Settled(longer, lo, |longer|, entries[i], Dest(target, entries[i], name))
    requires step.Copied? && NoneOutside(longer, |log|) ==>
               entries[i].Source() in contents && after == contents[Dest(target, entries[i], name) := contents[entries[i].Source()]]
    ensures NoRemovals(longer, lo) && StoresJustified(longer, lo, lo)
    ensures step.Copied? ==> CopyState(longer, lo, view, after, entries, i + 1, commits + [step.commit], skipped, target, name)
    ensures step.Skipped? ==> CopyState(longer, lo, view, after, entries, i + 1, commits, skipped + 1, target, name)
  {
    assert entries[..i + 1] == entries[..i] + [entries[i]];
    CopyPhaseAdds(log, longer, lo, entries[..i], commits, entries[..i + 1], entries[i], step, target, name);
    if step.Copied? {
      CopyQuietAdds(log, longer, lo, view, contents, after, entries, i, commits, step.commit, skipped, target, name);
    }
  }

  /** Objects that can be read, at places that are copied over by none of them. */
  ghost predicate Runnable(store: Store, entries: seq<Entry>, target: Binding, name: string) {
    && (forall e :: e in entries ==> e.key != "" && Readable(store, e.Source()))
    && (forall e, f :: e in entries && f in entries ==> Dest(target, e, name) != f.Source())
    && (forall i, j :: 0 <= i < j < |entries| ==>
          entries[i].Source() != entries[j].Source() && Dest(target, entries[i], name) != Dest(target, entries[j], name))
  }

  ghost predicate SourcesKept(was: Store, store: Store, entries: seq<Entry>) {
    forall e :: e in entries ==> e.Source() in was && e.Source() in store && store[e.Source()] == was[e.Source()]
  }

  /** Source and copy of every commit are in place, and no commit stands in the way of another. */
  ghost predicate AllInPlace(store: Store, commits: seq<Commit>) {
    && (forall c :: c in commits ==> SourceInPlace(store, c) && CopyInPlace(store, c))
    && (forall c, d :: c in commits && d in commits ==> c.dest != d.entry.Source())
    && (forall i, j :: 0 <= i < j < |commits| ==> commits[i].entry.Source() != commits[j].entry.Source())
  }

  lemma InPlaceAdds(was: Store, before: Store, after: Store, entries: seq<Entry>, i: nat, commits: seq<Commit>, step: Step,
                    target: Binding, name: string)
    requires i < |entries| && Runnable(was, entries, target, name) && SourcesKept(was, before, entries)
    requires forall c :: c in commits ==> c.entry in entries[..i] && c.dest == Dest(target, c.entry, name)
    requires AllInPlace(before, commits) && CopiedSmoothly(before, after, entries[i], Dest(target, entries[i], name), step)
    requires step.Copied? ==> step.commit.entry == entries[i] && step.commit.dest == Dest(target, entries[i], name)
    ensures !step.Aborted? ==> SourcesKept(was, after, entries)
    ensures step.Copied? ==> AllInPlace(after, commits + [step.commit])
    ensures step.Skipped? ==> AllInPlace(after, commits)
  {
    var e := entries[i];
    assert e in entries;
    forall c | c in commits
      ensures c.entry in entries && c.entry.Source() != e.Source() && c.dest != Dest(target, e, name)
      ensures c.dest != e.Source() && Dest(target, e, name) != c.entry.Source()
    {
      var k :| 0 <= k < i && entries[..i][k] == c.entry;
      assert entries[k] == c.entry;
    }
  }

  /** The state of an undisturbed copy loop on runnable entries. */
  ghost predicate SmoothState(log: seq<Event>, lo: nat, was: Store, store: Store, entries: seq<Entry>, commits: seq<Commit>,
                              target: Binding, name: string) {
    Smooth(log, lo) && Runnable(was, entries, target, name) ==> SourcesKept(was, store, entries) && AllInPlace(store, commits)
  }

  lemma SmoothStateAdds(log: seq<Event>, longer: seq<Event>, lo: nat, was: Store, before: Store, after: Store, entries: seq<Entry>,
                        i: nat, commits: seq<Commit>, step: Step, target: Binding, name: string)
    requires lo <= |log| && log <= longer && i < |entries|
    requires SmoothState(log, lo, was, before, entries, commits, target, name)
    requires forall c :: c in commits ==> c.entry in entries[..i] && c.dest == Dest(target, c.entry, name)
    requires Smooth(longer, |log|) ==>
               CopiedSmoothly(before, after, entries[i], Dest(target, entries[i], name), step)
               && (step.Aborted? ==> Cancelled(longer, |log|) || !Readable(before, entries[i].Source()))
    requires step.Copied? ==> step.commit.entry == entries[i] && step.commit.dest == Dest(target, entries[i], name)
    ensures step.Copied? ==> SmoothState(longer, lo, was, after, entries, commits + [step.commit], target, name)
    ensures step.Skipped? ==> SmoothState(longer, lo, was, after, entries, commits, target, name)
    ensures step.Aborted? && Smooth(longer, lo) && Runnable(was, entries, target, name) ==> Cancelled(longer, lo)
  {
    if Smooth(longer, lo) && Runnable(was, entries, target, name) {
      SmoothParts(log[..lo], log, longer);
      InPlaceAdds(was, before, after, entries, i, commits, step, target, name);
      assert entries[i] in entries;
    }
  }

  method CopyPhase(remote: Remote, entries: seq<Entry>, target: Binding, name: string)
    returns (ok: bool, commits: seq<Commit>, skipped: nat)
    requires remote.Valid()
    modifies remote
    ensures remote.Valid() && old(remote.log) <= remote.log
    ensures NoRemovals(remote.log, |old(remote.log)|)
            && StoresJustified(remote.log, |old(remote.log)|, |old(remote.log)|)
    ensures ok ==> CopiedSoFar(remote.log, |old(remote.log)|, entries, commits, target, name)
                   && |commits| + skipped == |entries|
    // A run that fails may have made one more copy than it knows of, whose answer was lost.
    ensures CopiesTold(Tallied(remote.log, |old(remote.log)|), |commits|, skipped, ok)
    ensures ok && skipped == 0 && NoneOutside(remote.log, |old(remote.log)|) ==>
              Entries(commits) == entries
              && Contents(remote.store) == CopyAll(Contents(old(remote.store)), entries, target, name)
              && SourcesRead(Contents(old(remote.store)), entries, target, name)
    ensures Smooth(remote.log, |old(remote.log)|) && Runnable(old(remote.store), entries, target, name) ==>
              (ok || Cancelled(remote.log, |old(remote.log)|)) && (ok ==> AllInPlace(remote.store, commits))
  {
    ghost var lo := |remote.log|;
    ghost var was := remote.store;
    ghost var view := Contents(remote.store);
    commits, skipped := [], 0;
    UncountedTally(remote.log, lo);
    for i := 0 to |entries|
      invariant remote.Valid() && old(remote.log) <= remote.log
      invariant CopyState(remote.log, lo, view, Contents(remote.store), entries, i, commits, skipped, target, name)
      invariant Tallied(remote.log, lo) == Tally(|commits|, 0, skipped)
      invariant SmoothState(remote.log, lo, was, remote.store, entries, commits, target, name)
    {
      ghost var before := remote.log;
      ghost var store := remote.store;
      ghost var contents := Contents(store);
      var step := CopyEntry(remote, entries[i], target, name, lo);
      CopyStateAdds(before, remote.log, lo, view, contents, Contents(remote.store), entries, i, commits, step, skipped, target, name);
      CopiedTally(before, remote.log, lo, |commits|, skipped, step);
      SmoothStateAdds(before, remote.log, lo, was, store, remote.store, entries, i, commits, step, target, name);
      if step.Aborted? { return false, commits, skipped; }
      if step.Copied? {
        commits := commits + [step.commit];
      } else {
        skipped := skipped + 1;
      }
    }
    assert entries[..|entries|] == entries;
    return true, commits, skipped;
  }

  function Sources(entries: seq<Entry>): set<Loc> {
    set e | e in entries :: e.Source()
  }

  lemma RemovalsStay(log: seq<Event>, longer: seq<Event>, lo: nat, start: nat, entries: seq<Entry>, target: Binding, name: string)
    requires log <= longer && RemovalsJustified(log, lo, start, entries, target, name)
    requires RemovalsJustified(longer, lo, |log|, entries, target, name)
    ensures RemovalsJustified(longer, lo, start, entries, target, name)
  {
    forall i | start <= i < |longer| && longer[i].Removed? ensures JustifiedRemoval(longer, lo, i, entries, target, name) {
      if i < |log| { RemovalStays(log, longer, lo, i, entries, target, name); }
    }
  }

  /** What the delete phase needs of the copy phase: everything settled, every commit backed. */
  ghost predicate ReadyToDelete(log: seq<Event>, lo: nat, entries: seq<Entry>, commits: seq<Commit>, target: Binding, name: string) {
    && AllSettled(log, lo, entries, target, name)
    && forall c :: c in commits ==> c.entry in entries && c.dest == Dest(target, c.entry, name) && Backed(log, lo, c)
  }

  lemma DeletePhaseKeeps(log: seq<Event>, longer: seq<Event>, lo: nat, start: nat, entries: seq<Entry>,
                         commits: seq<Commit>, target: Binding, name: string)
    requires log <= longer && start <= |log| && ReadyToDelete(log, lo, entries, commits, target, name)
    requires RemovalsJustified(log, lo, start, entries, target, name) && NoStores(log, start)
    requires RemovalsJustified(longer, lo, |log|, entries, target, name) && NoStores(longer, |log|)
    ensures ReadyToDelete(longer, lo, entries, commits, target, name)
    ensures RemovalsJustified(longer, lo, start, entries, target, name) && NoStores(longer, start)
  {
    RemovalsStay(log, longer, lo, start, entries, target, name);
    AllSettledStays(log, longer, lo, entries, target, name);
    forall c | c in commits ensures Backed(longer, lo, c) {
      BackedStays(log, longer, lo, c);
    }
    assert forall k :: 0 <= k < |log| ==> longer[k] == log[k];
  }

  lemma SourcesAdd(commits: seq<Commit>, i: nat)
    requires i < |commits|
    ensures Entries(commits[..i + 1]) == Entries(commits[..i]) + [commits[i].entry]
    ensures Sources(Entries(commits[..i + 1])) == Sources(Entries(commits[..i])) + {commits[i].entry.Source()}
  {
    assert Entries(commits[..i + 1]) == Entries(commits[..i]) + [commits[i].entry];
  }

  /** No source is deleted twice, and none is the destination of a later entry. */
  ghost predicate InTurn(entries: seq<Entry>, target: Binding, name: string) {
    forall j, k :: 0 <= j < k < |entries| ==>
      entries[k].Source() != entries[j].Source() && Dest(target, entries[k], name) != entries[j].Source()
  }

  lemma InTurnAdds(entries: seq<Entry>, e: Entry, target: Binding, name: string)
    requires InTurn(entries, target, name) && e.Source() !in Sources(entries) && Dest(target, e, name) !in Sources(entries)
    ensures InTurn(entries + [e], target, name)
  {
    forall j | 0 <= j < |entries| ensures entries[j].Source() in Sources(entries) {
      assert entries[j] in entries;
    }
  }

  /** The state of the delete loop before commit `i`. */
  ghost predicate DeleteState(log: seq<Event>, lo: nat, start: seq<Event>, was: Store, store: Store, entries: seq<Entry>,
                              commits: seq<Commit>, i: nat, target: Binding, name: string)
    requires i <= |commits|
  {
    && start <= log && ReadyToDelete(log, lo, entries, commits, target, name)
    && RemovalsJustified(log, lo, |start|, entries, target, name) && NoStores(log, |start|)
    && (NoneOutside(log, |start|) ==>
          store == was - Sources(Entries(commits[..i])) && InTurn(Entries(commits[..i]), target, name))
  }

  lemma DeleteStateAdds(log: seq<Event>, longer: seq<Event>, lo: nat, start: seq<Event>, was: Store, store: Store, after: Store,
                        entries: seq<Entry>, commits: seq<Commit>, i: nat, done: bool, target: Binding, name: string)
    requires i < |commits| && log <= longer
    requires DeleteState(log, lo, start, was, store, entries, commits, i, target, name)
    requires RemovalsJustified(longer, lo, |log|, entries, target, name) && NoStores(longer, |log|)
    requires done && NoneOutside(longer, |log|) ==>
               commits[i].entry.Source() in store && commits[i].dest in store && after == store - {commits[i].entry.Source()}
    ensures RemovalsJustified(longer, lo, |start|, entries, target, name) && NoStores(longer, |start|)
    ensures done ==> DeleteState(longer, lo, start, was, after, entries, commits, i + 1, target, name)
  {
    DeletePhaseKeeps(log, longer, lo, |start|, entries, commits, target, name);
    SourcesAdd(commits, i);
    if NoneOutside(longer, |start|) {
      QuietParts(start, log, longer);
      assert commits[i] in commits;
      if done { InTurnAdds(Entries(commits[..i]), commits[i].entry, target, name); }
    }
  }

  /** Undisturbed, earlier deletions leave source and copy of the next commit in place. */
  lemma StillInPlace(start: seq<Event>, before: seq<Event>, log: seq<Event>, was: Store, store: Store, commits: seq<Commit>, i: nat)
    requires start <= before <= log && i < |commits|
    requires NoneOutside(before, |start|) ==> store == was - Sources(Entries(commits[..i]))
    ensures Smooth(log, |start|) && AllInPlace(was, commits) ==>
              Smooth(log, |before|) && SourceInPlace(store, commits[i]) && CopyInPlace(store, commits[i])
  {
    if Smooth(log, |start|) && AllInPlace(was, commits) {
      SmoothParts(start, before, log);
      var gone := Entries(commits[..i]);
      forall e | e in gone ensures e.Source() != commits[i].entry.Source() && e.Source() != commits[i].dest {
        var k :| 0 <= k < |gone| && gone[k] == e;
        assert commits[..i][k] == commits[k] && commits[k] in commits && commits[i] in commits;
      }
      assert NoneOutside(before, |start|) && commits[i] in commits;
      assert commits[i].entry.Source() !in Sources(gone) && commits[i].dest !in Sources(gone);
    }
  }

  /** One more deletion, or one that may have been made. */
  lemma DeletedTally(start: seq<Event>, before: seq<Event>, log: seq<Event>, i: nat, done: bool)
    requires start <= before <= log && Tallied(before, |start|) == Tally(0, i, 0)
    requires RemovalsTold(Tallied(log, |before|), if done then 1 else 0, done)
    ensures RemovalsTold(Tallied(log, |start|), if done then i + 1 else i, done)
  {
    TallyAdds(before, log, |start|);
  }

  method DeletePhase(remote: Remote, commits: seq<Commit>, target: Binding, name: string,
                     ghost lo: nat, ghost entries: seq<Entry>)
    returns (ok: bool, deleted: nat)
    requires remote.Valid() && lo <= |remote.log| && ReadyToDelete(remote.log, lo, entries, commits, target, name)
    modifies remote
    ensures remote.Valid() && old(remote.log) <= remote.log && NoStores(remote.log, |old(remote.log)|)
    ensures RemovalsJustified(remote.log, lo, |old(remote.log)|, entries, target, name)
    // A run that fails may have made one more deletion than it knows of.
    ensures RemovalsTold(Tallied(remote.log, |old(remote.log)|), deleted, ok)
    ensures ok ==> deleted == |commits|
    ensures ok && NoneOutside(remote.log, |old(remote.log)|) ==>
              remote.store == old(remote.store) - Sources(Entries(commits)) && InTurn(Entries(commits), target, name)
    ensures Smooth(remote.log, |old(remote.log)|) && AllInPlace(old(remote.store), commits) ==> ok
  {
    ghost var start := remote.log;
    ghost var was := remote.store;
    deleted := 0;
    assert Sources(Entries(commits[..0])) == {};
    UncountedTally(start, |start|);
    for i := 0 to |commits|
      invariant remote.Valid() && deleted == i
      invariant DeleteState(remote.log, lo, start, was, remote.store, entries, commits, i, target, name)
      invariant Tallied(remote.log, |start|) == Tally(0, i, 0)
    {
      ghost var before := remote.log;
      ghost var store := remote.store;
      assert commits[i] in commits;
      var done, _, _ := RemoveSource(remote, commits[i], target, name, lo, entries);
      DeleteStateAdds(before, remote.log, lo, start, was, store, remote.store, entries, commits, i, done, target, name);
      DeletedTally(start, before, remote.log, i, done);
      StillInPlace(start, before, remote.log, was, store, commits, i);
      if !done { return false, deleted; }
      deleted := deleted + 1;
    }
    assert commits[..|commits|] == commits;
    return true, deleted;
  }

  datatype Mode = CopyMode | MoveMode

  /** What the caller learns: success, or an error that reports how far the run got. */
  datatype Report = Done(copied: nat, deleted: nat, skipped: nat) | Error(copied: nat, deleted: nat, skipped: nat)

  function LastSegment(s: string): string {
    s[ParentLength(s)..]
  }

  /** The item would be copied onto itself or into its own folder. */
  predicate SelfCopy(address: Address, node: Node, target: Binding, name: string) {
    && address == target.Address()
    && var last := if name != "" then name else LastSegment(DropSlash(node.path));
       || target.node.path + last + (if node.kind.Folder? then "/" else "") == node.path
       || (node.kind.Folder? && node.path <= target.node.path)
  }

  /** The last node whose profile was read would be copied into itself. */
  predicate RefusedLast(addresses: seq<Address>, nodes: seq<Node>, target: Binding, name: string) {
    0 < |addresses| <= |nodes| && SelfCopy(addresses[|addresses| - 1], nodes[|addresses| - 1], target, name)
  }

  /** Reads every selected node's profile and refuses an item copied into itself; `addresses` is what it read. */
  method CheckSelfCopies(nodes: seq<Node>, target: Binding, name: string)
    returns (ok: bool, addresses: seq<Address>, ghost trouble: bool)
    // Unless a profile cannot be read, only a self-copy at the address just read is refused.
    ensures !ok && !trouble ==> RefusedLast(addresses, nodes, target, name)
    ensures ok ==> |addresses| == |nodes| && forall i :: 0 <= i < |nodes| ==> !SelfCopy(addresses[i], nodes[i], target, name)
  {
    addresses := [];
    for i := 0 to |nodes|
      invariant |addresses| == i && forall j :: 0 <= j < i ==> !SelfCopy(addresses[j], nodes[j], target, name)
    {
      var profile := GetProfile(nodes[i].profileId);
      if profile.Failed? { return false, addresses, true; }
      var address := AddressOf(profile.value.endpoint, profile.value.bucket);
      if SelfCopy(address, nodes[i], target, name) { return false, addresses + [address], false; }
      addresses := addresses + [address];
    }
    return true, addresses, false;
  }

  lemma NothingDone(log: seq<Event>, lo: nat, entries: seq<Entry>, target: Binding, name: string)
    requires NoWrites(log, lo)
    ensures Safe(log, lo, entries, target, name)
  {
  }

  /** The writes of a run since `lo` are all justified. */
  ghost predicate Safe(log: seq<Event>, lo: nat, entries: seq<Entry>, target: Binding, name: string) {
    // No destination is replaced other than the version the overwrite question was asked about.
    && StoresJustified(log, lo, lo)
    // No source is deleted before everything is copied, or unless it and its copy are unchanged.
    && RemovalsJustified(log, lo, lo, entries, target, name)
  }

  lemma PhasesCombine(copied: seq<Event>, log: seq<Event>, lo: nat, entries: seq<Entry>, target: Binding, name: string)
    requires copied <= log && lo <= |copied| && NoRemovals(copied, lo) && StoresJustified(copied, lo, lo)
    requires NoStores(log, |copied|) && RemovalsJustified(log, lo, |copied|, entries, target, name)
    ensures Safe(log, lo, entries, target, name)
  {
    StoresStay(copied, log, lo, lo);
  }

  /** The delete phase of a move, with what both phases together have done. */
  method FinishMove(remote: Remote, entries: seq<Entry>, commits: seq<Commit>, target: Binding, name: string, ghost lo: nat)
    returns (ok: bool, deleted: nat)
    requires remote.Valid() && lo <= |remote.log|
    requires CopiedSoFar(remote.log, lo, entries, commits, target, name)
    modifies remote
    ensures remote.Valid() && old(remote.log) <= remote.log && Safe(remote.log, lo, entries, target, name)
    ensures RemovalsTold(Tallied(remote.log, |old(remote.log)|), deleted, ok)
    ensures ok ==> deleted == |commits|
    ensures ok && NoneOutside(remote.log, |old(remote.log)|) ==>
              remote.store == old(remote.store) - Sources(Entries(commits)) && InTurn(Entries(commits), target, name)
    ensures Smooth(remote.log, |old(remote.log)|) && AllInPlace(old(remote.store), commits) ==> ok
  {
    ghost var copied := remote.log;
    ok, deleted := DeletePhase(remote, commits, target, name, lo, entries);
    PhasesCombine(copied, remote.log, lo, entries, target, name);
  }

  /** The outcome of a run that nobody interfered with: every source's object at its destination, and for a
      move no source left. */
  function Expected(view: View, entries: seq<Entry>, target: Binding, mode: Mode, name: string): View {
    CopyAll(view, entries, target, name) - if mode == MoveMode then Sources(entries) else {}
  }

  /** What a run comes to that ends well with nothing skipped and nobody interfering: the expected contents, from
      sources that were there, and for a move with every deletion in turn. */
  ghost predicate Outcome(before: View, after: View, entries: seq<Entry>, target: Binding, mode: Mode, name: string) {
    && after == Expected(before, entries, target, mode, name) && SourcesRead(before, entries, target, name)
    && (mode == MoveMode ==> InTurn(entries, target, name))
  }

  lemma CopyingIsSafe(log: seq<Event>, lo: nat, entries: seq<Entry>, target: Binding, name: string)
    requires NoRemovals(log, lo) && StoresJustified(log, lo, lo)
    ensures Safe(log, lo, entries, target, name)
  {
  }

  /** The report counts what was done; after an error, all but one copy or deletion whose answer was lost. */
  predicate Reports(r: Report, done: Tally) {
    var told := Tally(r.copied, r.deleted, r.skipped);
    || done == told
    || (r.Error? && r.deleted == 0 && done == Sum(told, Tally(1, 0, 0)))
    || (r.Error? && done == Sum(told, Tally(0, 1, 0)))
  }

  lemma MoveReports(start: seq<Event>, middle: seq<Event>, log: seq<Event>, copied: nat, skipped: nat, deleted: nat, done: bool)
    requires start <= middle <= log && CopiesTold(Tallied(middle, |start|), copied, skipped, true)
    requires RemovalsTold(Tallied(log, |middle|), deleted, done)
    ensures Reports(if done then Done(copied, deleted, skipped) else Error(copied, deleted, skipped), Tallied(log, |start|))
  {
    TallyAdds(middle, log, |start|);
  }

  lemma MoveOutcome(view: View, copied: Store, after: Store, entries: seq<Entry>, commits: seq<Commit>, target: Binding, name: string)
    requires Entries(commits) == entries && Contents(copied) == CopyAll(view, entries, target, name)
    requires SourcesRead(view, entries, target, name) && InTurn(Entries(commits), target, name)
    requires after == copied - Sources(Entries(commits))
    ensures Outcome(view, Contents(after), entries, target, MoveMode, name)
  {
  }

  /** Copies or moves planned entries to a bound target folder. */
  method Execute(remote: Remote, entries: seq<Entry>, target: Binding, mode: Mode, name: string) returns (r: Report)
    requires remote.Valid()
    modifies remote
    ensures remote.Valid() && old(remote.log) <= remote.log && Safe(remote.log, |old(remote.log)|, entries, target, name)
    ensures mode == CopyMode ==> NoRemovals(remote.log, |old(remote.log)|)
    ensures Reports(r, Tallied(remote.log, |old(remote.log)|))
    ensures r.Done? ==> r.copied + r.skipped == |entries| && r.deleted == if mode == MoveMode then r.copied else 0
    ensures r.Done? && r.skipped == 0 && NoneOutside(remote.log, |old(remote.log)|) ==>
              Outcome(Contents(old(remote.store)), Contents(remote.store), entries, target, mode, name)
    // Undisturbed, entries that are there and do not stand in each other's way all go through.
    ensures Smooth(remote.log, |old(remote.log)|) && Runnable(old(remote.store), entries, target, name) ==>
              r.Done? || Cancelled(remote.log, |old(remote.log)|)
  {
    var ok, commits, skipped := CopyPhase(remote, entries, target, name);
    CopyingIsSafe(remote.log, |old(remote.log)|, entries, target, name);
    if !ok || mode == CopyMode {
      return if ok then Done(|commits|, 0, skipped) else Error(|commits|, 0, skipped);
    }
    ghost var copied, store := remote.log, remote.store;
    var done, deleted := FinishMove(remote, entries, commits, target, name, |old(remote.log)|);
    MoveReports(old(remote.log), copied, remote.log, |commits|, skipped, deleted, done);
    if Smooth(remote.log, |old(remote.log)|) { SmoothParts(old(remote.log), copied, remote.log); }
    if done && skipped == 0 && NoneOutside(remote.log, |old(remote.log)|) {
      QuietParts(old(remote.log), copied, remote.log);
      MoveOutcome(Contents(old(remote.store)), store, remote.store, entries, commits, target, name);
    }
    return if done then Done(|commits|, deleted, skipped) else Error(|commits|, deleted, skipped);
  }

  /** A safe run stays safe when the reads that planned it are counted in. */
  lemma SafeEarlier(planned: seq<Event>, log: seq<Event>, lo: nat, entries: seq<Entry>, target: Binding, name: string)
    requires lo <= |planned| && planned <= log && NoWrites(planned, lo)
    requires Safe(log, |planned|, entries, target, name)
    ensures Safe(log, lo, entries, target, name)
    ensures NoRemovals(log, |planned|) ==> NoRemovals(log, lo)
  {
  }

  /** Binds the target and refuses what cannot be copied there, before any request. */
  method Admit(nodes: seq<Node>, folder: Node, name: string, server: string -> string)
    returns (ok: bool, target: Binding, addresses: seq<Address>, ghost trouble: bool)
    ensures !ok && !trouble ==>
              !folder.kind.Folder? || SelectedNodes(nodes).Failed?
              || RefusedLast(addresses, SelectedNodes(nodes).value, target, name)
    ensures ok ==> target.node == folder && folder.kind.Folder? && target.server == server(target.identity.endpoint)
    ensures ok ==> SelectedNodes(nodes).Ok?
                   && var selected := SelectedNodes(nodes).value;
                      |addresses| == |selected|
                      && forall i :: 0 <= i < |selected| ==> !SelfCopy(addresses[i], selected[i], target, name)
  {
    target, addresses := Binding(folder, Identity("", "", "", false), ""), [];
    var destination, _ := Bind(folder, server);
    if destination.Failed? || !folder.kind.Folder? { return false, target, addresses, destination.Failed?; }
    target := destination.value;
    var selection := SelectedNodes(nodes);
    if selection.Failed? { return false, target, addresses, false; }
    ok, addresses, trouble := CheckSelfCopies(selection.value, target, name);
  }

  /** A run that has sent nothing. */
  ghost method NotBegun(remote: Remote, trouble: bool, entries: seq<Entry>, target: Binding, name: string)
    requires remote.Valid()
    modifies remote`log
    ensures remote.Valid() && old(remote.log) <= remote.log && Safe(remote.log, |old(remote.log)|, entries, target, name)
    ensures NoRemovals(remote.log, |old(remote.log)|) && Tallied(remote.log, |old(remote.log)|) == Tally(0, 0, 0)
    ensures Smooth(remote.log, |old(remote.log)|) ==> !trouble
  {
    ghost var start := remote.log;
    if trouble {
      remote.Note();
      assert remote.log[|start|].Trouble?;
    }
    NothingDone(remote.log, |start|, entries, target, name);
    UncountedTally(remote.log, |start|);
  }

  /** Plans the selection, then copies or moves what was planned. */
  method PlanAndExecute(remote: Remote, nodes: seq<Node>, target: Binding, mode: Mode, name: string, listings: map<Loc, Pages>)
    returns (r: Report, bound: seq<Binding>, entries: seq<Entry>)
    requires remote.Valid()
    modifies remote
    ensures remote.Valid() && old(remote.log) <= remote.log && Safe(remote.log, |old(remote.log)|, entries, target, name)
    ensures mode == CopyMode ==> NoRemovals(remote.log, |old(remote.log)|)
    ensures Reports(r, Tallied(remote.log, |old(remote.log)|))
    ensures r.Done? ==> SelectedNodes(nodes).Ok? && BoundTo(bound, SelectedNodes(nodes).value, remote.server)
    ensures r.Done? ==> DistinctRelatives(entries) && Planned(entries, bound)
                        && forall b :: b in bound && b.node.kind.Folder? ==> EndsInSlash(b.node.path)
    ensures r.Done? ==> r.copied + r.skipped == |entries| && r.deleted == if mode == MoveMode then r.copied else 0
    ensures r.Done? && NoneOutside(remote.log, |old(remote.log)|) ==>
              forall b :: b in bound && Complete(listings, old(remote.store), b) ==> Exact(entries, old(remote.store), b)
    ensures r.Done? && r.skipped == 0 && NoneOutside(remote.log, |old(remote.log)|) ==>
              Outcome(Contents(old(remote.store)), Contents(remote.store), entries, target, mode, name)
    ensures r.Error? && Smooth(remote.log, |old(remote.log)|) ==>
              SelectedNodes(nodes).Failed? || (exists es :: Unplannable(listings, old(remote.store), bound, es))
              || Cancelled(remote.log, |old(remote.log)|) || !Runnable(old(remote.store), entries, target, name)
  {
    entries := [];
    ghost var start := remote.log;
    var plan;
    plan, bound := Plan(remote, nodes, listings);
    ghost var planned := remote.log;
    NothingDone(planned, |start|, entries, target, name);
    UncountedTally(planned, |start|);
    if plan.Failed? { return Error(0, 0, 0), bound, entries; }
    entries := plan.value;
    r := Execute(remote, entries, target, mode, name);
    SafeEarlier(planned, remote.log, |start|, entries, target, name);
    TallyAdds(planned, remote.log, |start|);
    if Smooth(remote.log, |start|) { SmoothParts(start, planned, remote.log); }
    if NoneOutside(remote.log, |start|) { QuietParts(start, planned, remote.log); }
  }

  /** The whole operation: self-copy check, plan, copy and, for a move, delete. */
  method Transfer(remote: Remote, nodes: seq<Node>, folder: Node, mode: Mode, name: string, listings: map<Loc, Pages>)
    returns (r: Report, target: Binding, addresses: seq<Address>, bound: seq<Binding>, entries: seq<Entry>)
    requires remote.Valid()
    modifies remote
    ensures remote.Valid() && old(remote.log) <= remote.log && Safe(remote.log, |old(remote.log)|, entries, target, name)
    ensures mode == CopyMode ==> NoRemovals(remote.log, |old(remote.log)|)
    ensures Reports(r, Tallied(remote.log, |old(remote.log)|))
    ensures r.Done? ==> target.node == folder && folder.kind.Folder? && target.server == remote.server(target.identity.endpoint)
                        && |addresses| == |bound| && BoundTo(bound, SelectedNodes(nodes).Or([]), remote.server)
                        && forall i :: 0 <= i < |addresses| ==> !SelfCopy(addresses[i], bound[i].node, target, name)
    ensures r.Done? ==> DistinctRelatives(entries) && Planned(entries, bound)
                        && forall b :: b in bound && b.node.kind.Folder? ==> EndsInSlash(b.node.path)
    ensures r.Done? ==> r.copied + r.skipped == |entries| && r.deleted == if mode == MoveMode then r.copied else 0
    ensures r.Done? && NoneOutside(remote.log, |old(remote.log)|) ==>
              forall b :: b in bound && Complete(listings, old(remote.store), b) ==> Exact(entries, old(remote.store), b)
    ensures r.Done? && r.skipped == 0 && NoneOutside(remote.log, |old(remote.log)|) ==>
              Outcome(Contents(old(remote.store)), Contents(remote.store), entries, target, mode, name)
    // Undisturbed and not cancelled, it fails for one of these reasons only.
    ensures r.Error? && Smooth(remote.log, |old(remote.log)|) && !Cancelled(remote.log, |old(remote.log)|) ==>
              || !folder.kind.Folder? || SelectedNodes(nodes).Failed?
              || RefusedLast(addresses, SelectedNodes(nodes).value, target, name)
              || (exists es :: Unplannable(listings, old(remote.store), bound, es))
              || !Runnable(old(remote.store), entries, target, name)
  {
    bound, entries := [], [];
    ghost var start := remote.log;
    var ok;
    ghost var trouble;
    ok, target, addresses, trouble := Admit(nodes, folder, name, remote.server);
    if !ok {
      NotBegun(remote, trouble, entries, target, name);
      return Error(0, 0, 0), target, addresses, bound, entries;
    }
    r, bound, entries := PlanAndExecute(remote, nodes, target, mode, name, listings);
  }
}
