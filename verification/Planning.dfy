/** Listing every object of a selection (plan in s3-transfers.js). */
module Planning {
  import opened Wrappers
  import opened ObjectStore
  import opened Profiles
  import opened Selection

  datatype Listed = Listed(key: string, size: nat)
  datatype Page = Page(files: seq<Listed>, next: string)

  /** One listing: the page answered to each request, by the number of the request and its continuation token; the
      first token is "".  The answers need not fit together: objects may come and go between requests. */
  type Pages = map<(nat, string), Page>

  datatype Entry = Entry(key: string, relative: string, binding: Binding) {
    function Source(): Loc { Loc(binding.Site(), key) }
  }

  const MAX_OBJECTS: nat := 10000

  /** The length of `s` up to and including its last slash. */
  function ParentLength(s: string): (n: nat)
    ensures n <= |s|
    ensures n == 0 || s[n - 1] == '/'
    ensures forall i :: n <= i < |s| ==> s[i] != '/'
  {
    if s == "" then 0 else if s[|s| - 1] == '/' then |s| else ParentLength(s[..|s| - 1])
  }

  /** The part of every key below `node` that is not carried over to the destination. */
  function Parent(node: Node): string {
    var base := if node.kind.Folder? && node.path != "" then node.path[..|node.path| - 1] else node.path;
    base[..ParentLength(base)]
  }

  predicate Under(node: Node, key: string) {
    node.path <= key && (node.kind.File? ==> key == node.path)
  }

  function MakeEntry(binding: Binding, key: string): Entry
    requires Under(binding.node, key)
  {
    Entry(key, key[|Parent(binding.node)|..], binding)
  }

  predicate Proper(e: Entry) {
    Under(e.binding.node, e.key) && e == MakeEntry(e.binding, e.key)
  }

  function Following(trail: seq<string>, i: nat, token: string): string {
    if i + 1 < |trail| then trail[i + 1] else token
  }

  /** Tokens already used, each naming the next one; `token` is the one to use now. */
  ghost predicate Walk(pages: Pages, trail: seq<string>, token: string) {
    && (forall i :: 0 <= i < |trail| ==> (i, trail[i]) in pages)
    && (forall i :: 0 <= i < |trail| ==> pages[(i, trail[i])].next == Following(trail, i, token))
    && (forall i :: 0 < i < |trail| ==> trail[i] != "")
    && (if trail == [] then token == "" else trail[0] == "")
  }

  /** The pages of one listing in order, from the first to the one that names no next page. */
  ghost predicate Chain(pages: Pages, order: seq<string>) {
    order != [] && Walk(pages, order, "")
  }

  lemma WalkExtends(pages: Pages, trail: seq<string>, token: string)
    requires Walk(pages, trail, token) && (|trail|, token) in pages && (trail == [] || token != "")
    ensures Walk(pages, trail + [token], pages[(|trail|, token)].next)
  {
    var longer, next := trail + [token], pages[(|trail|, token)].next;
    forall i | 0 <= i < |longer| ensures (i, longer[i]) in pages && pages[(i, longer[i])].next == Following(longer, i, next) {
      if i < |trail| { assert longer[i] == trail[i] && Following(trail, i, token) == longer[i + 1]; }
    }
  }

  /** A listing has one order. */
  lemma {:induction false} ChainIsUnique(pages: Pages, a: seq<string>, b: seq<string>, n: nat)
    requires Chain(pages, a) && Chain(pages, b) && n <= |a|
    ensures n <= |b| && a[..n] == b[..n] && (n == |a| ==> a == b)
  {
    if n > 0 {
      ChainIsUnique(pages, a, b, n - 1);
      if n > 1 {
        assert a[..n - 1][n - 2] == b[..n - 1][n - 2];
        assert pages[(n - 2, a[n - 2])].next == a[n - 1];
      }
      assert a[n - 1] == b[n - 1];
      if n == |a| {
        assert pages[(n - 1, a[n - 1])].next == "";
        assert Following(b, n - 1, "") == "";
      }
    }
  }

  ghost predicate ListedBy(pages: Pages, order: seq<string>, key: string) {
    exists i :: 0 <= i < |order| && (i, order[i]) in pages && NamesKey(pages[(i, order[i])].files, key)
  }

  /** A complete listing of the keys below the prefix, split over pages in any way. */
  ghost predicate Faithful(pages: Pages, store: Store, site: Site, prefix: string) {
    exists order :: Chain(pages, order) &&
                    forall key :: ListedBy(pages, order, key) <==> Loc(site, key) in store && prefix <= key
  }

  predicate HasKey(entries: seq<Entry>, binding: Binding, key: string) {
    exists e <- entries :: e.binding == binding && e.key == key
  }

  predicate NamesKey(files: seq<Listed>, key: string) {
    exists f <- files :: f.key == key
  }

  lemma HasKeyAppends(entries: seq<Entry>, more: seq<Entry>, binding: Binding, key: string)
    ensures HasKey(entries + more, binding, key) <==> HasKey(entries, binding, key) || HasKey(more, binding, key)
  {
  }

  lemma NamesKeyAppends(files: seq<Listed>, f: Listed, key: string)
    ensures NamesKey(files + [f], key) <==> NamesKey(files, key) || f.key == key
  {
  }

  /** The entries for a page of files, refusing foreign keys, large objects and, with the `count`
      entries there already are, more than 10,000 in all. */
  method AddAll(count: nat, binding: Binding, files: seq<Listed>) returns (r: Reply<seq<Entry>>)
    ensures r.Ok? ==> forall e :: e in r.value ==> Proper(e) && e.binding == binding
    ensures r.Ok? ==> forall key :: HasKey(r.value, binding, key) <==> NamesKey(files, key)
    ensures r.Ok? && count <= MAX_OBJECTS ==> count + |r.value| <= MAX_OBJECTS
    // It is refused only for these reasons.
    ensures r.Ok? <==> (forall f :: f in files ==> Under(binding.node, f.key) && f.size <= LIMIT)
                       && (files == [] || count + |files| <= MAX_OBJECTS)
    ensures r.Ok? ==> |r.value| == |files|
  {
    var added: seq<Entry> := [];
    for i := 0 to |files|
      invariant forall e :: e in added ==> Proper(e) && e.binding == binding
      invariant forall key :: HasKey(added, binding, key) <==> NamesKey(files[..i], key)
      invariant |added| == i && (i > 0 ==> count + i <= MAX_OBJECTS)
      invariant forall j :: 0 <= j < i ==> Under(binding.node, files[j].key) && files[j].size <= LIMIT
    {
      if !Under(binding.node, files[i].key) || files[i].size > LIMIT { return Failed; }
      var entry := MakeEntry(binding, files[i].key);
      assert files[..i + 1] == files[..i] + [files[i]];
      forall key ensures HasKey(added + [entry], binding, key) <==> NamesKey(files[..i] + [files[i]], key) {
        HasKeyAppends(added, [entry], binding, key);
        NamesKeyAppends(files[..i], files[i], key);
      }
      added := added + [entry];
      if count + |added| > MAX_OBJECTS { return Failed; }
    }
    assert files[..|files|] == files;
    return Ok(added);
  }

  lemma ListedByAppends(pages: Pages, trail: seq<string>, token: string, key: string)
    requires (|trail|, token) in pages
    ensures ListedBy(pages, trail + [token], key) <==>
            ListedBy(pages, trail, key) || NamesKey(pages[(|trail|, token)].files, key)
  {
    var longer := trail + [token];
    if ListedBy(pages, trail, key) {
      var i :| 0 <= i < |trail| && (i, trail[i]) in pages && NamesKey(pages[(i, trail[i])].files, key);
      assert longer[i] == trail[i];
    }
    if NamesKey(pages[(|trail|, token)].files, key) { assert longer[|trail|] == token; }
  }

  lemma PageStep(pages: Pages, trail: seq<string>, token: string, binding: Binding,
                 added: seq<Entry>, more: seq<Entry>)
    requires (|trail|, token) in pages
    requires forall key :: HasKey(added, binding, key) <==> ListedBy(pages, trail, key)
    requires forall key :: HasKey(more, binding, key) <==> NamesKey(pages[(|trail|, token)].files, key)
    ensures forall key :: HasKey(added + more, binding, key) <==> ListedBy(pages, trail + [token], key)
  {
    forall key ensures HasKey(added + more, binding, key) <==> ListedBy(pages, trail + [token], key) {
      HasKeyAppends(added, more, binding, key);
      ListedByAppends(pages, trail, token, key);
    }
  }

  /** The answers to the requests from number `n` on. */
  ghost function Remaining(pages: Pages, n: nat): set<(nat, string)> { set k | k in pages && n <= k.0 }

  lemma RemainingShrinks(pages: Pages, n: nat, token: string)
    requires (n, token) in pages
    ensures |Remaining(pages, n + 1)| < |Remaining(pages, n)|
  {
    var fewer, more := Remaining(pages, n + 1), Remaining(pages, n);
    assert fewer <= more - {(n, token)};
    SubsetSize(fewer, more - {(n, token)});
  }

  lemma {:induction false} SubsetSize<T>(a: set<T>, b: set<T>)
    requires a <= b
    ensures |a| <= |b|
  {
    assert a + (b - a) == b;
  }

  predicate NoRepeats(trail: seq<string>) {
    forall i, j | 0 <= i < j < |trail| :: trail[i] != trail[j]
  }

  /** `seen` has every token used so far but the first, and no token was used twice. */
  ghost predicate Tracked(seen: set<string>, trail: seq<string>, token: string) {
    && NoRepeats(trail + [token]) && (forall t :: t in trail + [token] ==> t in seen || t == "")
    && (forall t :: t in seen ==> t in trail + [token])
  }

  lemma TrackedNext(seen: set<string>, trail: seq<string>, token: string, next: string)
    requires Tracked(seen, trail, token)
    ensures NoRepeats(trail + [token])
    ensures next != "" && next !in seen ==> Tracked(seen + {next}, trail + [token], next)
  {
  }

  /** How many files these pages hold. */
  function FilesIn(pages: Pages, order: seq<string>): nat
    requires forall i :: 0 <= i < |order| ==> (i, order[i]) in pages
  {
    if order == [] then 0
    else
      var n := |order| - 1;
      assert forall i :: 0 <= i < n ==> order[..n][i] == order[i];
      FilesIn(pages, order[..n]) + |pages[(n, order[n])].files|
  }

  /** A complete listing with which nothing is wrong. */
  ghost predicate Plain(pages: Pages, b: Binding, order: seq<string>) {
    && Chain(pages, order) && NoRepeats(order)
    && forall i, f :: 0 <= i < |order| && f in pages[(i, order[i])].files ==> Under(b.node, f.key) && f.size <= LIMIT
  }

  lemma {:induction false} FilesOfPrefix(pages: Pages, order: seq<string>, n: nat)
    requires n <= |order| && forall i :: 0 <= i < |order| ==> (i, order[i]) in pages
    ensures FilesIn(pages, order[..n]) <= FilesIn(pages, order)
    decreases |order|
  {
    if n < |order| {
      var m := |order| - 1;
      assert order[..m][..n] == order[..n];
      FilesOfPrefix(pages, order[..m], n);
    } else {
      assert order[..n] == order;
    }
  }

  function NextAt(trail: seq<string>, token: string, n: nat): string {
    if n < |trail| then trail[n] else token
  }

  /** Reading a listing from the start runs along its order. */
  lemma {:induction false} AlongOrder(pages: Pages, order: seq<string>, trail: seq<string>, token: string, n: nat)
    requires Chain(pages, order) && Walk(pages, trail, token) && (trail == [] || token != "") && n <= |trail|
    ensures n < |order| && order[n] == NextAt(trail, token, n)
  {
    if n > 0 {
      AlongOrder(pages, order, trail, token, n - 1);
      assert pages[(n - 1, trail[n - 1])].next == Following(trail, n - 1, token);
      assert pages[(n - 1, order[n - 1])].next == Following(order, n - 1, "");
    }
  }

  lemma OrderStarts(pages: Pages, order: seq<string>, trail: seq<string>, token: string)
    requires Chain(pages, order) && Walk(pages, trail, token) && (trail == [] || token != "")
    ensures |trail| < |order| && order[..|trail|] == trail && order[|trail|] == token
  {
    AlongOrder(pages, order, trail, token, |trail|);
    forall n | 0 <= n < |trail| ensures n < |order| && order[n] == trail[n] {
      AlongOrder(pages, order, trail, token, n);
    }
  }

  /** Why a folder was not read: no plain listing of it would have fitted. */
  ghost predicate Unfit(pages: Pages, b: Binding, count: nat) {
    !exists order :: Plain(pages, b, order) && count + FilesIn(pages, order) <= MAX_OBJECTS
  }

  lemma UnansweredIsUnfit(pages: Pages, b: Binding, trail: seq<string>, token: string, count: nat)
    requires Walk(pages, trail, token) && (trail == [] || token != "") && (|trail|, token) !in pages
    ensures Unfit(pages, b, count)
  {
    if order :| Plain(pages, b, order) && count + FilesIn(pages, order) <= MAX_OBJECTS {
      Answered(pages, order, trail, token);
      assert false;
    }
  }

  lemma Answered(pages: Pages, order: seq<string>, trail: seq<string>, token: string)
    requires Chain(pages, order) && Walk(pages, trail, token) && (trail == [] || token != "")
    ensures (|trail|, token) in pages
  {
    OrderStarts(pages, order, trail, token);
  }

  lemma NeverRepeats(pages: Pages, order: seq<string>, trail: seq<string>, token: string)
    requires Chain(pages, order) && NoRepeats(order) && Walk(pages, trail, token) && token != ""
    ensures token !in trail
  {
    OrderStarts(pages, order, trail, token);
    assert forall i :: 0 <= i < |trail| ==> trail[i] == order[i];
  }

  lemma FilesAdd(pages: Pages, trail: seq<string>, token: string)
    requires (forall i :: 0 <= i < |trail| ==> (i, trail[i]) in pages) && (|trail|, token) in pages
    ensures FilesIn(pages, trail + [token]) == FilesIn(pages, trail) + |pages[(|trail|, token)].files|
  {
    assert (trail + [token])[..|trail|] == trail;
  }

  lemma PageFits(pages: Pages, b: Binding, order: seq<string>, trail: seq<string>, token: string, count: nat)
    requires Plain(pages, b, order) && count + FilesIn(pages, order) <= MAX_OBJECTS
    requires Walk(pages, trail, token) && (trail == [] || token != "") && (|trail|, token) in pages
    ensures var files := pages[(|trail|, token)].files;
            && (forall f :: f in files ==> Under(b.node, f.key) && f.size <= LIMIT)
            && count + FilesIn(pages, trail) + |files| <= MAX_OBJECTS
  {
    OrderStarts(pages, order, trail, token);
    assert order[..|trail| + 1] == trail + [token];
    FilesAdd(pages, trail, token);
    FilesOfPrefix(pages, order, |trail| + 1);
  }

  lemma RefusedPageIsUnfit(pages: Pages, b: Binding, trail: seq<string>, token: string, count: nat)
    requires Walk(pages, trail, token) && (trail == [] || token != "") && (|trail|, token) in pages
    requires var files := pages[(|trail|, token)].files;
             !((forall f :: f in files ==> Under(b.node, f.key) && f.size <= LIMIT)
               && (files == [] || count + FilesIn(pages, trail) + |files| <= MAX_OBJECTS))
    ensures Unfit(pages, b, count)
  {
    if order :| Plain(pages, b, order) && count + FilesIn(pages, order) <= MAX_OBJECTS {
      PageFits(pages, b, order, trail, token, count);
      assert false;
    }
  }

  lemma RepeatedIsUnfit(pages: Pages, b: Binding, trail: seq<string>, token: string, count: nat)
    requires Walk(pages, trail, token) && token != "" && token in trail
    ensures Unfit(pages, b, count)
  {
    if order :| Plain(pages, b, order) && count + FilesIn(pages, order) <= MAX_OBJECTS {
      NeverRepeats(pages, order, trail, token);
      assert false;
    }
  }

  /** These entries are those of the pages read so far. */
  ghost predicate Reads(pages: Pages, b: Binding, count: nat, trail: seq<string>, added: seq<Entry>) {
    && (forall i :: 0 <= i < |trail| ==> (i, trail[i]) in pages) && NoRepeats(trail)
    && (forall e :: e in added ==> Proper(e) && e.binding == b)
    && (count <= MAX_OBJECTS ==> count + |added| <= MAX_OBJECTS) && |added| == FilesIn(pages, trail)
    && forall key :: HasKey(added, b, key) <==> ListedBy(pages, trail, key)
  }

  /** The state of reading before the page of `token`. */
  ghost predicate ReadState(pages: Pages, b: Binding, count: nat, trail: seq<string>, token: string, seen: set<string>, added: seq<Entry>) {
    Reads(pages, b, count, trail, added) && Walk(pages, trail, token) && (trail == [] || token != "") && Tracked(seen, trail, token)
  }

  lemma ReadStateAdds(pages: Pages, b: Binding, count: nat, trail: seq<string>, token: string, seen: set<string>, added: seq<Entry>,
                      more: seq<Entry>)
    requires ReadState(pages, b, count, trail, token, seen, added) && (|trail|, token) in pages
    requires (forall e :: e in more ==> Proper(e) && e.binding == b) && |more| == |pages[(|trail|, token)].files|
    requires forall key :: HasKey(more, b, key) <==> NamesKey(pages[(|trail|, token)].files, key)
    requires count <= MAX_OBJECTS ==> count + |added + more| <= MAX_OBJECTS
    ensures Reads(pages, b, count, trail + [token], added + more)
    ensures var next := pages[(|trail|, token)].next;
            && Walk(pages, trail + [token], next)
            && (next != "" && next !in seen ==> ReadState(pages, b, count, trail + [token], next, seen + {next}, added + more))
            && (next != "" && next in seen ==> next in trail + [token])
  {
    PageStep(pages, trail, token, b, added, more);
    WalkExtends(pages, trail, token);
    TrackedNext(seen, trail, token, pages[(|trail|, token)].next);
    FilesAdd(pages, trail, token);
  }

  /** One page: the request, and the entries for it. */
  method AddPage(count: nat, binding: Binding, pages: Pages, requests: nat, token: string)
    returns (r: Reply<seq<Entry>>, ghost trouble: bool)
    ensures r.Ok? ==> (requests, token) in pages
                      && (forall e :: e in r.value ==> Proper(e) && e.binding == binding)
                      && |r.value| == |pages[(requests, token)].files|
                      && (forall key :: HasKey(r.value, binding, key) <==> NamesKey(pages[(requests, token)].files, key))
                      && (count <= MAX_OBJECTS ==> count + |r.value| <= MAX_OBJECTS)
    ensures r.Failed? && !trouble && (requests, token) in pages ==>
              var files := pages[(requests, token)].files;
              !((forall f :: f in files ==> Under(binding.node, f.key) && f.size <= LIMIT)
                && (files == [] || count + |files| <= MAX_OBJECTS))
  {
    var profile, _ := Current(binding);
    var fails: bool := *;
    if profile.Failed? || fails { return Failed, true; }
    if (requests, token) !in pages { return Failed, false; }
    r := AddAll(count, binding, pages[(requests, token)].files);
    trouble := false;
  }

  /** Reads the pages of one folder until there is no next page; `trail` is the order it read them in. */
  method AddFolder(count: nat, binding: Binding, pages: Pages)
    returns (r: Reply<seq<Entry>>, ghost trail: seq<string>, ghost trouble: bool)
    ensures r.Ok? ==> forall e :: e in r.value ==> Proper(e) && e.binding == binding
    ensures r.Ok? ==> Chain(pages, trail) && NoRepeats(trail)
    ensures r.Ok? ==> forall key :: HasKey(r.value, binding, key) <==> ListedBy(pages, trail, key)
    ensures r.Ok? ==> |r.value| == FilesIn(pages, trail)
    ensures r.Ok? && count <= MAX_OBJECTS ==> count + |r.value| <= MAX_OBJECTS
    // Unless a request or the profile fails, every plain listing that fits is read.
    ensures r.Failed? && !trouble ==> Unfit(pages, binding, count)
  {
    var added: seq<Entry> := [];
    var seen: set<string> := {};
    var token, requests := "", 0;
    trail, trouble := [], false;
    while true
      invariant requests == |trail| && ReadState(pages, binding, count, trail, token, seen, added)
      decreases |Remaining(pages, requests)|
    {
      var more;
      more, trouble := AddPage(count + |added|, binding, pages, requests, token);
      if more.Failed? {
        if !trouble { PageUnread(pages, binding, trail, token, seen, count, added); }
        return Failed, trail, trouble;
      }
      var next := pages[(requests, token)].next;
      ReadStateAdds(pages, binding, count, trail, token, seen, added, more.value);
      RemainingShrinks(pages, requests, token);
      added := added + more.value;
      trail := trail + [token];
      if next == "" { return Ok(added), trail, false; }
      if next in seen {
        RepeatedIsUnfit(pages, binding, trail, next, count);
        return Failed, trail, false;
      }
      seen := seen + {next};
      token, requests := next, requests + 1;
    }
  }

  lemma PageUnread(pages: Pages, b: Binding, trail: seq<string>, token: string, seen: set<string>, count: nat, added: seq<Entry>)
    requires ReadState(pages, b, count, trail, token, seen, added)
    requires (|trail|, token) in pages ==>
               var files := pages[(|trail|, token)].files;
               !((forall f :: f in files ==> Under(b.node, f.key) && f.size <= LIMIT)
                 && (files == [] || count + |added| + |files| <= MAX_OBJECTS))
    ensures Unfit(pages, b, count)
  {
    if (|trail|, token) in pages {
      RefusedPageIsUnfit(pages, b, trail, token, count);
    } else {
      UnansweredIsUnfit(pages, b, trail, token, count);
    }
  }

  /** The listing of this node is complete for the objects now stored (a file needs no listing). */
  ghost predicate Complete(listings: map<Loc, Pages>, store: Store, b: Binding) {
    b.node.kind.Folder? ==> Loc(b.Site(), b.node.path) in listings
                            && Faithful(listings[Loc(b.Site(), b.node.path)], store, b.Site(), b.node.path)
  }

  /** The entries are exactly the stored objects the node covers. */
  ghost predicate Exact(entries: seq<Entry>, store: Store, b: Binding) {
    forall key :: HasKey(entries, b, key) <==> Loc(b.Site(), key) in store && Under(b.node, key)
  }

  /** Nothing but HEAD requests were sent since `lo`. */
  predicate OnlyReads(log: seq<Event>, lo: nat) {
    forall k | lo <= k < |log| :: log[k].Outside? || log[k].Seen? || log[k].Trouble?
  }

  lemma FolderIsExact(pages: Pages, trail: seq<string>, entries: seq<Entry>, store: Store, b: Binding)
    requires b.node.kind.Folder? && Chain(pages, trail)
    requires forall key :: HasKey(entries, b, key) <==> ListedBy(pages, trail, key)
    requires Faithful(pages, store, b.Site(), b.node.path)
    ensures Exact(entries, store, b)
  {
    var order :| Chain(pages, order) &&
                 forall key :: ListedBy(pages, order, key) <==> Loc(b.Site(), key) in store && b.node.path <= key;
    ChainIsUnique(pages, trail, order, |trail|);
  }

  predicate EndsInSlash(s: string) {
    s != "" && s[|s| - 1] == '/'
  }

  /** The number of entries that the node comes to. */
  ghost predicate Sized(listings: map<Loc, Pages>, b: Binding, n: nat) {
    if b.node.kind.File? then n == 1
    else Loc(b.Site(), b.node.path) in listings
         && exists order :: Chain(listings[Loc(b.Site(), b.node.path)], order) && n == FilesIn(listings[Loc(b.Site(), b.node.path)], order)
  }

  /** The objects of the node can be planned behind `count` others: the file is there, or the folder has a plain
      listing, and neither is too much. */
  ghost predicate Listable(listings: map<Loc, Pages>, store: Store, b: Binding, count: nat) {
    if b.node.kind.File? then
      Loc(b.Site(), b.node.path) in store && |store[Loc(b.Site(), b.node.path)].content| <= LIMIT && count < MAX_OBJECTS
    else
      && EndsInSlash(b.node.path) && b.node.path != b.identity.rootPrefix && Loc(b.Site(), b.node.path) in listings
      && !Unfit(listings[Loc(b.Site(), b.node.path)], b, count)
  }

  /** A selected file, if it is there. */
  method PlanFile(remote: Remote, count: nat, b: Binding, listings: map<Loc, Pages>) returns (r: Reply<seq<Entry>>)
    requires remote.Valid() && b.node.kind.File?
    modifies remote
    ensures remote.Valid() && old(remote.log) <= remote.log && OnlyReads(remote.log, |old(remote.log)|)
    ensures NoneOutside(remote.log, |old(remote.log)|) ==> remote.store == old(remote.store)
    ensures r.Ok? ==> (forall e :: e in r.value ==> Proper(e) && e.binding == b) && |r.value| == 1
    ensures r.Ok? && count <= MAX_OBJECTS ==> count + |r.value| <= MAX_OBJECTS
    ensures r.Ok? ==> Exact(r.value, remote.store, b)
    ensures r.Failed? && Smooth(remote.log, |old(remote.log)|) ==> !Listable(listings, remote.store, b, count)
  {
    var info := remote.Stat(Loc(b.Site(), b.node.path));
    if info.Failed? || info.value.None? { return Failed; }
    r := AddAll(count, b, [Listed(b.node.path, info.value.value.size)]);
    assert forall key :: NamesKey([Listed(b.node.path, info.value.value.size)], key) <==> key == b.node.path;
  }

  /** A selected folder, below the root of its profile. */
  method PlanFolder(ghost store: Store, count: nat, b: Binding, listings: map<Loc, Pages>)
    returns (r: Reply<seq<Entry>>, ghost trouble: bool)
    requires !b.node.kind.File?
    ensures r.Ok? ==> EndsInSlash(b.node.path) && b.node.path != b.identity.rootPrefix && !trouble
    ensures r.Ok? ==> (forall e :: e in r.value ==> Proper(e) && e.binding == b) && Sized(listings, b, |r.value|)
    ensures r.Ok? && count <= MAX_OBJECTS ==> count + |r.value| <= MAX_OBJECTS
    ensures r.Ok? && b.node.kind.Folder? && Complete(listings, store, b) ==> Exact(r.value, store, b)
    ensures r.Failed? && !trouble ==> !Listable(listings, store, b, count)
  {
    trouble := false;
    if !EndsInSlash(b.node.path) || b.node.path == b.identity.rootPrefix || Loc(b.Site(), b.node.path) !in listings {
      return Failed, false;
    }
    var pages := listings[Loc(b.Site(), b.node.path)];
    ghost var trail;
    r, trail, trouble := AddFolder(count, b, pages);
    if r.Failed? { return; }
    trouble := false;
    if b.node.kind.Folder? && Faithful(pages, store, b.Site(), b.node.path) {
      FolderIsExact(pages, trail, r.value, store, b);
    }
  }

  /** One node of the selection: a HEAD for a file, a listing for a folder. */
  method PlanNode(remote: Remote, count: nat, node: Node, listings: map<Loc, Pages>)
    returns (r: Reply<seq<Entry>>, b: Binding)
    requires remote.Valid()
    modifies remote
    ensures remote.Valid() && old(remote.log) <= remote.log && OnlyReads(remote.log, |old(remote.log)|)
    ensures NoneOutside(remote.log, |old(remote.log)|) ==> remote.store == old(remote.store)
    ensures r.Ok? ==> b.node == node && node.bucket == b.identity.bucket && b.server == remote.server(b.identity.endpoint)
    ensures r.Ok? ==> forall e :: e in r.value ==> Proper(e) && e.binding == b
    ensures r.Ok? && !node.kind.File? ==> EndsInSlash(node.path) && node.path != b.identity.rootPrefix
    ensures r.Ok? && count <= MAX_OBJECTS ==> count + |r.value| <= MAX_OBJECTS
    ensures r.Ok? && NoneOutside(remote.log, |old(remote.log)|) && Complete(listings, remote.store, b) ==>
              Exact(r.value, remote.store, b)
    ensures r.Ok? ==> Sized(listings, b, |r.value|)
    ensures r.Failed? && Smooth(remote.log, |old(remote.log)|) ==> !Listable(listings, remote.store, b, count)
  {
    var bound, _ := Bind(node, remote.server);
    if bound.Failed? { b := *; remote.Note(); return Failed, b; }
    b := bound.value;
    var profile, _ := Current(b);
    if profile.Failed? { remote.Note(); return Failed, b; }
    if node.kind.File? {
      r := PlanFile(remote, count, b, listings);
    } else {
      ghost var trouble;
      r, trouble := PlanFolder(remote.store, count, b, listings);
      if trouble { remote.Note(); }
    }
  }

  predicate DistinctRelatives(entries: seq<Entry>) {
    forall i, j :: 0 <= i < j < |entries| ==> entries[i].relative != entries[j].relative
  }

  method CheckRelatives(entries: seq<Entry>) returns (unique: bool)
    ensures unique <==> DistinctRelatives(entries)
  {
    var destinations: set<string> := {};
    for i := 0 to |entries|
      invariant destinations == set e | e in entries[..i] :: e.relative
      invariant DistinctRelatives(entries[..i])
    {
      if entries[i].relative in destinations {
        var e :| e in entries[..i] && e.relative == entries[i].relative;
        return false;
      }
      assert entries[..i + 1] == entries[..i] + [entries[i]];
      destinations := destinations + {entries[i].relative};
    }
    assert entries[..|entries|] == entries;
    return true;
  }

  lemma ExactExtends(entries: seq<Entry>, more: seq<Entry>, store: Store, b: Binding, mine: bool)
    requires mine ==> Exact(more, store, b) && forall e :: e in entries ==> e.binding != b
    requires !mine ==> Exact(entries, store, b) && forall e :: e in more ==> e.binding != b
    ensures Exact(entries + more, store, b)
  {
  }

  lemma AllExact(entries: seq<Entry>, more: seq<Entry>, listings: map<Loc, Pages>, store: Store, bound: seq<Binding>, b: Binding)
    requires forall c :: c in bound && Complete(listings, store, c) ==> Exact(entries, store, c)
    requires Complete(listings, store, b) ==> Exact(more, store, b)
    requires b !in bound && (forall e :: e in entries ==> e.binding in bound) && forall e :: e in more ==> e.binding == b
    ensures forall c :: c in bound + [b] && Complete(listings, store, c) ==> Exact(entries + more, store, c)
  {
    forall c | c in bound + [b] && Complete(listings, store, c) ensures Exact(entries + more, store, c) {
      ExactExtends(entries, more, store, c, c == b);
    }
  }

  /** Entries of these bindings, each key of a binding once. */
  ghost predicate Planned(entries: seq<Entry>, bound: seq<Binding>) {
    && (forall e :: e in entries ==> Proper(e) && e.binding in bound)
    && (forall i, j :: 0 <= i < j < |entries| ==> entries[i].binding != entries[j].binding || entries[i].key != entries[j].key)
  }

  lemma RelativesSeparate(entries: seq<Entry>, bound: seq<Binding>)
    requires DistinctRelatives(entries) && forall e :: e in entries ==> Proper(e) && e.binding in bound
    ensures Planned(entries, bound)
  {
    forall i, j | 0 <= i < j < |entries| && entries[i].binding == entries[j].binding ensures entries[i].key != entries[j].key {
      assert entries[i] in entries && entries[j] in entries;
    }
  }

  /** One binding per node, in its bucket, at the server its endpoint reaches. */
  predicate BoundTo(bound: seq<Binding>, nodes: seq<Node>, server: string -> string) {
    |bound| == |nodes| && forall i | 0 <= i < |bound| ::
      && bound[i].node == nodes[i] && nodes[i].bucket == bound[i].identity.bucket
      && bound[i].server == server(bound[i].identity.endpoint)
  }

  function Sum(sizes: seq<nat>, n: nat): nat
    requires n <= |sizes|
  {
    if n == 0 then 0 else Sum(sizes, n - 1) + sizes[n - 1]
  }

  lemma {:induction false} SumOfPrefix(sizes: seq<nat>, more: seq<nat>, n: nat)
    requires sizes <= more && n <= |sizes|
    ensures Sum(sizes, n) == Sum(more, n)
  {
    if n > 0 { SumOfPrefix(sizes, more, n - 1); }
  }

  ghost predicate AreSizes(listings: map<Loc, Pages>, bound: seq<Binding>, sizes: seq<nat>) {
    |sizes| == |bound| && forall i :: 0 <= i < |bound| ==> Sized(listings, bound[i], sizes[i])
  }

  /** The number of entries that the nodes come to. */
  ghost predicate AllSized(listings: map<Loc, Pages>, bound: seq<Binding>, n: nat) {
    exists sizes :: AreSizes(listings, bound, sizes) && Sum(sizes, |bound|) == n
  }

  lemma AllSizedAdds(listings: map<Loc, Pages>, bound: seq<Binding>, n: nat, b: Binding, m: nat)
    requires AllSized(listings, bound, n) && Sized(listings, b, m)
    ensures AllSized(listings, bound + [b], n + m)
  {
    var sizes :| AreSizes(listings, bound, sizes) && Sum(sizes, |bound|) == n;
    var more := sizes + [m];
    SumOfPrefix(sizes, more, |bound|);
    assert AreSizes(listings, bound + [b], more);
  }

  lemma NothingSized(listings: map<Loc, Pages>)
    ensures AllSized(listings, [], 0)
  {
    assert AreSizes(listings, [], []) && Sum([], 0) == 0;
  }

  /** Why a selection was not planned: the last of these nodes cannot be planned behind the entries of the others, or
      two entries of theirs would have one name at the destination. */
  ghost predicate Unplannable(listings: map<Loc, Pages>, store: Store, bound: seq<Binding>, entries: seq<Entry>) {
    || (bound != [] && AllSized(listings, bound[..|bound| - 1], |entries|)
        && !Listable(listings, store, bound[|bound| - 1], |entries|))
    || (AllSized(listings, bound, |entries|) && (forall e :: e in entries ==> Proper(e) && e.binding in bound)
        && !DistinctRelatives(entries))
  }

  /** The state of planning behind these nodes. */
  ghost predicate PlanState(log: seq<Event>, lo: nat, listings: map<Loc, Pages>, store: Store, nodes: seq<Node>,
                            bound: seq<Binding>, entries: seq<Entry>, server: string -> string) {
    && BoundTo(bound, nodes, server) && (forall b :: b in bound && b.node.kind.Folder? ==> EndsInSlash(b.node.path))
    && |entries| <= MAX_OBJECTS && (forall e :: e in entries ==> Proper(e) && e.binding in bound)
    && AllSized(listings, bound, |entries|)
    && (NoneOutside(log, lo) ==> forall b :: b in bound && Complete(listings, store, b) ==> Exact(entries, store, b))
  }

  lemma PlanStateAdds(before: seq<Event>, log: seq<Event>, lo: nat, listings: map<Loc, Pages>, store: Store, after: Store,
                      nodes: seq<Node>, node: Node, bound: seq<Binding>, b: Binding, entries: seq<Entry>, more: seq<Entry>,
                      server: string -> string)
    requires lo <= |before| && before <= log && PlanState(before, lo, listings, store, nodes, bound, entries, server)
    requires NoneOutside(log, |before|) ==> after == store && (Complete(listings, after, b) ==> Exact(more, after, b))
    requires b.node == node && node !in nodes && node.bucket == b.identity.bucket && b.server == server(b.identity.endpoint)
    requires (b.node.kind.Folder? ==> EndsInSlash(b.node.path)) && (forall e :: e in more ==> Proper(e) && e.binding == b)
    requires |entries + more| <= MAX_OBJECTS && AllSized(listings, bound + [b], |entries + more|)
    ensures PlanState(log, lo, listings, after, nodes + [node], bound + [b], entries + more, server)
  {
    if NoneOutside(log, lo) {
      assert forall k :: 0 <= k < |before| ==> before[k] == log[k];
      assert b !in bound;
      AllExact(entries, more, listings, after, bound, b);
    }
  }

  lemma LastUnplannable(before: seq<Event>, log: seq<Event>, lo: nat, listings: map<Loc, Pages>, store: Store,
                        bound: seq<Binding>, b: Binding, entries: seq<Entry>)
    requires lo <= |before| && before <= log && AllSized(listings, bound, |entries|)
    requires Smooth(log, |before|) ==> !Listable(listings, store, b, |entries|)
    ensures Smooth(log, lo) ==> Unplannable(listings, store, bound + [b], entries)
  {
    assert (bound + [b])[..|bound|] == bound;
  }

  /** The entries of one more node. */
  method CollectOne(remote: Remote, node: Node, listings: map<Loc, Pages>, bound: seq<Binding>, entries: seq<Entry>,
                    ghost lo: nat, ghost nodes: seq<Node>) returns (ok: bool, b: Binding, more: seq<Entry>)
    requires remote.Valid() && lo <= |remote.log| && OnlyReads(remote.log, lo) && node !in nodes
    requires PlanState(remote.log, lo, listings, remote.store, nodes, bound, entries, remote.server)
    modifies remote
    ensures remote.Valid() && old(remote.log) <= remote.log && OnlyReads(remote.log, lo)
    ensures NoneOutside(remote.log, |old(remote.log)|) ==> remote.store == old(remote.store)
    ensures ok ==> PlanState(remote.log, lo, listings, remote.store, nodes + [node], bound + [b], entries + more, remote.server)
    ensures !ok && Smooth(remote.log, lo) ==> Unplannable(listings, remote.store, bound + [b], entries)
  {
    ghost var before, store := remote.log, remote.store;
    var r;
    r, b := PlanNode(remote, |entries|, node, listings);
    if r.Failed? {
      LastUnplannable(before, remote.log, lo, listings, remote.store, bound, b, entries);
      return false, b, [];
    }
    AllSizedAdds(listings, bound, |entries|, b, |r.value|);
    PlanStateAdds(before, remote.log, lo, listings, store, remote.store, nodes, node, bound, b, entries, r.value, remote.server);
    return true, b, r.value;
  }

  /** The entries of all nodes. */
  method Collect(remote: Remote, selected: seq<Node>, listings: map<Loc, Pages>)
    returns (ok: bool, bound: seq<Binding>, entries: seq<Entry>)
    requires remote.Valid() && forall i, j :: 0 <= i < j < |selected| ==> selected[i] != selected[j]
    modifies remote
    ensures remote.Valid() && old(remote.log) <= remote.log && OnlyReads(remote.log, |old(remote.log)|)
    ensures NoneOutside(remote.log, |old(remote.log)|) ==> remote.store == old(remote.store)
    ensures ok ==> PlanState(remote.log, |old(remote.log)|, listings, remote.store, selected, bound, entries, remote.server)
    ensures !ok && Smooth(remote.log, |old(remote.log)|) ==> Unplannable(listings, remote.store, bound, entries)
  {
    ghost var lo := |remote.log|;
    bound, entries := [], [];
    NothingSized(listings);
    for i := 0 to |selected|
      invariant remote.Valid() && old(remote.log) <= remote.log && OnlyReads(remote.log, lo)
      invariant NoneOutside(remote.log, lo) ==> remote.store == old(remote.store)
      invariant PlanState(remote.log, lo, listings, remote.store, selected[..i], bound, entries, remote.server)
    {
      var aborted: bool := *;
      if aborted { remote.Note(); return false, bound, entries; }
      ghost var before := remote.log;
      var ok, b, more := CollectOne(remote, selected[i], listings, bound, entries, lo, selected[..i]);
      QuietSteps(old(remote.log), before, remote.log);
      if !ok { return false, bound + [b], entries; }
      assert selected[..i + 1] == selected[..i] + [selected[i]];
      bound, entries := bound + [b], entries + more;
    }
    assert selected[..|selected|] == selected;
    ok := true;
  }

  lemma QuietSteps(start: seq<Event>, middle: seq<Event>, log: seq<Event>)
    requires start <= middle <= log
    ensures NoneOutside(log, |start|) ==> NoneOutside(middle, |start|) && NoneOutside(log, |middle|)
  {
    assert forall k :: 0 <= k < |middle| ==> middle[k] == log[k];
  }

  lemma SelectedOnce(nodes: seq<Node>)
    requires SelectedNodes(nodes).Ok?
    ensures var r := SelectedNodes(nodes).value; forall i, j :: 0 <= i < j < |r| ==> r[i] != r[j]
  {
    SelectionIsAntichain(nodes);
  }

  /** The objects of a selection, each with its name below the destination. */
  method Plan(remote: Remote, nodes: seq<Node>, listings: map<Loc, Pages>)
    returns (r: Reply<seq<Entry>>, bound: seq<Binding>)
    requires remote.Valid()
    modifies remote
    ensures remote.Valid() && old(remote.log) <= remote.log && OnlyReads(remote.log, |old(remote.log)|)
    ensures NoneOutside(remote.log, |old(remote.log)|) ==> remote.store == old(remote.store)
    ensures r.Ok? ==> SelectedNodes(nodes).Ok? && BoundTo(bound, SelectedNodes(nodes).value, remote.server)
    ensures r.Ok? ==> |r.value| <= MAX_OBJECTS && DistinctRelatives(r.value)
                      && forall e :: e in r.value ==> Proper(e) && e.binding in bound
    ensures r.Ok? ==> forall b :: b in bound && b.node.kind.Folder? ==> EndsInSlash(b.node.path)
    ensures r.Ok? ==> Planned(r.value, bound)
    ensures r.Ok? && NoneOutside(remote.log, |old(remote.log)|) ==>
              forall b :: b in bound && Complete(listings, remote.store, b) ==> Exact(r.value, remote.store, b)
    ensures r.Failed? && Smooth(remote.log, |old(remote.log)|) ==>
              SelectedNodes(nodes).Failed? || exists entries :: Unplannable(listings, remote.store, bound, entries)
  {
    bound := [];
    var selection := SelectedNodes(nodes);
    if selection.Failed? { return Failed, bound; }
    SelectedOnce(nodes);
    var selected := selection.value;
    var ok, entries;
    ok, bound, entries := Collect(remote, selected, listings);
    if !ok { return Failed, bound; }
    var unique := CheckRelatives(entries);
    if !unique {
      assert Unplannable(listings, remote.store, bound, entries);
      return Failed, bound;
    }
    RelativesSeparate(entries, bound);
    return Ok(entries), bound;
  }

  // ---------- Each stored object once ----------

  ghost predicate DistinctSources(entries: seq<Entry>) {
    forall i, j :: 0 <= i < j < |entries| ==> entries[i].Source() != entries[j].Source()
  }

  /** `b` covers whatever `c` covers, in the same store. */
  predicate Covers(b: Binding, c: Binding) {
    b.Site() == c.Site() && if b.node.kind.File? then c.node.kind.File? && c.node.path == b.node.path else b.node.path <= c.node.path
  }

  ghost predicate HasObject(store: Store, b: Binding) {
    exists key :: Loc(b.Site(), key) in store && Under(b.node, key)
  }

  /** Two bindings that share a key are one inside the other. */
  lemma SharedKeyCovers(b: Binding, c: Binding, key: string)
    requires b.Site() == c.Site() && Under(b.node, key) && Under(c.node, key)
    ensures Covers(b, c) || Covers(c, b)
  {
    assert b.node.path == key[..|b.node.path|] && c.node.path == key[..|c.node.path|];
  }

  /** Whatever happens meanwhile, bindings none of which is inside another plan no object twice. */
  lemma SeparateBindingsPlanOnce(entries: seq<Entry>, bound: seq<Binding>)
    requires Planned(entries, bound)
    requires forall b, c :: b in bound && c in bound && Covers(b, c) ==> b == c
    ensures DistinctSources(entries)
  {
    forall i, j | 0 <= i < j < |entries| ensures entries[i].Source() != entries[j].Source() {
      var x, y := entries[i], entries[j];
      assert x in entries && y in entries;
      if x.Source() == y.Source() { SharedKeyCovers(x.binding, y.binding, x.key); }
    }
  }

  /** Nodes of one profile are never inside each other: only nodes of different profiles can be. */
  lemma OnlyProfilesOverlap(nodes: seq<Node>, bound: seq<Binding>, server: string -> string, b: Binding, c: Binding)
    requires SelectedNodes(nodes).Ok? && BoundTo(bound, SelectedNodes(nodes).value, server)
    requires b in bound && c in bound && b != c && Covers(b, c)
    ensures b.node.profileId != c.node.profileId
  {
    SelectionIsAntichain(nodes);
    var selected := SelectedNodes(nodes).value;
    var i :| 0 <= i < |bound| && bound[i] == b;
    var j :| 0 <= j < |bound| && bound[j] == c;
    assert selected[i] == b.node && selected[j] == c.node && i != j;
    assert !SameIdentity(b.node, c.node) && Selectable(b.node) && Selectable(c.node);
    assert !Below(c.node, b.node);
  }

  /** Each object is planned once exactly when no binding that has objects is inside another one. */
  lemma PlannedOnceExactly(entries: seq<Entry>, bound: seq<Binding>, store: Store)
    requires Planned(entries, bound) && forall b :: b in bound ==> Exact(entries, store, b)
    ensures DistinctSources(entries) <==>
            !(exists b, c :: b in bound && c in bound && b != c && Covers(b, c) && HasObject(store, c))
  {
    if b, c :| b in bound && c in bound && b != c && Covers(b, c) && HasObject(store, c) {
      var key :| Loc(c.Site(), key) in store && Under(c.node, key);
      assert HasKey(entries, b, key) && HasKey(entries, c, key);
      var x :| x in entries && x.binding == b && x.key == key;
      var y :| y in entries && y.binding == c && y.key == key;
      var i :| 0 <= i < |entries| && entries[i] == x;
      var j :| 0 <= j < |entries| && entries[j] == y;
      assert entries[i].Source() == entries[j].Source() && i != j;
    } else {
      forall i, j | 0 <= i < j < |entries| ensures entries[i].Source() != entries[j].Source() {
        var x, y := entries[i], entries[j];
        assert x in entries && y in entries && HasKey(entries, x.binding, x.key) && HasKey(entries, y.binding, y.key);
        assert HasObject(store, x.binding) && HasObject(store, y.binding);
        if x.Source() == y.Source() { SharedKeyCovers(x.binding, y.binding, x.key); }
      }
    }
  }

  /** So a selection over two profiles of one bucket, its endpoint spelled alike or not, can plan an object twice, under
      two names. */
  lemma TwoProfilesPlanTwice(here: string, there: string, server: string -> string)
    requires server(here) == server(there)
    ensures var one, two := Node("1", "k", Folder, "a/b/", false), Node("2", "k", Folder, "a/", false);
            var x := Entry("a/b/x", "b/x", Binding(one, Identity(here, "k", "", true), server(here)));
            var y := Entry("a/b/x", "a/b/x", Binding(two, Identity(there, "k", "", true), server(there)));
            && SelectedNodes([one, two]) == Ok([one, two])
            && Planned([x, y], [x.binding, y.binding]) && DistinctRelatives([x, y]) && x.Source() == y.Source()
  {
    var one, two := Node("1", "k", Folder, "a/b/", false), Node("2", "k", Folder, "a/", false);
    SelectedPair(one, two);
    assert one.path[..3] == "a/b" && two.path[..1] == "a";
    assert "a/b/x"[2..] == "b/x";
  }

  lemma SelectedPair(one: Node, two: Node)
    requires Selectable(one) && Selectable(two) && one.profileId != two.profileId
    ensures SelectedNodes([one, two]) == Ok([one, two])
  {
    assert [one, two][..1] == [one] && [one][..0] == [];
    assert Unique([one]) == [one];
    assert [one][1..] == [] && Insert([one], two) == [one] + Insert([], two);
    assert Unique([one, two]) == Insert([one], two) == [one, two];
    assert Topmost([two], [one, two]) == [two];
  }
}
