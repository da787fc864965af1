/** Updating the workspace folders with one splice (s3-browser.js, `folderChange` and `mountProfiles`). */
module FolderSplice {
  /** Two folders are the same when their locations and names agree. */
  datatype Folder = Folder(scheme: string, authority: string, path: string, name: string)

  datatype Change = Change(start: nat, count: nat, folders: seq<Folder>)

  const SCHEME := "triton-s3"

  /** The editor's operation: remove `count` folders at `start` and put `folders` there. */
  function Splice(current: seq<Folder>, c: Change): seq<Folder>
    requires c.start + c.count <= |current|
  {
    current[..c.start] + c.folders + current[c.start + c.count..]
  }

  ghost predicate Solves(current: seq<Folder>, desired: seq<Folder>, c: Change) {
    c.start + c.count <= |current| && Splice(current, c) == desired
  }

  ghost predicate CommonPrefix(a: seq<Folder>, b: seq<Folder>, n: int) { 0 <= n <= |a| && n <= |b| && a[..n] == b[..n] }

  ghost predicate CommonSuffix(a: seq<Folder>, b: seq<Folder>, n: int) {
    0 <= n <= |a| && n <= |b| && a[|a| - n..] == b[|b| - n..]
  }

  lemma PrefixAt(a: seq<Folder>, b: seq<Folder>, n: int, k: nat)
    ensures CommonPrefix(a, b, n) && k < n ==> a[k] == b[k]
  {
  }

  lemma SuffixAt(a: seq<Folder>, b: seq<Folder>, n: int, k: nat)
    ensures CommonSuffix(a, b, n) && k < n ==> a[|a| - 1 - k] == b[|b| - 1 - k]
  {
  }

  lemma SolutionShares(current: seq<Folder>, desired: seq<Folder>, c: Change)
    requires Solves(current, desired, c)
    ensures CommonPrefix(current, desired, c.start)
    ensures CommonSuffix(current, desired, |current| - c.start - c.count)
    ensures |desired| == |current| - c.count + |c.folders|
  {
  }

  /** The splice yields the desired folders, and no other splice that does removes or inserts fewer. */
  method FolderChange(current: seq<Folder>, desired: seq<Folder>) returns (c: Change)
    ensures Solves(current, desired, c)
    ensures forall other :: Solves(current, desired, other) ==> c.count <= other.count && |c.folders| <= |other.folders|
    ensures forall n :: CommonPrefix(current, desired, n) ==> n <= c.start
  {
    var start, end, nextEnd := 0, |current|, |desired|;
    while start < end && start < nextEnd && current[start] == desired[start]
      invariant CommonPrefix(current, desired, start)
    {
      start := start + 1;
    }
    while end > start && nextEnd > start && current[end - 1] == desired[nextEnd - 1]
      invariant start <= end <= |current| && start <= nextEnd <= |desired|
      invariant |current| - end == |desired| - nextEnd
      invariant forall k :: end <= k < |current| ==> current[k] == desired[k - |current| + |desired|]
      decreases end
    {
      end, nextEnd := end - 1, nextEnd - 1;
    }
    c := Change(start, end - start, desired[start..nextEnd]);
    assert current[end..] == desired[nextEnd..];
    forall n | CommonPrefix(current, desired, n) ensures n <= start {
      PrefixAt(current, desired, n, start);
    }
    forall other | Solves(current, desired, other)
      ensures c.count <= other.count && |c.folders| <= |other.folders|
    {
      SolutionShares(current, desired, other);
      SuffixAt(current, desired, |current| - other.start - other.count, |current| - end);
    }
  }

  predicate Remote(f: Folder) { f.scheme == SCHEME }

  function LocalOf(folders: seq<Folder>): (r: seq<Folder>)
    ensures forall f :: f in r ==> f in folders && !Remote(f)
  {
    if folders == [] then [] else (if Remote(folders[0]) then [] else [folders[0]]) + LocalOf(folders[1..])
  }

  lemma {:induction false} LocalOfConcat(a: seq<Folder>, b: seq<Folder>)
    ensures LocalOf(a + b) == LocalOf(a) + LocalOf(b)
  {
    if a == [] {
      assert a + b == b;
    } else {
      assert (a + b)[1..] == a[1..] + b;
      LocalOfConcat(a[1..], b);
    }
  }

  lemma {:induction false} LocalOfLocal(a: seq<Folder>)
    requires forall f :: f in a ==> !Remote(f)
    ensures LocalOf(a) == a
  {
    if a != [] { LocalOfLocal(a[1..]); }
  }

  lemma {:induction false} LocalOfRemote(a: seq<Folder>)
    requires forall f :: f in a ==> Remote(f)
    ensures LocalOf(a) == []
  {
    if a != [] { LocalOfRemote(a[1..]); }
  }

  ghost predicate AllLocal(folders: seq<Folder>) { forall f :: f in folders ==> !Remote(f) }

  lemma PrefixShared(a: seq<Folder>, n: nat, b: seq<Folder>, c: seq<Folder>)
    requires n <= |a|
    ensures CommonPrefix(a, a[..n] + b + c, n)
  {
  }

  lemma LeadingLocal(current: seq<Folder>, remote: seq<Folder>, n: nat)
    requires n <= |current| && AllLocal(current[..n])
    ensures CommonPrefix(current, LocalOf(current) + remote, n)
  {
    assert current == current[..n] + current[n..];
    LocalOfConcat(current[..n], current[n..]);
    LocalOfLocal(current[..n]);
    PrefixShared(current, n, LocalOf(current[n..]), remote);
  }

  /** Mounting: the local folders, then the remote ones.  No local folder is lost or reordered, and the local folders
      in front stay where they are. */
  method MountChange(current: seq<Folder>, remote: seq<Folder>) returns (c: Change)
    requires forall f :: f in remote ==> Remote(f)
    ensures c.start + c.count <= |current|
    ensures LocalOf(Splice(current, c)) == LocalOf(current)
    ensures |Splice(current, c)| == |LocalOf(current)| + |remote| && Splice(current, c)[|LocalOf(current)|..] == remote
    ensures forall n :: 0 <= n <= |current| && AllLocal(current[..n]) ==> n <= c.start
  {
    var desired := LocalOf(current) + remote;
    c := FolderChange(current, desired);
    LocalOfConcat(LocalOf(current), remote);
    LocalOfLocal(LocalOf(current));
    LocalOfRemote(remote);
    forall n | 0 <= n <= |current| && AllLocal(current[..n]) ensures n <= c.start {
      LeadingLocal(current, remote, n);
    }
  }
}
