/** Planning an upload of workspace files (s3-files.js).  Paths are absolute and normalised, as path.resolve leaves
    them: sequences of names. */
module UploadPlan {
  import opened Wrappers

  type Path = seq<string>

  predicate ValidName(name: string) { name != "" && '/' !in name && name != "." && name != ".." }

  predicate ValidPath(p: Path) { forall name :: name in p ==> ValidName(name) }

  // ---------- within ----------

  function CommonLength(a: Path, b: Path): (n: nat)
    ensures n <= |a| && n <= |b| && a[..n] == b[..n]
    ensures n < |a| && n < |b| ==> a[n] != b[n]
  {
    if a != [] && b != [] && a[0] == b[0] then
      var n := CommonLength(a[1..], b[1..]);
      assert a[..n + 1] == [a[0]] + a[1..][..n] && b[..n + 1] == [b[0]] + b[1..][..n];
      n + 1
    else 0
  }

  function Joined(parts: Path): string {
    if parts == [] then "" else if |parts| == 1 then parts[0] else parts[0] + "/" + Joined(parts[1..])
  }

  /** path.relative: up from `root` to the common directory, then down to `file`. */
  function Relative(root: Path, file: Path): string {
    var n := CommonLength(root, file);
    Joined(seq(|root| - n, i => "..") + file[n..])
  }

  predicate Within(root: Path, file: Path) {
    var r := Relative(root, file);
    r == "" || (r != ".." && !("../" <= r) && r[0] != '/')
  }

  lemma UpText(r: string)
    ensures "../" <= r <==> |r| >= 3 && r[0] == '.' && r[1] == '.' && r[2] == '/'
  {
  }

  /** A relative text that starts with a name neither is nor starts with "..", and is not absolute. */
  lemma DownIsDown(parts: Path)
    requires parts != [] && ValidName(parts[0])
    ensures Joined(parts) != "" && Joined(parts) != ".." && !("../" <= Joined(parts)) && Joined(parts)[0] != '/'
  {
    var name, r := parts[0], Joined(parts);
    assert forall k :: 0 <= k < |name| ==> r[k] == name[k] && r[k] != '/';
    assert |parts| > 1 ==> r[|name|] == '/' && |r| > |name|;
    assert |name| == 1 ==> name == [name[0]];
    assert |name| == 2 ==> name == [name[0], name[1]];
    UpText(r);
  }

  /** The test on the relative text says exactly that `file` is `root` or below it. */
  lemma WithinIsPrefix(root: Path, file: Path)
    requires ValidPath(root) && ValidPath(file)
    ensures Within(root, file) <==> root <= file
  {
    var n := CommonLength(root, file);
    var parts := seq(|root| - n, i => "..") + file[n..];
    if n == |root| {
      assert parts == file[n..];
      if parts != [] {
        assert parts[0] in file;
        DownIsDown(parts);
      }
    } else {
      assert parts[0] == "..";
      assert |parts| > 1 ==> Joined(parts) == "../" + Joined(parts[1..]);
    }
  }

  // ---------- The file tree ----------

  datatype Node = File(size: nat) | Dir(entries: seq<(string, Node)>) | Symlink | Special

  function Child(entries: seq<(string, Node)>, name: string): Option<Node> {
    if entries == [] then None else if entries[0].0 == name then Some(entries[0].1) else Child(entries[1..], name)
  }

  function Lookup(node: Node, p: Path): Option<Node>
    decreases |p|
  {
    if p == [] then Some(node)
    else if node.Dir? && Child(node.entries, p[0]).Some? then Lookup(Child(node.entries, p[0]).value, p[1..])
    else None
  }

  /** Directories list valid names, each once. */
  predicate WellFormed(node: Node) {
    node.Dir? ==>
      && (forall i | 0 <= i < |node.entries| :: ValidName(node.entries[i].0) && WellFormed(node.entries[i].1))
      && (forall i, j | 0 <= i < j < |node.entries| :: node.entries[i].0 != node.entries[j].0)
  }

  datatype Upload = Upload(file: Path, key: string, size: nat)

  const MAX_SIZE := 5 * 1024 * 1024 * 1024
  const MAX_FILES := 10000

  /** The regular files of a tree at `at`, with keys below `key`. */
  function Files(node: Node, at: Path, key: string): seq<Upload>
    decreases node, 1, 0
  {
    match node
    case File(size) => [Upload(at, key, size)]
    case Dir(entries) => FilesBelow(node, |entries|, at, key)
    case _ => []
  }

  function FilesBelow(node: Node, n: nat, at: Path, key: string): seq<Upload>
    requires node.Dir? && n <= |node.entries|
    decreases node, 0, n
  {
    if n == 0 then []
    else
      var (name, child) := node.entries[n - 1];
      FilesBelow(node, n - 1, at, key) + Files(child, at + [name], key + "/" + name)
  }

  /** Nothing but directories and files of a size that one request can carry. */
  predicate Plain(node: Node) {
    match node
    case File(size) => size <= MAX_SIZE
    case Dir(entries) => forall i | 0 <= i < |entries| :: Plain(entries[i].1)
    case _ => false
  }

  predicate InRoots(roots: seq<Path>, at: Path) { exists root | root in roots :: Within(root, at) }

  ghost predicate DistinctKeys(s: seq<Upload>) { forall i, j | 0 <= i < j < |s| :: s[i].key != s[j].key }

  ghost predicate Fits(s: seq<Upload>) { DistinctKeys(s) && |s| <= MAX_FILES }

  lemma FitsOneMore(s: seq<Upload>, u: Upload)
    requires Fits(s)
    ensures Fits(s + [u]) <==> |s| < MAX_FILES && !(exists v | v in s :: v.key == u.key)
  {
    var t := s + [u];
    if v :| v in s && v.key == u.key {
      var i :| 0 <= i < |s| && s[i] == v;
      assert t[i].key == t[|s|].key;
    }
  }

  /** What the walk accepts, after the files found before. */
  ghost predicate Acceptable(roots: seq<Path>, node: Node, at: Path, key: string, before: seq<Upload>) {
    Plain(node) && InRoots(roots, at) && Fits(before + Files(node, at, key))
  }

  lemma {:induction false} BelowGrows(node: Node, m: nat, n: nat, at: Path, key: string)
    requires node.Dir? && m <= n <= |node.entries|
    ensures FilesBelow(node, m, at, key) <= FilesBelow(node, n, at, key)
    decreases n
  {
    if m < n { BelowGrows(node, m, n - 1, at, key); }
  }

  lemma FitsPrefix(part: seq<Upload>, whole: seq<Upload>)
    requires part <= whole && Fits(whole)
    ensures Fits(part)
  {
  }

  lemma InRootsBelow(roots: seq<Path>, at: Path, name: string)
    requires ValidPath(at) && ValidName(name) && InRoots(roots, at) && forall root :: root in roots ==> ValidPath(root)
    ensures InRoots(roots, at + [name])
  {
    var root :| root in roots && Within(root, at);
    WithinIsPrefix(root, at);
    WithinIsPrefix(root, at + [name]);
  }

  /** A directory is acceptable only if each of its entries is, after those before it. */
  lemma ChildDecides(roots: seq<Path>, node: Node, i: nat, at: Path, key: string, before: seq<Upload>)
    requires node.Dir? && i < |node.entries| && WellFormed(node) && ValidPath(at)
    requires forall root :: root in roots ==> ValidPath(root)
    ensures var (name, child) := node.entries[i];
            Acceptable(roots, node, at, key, before) ==>
              Acceptable(roots, child, at + [name], key + "/" + name, before + FilesBelow(node, i, at, key))
  {
    if !Acceptable(roots, node, at, key, before) { return; }
    var (name, child) := node.entries[i];
    ChildFits(node, i, at, key, before);
    InRootsBelow(roots, at, name);
  }

  lemma ChildFits(node: Node, i: nat, at: Path, key: string, before: seq<Upload>)
    requires node.Dir? && i < |node.entries| && Fits(before + Files(node, at, key))
    ensures var (name, child) := node.entries[i];
            Fits(before + FilesBelow(node, i, at, key) + Files(child, at + [name], key + "/" + name))
  {
    var (name, child) := node.entries[i];
    BelowGrows(node, i + 1, |node.entries|, at, key);
    var part, whole := before + FilesBelow(node, i + 1, at, key), before + Files(node, at, key);
    assert part <= whole;
    FitsPrefix(part, whole);
    assert part == before + FilesBelow(node, i, at, key) + Files(child, at + [name], key + "/" + name);
  }

  class Planner {
    const roots: seq<Path>
    var result: seq<Upload>
    var keys: set<string>

    ghost predicate Valid()
      reads this
    {
      Fits(result) && keys == (set u | u in result :: u.key) && forall root :: root in roots ==> ValidPath(root)
    }

    constructor (roots: seq<Path>)
      requires forall root :: root in roots ==> ValidPath(root)
      ensures Valid() && result == [] && this.roots == roots
    {
      this.roots, result, keys := roots, [], {};
    }

    /** One step of the walk.  It may be stopped by a failing file system call or by the user at any time; unless
        it is, it succeeds exactly when the tree is acceptable, and then adds exactly its files. */
    method Walk(node: Node, at: Path, key: string) returns (ok: bool, stopped: bool)
      requires Valid() && WellFormed(node) && ValidPath(at)
      modifies this
      ensures ok ==> Valid() && result == old(result) + Files(node, at, key) && Plain(node) && InRoots(roots, at)
      ensures stopped ==> !ok
      ensures !ok && !stopped ==> !Acceptable(roots, node, at, key, old(result))
      decreases node, 1, 0
    {
      ok, stopped := false, false;
      if * { return false, true; }
      if node.Symlink? || !(exists root | root in roots :: Within(root, at)) { return; }
      match node {
        case File(size) =>
          FitsOneMore(result, Upload(at, key, size));
          if size > MAX_SIZE || key in keys { return; }
          keys := keys + {key};
          result := result + [Upload(at, key, size)];
          if |result| > MAX_FILES { return; }
          ok := true;
        case Dir(entries) =>
          ok, stopped := WalkEntries(node, at, key);
        case _ =>
      }
    }

    /** One entry of a directory, behind the entries before it. */
    method WalkEntry(node: Node, i: nat, at: Path, key: string, ghost before: seq<Upload>) returns (ok: bool, stopped: bool)
      requires Valid() && WellFormed(node) && ValidPath(at) && node.Dir? && i < |node.entries|
      requires result == before + FilesBelow(node, i, at, key)
      modifies this
      ensures ok ==> Valid() && result == before + FilesBelow(node, i + 1, at, key) && Plain(node.entries[i].1)
      ensures stopped ==> !ok
      ensures !ok && !stopped ==> !Acceptable(roots, node, at, key, before)
      decreases node, 0, 0
    {
      var (name, child) := node.entries[i];
      ok, stopped := Walk(child, at + [name], key + "/" + name);
      if ok {
        assert before + FilesBelow(node, i, at, key) + Files(child, at + [name], key + "/" + name) == before + FilesBelow(node, i + 1, at, key);
      } else {
        ChildDecides(roots, node, i, at, key, before);
      }
    }

    method WalkEntries(node: Node, at: Path, key: string) returns (ok: bool, stopped: bool)
      requires Valid() && WellFormed(node) && ValidPath(at) && node.Dir?
      modifies this
      ensures ok ==> Valid() && result == old(result) + Files(node, at, key) && Plain(node)
      ensures stopped ==> !ok
      ensures !ok && !stopped ==> !Acceptable(roots, node, at, key, old(result))
      decreases node, 0, 1
    {
      for i := 0 to |node.entries|
        invariant Valid() && result == old(result) + FilesBelow(node, i, at, key)
        invariant forall j :: 0 <= j < i ==> Plain(node.entries[j].1)
      {
        ok, stopped := WalkEntry(node, i, at, key, old(result));
        if !ok { return; }
      }
      return true, false;
    }
  }

  // ---------- A whole selection ----------

  /** A selected path, its real path (they differ below a symbolic link), and what is there. */
  datatype Source = Source(path: Path, at: Path, node: Node)

  function BaseName(p: Path): string { if p == [] then "" else p[|p| - 1] }

  lemma BaseNameIs(directory: Path, name: string)
    ensures BaseName(directory + [name]) == name
  {
  }

  function Unique(sources: seq<Source>): (r: seq<Source>)
    ensures forall s :: s in r <==> s in sources
    ensures forall i, j | 0 <= i < j < |r| :: r[i] != r[j]
  {
    if sources == [] then []
    else
      var before, last := Unique(sources[..|sources| - 1]), sources[|sources| - 1];
      assert sources == sources[..|sources| - 1] + [last];
      if last in before then before else before + [last]
  }

  predicate Nested(selected: seq<Source>, s: Source) {
    exists t | t in selected :: t.path != s.path && Within(t.path, s.path)
  }

  function Outermost(selected: seq<Source>, n: nat): (r: seq<Source>)
    requires n <= |selected|
    requires forall i, j | 0 <= i < j < |selected| :: selected[i] != selected[j]
    ensures forall s :: s in r <==> s in selected[..n] && !Nested(selected, s)
    ensures forall i, j | 0 <= i < j < |r| :: r[i] != r[j]
  {
    if n == 0 then []
    else
      assert selected[..n] == selected[..n - 1] + [selected[n - 1]];
      Outermost(selected, n - 1) + if Nested(selected, selected[n - 1]) then [] else [selected[n - 1]]
  }

  /** Repeated selections count once, and those below another selection not at all. */
  function Kept(sources: seq<Source>): (r: seq<Source>)
    ensures forall s :: s in r <==> s in sources && !Nested(Unique(sources), s)
    ensures forall i, j | 0 <= i < j < |r| :: r[i] != r[j]
  {
    assert Unique(sources)[..|Unique(sources)|] == Unique(sources);
    Outermost(Unique(sources), |Unique(sources)|)
  }

  function FilesOf(kept: seq<Source>, n: nat, prefix: string): seq<Upload>
    requires n <= |kept|
  {
    if n == 0 then []
    else FilesOf(kept, n - 1, prefix) + Files(kept[n - 1].node, kept[n - 1].at, prefix + BaseName(kept[n - 1].path))
  }

  /** The selections are paths of one file system. */
  predicate Proper(sources: seq<Source>) {
    && (forall s | s in sources :: ValidPath(s.path) && ValidPath(s.at) && WellFormed(s.node))
    && (forall s, t | s in sources && t in sources :: s.path == t.path ==> s == t)
  }

  ghost predicate Uploadable(kept: seq<Source>, roots: seq<Path>, prefix: string) {
    (forall s | s in kept :: Plain(s.node) && InRoots(roots, s.at)) && Fits(FilesOf(kept, |kept|, prefix))
  }

  lemma {:induction false} FilesOfGrows(kept: seq<Source>, m: nat, n: nat, prefix: string)
    requires m <= n <= |kept|
    ensures FilesOf(kept, m, prefix) <= FilesOf(kept, n, prefix)
    decreases n
  {
    if m < n { FilesOfGrows(kept, m, n - 1, prefix); }
  }

  lemma SourceDecides(kept: seq<Source>, i: nat, roots: seq<Path>, prefix: string)
    requires i < |kept|
    ensures Uploadable(kept, roots, prefix) ==>
              Acceptable(roots, kept[i].node, kept[i].at, prefix + BaseName(kept[i].path), FilesOf(kept, i, prefix))
  {
    if !Uploadable(kept, roots, prefix) { return; }
    FilesOfGrows(kept, i + 1, |kept|, prefix);
    FitsPrefix(FilesOf(kept, i + 1, prefix), FilesOf(kept, |kept|, prefix));
  }

  /** Unless it is stopped, planning succeeds exactly when the selection is uploadable, with exactly its files. */
  method PlanUpload(sources: seq<Source>, roots: seq<Path>, prefix: string) returns (r: Reply<seq<Upload>>, stopped: bool)
    requires Proper(sources) && forall root :: root in roots ==> ValidPath(root)
    ensures r.Ok? ==> r.value == FilesOf(Kept(sources), |Kept(sources)|, prefix)
    ensures r.Ok? ==> Uploadable(Kept(sources), roots, prefix)
    ensures !stopped && Uploadable(Kept(sources), roots, prefix) ==> r.Ok?
  {
    var planner := new Planner(roots);
    var kept := Kept(sources);
    for i := 0 to |kept|
      invariant planner.Valid() && planner.roots == roots && planner.result == FilesOf(kept, i, prefix)
      invariant forall j :: 0 <= j < i ==> Plain(kept[j].node) && InRoots(roots, kept[j].at)
    {
      var ok, halted := planner.Walk(kept[i].node, kept[i].at, prefix + BaseName(kept[i].path));
      if !ok {
        SourceDecides(kept, i, roots, prefix);
        return Failed, halted;
      }
    }
    return Ok(planner.result), false;
  }

  // ---------- The plan is exact ----------

  /** The key of the file at `p` below a directory with key `key`. */
  function KeyAt(key: string, p: Path): string
    decreases |p|
  {
    if p == [] then key else KeyAt(key + "/" + p[0], p[1..])
  }

  predicate FileAt(node: Node, p: Path, size: nat) { Lookup(node, p) == Some(File(size)) }

  lemma {:induction false} ChildAt(entries: seq<(string, Node)>, i: nat)
    requires i < |entries| && forall a, b | 0 <= a < b < |entries| :: entries[a].0 != entries[b].0
    ensures Child(entries, entries[i].0) == Some(entries[i].1)
  {
    if i > 0 { ChildAt(entries[1..], i - 1); }
  }

  lemma {:induction false} ChildIndex(entries: seq<(string, Node)>, name: string) returns (i: nat)
    requires Child(entries, name).Some?
    ensures i < |entries| && entries[i] == (name, Child(entries, name).value)
  {
    if entries[0].0 == name { i := 0; } else { i := ChildIndex(entries[1..], name); i := i + 1; }
  }

  /** Every regular file is planned, under its key ... */
  lemma {:induction false} FilesComplete(node: Node, at: Path, key: string, p: Path, size: nat)
    requires FileAt(node, p, size)
    ensures Upload(at + p, KeyAt(key, p), size) in Files(node, at, key)
    decreases |p|
  {
    if p == [] {
      assert at + p == at;
    } else {
      var i := ChildIndex(node.entries, p[0]);
      var (name, child) := node.entries[i];
      FilesComplete(child, at + [name], key + "/" + name, p[1..], size);
      assert at + [name] + p[1..] == at + p;
      assert Upload(at + p, KeyAt(key, p), size) in FilesBelow(node, i + 1, at, key);
      BelowGrows(node, i + 1, |node.entries|, at, key);
    }
  }

  /** ... and nothing else. */
  lemma {:induction false} FilesSound(node: Node, at: Path, key: string, u: Upload) returns (p: Path)
    requires WellFormed(node) && u in Files(node, at, key)
    ensures FileAt(node, p, u.size) && u.file == at + p && u.key == KeyAt(key, p)
    decreases node, 1, 0
  {
    if node.File? {
      p := [];
    } else {
      var _, q := BelowSound(node, |node.entries|, at, key, u);
      p := q;
    }
  }

  lemma {:induction false} BelowSound(node: Node, n: nat, at: Path, key: string, u: Upload) returns (i: nat, p: Path)
    requires WellFormed(node) && node.Dir? && n <= |node.entries| && u in FilesBelow(node, n, at, key)
    ensures FileAt(node, p, u.size) && u.file == at + p && u.key == KeyAt(key, p)
    ensures i < n && p != [] && p[0] == node.entries[i].0
    decreases node, 0, n
  {
    var (name, child) := node.entries[n - 1];
    if u in Files(child, at + [name], key + "/" + name) {
      var q := FilesSound(child, at + [name], key + "/" + name, u);
      i, p := n - 1, [name] + q;
      ChildAt(node.entries, n - 1);
      assert p[1..] == q && at + [name] + q == at + p;
    } else {
      i, p := BelowSound(node, n - 1, at, key, u);
    }
  }

  ghost predicate DistinctFiles(s: seq<Upload>) { forall i, j | 0 <= i < j < |s| :: s[i].file != s[j].file }

  lemma DistinctConcat(a: seq<Upload>, b: seq<Upload>)
    requires DistinctFiles(a) && DistinctFiles(b)
    requires forall u, v :: u in a && v in b ==> u.file != v.file
    ensures DistinctFiles(a + b)
  {
  }

  lemma {:induction false} TreeOnce(node: Node, at: Path, key: string)
    requires WellFormed(node)
    ensures DistinctFiles(Files(node, at, key))
    decreases node, 1, 0
  {
    if node.Dir? { BelowOnce(node, |node.entries|, at, key); }
  }

  lemma {:induction false} BelowOnce(node: Node, n: nat, at: Path, key: string)
    requires WellFormed(node) && node.Dir? && n <= |node.entries|
    ensures DistinctFiles(FilesBelow(node, n, at, key))
    decreases node, 0, n
  {
    if n > 0 {
      var (name, child) := node.entries[n - 1];
      BelowOnce(node, n - 1, at, key);
      TreeOnce(child, at + [name], key + "/" + name);
      forall u, v | u in FilesBelow(node, n - 1, at, key) && v in Files(child, at + [name], key + "/" + name)
        ensures u.file != v.file
      {
        var i, p := BelowSound(node, n - 1, at, key, u);
        var q := FilesSound(child, at + [name], key + "/" + name, v);
        assert u.file[|at|] == node.entries[i].0 && v.file[|at|] == name;
      }
      DistinctConcat(FilesBelow(node, n - 1, at, key), Files(child, at + [name], key + "/" + name));
    }
  }

  /** An upload comes from a kept selection and a regular file below it, and every such file is uploaded. */
  ghost predicate Planned(kept: seq<Source>, prefix: string, s: Source, p: Path, u: Upload) {
    && s in kept && FileAt(s.node, p, u.size) && u.file == s.at + p && u.key == KeyAt(prefix + BaseName(s.path), p)
  }

  lemma {:induction false} PlanSound(kept: seq<Source>, n: nat, prefix: string, u: Upload) returns (i: nat, p: Path)
    requires n <= |kept| && (forall s :: s in kept ==> WellFormed(s.node)) && u in FilesOf(kept, n, prefix)
    ensures i < n && Planned(kept, prefix, kept[i], p, u)
  {
    var s := kept[n - 1];
    if u in Files(s.node, s.at, prefix + BaseName(s.path)) {
      i := n - 1;
      p := FilesSound(s.node, s.at, prefix + BaseName(s.path), u);
    } else {
      i, p := PlanSound(kept, n - 1, prefix, u);
    }
  }

  lemma PlanComplete(kept: seq<Source>, i: nat, prefix: string, p: Path, u: Upload)
    requires i < |kept| && Planned(kept, prefix, kept[i], p, u)
    ensures u in FilesOf(kept, i + 1, prefix) && u in FilesOf(kept, |kept|, prefix)
  {
    FilesComplete(kept[i].node, kept[i].at, prefix + BaseName(kept[i].path), p, u.size);
    FilesOfGrows(kept, i + 1, |kept|, prefix);
  }

  /** Keeping the outermost selections leaves no path inside another ... */
  lemma KeptAreSeparate(sources: seq<Source>, s: Source, t: Source)
    requires Proper(sources) && s in Kept(sources) && t in Kept(sources) && s != t
    ensures !(s.path <= t.path)
  {
    WithinIsPrefix(s.path, t.path);
    assert s in Unique(sources);
  }

  /** ... and every selection at or below a kept one. */
  lemma {:induction false} KeptCover(sources: seq<Source>, s: Source) returns (k: Source)
    requires Proper(sources) && s in sources
    ensures k in Kept(sources) && k.path <= s.path
    decreases |s.path|
  {
    if Nested(Unique(sources), s) {
      var t :| t in Unique(sources) && t.path != s.path && Within(t.path, s.path);
      WithinIsPrefix(t.path, s.path);
      k := KeptCover(sources, t);
    } else {
      k := s;
    }
  }

  /** What is at a path below a directory without links is found through the directory. */
  ghost predicate Consistent(sources: seq<Source>) {
    forall s, t | s in sources && t in sources :: s.path <= t.path && Plain(s.node) ==>
      t.at == s.at + t.path[|s.path|..] && Lookup(s.node, t.path[|s.path|..]) == Some(t.node)
  }

  lemma {:induction false} LookupConcat(node: Node, p: Path, q: Path)
    requires Lookup(node, p).Some?
    ensures Lookup(node, p + q) == Lookup(Lookup(node, p).value, q)
    decreases |p|
  {
    if p == [] {
      assert p + q == q;
    } else {
      assert (p + q)[0] == p[0] && (p + q)[1..] == p[1..] + q;
      LookupConcat(Child(node.entries, p[0]).value, p[1..], q);
    }
  }

  lemma Rejoin(a: Path, b: Path, p: Path)
    requires a <= b
    ensures a + (b[|a|..] + p) == b + p
  {
  }

  lemma FileThrough(node: Node, rest: Path, inner: Node, p: Path, size: nat)
    requires Lookup(node, rest) == Some(inner) && FileAt(inner, p, size)
    ensures FileAt(node, rest + p, size)
  {
    LookupConcat(node, rest, p);
  }

  /** Every regular file at or below any selection, dropped ones included, is uploaded. */
  lemma SelectedFilesAreUploaded(sources: seq<Source>, roots: seq<Path>, prefix: string, s: Source, p: Path, size: nat) returns (u: Upload)
    requires Proper(sources) && Consistent(sources) && Uploadable(Kept(sources), roots, prefix)
    requires s in sources && FileAt(s.node, p, size)
    ensures u in FilesOf(Kept(sources), |Kept(sources)|, prefix) && u.file == s.at + p && u.size == size
  {
    var k := KeptCover(sources, s);
    var rest := s.path[|k.path|..];
    assert s.at == k.at + rest && Lookup(k.node, rest) == Some(s.node);
    FileThrough(k.node, rest, s.node, p, size);
    u := KeptFileIsUploaded(Kept(sources), k, prefix, rest + p, size);
    Rejoin(k.at, s.at, p);
    assert s.at[|k.at|..] == rest;
  }

  lemma KeptFileIsUploaded(kept: seq<Source>, k: Source, prefix: string, p: Path, size: nat) returns (u: Upload)
    requires k in kept && FileAt(k.node, p, size)
    ensures u in FilesOf(kept, |kept|, prefix) && u.file == k.at + p && u.size == size
  {
    var i :| 0 <= i < |kept| && kept[i] == k;
    u := Upload(k.at + p, KeyAt(prefix + BaseName(k.path), p), size);
    PlanComplete(kept, i, prefix, p, u);
  }

  /** The real paths are those of one file system too. */
  ghost predicate OneTree(sources: seq<Source>) {
    forall s, t | s in sources && t in sources :: s.at <= t.at ==> Lookup(s.node, t.at[|s.at|..]) == Some(t.node)
  }

  /** A kept selection with files whose real path is inside another's. */
  ghost predicate Overlap(kept: seq<Source>) {
    exists i, j | 0 <= i < |kept| && 0 <= j < |kept| :: i != j && kept[i].at <= kept[j].at && HasFile(kept[j].node)
  }

  ghost predicate HasFile(node: Node) { exists p, size :: FileAt(node, p, size) }

  lemma NoSharedFile(kept: seq<Source>, n: nat, prefix: string, u: Upload, v: Upload)
    requires 0 < n <= |kept| && (forall s :: s in kept ==> WellFormed(s.node)) && !Overlap(kept)
    requires u in FilesOf(kept, n - 1, prefix)
    requires v in Files(kept[n - 1].node, kept[n - 1].at, prefix + BaseName(kept[n - 1].path))
    ensures u.file != v.file
  {
    var i, p := PlanSound(kept, n - 1, prefix, u);
    var q := FilesSound(kept[n - 1].node, kept[n - 1].at, prefix + BaseName(kept[n - 1].path), v);
    if u.file == v.file { SameFileOverlaps(kept, i, n - 1, p, q, u.size, v.size); }
  }

  lemma {:induction false} PlanOnce(kept: seq<Source>, n: nat, prefix: string)
    requires n <= |kept| && (forall s :: s in kept ==> WellFormed(s.node)) && OneTree(kept) && !Overlap(kept)
    ensures DistinctFiles(FilesOf(kept, n, prefix))
    decreases n
  {
    if n > 0 {
      var s := kept[n - 1];
      PlanOnce(kept, n - 1, prefix);
      TreeOnce(s.node, s.at, prefix + BaseName(s.path));
      forall u, v | u in FilesOf(kept, n - 1, prefix) && v in Files(s.node, s.at, prefix + BaseName(s.path))
        ensures u.file != v.file
      {
        NoSharedFile(kept, n, prefix, u, v);
      }
      DistinctConcat(FilesOf(kept, n - 1, prefix), Files(s.node, s.at, prefix + BaseName(s.path)));
    }
  }

  lemma SameFileOverlaps(kept: seq<Source>, i: nat, j: nat, p: Path, q: Path, m: nat, n: nat)
    requires i < |kept| && j < |kept| && i != j
    requires FileAt(kept[i].node, p, m) && FileAt(kept[j].node, q, n) && kept[i].at + p == kept[j].at + q
    ensures Overlap(kept)
  {
    var a, b := kept[i].at, kept[j].at;
    assert HasFile(kept[i].node) && HasFile(kept[j].node);
    if |a| <= |b| {
      assert a == (a + p)[..|a|] == (b + q)[..|a|] == b[..|a|];
    } else {
      assert b == (b + q)[..|b|] == (a + p)[..|b|] == a[..|b|];
    }
  }

  lemma OverlapRepeats(kept: seq<Source>, prefix: string)
    requires (forall s :: s in kept ==> WellFormed(s.node)) && OneTree(kept) && Overlap(kept)
    ensures !DistinctFiles(FilesOf(kept, |kept|, prefix))
  {
    var i, j :| 0 <= i < |kept| && 0 <= j < |kept| && i != j && kept[i].at <= kept[j].at && HasFile(kept[j].node);
    var p, size :| FileAt(kept[j].node, p, size);
    var rest := kept[j].at[|kept[i].at|..];
    assert kept[i] in kept && kept[j] in kept;
    FileThrough(kept[i].node, rest, kept[j].node, p, size);
    Rejoin(kept[i].at, kept[j].at, p);
    if i < j {
      RepeatedBetween(kept, i, j, rest + p, p, size, prefix);
    } else {
      RepeatedBetween(kept, j, i, p, rest + p, size, prefix);
    }
  }

  lemma RepeatedIn(all: seq<Upload>, a: seq<Upload>, b: seq<Upload>, u: Upload, v: Upload)
    requires a + b <= all && u in a && v in b && u.file == v.file
    ensures !DistinctFiles(all)
  {
    var i :| 0 <= i < |a| && a[i] == u;
    var j :| 0 <= j < |b| && b[j] == v;
    assert (a + b)[i] == u && (a + b)[|a| + j] == v;
    assert all[i].file == all[|a| + j].file;
  }

  /** The plan holds twice a file that two kept selections share. */
  lemma RepeatedBetween(kept: seq<Source>, i: nat, j: nat, p: Path, q: Path, size: nat, prefix: string)
    requires i < j < |kept|
    requires FileAt(kept[i].node, p, size) && FileAt(kept[j].node, q, size) && kept[i].at + p == kept[j].at + q
    ensures !DistinctFiles(FilesOf(kept, |kept|, prefix))
  {
    var here := Files(kept[j].node, kept[j].at, prefix + BaseName(kept[j].path));
    var v := Upload(kept[j].at + q, KeyAt(prefix + BaseName(kept[j].path), q), size);
    var u := PlannedBefore(kept, i, j, prefix, p, size);
    FilesComplete(kept[j].node, kept[j].at, prefix + BaseName(kept[j].path), q, size);
    FilesOfGrows(kept, j + 1, |kept|, prefix);
    assert FilesOf(kept, j + 1, prefix) == FilesOf(kept, j, prefix) + here;
    RepeatedIn(FilesOf(kept, |kept|, prefix), FilesOf(kept, j, prefix), here, u, v);
  }

  lemma PlannedBefore(kept: seq<Source>, i: nat, j: nat, prefix: string, p: Path, size: nat) returns (u: Upload)
    requires i < j <= |kept| && FileAt(kept[i].node, p, size)
    ensures u in FilesOf(kept, j, prefix) && u.file == kept[i].at + p
  {
    u := Upload(kept[i].at + p, KeyAt(prefix + BaseName(kept[i].path), p), size);
    PlanComplete(kept, i, prefix, p, u);
    FilesOfGrows(kept, i + 1, j, prefix);
  }

  /** Each file is uploaded once exactly when no kept selection with files is really inside another one. */
  lemma UploadedOnceExactly(sources: seq<Source>, prefix: string)
    requires Proper(sources) && OneTree(sources)
    ensures DistinctFiles(FilesOf(Kept(sources), |Kept(sources)|, prefix)) <==> !Overlap(Kept(sources))
  {
    var kept := Kept(sources);
    if Overlap(kept) { OverlapRepeats(kept, prefix); } else { PlanOnce(kept, |kept|, prefix); }
  }

  /** Without links above the selections that is always so, however they are nested or repeated. */
  lemma RealSelectionsUploadOnce(sources: seq<Source>, prefix: string)
    requires Proper(sources) && OneTree(sources) && forall s | s in sources :: s.at == s.path
    ensures DistinctFiles(FilesOf(Kept(sources), |Kept(sources)|, prefix))
  {
    var kept := Kept(sources);
    forall i, j | 0 <= i < |kept| && 0 <= j < |kept| && i != j ensures !(kept[i].at <= kept[j].at) {
      KeptAreSeparate(sources, kept[i], kept[j]);
    }
    UploadedOnceExactly(sources, prefix);
  }

  /** The selections /w/l/d and /w/d/x, where /w/l links to /w and /w/d holds only the file x. */
  function Linked(w: string, l: string, d: string, x: string, size: nat): seq<Source> {
    [Source([w, l, d], [w, d], Dir([(x, File(size))])), Source([w, d, x], [w, d, x], File(size))]
  }

  /** With a link above a selection a file can be uploaded twice, under two keys. */
  lemma LinkedSelectionUploadsTwice(w: string, l: string, d: string, x: string, size: nat, prefix: string)
    requires ValidName(w) && ValidName(l) && ValidName(d) && ValidName(x) && l != d && size <= MAX_SIZE
    ensures var sources := Linked(w, l, d, x, size);
            && Proper(sources) && OneTree(sources) && Kept(sources) == sources && Uploadable(sources, [[w]], prefix)
            && FilesOf(sources, 2, prefix) == [Upload([w, d, x], prefix + d + "/" + x, size), Upload([w, d, x], prefix + x, size)]
  {
    var a, b := Linked(w, l, d, x, size)[0], Linked(w, l, d, x, size)[1];
    WithinIsPrefix(a.path, b.path);
    WithinIsPrefix(b.path, a.path);
    LinkedIsOneTree(w, l, d, x, size);
    KeptPair(a, b);
    LinkedIsUploadable(a, b, w, d, x, size, prefix);
  }

  lemma LinkedIsUploadable(a: Source, b: Source, w: string, d: string, x: string, size: nat, prefix: string)
    requires ValidName(w) && ValidName(d) && ValidName(x) && size <= MAX_SIZE && a.path != [] && a.path[|a.path| - 1] == d
    requires a.at == [w, d] && a.node == Dir([(x, File(size))]) && b == Source([w, d, x], [w, d, x], File(size))
    ensures Uploadable([a, b], [[w]], prefix)
    ensures FilesOf([a, b], 2, prefix) == [Upload([w, d, x], prefix + d + "/" + x, size), Upload([w, d, x], prefix + x, size)]
  {
    BelowRoot(w, a.at);
    BelowRoot(w, b.at);
    FilesOfPair(a, b, x, size, prefix);
    assert [w, d] + [x] == [w, d, x];
    var u, v := Upload([w, d, x], prefix + d + "/" + x, size), Upload([w, d, x], prefix + x, size);
    assert |u.key| > |v.key|;
    assert Fits([u, v]);
  }

  lemma BelowRoot(w: string, at: Path)
    requires ValidPath(at) && at != [] && at[0] == w
    ensures InRoots([[w]], at)
  {
    assert [w] <= at && at[0] in at;
    WithinIsPrefix([w], at);
    assert [w] in [[w]];
  }

  lemma LinkedIsOneTree(w: string, l: string, d: string, x: string, size: nat)
    requires ValidName(w) && ValidName(l) && ValidName(d) && ValidName(x) && l != d
    ensures Proper(Linked(w, l, d, x, size)) && OneTree(Linked(w, l, d, x, size))
  {
  }

  lemma FilesOfPair(a: Source, b: Source, name: string, size: nat, prefix: string)
    requires a.node == Dir([(name, File(size))]) && b.node == File(size)
    ensures FilesOf([a, b], 2, prefix) ==
            [Upload(a.at + [name], prefix + BaseName(a.path) + "/" + name, size), Upload(b.at, prefix + BaseName(b.path), size)]
  {
    var key := prefix + BaseName(a.path);
    assert FilesBelow(a.node, 0, a.at, key) == [];
    assert FilesBelow(a.node, 1, a.at, key) == [Upload(a.at + [name], key + "/" + name, size)];
    assert FilesOf([a, b], 0, prefix) == [];
    assert FilesOf([a, b], 1, prefix) == Files(a.node, a.at, key);
    assert FilesOf([a, b], 2, prefix) == FilesOf([a, b], 1, prefix) + Files(b.node, b.at, prefix + BaseName(b.path));
  }

  lemma UniquePair(a: Source, b: Source)
    requires a.path != b.path
    ensures Unique([a, b]) == [a, b]
  {
    var both := [a, b];
    assert both[..1] == [a] && [a][..0] == [] && both[..2] == both;
    assert Unique([a]) == [a];
  }

  lemma KeptPair(a: Source, b: Source)
    requires a.path != b.path && !Within(a.path, b.path) && !Within(b.path, a.path)
    ensures Kept([a, b]) == [a, b]
  {
    var both := [a, b];
    UniquePair(a, b);
    assert Outermost(both, 0) == [];
    assert Outermost(both, 1) == [a];
    assert Outermost(both, 2) == both;
  }

  /** Nothing outside the workspace roots is uploaded. */
  lemma UploadsStayInside(kept: seq<Source>, roots: seq<Path>, prefix: string, u: Upload)
    requires Proper(kept) && Uploadable(kept, roots, prefix) && (forall root :: root in roots ==> ValidPath(root))
    requires u in FilesOf(kept, |kept|, prefix)
    ensures exists root :: root in roots && root <= u.file
  {
    var i, p := PlanSound(kept, |kept|, prefix, u);
    var root :| root in roots && Within(root, kept[i].at);
    WithinIsPrefix(root, kept[i].at);
    assert root <= kept[i].at <= u.file;
  }
}
