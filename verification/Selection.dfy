/** Reducing a multi-selection to the topmost nodes (selectedNodes in s3-transfers.js). */
module Selection {
  import opened Wrappers
  import opened Profiles

  /** The key under which the selection map stores a node. */
  predicate SameIdentity(a: Node, b: Node) {
    a.profileId == b.profileId && a.kind == b.kind && a.path == b.path
  }

  predicate SamePlace(a: Node, b: Node) {
    SameIdentity(a, b) && a.bucket == b.bucket
  }

  /** `p` is a folder whose prefix is a prefix of the node's path. */
  predicate Below(n: Node, p: Node) {
    p.kind.Folder? && p.profileId == n.profileId && p.bucket == n.bucket && p.path <= n.path
  }

  /** `n` is `m`, or in the folder `m`, of the same profile and bucket. */
  predicate AtOrBelow(n: Node, m: Node) {
    && n.profileId == m.profileId && n.bucket == m.bucket
    && ((n.kind == m.kind && n.path == m.path) || (m.kind.Folder? && m.path <= n.path))
  }

  /** Storing in a map keeps the position of the first insertion and the value of the last. */
  function Insert(unique: seq<Node>, n: Node): seq<Node> {
    if unique == [] then [n]
    else if SameIdentity(unique[0], n) then [n] + unique[1..]
    else [unique[0]] + Insert(unique[1..], n)
  }

  function Unique(nodes: seq<Node>): seq<Node> {
    if nodes == [] then [] else Insert(Unique(nodes[..|nodes| - 1]), nodes[|nodes| - 1])
  }

  predicate Selectable(n: Node) {
    !n.root && !n.kind.Other? && n.path != ""
  }

  predicate Covered(n: Node, unique: seq<Node>) {
    exists p <- unique :: p != n && Below(n, p)
  }

  function Topmost(candidates: seq<Node>, unique: seq<Node>): (r: seq<Node>)
    ensures forall n :: n in r <==> n in candidates && !Covered(n, unique)
  {
    if candidates == [] then []
    else (if Covered(candidates[0], unique) then [] else [candidates[0]]) + Topmost(candidates[1..], unique)
  }

  function SelectedNodes(nodes: seq<Node>): Reply<seq<Node>> {
    var unique := Unique(nodes);
    if exists n <- unique :: !Selectable(n) then Failed else Ok(Topmost(unique, unique))
  }

  ghost predicate LastFrom(nodes: seq<Node>, n: Node, i: nat)
    requires i < |nodes|
  {
    nodes[i] == n && forall j :: i < j < |nodes| ==>
      nodes[j].profileId != n.profileId || nodes[j].kind != n.kind || nodes[j].path != n.path
  }

  /** `n` is the last node of its profile, kind and path in the input: the one the map keeps. */
  ghost predicate IsLast(nodes: seq<Node>, n: Node) {
    exists i :: 0 <= i < |nodes| && LastFrom(nodes, n, i)
  }

  predicate Distinct(nodes: seq<Node>) {
    forall i, j :: 0 <= i < j < |nodes| ==> !SameIdentity(nodes[i], nodes[j])
  }

  lemma {:induction false} InsertKeepsDistinct(unique: seq<Node>, n: Node)
    requires Distinct(unique)
    ensures Distinct(Insert(unique, n))
    ensures forall m :: m in Insert(unique, n) <==> m == n || (m in unique && !SameIdentity(m, n))
  {
    if unique == [] {
    } else if SameIdentity(unique[0], n) {
    } else {
      InsertKeepsDistinct(unique[1..], n);
      var rest := Insert(unique[1..], n);
      forall j | 0 <= j < |rest| ensures !SameIdentity(unique[0], rest[j]) {
        assert rest[j] in rest;
      }
    }
  }

  lemma LastAdds(nodes: seq<Node>, n: Node)
    requires nodes != []
    ensures var front, last := nodes[..|nodes| - 1], nodes[|nodes| - 1];
            IsLast(nodes, n) <==> n == last || (IsLast(front, n) && !SameIdentity(n, last))
  {
    var front, last := nodes[..|nodes| - 1], nodes[|nodes| - 1];
    if n == last { LastAt(nodes, n, |nodes| - 1); }
    if n != last && IsLast(nodes, n) {
      var i :| 0 <= i < |nodes| && LastFrom(nodes, n, i);
      assert nodes[|nodes| - 1] == last && i < |front|;
      LastAt(front, n, i);
    }
    if IsLast(front, n) && !SameIdentity(n, last) {
      var i :| 0 <= i < |front| && LastFrom(front, n, i);
      LastAt(nodes, n, i);
    }
  }

  lemma LastAt(nodes: seq<Node>, n: Node, i: nat)
    requires i < |nodes| && LastFrom(nodes, n, i)
    ensures IsLast(nodes, n)
  {
  }

  /** The map holds exactly the last node of every identity. */
  lemma {:induction false} UniqueIsLast(nodes: seq<Node>)
    ensures Distinct(Unique(nodes))
    ensures forall n :: n in Unique(nodes) <==> IsLast(nodes, n)
  {
    if nodes != [] {
      var front, last := nodes[..|nodes| - 1], nodes[|nodes| - 1];
      UniqueIsLast(front);
      InsertKeepsDistinct(Unique(front), last);
      forall n ensures IsLast(nodes, n) <==> n == last || (IsLast(front, n) && !SameIdentity(n, last)) {
        LastAdds(nodes, n);
      }
    }
  }

  lemma {:induction false} TopmostKeepsDistinct(candidates: seq<Node>, unique: seq<Node>)
    requires Distinct(candidates)
    ensures Distinct(Topmost(candidates, unique))
  {
    if candidates != [] {
      TopmostKeepsDistinct(candidates[1..], unique);
      var rest := Topmost(candidates[1..], unique);
      forall j | 0 <= j < |rest| ensures !SameIdentity(candidates[0], rest[j]) {
        assert rest[j] in rest;
      }
    }
  }

  /** A member of the deduplicated selection lies at or below some topmost member. */
  lemma {:induction false} HasTopmost(unique: seq<Node>, n: Node) returns (m: Node)
    requires Distinct(unique) && n in unique
    ensures m in Topmost(unique, unique) && AtOrBelow(n, m)
    decreases |n.path|, if n.kind.Folder? then 0 else 1
  {
    if Covered(n, unique) {
      var p :| p in unique && p != n && Below(n, p);
      m := HasTopmost(unique, p);
    } else {
      m := n;
    }
  }

  /** Two places above the same node are one place, or one is below the other. */
  lemma Comparable(n: Node, a: Node, b: Node)
    requires AtOrBelow(n, a) && AtOrBelow(n, b)
    ensures SameIdentity(a, b) || Below(a, b) || Below(b, a)
  {
  }

  /** The result is a duplicate-free antichain of input nodes, and no node is below two members. */
  lemma SelectionIsAntichain(nodes: seq<Node>)
    requires SelectedNodes(nodes).Ok?
    ensures var r := SelectedNodes(nodes).value;
            && Distinct(r)
            && (forall a, b :: a in r && b in r && a != b ==> !Below(a, b))
            && (forall a :: a in r ==> a in nodes && Selectable(a))
            && (forall n, a, b :: a in r && b in r && AtOrBelow(n, a) && AtOrBelow(n, b) ==> a == b)
  {
    UniqueIsLast(nodes);
    TopmostKeepsDistinct(Unique(nodes), Unique(nodes));
    var r := SelectedNodes(nodes).value;
    forall n, a, b | a in r && b in r && AtOrBelow(n, a) && AtOrBelow(n, b) ensures a == b {
      Comparable(n, a, b);
    }
  }

  /** Every node is in the bucket of the node the map keeps for its identity, or has a kept folder of
      its own bucket above it.  A caller whose profiles name one bucket each always meets this. */
  ghost predicate Represented(nodes: seq<Node>) {
    forall n :: n in nodes ==> exists m :: IsLast(nodes, m) && AtOrBelow(n, m)
  }

  lemma {:induction false} LastOf(nodes: seq<Node>, n: Node) returns (m: Node)
    requires n in nodes
    ensures IsLast(nodes, m) && SameIdentity(n, m)
  {
    var front, last := nodes[..|nodes| - 1], nodes[|nodes| - 1];
    if SameIdentity(n, last) {
      m := last;
      LastAt(nodes, m, |nodes| - 1);
    } else {
      m := LastOf(front, n);
      LastAdds(nodes, m);
    }
  }

  /** Nothing selected is lost, exactly when every input node is represented. */
  lemma SelectionCovers(nodes: seq<Node>)
    requires SelectedNodes(nodes).Ok?
    ensures Represented(nodes) <==>
            forall n :: n in nodes ==> exists m :: m in SelectedNodes(nodes).value && AtOrBelow(n, m)
  {
    UniqueIsLast(nodes);
    var r := SelectedNodes(nodes).value;
    if Represented(nodes) {
      forall n | n in nodes ensures exists m :: m in r && AtOrBelow(n, m) {
        var p :| IsLast(nodes, p) && AtOrBelow(n, p);
        var m := HasTopmost(Unique(nodes), p);
      }
    }
    if forall n :: n in nodes ==> exists m :: m in r && AtOrBelow(n, m) {
      forall n | n in nodes ensures exists m :: IsLast(nodes, m) && AtOrBelow(n, m) {
        var m :| m in r && AtOrBelow(n, m);
      }
    }
  }

  /** Profiles that name one bucket each represent every node. */
  lemma OneBucketIsRepresented(nodes: seq<Node>)
    requires forall a, b :: a in nodes && b in nodes && a.profileId == b.profileId ==> a.bucket == b.bucket
    ensures Represented(nodes)
  {
    forall n | n in nodes ensures exists m :: IsLast(nodes, m) && AtOrBelow(n, m) {
      var m := LastOf(nodes, n);
    }
  }

  /** A selection is refused exactly when a node that the map keeps is a profile root, has no path, or is something else
      than a file or folder. */
  lemma RefusedExactly(nodes: seq<Node>)
    ensures SelectedNodes(nodes).Failed? <==> exists n :: IsLast(nodes, n) && (n.root || n.kind.Other? || n.path == "")
  {
    UniqueIsLast(nodes);
    if n :| n in Unique(nodes) && !Selectable(n) { assert IsLast(nodes, n); }
    if n :| IsLast(nodes, n) && (n.root || n.kind.Other? || n.path == "") { assert n in Unique(nodes); }
  }

  /** A stale node of the same profile and path but another bucket is silently replaced. */
  lemma StaleBucketIsDropped()
    ensures var stale := Node("1", "old", File, "a", false);
            var newer := Node("1", "new", File, "a", false);
            SelectedNodes([stale, newer]) == Ok([newer]) && !AtOrBelow(stale, newer)
  {
    var stale := Node("1", "old", File, "a", false);
    var newer := Node("1", "new", File, "a", false);
    assert [stale, newer][..1] == [stale];
    assert Unique([stale]) == Insert(Unique([]), stale) by { assert [stale][..0] == []; }
    assert Unique([stale, newer]) == [newer];
    assert Topmost([newer], [newer]) == [newer] + Topmost([], [newer]);
  }
}
