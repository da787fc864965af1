/** What transfers end with: where the objects are afterwards, and the cases in which they are not where one expects
    them (s3-transfers.js). */
module TransferOutcomes {
  import opened Wrappers
  import opened ObjectStore
  import opened Profiles
  import opened Selection
  import opened Planning
  import opened Transfers

  lemma {:induction false} FirstSegmentOf(s: string, n: nat)
    requires n <= |s| && (n == |s| || s[n] == '/') && forall i :: 0 <= i < n ==> s[i] != '/'
    ensures FirstSegment(s) == n
  {
  }

  /** The path of a node without the slash that ends a folder prefix. */
  function BaseOf(node: Node): string {
    if node.kind.Folder? then DropSlash(node.path) else node.path
  }

  lemma SliceOfSum(a: string, b: string, n: nat)
    requires n <= |a|
    ensures (a + b)[n..] == a[n..] + b
  {
  }

  lemma SameTail(a: string, b: string, rest: string)
    ensures a + rest == b + rest <==> a == b
  {
    if a + rest == b + rest {
      assert (a + rest)[..|a|] == a && (b + rest)[..|b|] == b;
    }
  }

  predicate WellNamed(node: Node) {
    node.path != "" && !node.kind.Other? && (node.kind.Folder? ==> EndsInSlash(node.path))
  }

  /** The name of an entry below the destination is the name of its node, then what follows in the key. */
  lemma RelativeOf(e: Entry) returns (rest: string)
    requires Proper(e) && WellNamed(e.binding.node)
    ensures var base := BaseOf(e.binding.node);
            e.key == base + rest && e.relative == LastSegment(base) + rest
    ensures rest == "" || rest[0] == '/'
  {
    var node := e.binding.node;
    var base := BaseOf(node);
    assert base <= node.path <= e.key;
    rest := e.key[|base|..];
    assert e.key == base + rest;
    SliceOfSum(base, rest, ParentLength(base));
    assert |Parent(node)| == ParentLength(base);
  }

  lemma RenamedOf(last: string, rest: string, name: string)
    requires forall i :: 0 <= i < |last| ==> last[i] != '/'
    requires rest == "" || rest[0] == '/'
    ensures Renamed(last + rest, name) == (if name == "" then last else name) + rest
  {
    FirstSegmentOf(last + rest, |last|);
    assert (last + rest)[|last|..] == rest;
  }

  lemma DestKey(e: Entry, target: Binding, name: string, shown: string, rest: string)
    requires Renamed(e.relative, name) == shown + rest
    ensures Dest(target, e, name).key == (target.node.path + shown) + rest
  {
  }

  /** What the item is called at the destination. */
  function ShownName(node: Node, name: string): string {
    if name == "" then LastSegment(BaseOf(node)) else name
  }

  /** The key of a destination is the shown name, then what follows the node's own name in the source. */
  lemma ShownThenRest(e: Entry, target: Binding, name: string) returns (rest: string)
    requires Proper(e) && WellNamed(e.binding.node)
    ensures e.key == BaseOf(e.binding.node) + rest
    ensures Dest(target, e, name).key == (target.node.path + ShownName(e.binding.node, name)) + rest
  {
    var node := e.binding.node;
    rest := RelativeOf(e);
    RenamedOf(LastSegment(BaseOf(node)), rest, name);
    DestKey(e, target, name, ShownName(node, name), rest);
  }

  lemma DestOf(e: Entry, target: Binding, name: string)
    requires Proper(e) && WellNamed(e.binding.node)
    ensures Dest(target, e, name) == e.Source() <==>
            target.Site() == e.binding.Site() && target.node.path + ShownName(e.binding.node, name) == BaseOf(e.binding.node)
  {
    var rest := ShownThenRest(e, target, name);
    SameTail(target.node.path + ShownName(e.binding.node, name), BaseOf(e.binding.node), rest);
  }

  lemma FolderOntoItself(node: Node, target: Binding, name: string)
    requires WellNamed(node) && node.kind.Folder? && !SelfCopy(target.Address(), node, target, name)
    ensures target.node.path + ShownName(node, name) != BaseOf(node)
  {
  }

  lemma PlainFileOntoItself(node: Node, target: Binding, name: string)
    requires WellNamed(node) && node.kind.File? && !EndsInSlash(node.path) && !SelfCopy(target.Address(), node, target, name)
    ensures target.node.path + ShownName(node, name) != BaseOf(node)
  {
  }

  lemma SlashFileOntoItself(node: Node, target: Binding, name: string)
    requires WellNamed(node) && node.kind.File? && EndsInSlash(node.path) && !SelfCopy(target.Address(), node, target, name)
    ensures target.node.path + ShownName(node, name) == BaseOf(node) <==> name == "" && target.node.path == node.path
  {
  }

  /** The check refuses exactly what would be copied, at one address, onto itself or a folder into itself: the key of
      the item at the destination is its own, or the target lies in it. */
  lemma SelfCopyExactly(address: Address, node: Node, target: Binding, name: string)
    requires WellNamed(node) && !(node.kind.File? && EndsInSlash(node.path))
    ensures SelfCopy(address, node, target, name) <==>
              && address == target.Address()
              && (DestRoot(node, target, name) == node.path || (node.kind.Folder? && node.path <= target.node.path))
  {
  }

  /** An item that passed the self-copy check, made while its profile named `address`, is written onto its own source
      in three cases only: a file whose key ends in a slash, copied under its own name into the folder of that very
      prefix; or an item under its own name whose profile named another store when it was checked than when it was
      bound; or one whose endpoint is spelled differently from the target's and reaches the same server. */
  lemma SelfOverwrite(e: Entry, address: Address, target: Binding, name: string)
    requires Proper(e) && WellNamed(e.binding.node) && !SelfCopy(address, e.binding.node, target, name)
    ensures var node := e.binding.node;
            Dest(target, e, name) == e.Source() <==>
              && target.Site() == e.binding.Site()
              && (|| (name == "" && node.kind.File? && EndsInSlash(node.path) && target.node.path == node.path)
                  || (address != e.binding.Address() && target.node.path + ShownName(node, name) == BaseOf(node))
                  || (e.binding.Address() != target.Address() && target.node.path + ShownName(node, name) == BaseOf(node)))
  {
    DestOf(e, target, name);
    var node := e.binding.node;
    if node.kind.File? && EndsInSlash(node.path) { SlashFileShown(node, target); }
    if address == target.Address() {
      if node.kind.Folder? {
        FolderOntoItself(node, target, name);
      } else if EndsInSlash(node.path) {
        SlashFileOntoItself(node, target, name);
      } else {
        PlainFileOntoItself(node, target, name);
      }
    }
  }

  /** Such a file has no name of its own below its prefix. */
  lemma SlashFileShown(node: Node, target: Binding)
    requires node.kind.File? && EndsInSlash(node.path)
    ensures target.node.path + ShownName(node, "") == target.node.path
  {
    assert ParentLength(node.path) == |node.path|;
  }

  /** The first case: the marker object "a/" moved into the folder "a/".  Listings of the editor show no such object;
      the transfer accepts it from any other caller. */
  lemma MarkerPassesCheck()
    ensures var there := Identity("e", "k", "", true);
            var e := Entry("a/", "", Binding(Node("1", "k", File, "a/", false), there, "s"));
            var target := Binding(Node("1", "k", Folder, "a/", false), there, "s");
            && Proper(e) && WellNamed(e.binding.node) && !SelfCopy(e.binding.Address(), e.binding.node, target, "")
            && Dest(target, e, "") == e.Source()
  {
    var there := Identity("e", "k", "", true);
    var e := Entry("a/", "", Binding(Node("1", "k", File, "a/", false), there, "s"));
    var target := Binding(Node("1", "k", Folder, "a/", false), there, "s");
    assert ParentLength("a/") == 2 && "a/"[2..] == "";
    assert DropSlash("a/") == "a" && ParentLength("a") == 0 by { assert "a"[..0] == "" && "a/"[..1] == "a"; }
    assert LastSegment("a") == "a" && |"a/" + "a" + ""| == 3;
    assert "a/" + "" == "a/";
  }

  /** The second case: the ordinary file "a/x" moved into its own folder "a/", while the profile named another store. */
  lemma StaleCheckPasses()
    ensures var there := Identity("e", "k", "", true);
            var e := Entry("a/x", "x", Binding(Node("1", "k", File, "a/x", false), there, "s"));
            var target := Binding(Node("2", "k", Folder, "a/", false), there, "s");
            && Proper(e) && WellNamed(e.binding.node) && !SelfCopy(AddressOf("other", "k"), e.binding.node, target, "")
            && Dest(target, e, "") == e.Source()
  {
    assert "a/x"[..2] == "a/" && ParentLength("a/x") == 2 && "a/x"[2..] == "x";
    assert "a/" + "x" == "a/x";
  }

  /** The third case: the ordinary file "a/x" moved into its own folder "a/", through two spellings of one server
      (Profiles.SpellingsOfOneOrigin gives such). */
  lemma RespelledEndpointPasses(one: string, two: string, server: string -> string)
    requires DropSlash(one) != DropSlash(two) && server(one) == server(two)
    ensures var e := Entry("a/x", "x", Binding(Node("1", "k", File, "a/x", false), Identity(one, "k", "", true), server(one)));
            var target := Binding(Node("2", "k", Folder, "a/", false), Identity(two, "k", "", true), server(two));
            && Proper(e) && WellNamed(e.binding.node) && !SelfCopy(e.binding.Address(), e.binding.node, target, "")
            && Dest(target, e, "") == e.Source()
  {
    assert "a/x"[..2] == "a/" && ParentLength("a/x") == 2 && "a/x"[2..] == "x";
    assert "a/" + "x" == "a/x";
  }

  function Dests(entries: seq<Entry>, target: Binding, name: string): set<Loc> {
    set e | e in entries :: Dest(target, e, name)
  }

  ghost predicate DistinctDests(entries: seq<Entry>, target: Binding, name: string) {
    forall i, j :: 0 <= i < j < |entries| ==> Dest(target, entries[i], name) != Dest(target, entries[j], name)
  }

  /** Objects not written by a copy are the ones there were. */
  lemma {:induction false} CopyAllFrame(view: View, entries: seq<Entry>, target: Binding, name: string, loc: Loc)
    requires loc !in Dests(entries, target, name)
    ensures loc in CopyAll(view, entries, target, name) <==> loc in view
    ensures loc in view ==> CopyAll(view, entries, target, name)[loc] == view[loc]
  {
    if entries != [] {
      var front := entries[..|entries| - 1];
      assert entries[|entries| - 1] in entries;
      CopyAllFrame(view, front, target, name, loc);
    }
  }

  lemma FrontSets(entries: seq<Entry>, target: Binding, name: string)
    requires entries != []
    ensures var front, last := entries[..|entries| - 1], entries[|entries| - 1];
            && Sources(entries) == Sources(front) + {last.Source()}
            && Dests(entries, target, name) == Dests(front, target, name) + {Dest(target, last, name)}
  {
  }

  lemma {:induction false} CopyAllKeys(view: View, entries: seq<Entry>, target: Binding, name: string)
    requires Sources(entries) <= view.Keys
    ensures CopyAll(view, entries, target, name).Keys == view.Keys + Dests(entries, target, name)
  {
    if entries != [] {
      FrontSets(entries, target, name);
      CopyAllKeys(view, entries[..|entries| - 1], target, name);
      assert entries[|entries| - 1].Source() in view.Keys;
    }
  }

  /** One copy step at the end of the list. */
  lemma CopyAllLast(view: View, entries: seq<Entry>, target: Binding, name: string)
    requires entries != [] && Sources(entries) <= view.Keys && Dests(entries, target, name) !! Sources(entries)
    ensures var front, last := entries[..|entries| - 1], entries[|entries| - 1];
            && Sources(front) <= view.Keys && Dests(front, target, name) !! Sources(front) && last.Source() in view
            && CopyAll(view, entries, target, name)
               == CopyAll(view, front, target, name)[Dest(target, last, name) := view[last.Source()]]
  {
    var front, last := entries[..|entries| - 1], entries[|entries| - 1];
    FrontSets(entries, target, name);
    assert last.Source() in Sources(entries);
    assert last.Source() !in Dests(front, target, name);
    CopyAllFrame(view, front, target, name, last.Source());
  }

  /** With distinct destinations, none of them a source, every source arrives. */
  lemma {:induction false} CopyAllAt(view: View, entries: seq<Entry>, target: Binding, name: string, k: nat)
    requires k < |entries| && DistinctDests(entries, target, name)
    requires Sources(entries) <= view.Keys && Dests(entries, target, name) !! Sources(entries)
    ensures var copy := CopyAll(view, entries, target, name);
            entries[k].Source() in view && Dest(target, entries[k], name) in copy
            && copy[Dest(target, entries[k], name)] == view[entries[k].Source()]
  {
    var front, last := entries[..|entries| - 1], entries[|entries| - 1];
    CopyAllLast(view, entries, target, name);
    if k < |front| {
      CopyAllAt(view, front, target, name, k);
      assert front[k] == entries[k];
      assert Dest(target, entries[k], name) != Dest(target, last, name);
    }
  }

  /** When no destination is a source, a copy puts each source's content and metadata at its destination
      and changes nothing else; a move leaves the same, minus the sources. */
  lemma DisjointCopy(view: View, entries: seq<Entry>, target: Binding, name: string)
    requires DistinctDests(entries, target, name)
    requires Dests(entries, target, name) !! Sources(entries) && Sources(entries) <= view.Keys
    ensures var copy := Expected(view, entries, target, CopyMode, name);
            && copy.Keys == view.Keys + Dests(entries, target, name)
            && (forall e :: e in entries ==> copy[Dest(target, e, name)] == view[e.Source()])
            && (forall loc :: loc in view && loc !in Dests(entries, target, name) ==> copy[loc] == view[loc])
    ensures var move := Expected(view, entries, target, MoveMode, name);
            && move.Keys == view.Keys + Dests(entries, target, name) - Sources(entries)
            && (forall e :: e in entries ==> move[Dest(target, e, name)] == view[e.Source()])
            && (forall loc :: loc in view && loc !in Dests(entries, target, name) + Sources(entries) ==> move[loc] == view[loc])
  {
    var copy := CopyAll(view, entries, target, name);
    assert Expected(view, entries, target, CopyMode, name) == copy;
    assert Expected(view, entries, target, MoveMode, name) == copy - Sources(entries);
    CopyAllKeys(view, entries, target, name);
    forall e | e in entries
      ensures copy[Dest(target, e, name)] == view[e.Source()] && Dest(target, e, name) !in Sources(entries)
    {
      var k :| 0 <= k < |entries| && entries[k] == e;
      CopyAllAt(view, entries, target, name, k);
      assert Dest(target, e, name) in Dests(entries, target, name);
    }
    forall loc | loc in view && loc !in Dests(entries, target, name) ensures copy[loc] == view[loc] {
      CopyAllFrame(view, entries, target, name, loc);
    }
  }

  /** Every source was there before, and its content is at its destination after. */
  ghost predicate Arrived(before: View, after: View, entries: seq<Entry>, target: Binding, name: string) {
    forall e :: e in entries ==>
      e.Source() in before && Dest(target, e, name) in after && after[Dest(target, e, name)] == before[e.Source()]
  }

  /** An entry is copied over its own source or over that of a later one. */
  ghost predicate OverwritesLater(entries: seq<Entry>, target: Binding, name: string) {
    exists i, j :: 0 <= i <= j < |entries| && Dest(target, entries[i], name) == entries[j].Source()
  }

  /** An entry is copied over the source of an earlier one. */
  ghost predicate OverwritesEarlier(entries: seq<Entry>, target: Binding, name: string) {
    exists i, j :: 0 <= i < j < |entries| && Dest(target, entries[j], name) == entries[i].Source()
  }

  lemma OverwritesExactly(entries: seq<Entry>, target: Binding, name: string)
    ensures Dests(entries, target, name) !! Sources(entries) <==>
            !OverwritesLater(entries, target, name) && !OverwritesEarlier(entries, target, name)
  {
    if loc :| loc in Dests(entries, target, name) && loc in Sources(entries) {
      var e :| e in entries && Dest(target, e, name) == loc;
      var f :| f in entries && f.Source() == loc;
      var i :| 0 <= i < |entries| && entries[i] == e;
      var j :| 0 <= j < |entries| && entries[j] == f;
      assert if i <= j then OverwritesLater(entries, target, name) else OverwritesEarlier(entries, target, name);
    } else {
      forall i, j | 0 <= i < |entries| && 0 <= j < |entries| ensures Dest(target, entries[i], name) != entries[j].Source() {
        assert entries[i] in entries && entries[j] in entries;
        assert Dest(target, entries[i], name) in Dests(entries, target, name) && entries[j].Source() in Sources(entries);
      }
    }
  }

  lemma SourcesWereThere(before: View, entries: seq<Entry>, target: Binding, name: string)
    requires SourcesRead(before, entries, target, name) && Dests(entries, target, name) !! Sources(entries)
    ensures Sources(entries) <= before.Keys
  {
    forall e | e in entries ensures e.Source() in before {
      var k :| 0 <= k < |entries| && entries[k] == e;
      assert e.Source() in Sources(entries);
      assert Dests(entries[..k], target, name) <= Dests(entries, target, name);
      CopyAllFrame(before, entries[..k], target, name, e.Source());
    }
  }

  lemma DisjointArrives(before: View, after: View, entries: seq<Entry>, target: Binding, mode: Mode, name: string)
    requires Outcome(before, after, entries, target, mode, name) && DistinctDests(entries, target, name)
    requires Dests(entries, target, name) !! Sources(entries)
    ensures Arrived(before, after, entries, target, name)
    ensures after.Keys == before.Keys + Dests(entries, target, name) - if mode == MoveMode then Sources(entries) else {}
    ensures forall loc :: loc in before && loc in after && loc !in Dests(entries, target, name) ==> after[loc] == before[loc]
  {
    SourcesWereThere(before, entries, target, name);
    DisjointCopy(before, entries, target, name);
    forall e | e in entries ensures e.Source() in before && Dest(target, e, name) in after {
      assert e.Source() in Sources(entries) && Dest(target, e, name) in Dests(entries, target, name);
    }
  }

  /** A move that ends well delivers everything exactly when no entry is copied over its own or a later source.  One
      that copies an entry over an earlier source does not end well (Transfers.InTurn). */
  lemma MoveArrivesExactly(before: View, after: View, entries: seq<Entry>, target: Binding, name: string)
    requires Outcome(before, after, entries, target, MoveMode, name) && DistinctDests(entries, target, name)
    ensures !OverwritesEarlier(entries, target, name)
    ensures Arrived(before, after, entries, target, name) <==> !OverwritesLater(entries, target, name)
  {
    if i, j :| 0 <= i <= j < |entries| && Dest(target, entries[i], name) == entries[j].Source() {
      assert entries[i] in entries && entries[j] in entries;
      assert Dest(target, entries[i], name) in Sources(entries);
      assert Dest(target, entries[i], name) !in after;
    } else {
      OverwritesExactly(entries, target, name);
      DisjointArrives(before, after, entries, target, MoveMode, name);
    }
  }

  /** What entry `k` reads. */
  function ReadAt(view: View, entries: seq<Entry>, k: nat, target: Binding, name: string): (Content, Metadata)
    requires k < |entries| && entries[k].Source() in CopyAll(view, entries[..k], target, name)
  {
    CopyAll(view, entries[..k], target, name)[entries[k].Source()]
  }

  lemma ReadNext(view: View, entries: seq<Entry>, k: nat, target: Binding, name: string)
    requires k < |entries| && SourcesRead(view, entries, target, name)
    ensures var (before, next) := (CopyAll(view, entries[..k], target, name), CopyAll(view, entries[..k + 1], target, name));
            next == before[Dest(target, entries[k], name) := ReadAt(view, entries, k, target, name)]
  {
    CopyAllAdds(view, entries, k, target, name);
  }

  /** What entry `k` has read is at its destination after `n` entries. */
  ghost predicate Delivered(view: View, entries: seq<Entry>, k: nat, n: nat, target: Binding, name: string)
    requires k < |entries| && n <= |entries| && entries[k].Source() in CopyAll(view, entries[..k], target, name)
  {
    var copy := CopyAll(view, entries[..n], target, name);
    Dest(target, entries[k], name) in copy && copy[Dest(target, entries[k], name)] == ReadAt(view, entries, k, target, name)
  }

  lemma DeliveredOnce(view: View, entries: seq<Entry>, k: nat, target: Binding, name: string)
    requires k < |entries| && SourcesRead(view, entries, target, name)
    ensures Delivered(view, entries, k, k + 1, target, name)
  {
    ReadNext(view, entries, k, target, name);
  }

  lemma DeliveredNext(view: View, entries: seq<Entry>, k: nat, n: nat, target: Binding, name: string)
    requires k < n < |entries| && SourcesRead(view, entries, target, name)
    requires Dest(target, entries[k], name) != Dest(target, entries[n], name) && Delivered(view, entries, k, n, target, name)
    ensures Delivered(view, entries, k, n + 1, target, name)
  {
    ReadNext(view, entries, n, target, name);
  }

  /** With distinct destinations, it stays there. */
  lemma {:induction false} ReadStays(view: View, entries: seq<Entry>, k: nat, n: nat, target: Binding, name: string)
    requires k < n <= |entries| && DistinctDests(entries, target, name) && SourcesRead(view, entries, target, name)
    ensures Delivered(view, entries, k, n, target, name)
  {
    if k == n - 1 {
      DeliveredOnce(view, entries, k, target, name);
    } else {
      ReadStays(view, entries, k, n - 1, target, name);
      DeliveredNext(view, entries, k, n - 1, target, name);
    }
  }

  lemma ReadArrives(view: View, entries: seq<Entry>, k: nat, target: Binding, name: string)
    requires k < |entries| && DistinctDests(entries, target, name) && SourcesRead(view, entries, target, name)
    ensures var copy := CopyAll(view, entries, target, name);
            Dest(target, entries[k], name) in copy && copy[Dest(target, entries[k], name)] == ReadAt(view, entries, k, target, name)
  {
    ReadStays(view, entries, k, |entries|, target, name);
    assert entries[..|entries|] == entries;
  }

  /** An entry whose source was copied over reads what the earlier entry has read; any other reads what was there. */
  lemma ReadWhat(view: View, entries: seq<Entry>, k: nat, target: Binding, name: string) returns (i: Option<nat>)
    requires k < |entries| && DistinctDests(entries, target, name) && SourcesRead(view, entries, target, name)
    ensures i.Some? ==> i.value < k && Dest(target, entries[i.value], name) == entries[k].Source()
                        && ReadAt(view, entries, k, target, name) == ReadAt(view, entries, i.value, target, name)
    ensures i.None? ==> entries[k].Source() in view && ReadAt(view, entries, k, target, name) == view[entries[k].Source()]
  {
    var front := entries[..k];
    if entries[k].Source() in Dests(front, target, name) {
      var e :| e in front && Dest(target, e, name) == entries[k].Source();
      var j :| 0 <= j < |front| && front[j] == e;
      i := Some(j);
      ReadStays(view, entries, j, k, target, name);
    } else {
      i := None;
      CopyAllFrame(view, front, target, name, entries[k].Source());
    }
  }

  /** Wherever an entry is copied over the source of a later one, both sources held the same. */
  ghost predicate OverwritesAlike(view: View, entries: seq<Entry>, target: Binding, name: string) {
    forall i, j :: 0 <= i < j < |entries| && Dest(target, entries[i], name) == entries[j].Source() ==>
      entries[i].Source() in view && entries[j].Source() in view && view[entries[i].Source()] == view[entries[j].Source()]
  }

  lemma {:induction false} AlikeReads(view: View, entries: seq<Entry>, k: nat, target: Binding, name: string)
    requires k < |entries| && DistinctDests(entries, target, name) && SourcesRead(view, entries, target, name)
    requires OverwritesAlike(view, entries, target, name)
    ensures entries[k].Source() in view && ReadAt(view, entries, k, target, name) == view[entries[k].Source()]
  {
    var i := ReadWhat(view, entries, k, target, name);
    if i.Some? { AlikeReads(view, entries, i.value, target, name); }
  }

  lemma ArrivedReads(before: View, after: View, entries: seq<Entry>, i: nat, j: nat, target: Binding, name: string)
    requires Outcome(before, after, entries, target, CopyMode, name) && DistinctDests(entries, target, name)
    requires Arrived(before, after, entries, target, name) && i < j < |entries|
    requires Dest(target, entries[i], name) == entries[j].Source()
    ensures entries[i].Source() in before && entries[j].Source() in before
    ensures before[entries[i].Source()] == before[entries[j].Source()]
  {
    assert entries[i] in entries && entries[j] in entries;
    ReadArrives(before, entries, i, target, name);
    ReadArrives(before, entries, j, target, name);
    ReadStays(before, entries, i, j, target, name);
  }

  /** A copy that ends well delivers everything exactly when no entry is copied over a later source that held something
      else. */
  lemma CopyArrivesExactly(before: View, after: View, entries: seq<Entry>, target: Binding, name: string)
    requires Outcome(before, after, entries, target, CopyMode, name) && DistinctDests(entries, target, name)
    ensures Arrived(before, after, entries, target, name) <==> OverwritesAlike(before, entries, target, name)
  {
    if OverwritesAlike(before, entries, target, name) {
      forall e | e in entries
        ensures e.Source() in before && Dest(target, e, name) in after && after[Dest(target, e, name)] == before[e.Source()]
      {
        var k :| 0 <= k < |entries| && entries[k] == e;
        ReadArrives(before, entries, k, target, name);
        AlikeReads(before, entries, k, target, name);
      }
    }
    if Arrived(before, after, entries, target, name) {
      forall i, j | 0 <= i < j < |entries| && Dest(target, entries[i], name) == entries[j].Source()
        ensures entries[i].Source() in before && entries[j].Source() in before
                && before[entries[i].Source()] == before[entries[j].Source()]
      {
        ArrivedReads(before, after, entries, i, j, target, name);
      }
    }
  }

  /** A copy at `q` over an earlier source: that source is deleted only where the copy has the tag of what it replaced,
      and then the check before the later deletion misses the copy, unless someone else puts an object there. */
  lemma OverwrittenSourceStops(initial: Store, log: seq<Event>, q: nat, i: nat, h: nat, tag: Etag)
    requires Legal(initial, log) && q < i < h < |log| && log[q].Stored? && log[i] == Removed(log[q].loc, Some(tag))
    requires log[h].Seen? && log[h].loc == log[q].loc && log[h].found.Some? && Untouched(log, q + 1, i, log[q].loc)
    ensures log[q].blob.Tag() == tag && !Untouched(log, i + 1, h, log[q].loc)
  {
    LegalAt(initial, log, q);
    LegalAt(initial, log, i);
    LegalAt(initial, log, h);
    UntouchedKeeps(initial, log, q + 1, i, log[q].loc);
    if Untouched(log, i + 1, h, log[q].loc) { UntouchedKeeps(initial, log, i + 1, h, log[q].loc); }
  }

  /** The whole operation on separate regions, when it ends well: each source was there and its content is at its
      destination, the sources are gone exactly for a move, and all else is as it was. */
  lemma SeparateTransferArrives(before: View, after: View, nodes: seq<Node>, server: string -> string, entries: seq<Entry>,
                                bound: seq<Binding>, target: Binding, mode: Mode, name: string)
    requires SelectedNodes(nodes).Ok? && BoundTo(bound, SelectedNodes(nodes).value, server)
    requires DistinctRelatives(entries) && Planned(entries, bound)
    requires forall b :: b in bound && b.node.kind.Folder? ==> EndsInSlash(b.node.path)
    requires name != "" ==> |bound| <= 1
    requires forall b, c :: b in bound && c in bound ==> !Meets(b, c, target, name)
    requires Outcome(before, after, entries, target, mode, name)
    ensures Arrived(before, after, entries, target, name)
    ensures after.Keys == before.Keys + Dests(entries, target, name) - if mode == MoveMode then Sources(entries) else {}
    ensures forall loc :: loc in before && loc in after && loc !in Dests(entries, target, name) ==> after[loc] == before[loc]
  {
    BoundAreWellNamed(nodes, bound, server);
    SeparateRegionsAreDisjoint(entries, bound, target, name);
    BoundDestsDistinct(entries, bound, target, name);
    DisjointArrives(before, after, entries, target, mode, name);
  }

  lemma OneBinding(entries: seq<Entry>, bound: seq<Binding>)
    requires |bound| <= 1 && forall e :: e in entries ==> e.binding in bound
    ensures forall e, f :: e in entries && f in entries ==> e.binding == f.binding
  {
    forall e, f | e in entries && f in entries ensures e.binding == f.binding {
      assert e.binding in bound && f.binding in bound;
    }
  }

  lemma BoundDestsDistinct(entries: seq<Entry>, bound: seq<Binding>, target: Binding, name: string)
    requires DistinctRelatives(entries) && Planned(entries, bound) && (name != "" ==> |bound| <= 1)
    requires forall b :: b in bound ==> WellNamed(b.node)
    ensures DistinctDests(entries, target, name)
  {
    if name != "" { OneBinding(entries, bound); }
    PlannedDestsDistinct(entries, target, name);
  }

  lemma BoundAreWellNamed(nodes: seq<Node>, bound: seq<Binding>, server: string -> string)
    requires SelectedNodes(nodes).Ok? && BoundTo(bound, SelectedNodes(nodes).value, server)
    requires forall b :: b in bound && b.node.kind.Folder? ==> EndsInSlash(b.node.path)
    ensures forall b :: b in bound ==> WellNamed(b.node)
  {
    SelectionIsAntichain(nodes);
    forall b | b in bound ensures WellNamed(b.node) {
      var i :| 0 <= i < |bound| && bound[i] == b;
      var selected := SelectedNodes(nodes).value;
      assert selected[i] == b.node && selected[i] in selected;
    }
  }

  // ---------- A move over a later source ----------

  lemma ChainedOutcome(view: View, one: Entry, two: Entry, target: Binding, name: string)
    requires one.Source() in view && two.Source() in view && one.Source() != two.Source()
    requires Dest(target, one, name) == two.Source() && Dest(target, two, name) !in {one.Source(), two.Source()}
    ensures Outcome(view, (view - {one.Source(), two.Source()})[Dest(target, two, name) := view[one.Source()]], [one, two],
                    target, MoveMode, name)
  {
    assert [one, two][..1] == [one] && [one, two][..0] == [] == [one][..0];
    assert CopyAll(view, [one], target, name) == view[two.Source() := view[one.Source()]];
    assert Sources([one, two]) == {one.Source(), two.Source()} by {
      assert one in [one, two] && two in [one, two];
    }
  }

  /** The requests of a move of two objects `b` and `lost` from `l` and `m`, whose first destination is `m` and whose
      second, `n`, is free: the uploads store `c` and `d`. */
  function ChainedCopies(l: Loc, m: Loc, n: Loc, b: Blob, lost: Blob, c: Blob, d: Blob): seq<Event> {
    [Seen(m, Some(lost)), Asked(m, Replace), Seen(l, Some(b)), Fetched(l, b.Tag(), b.content), Stored(m, IfMatch(lost.Tag()), c),
     Seen(n, None), Seen(m, Some(c)), Fetched(m, c.Tag(), c.content), Stored(n, IfNoneMatch, d)]
  }

  function ChainedRemovals(l: Loc, m: Loc, n: Loc, b: Blob, c: Blob, d: Blob): seq<Event> {
    [Seen(m, Some(c)), Removed(l, Some(b.Tag())), Seen(n, Some(d)), Removed(m, Some(c.Tag()))]
  }

  function ChainedMove(l: Loc, m: Loc, n: Loc, b: Blob, lost: Blob, c: Blob, d: Blob): seq<Event> {
    ChainedCopies(l, m, n, b, lost, c, d) + ChainedRemovals(l, m, n, b, c, d)
  }

  /** Four more events of a history. */
  lemma RunFour(initial: Store, log: seq<Event>, a: Event, b: Event, c: Event, d: Event)
    requires Legal(initial, log)
    ensures var s0 := Run(initial, log); var s1 := Apply(s0, a); var s2 := Apply(s1, b); var s3 := Apply(s2, c);
            && (Legal(initial, log + [a, b, c, d]) <==> Permits(s0, a) && Permits(s1, b) && Permits(s2, c) && Permits(s3, d))
            && Run(initial, log + [a, b, c, d]) == Apply(s3, d)
  {
    var l1, l2, l3 := log + [a], log + [a] + [b], log + [a] + [b] + [c];
    RunExtends(initial, log, a);
    RunExtends(initial, l1, b);
    RunExtends(initial, l2, c);
    RunExtends(initial, l3, d);
    assert log + [a, b, c, d] == l3 + [d];
  }

  lemma ChainedCopiesRun(l: Loc, m: Loc, n: Loc, b: Blob, lost: Blob, c: Blob, d: Blob)
    requires l != m && l != n && m != n
    ensures var log, initial := ChainedCopies(l, m, n, b, lost, c, d), map[l := b, m := lost];
            Legal(initial, log) && Run(initial, log) == map[l := b, m := c, n := d]
  {
    var log, initial: Store := ChainedCopies(l, m, n, b, lost, c, d), map[l := b, m := lost];
    RunExtends(initial, [], log[0]);
    RunFour(initial, [log[0]], log[1], log[2], log[3], log[4]);
    var half := [log[0]] + [log[1], log[2], log[3], log[4]];
    assert Run(initial, half) == map[l := b, m := c];
    RunFour(initial, half, log[5], log[6], log[7], log[8]);
    assert log == half + [log[5], log[6], log[7], log[8]];
  }

  lemma ChainedMoveRun(l: Loc, m: Loc, n: Loc, b: Blob, lost: Blob, c: Blob, d: Blob)
    requires l != m && l != n && m != n
    ensures var log, initial := ChainedMove(l, m, n, b, lost, c, d), map[l := b, m := lost];
            Legal(initial, log) && Run(initial, log) == map[n := d]
  {
    ChainedCopiesRun(l, m, n, b, lost, c, d);
    var log, more := ChainedCopies(l, m, n, b, lost, c, d), ChainedRemovals(l, m, n, b, c, d);
    RunFour(map[l := b, m := lost], log, more[0], more[1], more[2], more[3]);
  }

  lemma ChainedMoveIsSafe(one: Entry, two: Entry, target: Binding, name: string, b: Blob, lost: Blob, c: Blob, d: Blob)
    requires Dest(target, one, name) == two.Source() && c.content == b.content == d.content
    ensures Safe(ChainedMove(one.Source(), two.Source(), Dest(target, two, name), b, lost, c, d), 0, [one, two], target, name)
  {
    var l, m, n := one.Source(), two.Source(), Dest(target, two, name);
    var log := ChainedMove(l, m, n, b, lost, c, d);
    assert Confirmed(log, 0, 1, m, lost.Tag());
    assert CopiedAt(log, 3, 4, l, b.Tag(), m) && CopiedAt(log, 7, 8, m, c.Tag(), n);
    assert JustChecked(log, 4, 9, 10, m) && JustChecked(log, 8, 11, 12, n);
    assert one in [one, two] && two in [one, two];
  }

  lemma ChainedContents(l: Loc, m: Loc, n: Loc, b: Blob, lost: Blob, d: Blob)
    requires l != m && n !in {l, m} && d.content == b.content && d.metadata == b.metadata
    ensures var view := Contents(map[l := b, m := lost]);
            l in view && m in view && Contents(map[n := d]) == (view - {l, m})[n := view[l]]
  {
  }

  /** The service always permits these requests, they meet every safety condition, and they are the expected outcome:
      only the content of the first object is left, under the second one's new name. */
  lemma ChainedMoveLoses(one: Entry, two: Entry, target: Binding, name: string, b: Blob, lost: Blob, c: Blob, d: Blob)
    requires one.Source() != two.Source() && Dest(target, one, name) == two.Source()
    requires Dest(target, two, name) !in {one.Source(), two.Source()}
    requires c == Blob(b.content, b.metadata, c.nonce) && d == Blob(b.content, b.metadata, d.nonce)
    ensures var n := Dest(target, two, name);
            var initial := map[one.Source() := b, two.Source() := lost];
            var log := ChainedMove(one.Source(), two.Source(), n, b, lost, c, d);
            && Legal(initial, log) && Safe(log, 0, [one, two], target, name)
            && Outcome(Contents(initial), Contents(Run(initial, log)), [one, two], target, MoveMode, name)
            && Run(initial, log) == map[n := d]
  {
    ChainedMoveRun(one.Source(), two.Source(), Dest(target, two, name), b, lost, c, d);
    ChainedMoveIsSafe(one, two, target, name, b, lost, c, d);
    var initial := map[one.Source() := b, two.Source() := lost];
    var n, view := Dest(target, two, name), Contents(initial);
    ChainedOutcome(view, one, two, target, name);
    ChainedContents(one.Source(), two.Source(), n, b, lost, d);
  }

  /** Entries keep distinct destinations: always under their own names, and under a new name when they
      come from one node. */
  lemma PlannedDestsDistinct(entries: seq<Entry>, target: Binding, name: string)
    requires DistinctRelatives(entries)
    requires forall e :: e in entries ==> Proper(e) && WellNamed(e.binding.node)
    requires name != "" ==> forall e, f :: e in entries && f in entries ==> e.binding.node == f.binding.node
    ensures DistinctDests(entries, target, name)
  {
    forall i, j | 0 <= i < j < |entries|
      ensures Dest(target, entries[i], name) != Dest(target, entries[j], name)
    {
      var e, f := entries[i], entries[j];
      assert e in entries && f in entries;
      RenamedDiffer(e, f, name);
      var t := target.node.path;
      assert (t + Renamed(e.relative, name))[|t|..] == Renamed(e.relative, name);
      assert (t + Renamed(f.relative, name))[|t|..] == Renamed(f.relative, name);
    }
  }

  lemma RenamedDiffer(e: Entry, f: Entry, name: string)
    requires Proper(e) && WellNamed(e.binding.node) && Proper(f) && e.relative != f.relative
    requires name != "" ==> e.binding.node == f.binding.node
    ensures Renamed(e.relative, name) != Renamed(f.relative, name)
  {
    if name != "" {
      var last := LastSegment(BaseOf(e.binding.node));
      var r := RelativeOf(e);
      var q := RelativeOf(f);
      RenamedOf(last, r, name);
      RenamedOf(last, q, name);
      assert (name + r)[|name|..] == r && (name + q)[|name|..] == q;
    }
  }

  // ---------- When a destination can be a source ----------

  /** Where the objects of a node go: at this key, or below it for a folder. */
  function DestRoot(node: Node, target: Binding, name: string): string {
    target.node.path + ShownName(node, name) + if node.kind.Folder? then "/" else ""
  }

  lemma FolderPath(node: Node)
    requires WellNamed(node) && node.kind.Folder?
    ensures node.path == BaseOf(node) + "/"
  {
  }

  lemma FolderBelowRoot(e: Entry, target: Binding, name: string)
    requires Proper(e) && WellNamed(e.binding.node) && e.binding.node.kind.Folder?
    ensures Dest(target, e, name).key ==
            target.node.path + ShownName(e.binding.node, name) + "/" + e.key[|e.binding.node.path|..]
  {
    var node := e.binding.node;
    var rest := ShownThenRest(e, target, name);
    FolderPath(node);
    SlashFirst(BaseOf(node), rest, node.path, e.key, target.node.path + ShownName(node, name));
  }

  lemma FileAtRoot(e: Entry, target: Binding, name: string)
    requires Proper(e) && WellNamed(e.binding.node) && e.binding.node.kind.File?
    ensures Dest(target, e, name).key ==
            target.node.path + ShownName(e.binding.node, name) + "" + e.key[|e.binding.node.path|..]
  {
    var node := e.binding.node;
    var rest := ShownThenRest(e, target, name);
    NothingBelow(node.path, e.key, rest, target.node.path + ShownName(node, name));
  }

  lemma DestBelowRoot(e: Entry, target: Binding, name: string)
    requires Proper(e) && WellNamed(e.binding.node)
    ensures Dest(target, e, name).key == DestRoot(e.binding.node, target, name) + e.key[|e.binding.node.path|..]
  {
    if e.binding.node.kind.Folder? { FolderBelowRoot(e, target, name); } else { FileAtRoot(e, target, name); }
  }

  lemma SlashFirst(base: string, rest: string, path: string, key: string, root: string)
    requires path == base + "/" && path <= key && key == base + rest
    ensures root + rest == root + "/" + key[|path|..]
  {
    assert key[|base|..] == rest && key[..|path|] == path && key[|base|] == path[|base|];
    assert rest == "/" + key[|path|..];
  }

  lemma NothingBelow(path: string, key: string, rest: string, root: string)
    requires key == path && key == path + rest
    ensures root + rest == root + "" + key[|path|..]
  {
    assert rest == key[|path|..];
  }

  /** An object of `b` and one of `c` for which the destination of the first is the source of the second. */
  ghost predicate CanMeet(b: Binding, c: Binding, target: Binding, name: string) {
    exists e, f :: Proper(e) && Proper(f) && e.binding == b && f.binding == c && Dest(target, e, name) == f.Source()
  }

  /** What can be read off the nodes and the target before the call. */
  predicate Meets(b: Binding, c: Binding, target: Binding, name: string) {
    var d := DestRoot(b.node, target, name);
    && target.Site() == c.Site()
    && if b.node.kind.Folder? then d <= c.node.path || (c.node.kind.Folder? && c.node.path <= d)
       else if c.node.kind.Folder? then c.node.path <= d else c.node.path == d
  }

  lemma MeetingsSeen(b: Binding, c: Binding, target: Binding, name: string, e: Entry, f: Entry)
    requires WellNamed(b.node) && WellNamed(c.node) && Proper(e) && Proper(f) && e.binding == b && f.binding == c
    requires Dest(target, e, name) == f.Source()
    ensures Meets(b, c, target, name)
  {
    DestBelowRoot(e, target, name);
    var t := e.key[|b.node.path|..];
    PrefixesMeet(DestRoot(b.node, target, name), t, f.key, c.node.path);
  }

  lemma PrefixesMeet(d: string, t: string, key: string, path: string)
    requires key == d + t && path <= key
    ensures (d <= path || path <= d) && (t == "" ==> key == d)
  {
    assert key[..|d|] == d && key[..|path|] == path;
  }

  lemma MeetingMade(b: Binding, c: Binding, target: Binding, name: string, t: string, key: string)
    requires WellNamed(b.node) && WellNamed(c.node) && target.Site() == c.Site()
    requires (b.node.kind.File? ==> t == "") && key == DestRoot(b.node, target, name) + t && Under(c.node, key)
    ensures CanMeet(b, c, target, name)
  {
    assert b.node.path <= b.node.path + t && (t == "" ==> b.node.path + t == b.node.path);
    var e, f := MakeEntry(b, b.node.path + t), MakeEntry(c, key);
    DestBelowRoot(e, target, name);
    assert e.key[|b.node.path|..] == t;
    assert Dest(target, e, name) == f.Source();
  }

  lemma MeetsMade(b: Binding, c: Binding, target: Binding, name: string)
    requires WellNamed(b.node) && WellNamed(c.node) && Meets(b, c, target, name)
    ensures CanMeet(b, c, target, name)
  {
    var d := DestRoot(b.node, target, name);
    if c.node.path <= d && (c.node.kind.Folder? || c.node.path == d) {
      assert d + "" == d;
      MeetingMade(b, c, target, name, "", d);
    } else {
      assert d + c.node.path[|d|..] == c.node.path;
      MeetingMade(b, c, target, name, c.node.path[|d|..], c.node.path);
    }
  }

  /** A planned destination can be a planned source exactly when the regions of the keys meet. */
  lemma DestinationCanBeSourceExactly(b: Binding, c: Binding, target: Binding, name: string)
    requires WellNamed(b.node) && WellNamed(c.node)
    ensures CanMeet(b, c, target, name) <==> Meets(b, c, target, name)
  {
    if CanMeet(b, c, target, name) {
      var e, f :| Proper(e) && Proper(f) && e.binding == b && f.binding == c && Dest(target, e, name) == f.Source();
      MeetingsSeen(b, c, target, name, e, f);
    }
    if Meets(b, c, target, name) { MeetsMade(b, c, target, name); }
  }

  /** So where no regions meet, a copy or move of whatever is stored there is a disjoint one. */
  lemma SeparateRegionsAreDisjoint(entries: seq<Entry>, bound: seq<Binding>, target: Binding, name: string)
    requires forall e :: e in entries ==> Proper(e) && e.binding in bound
    requires forall b :: b in bound ==> WellNamed(b.node)
    requires forall b, c :: b in bound && c in bound ==> !Meets(b, c, target, name)
    ensures Dests(entries, target, name) !! Sources(entries)
  {
    forall loc | loc in Dests(entries, target, name) ensures loc !in Sources(entries) {
      var e :| e in entries && Dest(target, e, name) == loc;
      forall f | f in entries ensures f.Source() != loc {
        if f.Source() == loc { MeetingsSeen(e.binding, f.binding, target, name, e, f); }
      }
    }
  }

  lemma NestedParent(node: Node)
    requires node.kind.Folder? && node.path == "q/q/"
    ensures Parent(node) == "q/"
  {
    assert node.path[..3] == "q/q" && ParentLength("q/q") == 2 && "q/q"[..2] == "q/";
  }

  lemma NestedEntry(e: Entry, target: Binding)
    requires e.binding.node.kind.Folder? && e.binding.node.path == "q/q/" && "q/q/" <= e.key && e.key[2..] == e.relative
    requires target.node.path == ""
    ensures Proper(e) && Dest(target, e, "") == Loc(target.Site(), e.relative)
  {
    NestedParent(e.binding.node);
    assert "" + e.relative == e.relative;
  }

  /** An object `k`, and one of the same name a folder above it, when the folder q/q/ goes to the root. */
  lemma NestedEntries(b: Binding, target: Binding, k: string, above: string, top: string)
    requires b.node.kind.Folder? && b.node.path == "q/q/" && target.node.path == "" && target.Site() == b.Site()
    requires "q/q/" <= k && "q/q/" <= above && k[2..] == above && above[2..] == top
    ensures var deep, shallow := Entry(k, above, b), Entry(above, top, b);
            && Proper(deep) && Proper(shallow) && DistinctRelatives([deep, shallow]) && DistinctRelatives([shallow, deep])
            && Dest(target, deep, "") == shallow.Source() && Dest(target, shallow, "") == Loc(b.Site(), top)
  {
    NestedEntry(Entry(k, above, b), target);
    NestedEntry(Entry(above, top, b), target);
    Shorter(above, top);
    TwoRelatives(Entry(k, above, b), Entry(above, top, b));
  }

  lemma Shorter(s: string, rest: string)
    requires |s| >= 2 && s[2..] == rest
    ensures s != rest
  {
    assert |s| == |rest| + 2;
  }

  lemma TwoRelatives(e: Entry, f: Entry)
    requires e.relative != f.relative
    ensures DistinctRelatives([e, f]) && DistinctRelatives([f, e])
  {
  }

  lemma NestedPasses(node: Node, target: Binding)
    requires node == Node("1", "b", Folder, "q/q/", false) && target.node.path == ""
    ensures !SelfCopy(target.Address(), node, target, "")
  {
    assert node.path[..3] == "q/q" && DropSlash(node.path) == "q/q" && LastSegment("q/q") == "q";
    assert "" + "q" + "/" == "q/";
  }

  /** The self-copy check does not rule such meetings out: moving the folder q/q/ to the root passes it.  In the order
      of a listing q/q/q/z is copied over q/q/z before that is copied to q/z (see ChainedMoveLoses), and q/q/q/a over
      q/q/a after that was copied to q/a (see OverwrittenSourceStops). */
  lemma DestinationCanBeSource()
    ensures var there := Identity("e", "b", "", true);
            var node := Node("1", "b", Folder, "q/q/", false);
            var b, target := Binding(node, there, "s"), Binding(Node("1", "b", Folder, "", false), there, "s");
            var deep, shallow := Entry("q/q/q/z", "q/q/z", b), Entry("q/q/z", "q/z", b);
            var first, second := Entry("q/q/a", "q/a", b), Entry("q/q/q/a", "q/q/a", b);
            && Proper(deep) && Proper(shallow) && Proper(first) && Proper(second)
            && DistinctRelatives([deep, shallow]) && DistinctRelatives([first, second])
            && !SelfCopy(b.Address(), node, target, "")
            && Dest(target, deep, "") == shallow.Source() && Dest(target, shallow, "") == Loc(b.Site(), "q/z")
            && OverwritesEarlier([first, second], target, "")
  {
    var there := Identity("e", "b", "", true);
    var b := Binding(Node("1", "b", Folder, "q/q/", false), there, "s");
    var target := Binding(Node("1", "b", Folder, "", false), there, "s");
    NestedEntries(b, target, "q/q/q/z", "q/q/z", "q/z");
    NestedEntries(b, target, "q/q/q/a", "q/q/a", "q/a");
    NestedPasses(b.node, target);
    NestedOverwrites(Entry("q/q/a", "q/a", b), Entry("q/q/q/a", "q/q/a", b), target);
  }

  lemma NestedOverwrites(first: Entry, second: Entry, target: Binding)
    requires Dest(target, second, "") == first.Source()
    ensures OverwritesEarlier([first, second], target, "")
  {
    assert Dest(target, [first, second][1], "") == [first, second][0].Source();
  }

  // ---------- A move onto itself ----------

  /** A move onto itself ends with the object gone; any other leaves its content at the destination. */
  lemma MoveOntoItselfLoses(view: View, e: Entry, target: Binding, name: string)
    requires e.Source() in view
    ensures Dest(target, e, name) == e.Source() ==> Expected(view, [e], target, MoveMode, name) == view - {e.Source()}
    ensures Dest(target, e, name) != e.Source() ==>
              Expected(view, [e], target, MoveMode, name) == (view - {e.Source()})[Dest(target, e, name) := view[e.Source()]]
  {
    assert [e][..0] == [];
    assert CopyAll(view, [e], target, name) == view[Dest(target, e, name) := view[e.Source()]];
    assert Sources([e]) == {e.Source()} by { assert e in [e]; }
  }

  /** The requests of such a move: `found` is stored, and the upload of the same bytes stores `again`. */
  function SelfMove(l: Loc, found: Blob, again: Blob): seq<Event> {
    [Seen(l, Some(found)), Asked(l, Replace), Seen(l, Some(found)), Fetched(l, found.Tag(), found.content),
     Stored(l, IfMatch(found.Tag()), again), Seen(l, Some(again)), Removed(l, Some(found.Tag()))]
  }

  /** It satisfies every safety condition of a transfer, and it can run to its end, which is the loss of the bytes,
      exactly when the server gives the same bytes the same tag again; otherwise the deletion is refused. */
  lemma SelfMoveLosesExactly(e: Entry, target: Binding, name: string, found: Blob, again: Blob)
    requires Dest(target, e, name) == e.Source() && again.content == found.content
    ensures var l := e.Source(); var log := SelfMove(l, found, again);
            && Safe(log, 0, [e], target, name)
            && (Legal(map[l := found], log) <==> again.Tag() == found.Tag())
            && l !in Run(map[l := found], log)
  {
    var l := e.Source();
    var log, initial := SelfMove(l, found, again), map[l := found];
    SelfMoveIsSafe(e, target, name, found, again);
    assert log[..0] == [];
    forall k | 0 <= k < 7 ensures log[..k + 1] == log[..k] + [log[k]] { }
    RunExtends(initial, log[..0], log[0]);
    RunExtends(initial, log[..1], log[1]);
    RunExtends(initial, log[..2], log[2]);
    RunExtends(initial, log[..3], log[3]);
    RunExtends(initial, log[..4], log[4]);
    RunExtends(initial, log[..5], log[5]);
    RunExtends(initial, log[..6], log[6]);
    assert log[..7] == log;
  }

  lemma SelfMoveIsSafe(e: Entry, target: Binding, name: string, found: Blob, again: Blob)
    requires Dest(target, e, name) == e.Source() && again.content == found.content
    ensures Safe(SelfMove(e.Source(), found, again), 0, [e], target, name)
  {
    var log := SelfMove(e.Source(), found, again);
    assert Confirmed(log, 0, 1, e.Source(), found.Tag());
    assert CopiedAt(log, 3, 4, e.Source(), found.Tag(), e.Source());
    assert JustChecked(log, 4, 5, 6, e.Source());
    assert e in [e];
  }

  /** An object that is planned twice is deleted once: a second deletion is refused unless someone stored it again. */
  lemma SecondRemovalRefused(initial: Store, log: seq<Event>, i: nat, j: nat, loc: Loc)
    requires Legal(initial, log) && i < j < |log| && log[i].Removed? && log[i].loc == loc
    requires log[j].Removed? && log[j].loc == loc && log[j].expected.Some?
    ensures !Untouched(log, i + 1, j, loc)
  {
    LegalAt(initial, log, i);
    LegalAt(initial, log, j);
    if Untouched(log, i + 1, j, loc) { UntouchedKeeps(initial, log, i + 1, j, loc); }
  }

  /** In a legal history a deleted version equals, byte for byte, what its copy held when last checked. */
  lemma CopyEqualsDeleted(initial: Store, log: seq<Event>, g: int, p: int, h: int, i: nat, source: Loc, dest: Loc, tag: Etag)
    requires Legal(initial, log) && i < |log| && log[i] == Removed(source, Some(tag))
    requires CopiedAt(log, g, p, source, tag, dest) && JustChecked(log, p, h, i, dest)
    ensures var before, seen := Run(initial, log[..i]), Run(initial, log[..h]);
            && source in before && dest in seen && seen[dest].content == before[source].content
  {
    LegalAt(initial, log, i);
    LegalAt(initial, log, g);
    LegalAt(initial, log, h);
    assert Run(initial, log[..g])[source].Tag() == tag;
  }

  lemma CopyOutlivesSource(initial: Store, log: seq<Event>, h: nat, i: nat, dest: Loc)
    requires Legal(initial, log) && h < i < |log| && log[i].Removed? && dest in Run(initial, log[..h])
    ensures dest != log[i].loc && Untouched(log, h, i, dest) ==>
              dest in Run(initial, log[..i + 1]) && Run(initial, log[..i + 1])[dest].content == Run(initial, log[..h])[dest].content
  {
    LegalAt(initial, log, i);
    if Untouched(log, h, i, dest) { UntouchedKeeps(initial, log, h, i, dest); }
  }

  /** Every justified deletion of a legal history removes content that was in place elsewhere: the copy
      seen at the last check holds exactly the deleted bytes, and still holds them after the deletion
      unless another client wrote to it in between. */
  lemma DeletedContentSurvives(initial: Store, log: seq<Event>, lo: nat, i: nat, entries: seq<Entry>, target: Binding, name: string)
    returns (e: Entry, h: nat)
    requires Legal(initial, log) && i < |log| && JustifiedRemoval(log, lo, i, entries, target, name)
    ensures e in entries && e.Source() == log[i].loc && h < i
    ensures var dest := Dest(target, e, name);
            var before, seen, after := Run(initial, log[..i]), Run(initial, log[..h]), Run(initial, log[..i + 1]);
            && e.Source() in before && dest in seen && seen[dest].content == before[e.Source()].content
            && (dest != e.Source() && Untouched(log, h, i, dest) ==>
                  dest in after && after[dest].content == before[e.Source()].content)
  {
    var e', g, p, h' :| e' in entries && log[i].loc == e'.Source() && lo <= g
                        && CopiedAt(log, g, p, e'.Source(), log[i].expected.value, Dest(target, e', name))
                        && JustChecked(log, p, h', i, Dest(target, e', name));
    e, h := e', h';
    var dest := Dest(target, e, name);
    CopyEqualsDeleted(initial, log, g, p, h, i, e.Source(), dest, log[i].expected.value);
    CopyOutlivesSource(initial, log, h, i, dest);
  }
}
