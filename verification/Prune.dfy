/** Pruning cache trees by age (`prune_node`) and measuring them (`inspect_path`). */
module Prune {
  import opened Wrappers

  const U64_MAX: nat := 0xffff_ffff_ffff_ffff

  /** A node of a cache tree as `symlink_metadata` shows it. Symbolic links count as files; the
      modification time can be unreadable. A directory lists its entries in name order. */
  datatype Node =
    | File(bytes: nat, modified: Option<int>)
    | Directory(modified: Option<int>, entries: seq<Entry>)
    | Special

  datatype Entry = Entry(name: string, node: Node)

  datatype Stats = Stats(bytes: nat, files: nat, directories: nat)

  /** What is counted. */
  datatype Measure = Bytes | Files | Directories

  function Saturated(n: nat): nat { if n > U64_MAX then U64_MAX else n }

  /** `StorageStats::add`, field by field in saturating 64-bit arithmetic. */
  function Add(a: Stats, b: Stats): Stats {
    Stats(Saturated(a.bytes + b.bytes), Saturated(a.files + b.files), Saturated(a.directories + b.directories))
  }

  // ------------------------------------------------------------------ measuring

  /** The true size of a tree, by one measure. */
  function Count(m: Measure, node: Node): nat
    decreases node, 0
  {
    match node
    case File(bytes, _) => if m.Bytes? then bytes else if m.Files? then 1 else 0
    case Directory(_, entries) => (if m.Directories? then 1 else 0) + CountAll(m, entries)
    case Special => 0
  }

  function CountAll(m: Measure, entries: seq<Entry>): nat
    decreases entries, 1
  {
    if entries == [] then 0 else CountAll(m, entries[..|entries| - 1]) + Count(m, entries[|entries| - 1].node)
  }

  method InspectPath(node: Option<Node>) returns (stats: Stats)
    ensures node.None? ==> stats == Stats(0, 0, 0)
    ensures node.Some? ==> stats == Stats(Saturated(Count(Bytes, node.value)), Saturated(Count(Files, node.value)),
                                          Saturated(Count(Directories, node.value)))
  {
    if node.None? {
      return Stats(0, 0, 0);
    }
    stats := Inspect(node.value);
  }

  method Inspect(node: Node) returns (stats: Stats)
    ensures stats.bytes == Saturated(Count(Bytes, node))
    ensures stats.files == Saturated(Count(Files, node))
    ensures stats.directories == Saturated(Count(Directories, node))
    decreases node
  {
    match node
    case File(bytes, _) => stats := Stats(Saturated(bytes), 1, 0);
    case Special => stats := Stats(0, 0, 0);
    case Directory(_, entries) => stats := InspectDirectory(entries);
  }

  method InspectDirectory(entries: seq<Entry>) returns (stats: Stats)
    ensures stats.bytes == Saturated(CountAll(Bytes, entries))
    ensures stats.files == Saturated(CountAll(Files, entries))
    ensures stats.directories == Saturated(1 + CountAll(Directories, entries))
    decreases entries
  {
    stats := Stats(0, 0, 1);
    for k := 0 to |entries|
      invariant stats.bytes == Saturated(CountAll(Bytes, entries[..k]))
      invariant stats.files == Saturated(CountAll(Files, entries[..k]))
      invariant stats.directories == Saturated(1 + CountAll(Directories, entries[..k]))
    {
      var child := Inspect(entries[k].node);
      forall m {
        CountNext(m, entries, k);
      }
      stats := Add(stats, child);
    }
    assert entries[..|entries|] == entries;
  }

  lemma CountNext(m: Measure, entries: seq<Entry>, k: nat)
    requires k < |entries|
    ensures CountAll(m, entries[..k + 1]) == CountAll(m, entries[..k]) + Count(m, entries[k].node)
  {
    assert entries[..k + 1][..k] == entries[..k];
  }

  // ------------------------------------------------------------------ what pruning should do

  predicate Old(modified: Option<int>, cutoff: int) {
    modified.Some? && modified.value <= cutoff
  }

  /** Whether pruning removes this node when it is not the root. */
  predicate Doomed(node: Node, cutoff: int)
    decreases node, 0
  {
    match node
    case File(_, modified) => Old(modified, cutoff)
    case Directory(modified, entries) => Old(modified, cutoff) && AllDoomed(entries, cutoff)
    case Special => false
  }

  predicate AllDoomed(entries: seq<Entry>, cutoff: int)
    decreases entries, 1
  {
    entries == [] || (AllDoomed(entries[..|entries| - 1], cutoff) && Doomed(entries[|entries| - 1].node, cutoff))
  }

  /** What is left of a node that is not removed. */
  function Kept(node: Node, cutoff: int): Node
    decreases node, 0
  {
    match node
    case Directory(modified, entries) => Directory(modified, KeptAll(entries, cutoff))
    case _ => node
  }

  function KeptAll(entries: seq<Entry>, cutoff: int): seq<Entry>
    decreases entries, 1
  {
    if entries == [] then []
    else
      var last := entries[|entries| - 1];
      KeptAll(entries[..|entries| - 1], cutoff)
      + (if Doomed(last.node, cutoff) then [] else [Entry(last.name, Kept(last.node, cutoff))])
  }

  /** The true size of what is removed below (and, when doomed and not the root, including) a node. */
  function Removed(m: Measure, node: Node, cutoff: int, removeSelf: bool): nat
    decreases node, 0
  {
    match node
    case File(_, modified) => if Old(modified, cutoff) then Count(m, node) else 0
    case Directory(_, entries) =>
      RemovedAll(m, entries, cutoff) + (if removeSelf && Doomed(node, cutoff) && m.Directories? then 1 else 0)
    case Special => 0
  }

  function RemovedAll(m: Measure, entries: seq<Entry>, cutoff: int): nat
    decreases entries, 1
  {
    if entries == [] then 0
    else RemovedAll(m, entries[..|entries| - 1], cutoff) + Removed(m, entries[|entries| - 1].node, cutoff, true)
  }

  /** Whether `prune_node` reports the node gone: files go at any level, directories below the root. */
  predicate Goes(node: Node, cutoff: int, removeSelf: bool) {
    Doomed(node, cutoff) && (removeSelf || !node.Directory?)
  }

  // ------------------------------------------------------------------ the pruner

  /** `std::fs::remove_dir`, which fails on a directory that still has entries. */
  method RemoveDirectory(entries: seq<Entry>) returns (after: Option<Node>)
    requires entries == []
    ensures after == None
  {
    after := None;
  }

  /** Statistics and verdict do not depend on `dryRun`; only a real run changes the tree. */
  method PruneNode(node: Node, cutoff: int, dryRun: bool, removeSelf: bool)
    returns (stats: Stats, removed: bool, after: Option<Node>)
    ensures removed == Goes(node, cutoff, removeSelf)
    ensures stats.bytes == Saturated(Removed(Bytes, node, cutoff, removeSelf))
    ensures stats.files == Saturated(Removed(Files, node, cutoff, removeSelf))
    ensures stats.directories == Saturated(Removed(Directories, node, cutoff, removeSelf))
    ensures after == if dryRun then Some(node) else if removed then None else Some(Kept(node, cutoff))
    decreases node
  {
    match node
    case File(bytes, modified) =>
      if !Old(modified, cutoff) {
        return Stats(0, 0, 0), false, Some(node);
      }
      stats, removed := Stats(Saturated(bytes), 1, 0), true;
      after := if dryRun then Some(node) else None;
    case Special =>
      return Stats(0, 0, 0), false, Some(node);
    case Directory(modified, entries) =>
      var emptyAfter, left;
      stats, emptyAfter, left := PruneEntries(entries, cutoff, dryRun);
      after := Some(Directory(modified, left));
      removed := removeSelf && Old(modified, cutoff) && emptyAfter;
      if removed {
        if !dryRun {
          AllDoomedKeepsNothing(entries, cutoff);
          after := RemoveDirectory(left);
        }
        stats := stats.(directories := Saturated(stats.directories + 1));
      }
  }

  /** What has come of a listing of entries. */
  predicate Pruned(entries: seq<Entry>, cutoff: int, dryRun: bool, stats: Stats, emptyAfter: bool, left: seq<Entry>) {
    && stats == Stats(Saturated(RemovedAll(Bytes, entries, cutoff)), Saturated(RemovedAll(Files, entries, cutoff)),
                      Saturated(RemovedAll(Directories, entries, cutoff)))
    && emptyAfter == AllDoomed(entries, cutoff)
    && left == if dryRun then entries else KeptAll(entries, cutoff)
  }

  /** The entries of a directory, one after another. */
  method PruneEntries(entries: seq<Entry>, cutoff: int, dryRun: bool)
    returns (stats: Stats, emptyAfter: bool, left: seq<Entry>)
    ensures Pruned(entries, cutoff, dryRun, stats, emptyAfter, left)
    decreases entries
  {
    stats, emptyAfter, left := Stats(0, 0, 0), true, [];
    for k := 0 to |entries|
      invariant Pruned(entries[..k], cutoff, dryRun, stats, emptyAfter, left)
    {
      var entry := entries[k];
      var child, gone, rest := PruneNode(entry.node, cutoff, dryRun, true);
      PruneStep(entries, k, cutoff, dryRun, stats, emptyAfter, left, child, gone, rest);
      stats := Add(stats, child);
      emptyAfter := emptyAfter && gone;
      left := if rest.Some? then left + [Entry(entry.name, rest.value)] else left;
    }
    assert entries[..|entries|] == entries;
  }

  lemma PruneStep(entries: seq<Entry>, k: nat, cutoff: int, dryRun: bool, stats: Stats, emptyAfter: bool,
                  left: seq<Entry>,
                  child: Stats, gone: bool, rest: Option<Node>)
    requires k < |entries| && Pruned(entries[..k], cutoff, dryRun, stats, emptyAfter, left)
    requires var node := entries[k].node;
             && child == Stats(Saturated(Removed(Bytes, node, cutoff, true)),
                               Saturated(Removed(Files, node, cutoff, true)),
                               Saturated(Removed(Directories, node, cutoff, true)))
             && gone == Doomed(node, cutoff)
             && rest == if dryRun then Some(node) else if gone then None else Some(Kept(node, cutoff))
    ensures Pruned(entries[..k + 1], cutoff, dryRun, Add(stats, child), emptyAfter && gone,
                   if rest.Some? then left + [Entry(entries[k].name, rest.value)] else left)
  {
    PruneNext(entries, k, cutoff);
    var entry := entries[k];
    assert entry == Entry(entry.name, entry.node) && entries[..k + 1] == entries[..k] + [entry];
  }

  lemma PruneNext(entries: seq<Entry>, k: nat, cutoff: int)
    requires k < |entries|
    ensures forall m :: RemovedAll(m, entries[..k + 1], cutoff)
                        == RemovedAll(m, entries[..k], cutoff) + Removed(m, entries[k].node, cutoff, true)
    ensures AllDoomed(entries[..k + 1], cutoff) == (AllDoomed(entries[..k], cutoff) && Doomed(entries[k].node, cutoff))
    ensures KeptAll(entries[..k + 1], cutoff)
         == KeptAll(entries[..k], cutoff)
            + (if Doomed(entries[k].node, cutoff) then [] else [Entry(entries[k].name, Kept(entries[k].node, cutoff))])
  {
    assert entries[..k + 1][..k] == entries[..k];
  }

  lemma {:induction false} AllDoomedKeepsNothing(entries: seq<Entry>, cutoff: int)
    requires AllDoomed(entries, cutoff)
    ensures KeptAll(entries, cutoff) == []
    decreases |entries|
  {
    if entries != [] {
      AllDoomedKeepsNothing(entries[..|entries| - 1], cutoff);
    }
  }

  method PrunePath(node: Option<Node>, cutoff: int, dryRun: bool) returns (stats: Stats, after: Option<Node>)
    ensures node.None? ==> stats == Stats(0, 0, 0)
    ensures node.Some? ==> stats == Stats(Saturated(Removed(Bytes, node.value, cutoff, false)),
                                          Saturated(Removed(Files, node.value, cutoff, false)),
                                          Saturated(Removed(Directories, node.value, cutoff, false)))
    ensures dryRun || node.None? ==> after == node
    ensures !dryRun && node.Some? ==>
              after == if Goes(node.value, cutoff, false) then None else Some(Kept(node.value, cutoff))
  {
    if node.None? {
      return Stats(0, 0, 0), node;
    }
    var removed;
    stats, removed, after := PruneNode(node.value, cutoff, dryRun, false);
  }

  // ------------------------------------------------------------------ what it guarantees

  function After(m: Measure, node: Node, cutoff: int, removeSelf: bool): nat {
    if Goes(node, cutoff, removeSelf) then 0 else Count(m, Kept(node, cutoff))
  }

  /** Nothing is lost in the books: a tree's size is what is left plus what was removed. */
  lemma {:induction false} Conservation(m: Measure, node: Node, cutoff: int, removeSelf: bool)
    ensures Count(m, node) == After(m, node, cutoff, removeSelf) + Removed(m, node, cutoff, removeSelf)
    decreases node, 0
  {
    if node.Directory? {
      ConservationAll(m, node.entries, cutoff);
      if Doomed(node, cutoff) {
        AllDoomedKeepsNothing(node.entries, cutoff);
      }
    }
  }

  lemma {:induction false} ConservationAll(m: Measure, entries: seq<Entry>, cutoff: int)
    ensures CountAll(m, entries) == CountAll(m, KeptAll(entries, cutoff)) + RemovedAll(m, entries, cutoff)
    decreases entries, 1
  {
    if entries != [] {
      var front, last := entries[..|entries| - 1], entries[|entries| - 1];
      ConservationAll(m, front, cutoff);
      Conservation(m, last.node, cutoff, true);
      var kept := KeptAll(front, cutoff);
      assert (kept + [Entry(last.name, Kept(last.node, cutoff))])[..|kept|] == kept;
      assert kept + [] == kept;
    }
  }

  /** The same books in saturating arithmetic: the statistics of the tree before are those of
      the tree after plus those removed, however large the tree. */
  lemma SaturatedConservation(m: Measure, node: Node, cutoff: int, removeSelf: bool)
    ensures Saturated(Count(m, node))
         == Saturated(Saturated(After(m, node, cutoff, removeSelf)) + Saturated(Removed(m, node, cutoff, removeSelf)))
  {
    Conservation(m, node, cutoff, removeSelf);
  }

  /** A file, under the names that lead to it. */
  datatype Placed = Placed(path: seq<string>, file: Node)

  /** All files below a node, with their paths, in order. */
  function PlacedFiles(node: Node, path: seq<string>): seq<Placed>
    decreases node, 0
  {
    match node
    case File(_, _) => [Placed(path, node)]
    case Directory(_, entries) => PlacedIn(entries, path)
    case Special => []
  }

  function PlacedIn(entries: seq<Entry>, path: seq<string>): seq<Placed>
    decreases entries, 1
  {
    if entries == [] then []
    else
      var last := entries[|entries| - 1];
      PlacedIn(entries[..|entries| - 1], path) + PlacedFiles(last.node, path + [last.name])
  }

  /** The files of a listing that are newer than the cutoff, or whose age cannot be read. */
  function Newer(files: seq<Placed>, cutoff: int): seq<Placed> {
    if files == [] then []
    else
      var last := files[|files| - 1];
      Newer(files[..|files| - 1], cutoff)
      + (if last.file.File? && last.file.modified.Some? && last.file.modified.value <= cutoff then [] else [last])
  }

  lemma {:induction false} NewerConcat(a: seq<Placed>, b: seq<Placed>, cutoff: int)
    ensures Newer(a + b, cutoff) == Newer(a, cutoff) + Newer(b, cutoff)
    decreases |b|
  {
    if b == [] {
      assert a + b == a;
    } else {
      assert (a + b)[..|a + b| - 1] == a + b[..|b| - 1];
      NewerConcat(a, b[..|b| - 1], cutoff);
    }
  }

  /** Pruning removes exactly the files at or before the cutoff: the files of the tree after are
      the newer files of the tree before, all of them, unchanged, where they were. */
  lemma {:induction false} FilesAfter(node: Node, path: seq<string>, cutoff: int, removeSelf: bool)
    ensures Newer(PlacedFiles(node, path), cutoff)
         == if Goes(node, cutoff, removeSelf) then [] else PlacedFiles(Kept(node, cutoff), path)
    decreases node, 0
  {
    match node
    case Directory(_, entries) =>
      FilesAfterIn(entries, path, cutoff);
      if Doomed(node, cutoff) {
        AllDoomedKeepsNothing(entries, cutoff);
      }
    case _ =>
      assert PlacedFiles(node, path)[..0] == [] || PlacedFiles(node, path) == [];
  }

  lemma {:induction false} FilesAfterIn(entries: seq<Entry>, path: seq<string>, cutoff: int)
    ensures Newer(PlacedIn(entries, path), cutoff) == PlacedIn(KeptAll(entries, cutoff), path)
    decreases entries, 1
  {
    if entries != [] {
      var front, last := entries[..|entries| - 1], entries[|entries| - 1];
      FilesAfterIn(front, path, cutoff);
      FilesAfter(last.node, path + [last.name], cutoff, true);
      NewerConcat(PlacedIn(front, path), PlacedFiles(last.node, path + [last.name]), cutoff);
      var kept := KeptAll(front, cutoff);
      assert (kept + [Entry(last.name, Kept(last.node, cutoff))])[..|kept|] == kept;
      assert kept + [] == kept;
    }
  }

  /** A node and everything below it. */
  function Below(node: Node): seq<Node>
    decreases node, 0
  {
    match node
    case Directory(_, entries) => [node] + BelowAll(entries)
    case _ => [node]
  }

  function BelowAll(entries: seq<Entry>): seq<Node>
    decreases entries, 1
  {
    if entries == [] then [] else BelowAll(entries[..|entries| - 1]) + Below(entries[|entries| - 1].node)
  }

  /** Neither newer than the cutoff nor of a kind that pruning leaves alone. */
  predicate Expired(node: Node, cutoff: int) {
    !node.Special? && node.modified.Some? && node.modified.value <= cutoff
  }

  predicate AllExpired(nodes: seq<Node>, cutoff: int) {
    forall k :: 0 <= k < |nodes| ==> Expired(nodes[k], cutoff)
  }

  lemma AllExpiredConcat(a: seq<Node>, b: seq<Node>, cutoff: int)
    ensures AllExpired(a + b, cutoff) <==> AllExpired(a, cutoff) && AllExpired(b, cutoff)
  {
    var c := a + b;
    assert forall k :: 0 <= k < |a| ==> c[k] == a[k];
    assert forall k :: 0 <= k < |b| ==> b[k] == c[|a| + k];
  }

  /** A node goes exactly when it and everything below it has expired; one newer entry, however
      deep, keeps every directory above it. */
  lemma {:induction false} DoomedExactly(node: Node, cutoff: int)
    ensures Doomed(node, cutoff) <==> AllExpired(Below(node), cutoff)
    decreases node, 0
  {
    assert AllExpired([node], cutoff) <==> Expired(node, cutoff) by {
      assert [node][0] == node;
    }
    match node
    case Directory(_, entries) =>
      AllDoomedExactly(entries, cutoff);
      AllExpiredConcat([node], BelowAll(entries), cutoff);
    case _ =>
  }

  lemma {:induction false} AllDoomedExactly(entries: seq<Entry>, cutoff: int)
    ensures AllDoomed(entries, cutoff) <==> AllExpired(BelowAll(entries), cutoff)
    decreases entries, 1
  {
    if entries != [] {
      var front, last := entries[..|entries| - 1], entries[|entries| - 1];
      AllDoomedExactly(front, cutoff);
      DoomedExactly(last.node, cutoff);
      AllExpiredConcat(BelowAll(front), Below(last.node), cutoff);
    }
  }

  // ------------------------------------------------------------------ counting node by node

  /** What one node adds to a measure, whatever lies below it. */
  function Weight(m: Measure, node: Node): nat {
    match (m, node)
    case (Bytes, File(bytes, _)) => bytes
    case (Files, File(_, _)) => 1
    case (Directories, Directory(_, _)) => 1
    case _ => 0
  }

  function Tally(m: Measure, nodes: seq<Node>): nat {
    if nodes == [] then 0 else Tally(m, nodes[..|nodes| - 1]) + Weight(m, nodes[|nodes| - 1])
  }

  lemma {:induction false} TallyConcat(m: Measure, a: seq<Node>, b: seq<Node>)
    ensures Tally(m, a + b) == Tally(m, a) + Tally(m, b)
    decreases |b|
  {
    if b == [] {
      assert a + b == a;
    } else {
      assert (a + b)[..|a + b| - 1] == a + b[..|b| - 1];
      TallyConcat(m, a, b[..|b| - 1]);
    }
  }

  /** The measure of a tree is what its nodes add up to: the bytes of all files, the number of files,
      the number of directories. */
  lemma {:induction false} CountIsTally(m: Measure, node: Node)
    ensures Count(m, node) == Tally(m, Below(node))
    decreases node, 0
  {
    assert [node][..0] == [];
    assert Tally(m, [node]) == Weight(m, node);
    match node
    case Directory(_, entries) =>
      CountAllIsTally(m, entries);
      TallyConcat(m, [node], BelowAll(entries));
    case _ =>
  }

  lemma {:induction false} CountAllIsTally(m: Measure, entries: seq<Entry>)
    ensures CountAll(m, entries) == Tally(m, BelowAll(entries))
    decreases entries, 1
  {
    if entries != [] {
      var front, last := entries[..|entries| - 1], entries[|entries| - 1];
      CountAllIsTally(m, front);
      CountIsTally(m, last.node);
      TallyConcat(m, BelowAll(front), Below(last.node));
    }
  }
}
