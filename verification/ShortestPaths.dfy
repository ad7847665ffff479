/** All shortest dependency paths of a lockfile (`shortest_dependency_paths`): a breadth-first
    search over paths rather than coordinates. */
module ShortestPaths {
  import opened Digraph
  import opened Wrappers

  datatype LockedPackage = LockedPackage(coordinate: string, selectedParent: Option<string>, dependencies: seq<string>)

  type Path = seq<string>

  /** The dependencies by coordinate; when a coordinate is locked twice the later entry counts. */
  function DependencyMap(lock: seq<LockedPackage>): map<string, seq<string>> {
    if lock == [] then map[]
    else
      var last := lock[|lock| - 1];
      DependencyMap(lock[..|lock| - 1])[last.coordinate := last.dependencies]
  }

  function Roots(lock: seq<LockedPackage>): seq<string> {
    if lock == [] then []
    else
      Roots(lock[..|lock| - 1])
      + (var last := lock[|lock| - 1]; if last.selectedParent.None? then [last.coordinate] else [])
  }

  function Dependencies(packages: map<string, seq<string>>): Graph<string> {
    map c | c in packages :: set d | d in packages[c]
  }

  /** The last entry of a coordinate is at this position. */
  predicate LastEntry(lock: seq<LockedPackage>, coordinate: string, i: int) {
    && 0 <= i < |lock| && lock[i].coordinate == coordinate
    && forall j :: i < j < |lock| ==> lock[j].coordinate != coordinate
  }

  lemma {:induction false} LastEntryCounts(lock: seq<LockedPackage>, coordinate: string)
    ensures coordinate in DependencyMap(lock) <==> exists i :: LastEntry(lock, coordinate, i)
    ensures forall i :: LastEntry(lock, coordinate, i) ==> DependencyMap(lock)[coordinate] == lock[i].dependencies
    decreases |lock|
  {
    if lock != [] {
      var n := |lock| - 1;
      LastEntryCounts(lock[..n], coordinate);
      if lock[n].coordinate == coordinate {
        assert LastEntry(lock, coordinate, n);
      } else {
        forall i
          ensures LastEntry(lock, coordinate, i) <==> LastEntry(lock[..n], coordinate, i)
        {
        }
      }
    }
  }

  lemma {:induction false} RootsAre(lock: seq<LockedPackage>, coordinate: string)
    ensures coordinate in Roots(lock)
            <==> exists i :: 0 <= i < |lock| && lock[i].coordinate == coordinate && lock[i].selectedParent.None?
    decreases |lock|
  {
    if lock != [] {
      var n := |lock| - 1;
      RootsAre(lock[..n], coordinate);
      if i :| 0 <= i < n && lock[..n][i].coordinate == coordinate && lock[..n][i].selectedParent.None? {
        assert lock[i] == lock[..n][i];
      }
    }
  }

  /** In the lockfile's terms: the first coordinate is locked without a selected parent, and each
      further one is a dependency in the last entry of the one before. */
  ghost predicate LockedWalk(lock: seq<LockedPackage>, p: Path) {
    && p != []
    && (exists i :: 0 <= i < |lock| && lock[i].coordinate == p[0] && lock[i].selectedParent.None?)
    && forall k :: 0 <= k < |p| - 1 ==> LockedStep(lock, p[k], p[k + 1])
  }

  ghost predicate LockedStep(lock: seq<LockedPackage>, a: string, b: string) {
    exists i :: LastEntry(lock, a, i) && b in lock[i].dependencies
  }

  lemma RootWalksAreLocked(lock: seq<LockedPackage>, p: Path)
    ensures RootWalk(DependencyMap(lock), Roots(lock), p) <==> LockedWalk(lock, p)
  {
    if p != [] {
      RootsAre(lock, p[0]);
      forall k | 0 <= k < |p| - 1
        ensures Edge(Dependencies(DependencyMap(lock)), p[k], p[k + 1]) <==> LockedStep(lock, p[k], p[k + 1])
      {
        LastEntryCounts(lock, p[k]);
      }
    }
  }

  /** A walk along dependencies from a root to `coordinate`. */
  predicate RootWalk(packages: map<string, seq<string>>, roots: seq<string>, p: Path) {
    Walk(Dependencies(packages), p) && p[0] in roots
  }

  /** The coordinate a path ends at. */
  function End(p: Path): string {
    if p == [] then "" else p[|p| - 1]
  }

  /** A walk from a root that no other walk from a root to the same coordinate undercuts. */
  ghost predicate Shortest(packages: map<string, seq<string>>, roots: seq<string>, p: Path) {
    && RootWalk(packages, roots, p)
    && forall q :: RootWalk(packages, roots, q) && End(q) == End(p) ==> |p| <= |q|
  }

  predicate Simple(p: Path) {
    forall i, j :: 0 <= i < j < |p| ==> p[i] != p[j]
  }

  // ------------------------------------------------------------------ shortest walks

  /** Every prefix of a shortest walk is a shortest walk. */
  lemma PrefixShortest(packages: map<string, seq<string>>, roots: seq<string>, p: Path, k: nat)
    requires Shortest(packages, roots, p) && 0 < k <= |p|
    ensures Shortest(packages, roots, p[..k])
  {
    var prefix := p[..k];
    assert forall i :: 0 <= i < k - 1 ==> Edge(Dependencies(packages), p[i], p[i + 1]);
    forall q | RootWalk(packages, roots, q) && End(q) == End(prefix)
      ensures |prefix| <= |q|
    {
      Detour(packages, roots, q, p, k);
    }
  }

  /** A walk may begin like another walk that comes by. */
  lemma Detour(packages: map<string, seq<string>>, roots: seq<string>, q: Path, p: Path, k: nat)
    requires RootWalk(packages, roots, p) && RootWalk(packages, roots, q)
    requires 0 < k <= |p| && End(q) == p[k - 1]
    ensures RootWalk(packages, roots, q + p[k..]) && End(q + p[k..]) == End(p)
  {
    var detour := q + p[k..];
    forall i | 0 <= i < |detour| - 1
      ensures Edge(Dependencies(packages), detour[i], detour[i + 1])
    {
      if i < |q| - 1 {
        assert Edge(Dependencies(packages), q[i], q[i + 1]);
      } else {
        assert Edge(Dependencies(packages), p[i - |q| + k], p[i - |q| + k + 1]);
      }
    }
  }

  /** Shortest walks visit nothing twice. */
  lemma ShortestSimple(packages: map<string, seq<string>>, roots: seq<string>, p: Path)
    requires Shortest(packages, roots, p)
    ensures Simple(p)
  {
    forall i, j | 0 <= i < j < |p|
      ensures p[i] != p[j]
    {
      if p[i] == p[j] {
        PrefixShortest(packages, roots, p, i + 1);
        PrefixShortest(packages, roots, p, j + 1);
        assert false;
      }
    }
  }

  /** Whatever a root reaches is reached by a shortest walk. */
  lemma ShortestExists(packages: map<string, seq<string>>, roots: seq<string>, p: Path) returns (best: Path)
    requires RootWalk(packages, roots, p)
    ensures Shortest(packages, roots, best) && End(best) == End(p) && |best| <= |p|
    decreases |p|
  {
    if Shortest(packages, roots, p) {
      best := p;
    } else {
      var q :| RootWalk(packages, roots, q) && End(q) == End(p) && |q| < |p|;
      best := ShortestExists(packages, roots, q);
    }
  }

  // ------------------------------------------------------------------ the search

  /** The queue holds simple walks, by length, and spans two lengths at most. */
  ghost predicate QueueOk(packages: map<string, seq<string>>, roots: seq<string>, queue: seq<Path>) {
    && (forall q <- queue :: RootWalk(packages, roots, q) && Simple(q))
    && (forall i, j :: 0 <= i < j < |queue| ==> |queue[i]| <= |queue[j]| <= |queue[0]| + 1)
  }

  /** Only shortest walks are recorded, each under its end, whose distance is known. */
  ghost predicate Recorded(packages: map<string, seq<string>>, roots: seq<string>,
                           shortest: map<string, nat>, paths: map<string, set<Path>>) {
    && shortest.Keys == paths.Keys
    && forall c :: c in paths ==>
                     RecordedAt(packages, roots, c, shortest[c], paths[c])
  }

  ghost predicate RecordedAt(packages: map<string, seq<string>>, roots: seq<string>, c: string, length: nat,
                             found: set<Path>) {
    && found != {}
    && forall p <- found :: Shortest(packages, roots, p) && End(p) == c && |p| == length
  }

  /** A walk is recorded already, or a prefix of it is still in the queue. */
  ghost predicate Accounted(queue: seq<Path>, paths: map<string, set<Path>>, p: Path) {
    || (End(p) in paths && p in paths[End(p)])
    || exists q :: q in queue && q <= p
  }

  ghost predicate AllAccounted(packages: map<string, seq<string>>, roots: seq<string>, queue: seq<Path>,
                               paths: map<string, set<Path>>) {
    forall p :: Shortest(packages, roots, p) ==> Accounted(queue, paths, p)
  }

  /** The paths that extend `path` by a dependency of its end that it does not contain yet. */
  function Extensions(path: Path, dependencies: seq<string>): (longer: seq<Path>)
  {
    if dependencies == [] then []
    else (if dependencies[0] in path then [] else [path + [dependencies[0]]]) + Extensions(path, dependencies[1..])
  }

  lemma {:induction false} ExtensionsAre(path: Path, dependencies: seq<string>)
    ensures forall q :: q in Extensions(path, dependencies)
                        <==> q != [] && q[..|q| - 1] == path && q[|q| - 1] in dependencies && q[|q| - 1] !in path
    ensures |Extensions(path, dependencies)| <= |dependencies|
  {
    if dependencies != [] {
      var first, others := dependencies[0], dependencies[1..];
      ExtensionsAre(path, others);
      assert dependencies == [first] + others;
      assert (path + [first])[..|path|] == path;
      forall q | q != [] && q[..|q| - 1] == path && q[|q| - 1] == first
        ensures q == path + [first]
      {
      }
    }
  }

  lemma {:induction false} ExtensionIsLonger(path: Path, dependencies: seq<string>, q: Path)
    requires q in Extensions(path, dependencies)
    ensures End(q) in dependencies && End(q) !in path && q == path + [End(q)]
  {
    if dependencies[0] in path || q != path + [dependencies[0]] {
      ExtensionIsLonger(path, dependencies[1..], q);
    }
  }

  /** Dropping a path that is longer than what is recorded for its end loses no shortest walk. */
  lemma SkipLosesNothing(packages: map<string, seq<string>>, roots: seq<string>, path: Path, rest: seq<Path>,
                         shortest: map<string, nat>, paths: map<string, set<Path>>)
    requires RootWalk(packages, roots, path) && Recorded(packages, roots, shortest, paths)
    requires AllAccounted(packages, roots, [path] + rest, paths)
    requires End(path) in shortest && shortest[End(path)] < |path|
    ensures AllAccounted(packages, roots, rest, paths)
  {
    forall p | Shortest(packages, roots, p)
      ensures Accounted(rest, paths, p)
    {
      assert Accounted([path] + rest, paths, p);
      if path <= p {
        RecordedUndercuts(packages, roots, path, shortest, paths);
        NoneShortestBeyond(packages, roots, path, p);
      }
    }
  }

  lemma RecordedUndercuts(packages: map<string, seq<string>>, roots: seq<string>, path: Path,
                          shortest: map<string, nat>, paths: map<string, set<Path>>)
    requires Recorded(packages, roots, shortest, paths)
    requires End(path) in shortest && shortest[End(path)] < |path|
    ensures !Shortest(packages, roots, path)
  {
    assert RecordedAt(packages, roots, End(path), shortest[End(path)], paths[End(path)]);
    var recorded :| recorded in paths[End(path)];
    assert Shortest(packages, roots, recorded);
  }

  lemma NoneShortestBeyond(packages: map<string, seq<string>>, roots: seq<string>, path: Path, p: Path)
    requires path != [] && path <= p && !Shortest(packages, roots, path)
    ensures !Shortest(packages, roots, p)
  {
    if Shortest(packages, roots, p) {
      assert p[..|path|] == path;
      PrefixShortest(packages, roots, p, |path|);
    }
  }

  /** A path that is taken from the queue and not dropped is a shortest walk to its end. */
  lemma HeadIsShortest(packages: map<string, seq<string>>, roots: seq<string>, path: Path, rest: seq<Path>,
                       shortest: map<string, nat>, paths: map<string, set<Path>>)
    requires QueueOk(packages, roots, [path] + rest) && Recorded(packages, roots, shortest, paths)
    requires AllAccounted(packages, roots, [path] + rest, paths)
    requires End(path) in shortest ==> shortest[End(path)] >= |path|
    ensures Shortest(packages, roots, path)
  {
    var queue := [path] + rest;
    assert queue[0] in queue;
    var best := ShortestExists(packages, roots, path);
    assert Accounted(queue, paths, best);
    if q :| q in queue && q <= best {
      var i :| 0 <= i < |queue| && queue[i] == q;
      assert |queue[0]| <= |q| <= |best|;
    }
  }

  lemma RecordingIsSound(packages: map<string, seq<string>>, roots: seq<string>, path: Path,
                         shortest: map<string, nat>, paths: map<string, set<Path>>)
    requires Recorded(packages, roots, shortest, paths) && Shortest(packages, roots, path)
    ensures Recorded(packages, roots, shortest[End(path) := |path|], Record(paths, path))
  {
    var known := if End(path) in paths then paths[End(path)] else {};
    assert known != {} ==> RecordedAt(packages, roots, End(path), shortest[End(path)], known);
    RecordedHere(packages, roots, path, known);
  }

  lemma RecordedHere(packages: map<string, seq<string>>, roots: seq<string>, path: Path, known: set<Path>)
    requires Shortest(packages, roots, path)
    requires known != {} ==> exists length: nat :: RecordedAt(packages, roots, End(path), length, known)
    ensures RecordedAt(packages, roots, End(path), |path|, known + {path})
  {
  }

  /** Enters a path under the coordinate it ends at. */
  function Record(paths: map<string, set<Path>>, path: Path): map<string, set<Path>> {
    paths[End(path) := (if End(path) in paths then paths[End(path)] else {}) + {path}]
  }

  /** What expanding a recorded path adds to the queue. */
  function Added(packages: map<string, seq<string>>, path: Path): seq<Path> {
    if End(path) in packages then Extensions(path, packages[End(path)]) else []
  }

  lemma LongerWalk(packages: map<string, seq<string>>, roots: seq<string>, path: Path, d: string)
    requires RootWalk(packages, roots, path) && Simple(path)
    requires End(path) in packages && d in packages[End(path)] && d !in path
    ensures RootWalk(packages, roots, path + [d]) && Simple(path + [d])
  {
    var longer := path + [d];
    forall i | 0 <= i < |longer| - 1
      ensures Edge(Dependencies(packages), longer[i], longer[i + 1])
    {
      assert i < |path| - 1 ==> Edge(Dependencies(packages), path[i], path[i + 1]);
    }
  }

  lemma AddedAreWalks(packages: map<string, seq<string>>, roots: seq<string>, path: Path)
    requires RootWalk(packages, roots, path) && Simple(path)
    ensures forall q <- Added(packages, path) :: RootWalk(packages, roots, q) && Simple(q) && |q| == |path| + 1
  {
    forall q | q in Added(packages, path)
      ensures RootWalk(packages, roots, q) && Simple(q) && |q| == |path| + 1
    {
      AddedIsLonger(packages, path, q);
      LongerWalk(packages, roots, path, End(q));
    }
  }

  lemma AddedIsLonger(packages: map<string, seq<string>>, path: Path, q: Path)
    requires q in Added(packages, path)
    ensures End(path) in packages && End(q) in packages[End(path)] && End(q) !in path && q == path + [End(q)]
  {
    ExtensionIsLonger(path, packages[End(path)], q);
  }

  lemma ExpandingKeepsQueue(packages: map<string, seq<string>>, roots: seq<string>, path: Path, rest: seq<Path>)
    requires QueueOk(packages, roots, [path] + rest)
    ensures QueueOk(packages, roots, rest) && QueueOk(packages, roots, rest + Added(packages, path))
  {
    QueueWithoutHead(packages, roots, path, rest);
    AddedAreWalks(packages, roots, path);
    SortedAppend(rest, Added(packages, path), |path|);
    assert forall q <- rest + Added(packages, path) :: q in rest || q in Added(packages, path);
  }

  lemma QueueWithoutHead(packages: map<string, seq<string>>, roots: seq<string>, path: Path, rest: seq<Path>)
    requires QueueOk(packages, roots, [path] + rest)
    ensures QueueOk(packages, roots, rest) && RootWalk(packages, roots, path) && Simple(path)
    ensures forall i, j :: 0 <= i < j < |rest| ==> |rest[i]| <= |rest[j]|
    ensures forall k :: 0 <= k < |rest| ==> |path| <= |rest[k]| <= |path| + 1
  {
    var queue := [path] + rest;
    assert queue[0] in queue && forall q <- rest :: q in queue;
    assert forall k :: 0 <= k < |rest| ==> rest[k] == queue[k + 1];
  }

  lemma SortedAppend(rest: seq<Path>, added: seq<Path>, length: nat)
    requires forall i, j :: 0 <= i < j < |rest| ==> |rest[i]| <= |rest[j]|
    requires forall k :: 0 <= k < |rest| ==> length <= |rest[k]| <= length + 1
    requires forall q <- added :: |q| == length + 1
    ensures var queue := rest + added;
            forall i, j :: 0 <= i < j < |queue| ==> |queue[i]| <= |queue[j]| <= |queue[0]| + 1
  {
    forall k | 0 <= k < |added|
      ensures |added[k]| == length + 1
    {
      assert added[k] in added;
    }
  }

  /** Recording a path and queueing its extensions keeps every shortest walk in sight. */
  lemma ExpandingLosesNothing(packages: map<string, seq<string>>, roots: seq<string>, path: Path, rest: seq<Path>,
                              paths: map<string, set<Path>>)
    requires path != [] && AllAccounted(packages, roots, [path] + rest, paths)
    ensures AllAccounted(packages, roots, rest + Added(packages, path), Record(paths, path))
  {
    forall p | Shortest(packages, roots, p)
      ensures Accounted(rest + Added(packages, path), Record(paths, path), p)
    {
      assert Accounted([path] + rest, paths, p);
      var longer := rest + Added(packages, path);
      if path <= p {
        if path != p {
          NextIsQueued(packages, roots, path, p);
          assert p[..|path| + 1] in longer && p[..|path| + 1] <= p;
        }
      } else if q :| q in [path] + rest && q <= p {
        assert q in longer;
      }
    }
  }

  lemma NextIsQueued(packages: map<string, seq<string>>, roots: seq<string>, path: Path, p: Path)
    requires path != [] && path <= p && path != p && Shortest(packages, roots, p)
    ensures p[..|path| + 1] in Added(packages, path)
  {
    var next := p[..|path| + 1];
    assert Edge(Dependencies(packages), p[|path| - 1], p[|path|]);
    ShortestSimple(packages, roots, p);
    ExtensionsAre(path, packages[End(path)]);
    assert next[..|path|] == path && End(next) == p[|path|];
  }

  // ------------------------------------------------------------------ termination

  /** Every coordinate a simple walk can visit. */
  function Universe(packages: map<string, seq<string>>, roots: seq<string>): set<string> {
    (set r | r in roots) + (set c, d | c in packages && d in packages[c] :: d)
  }

  /** An upper bound on the steps a queued path can cause, `rest` being how much it can still grow. */
  function Weight(rest: nat, degree: nat): nat {
    if rest == 0 then 1 else 1 + degree * Weight(rest - 1, degree)
  }

  function QueueWeight(queue: seq<Path>, size: nat, degree: nat): nat {
    if queue == [] then 0
    else Weight(if |queue[0]| <= size then size - |queue[0]| else 0, degree) + QueueWeight(queue[1..], size, degree)
  }

  lemma {:induction false} QueueWeightAdds(queue: seq<Path>, more: seq<Path>, size: nat, degree: nat)
    ensures QueueWeight(queue + more, size, degree)
            == QueueWeight(queue, size, degree) + QueueWeight(more, size, degree)
  {
    if queue == [] {
      assert queue + more == more;
    } else {
      assert (queue + more)[1..] == queue[1..] + more;
      QueueWeightAdds(queue[1..], more, size, degree);
    }
  }

  lemma {:induction false} ExtensionsWeight(added: seq<Path>, length: nat, size: nat, degree: nat)
    requires length <= size && forall q <- added :: |q| == length
    ensures QueueWeight(added, size, degree) == |added| * Weight(size - length, degree)
  {
    if added != [] {
      var first := added[0];
      assert first in added;
      ExtensionsWeight(added[1..], length, size, degree);
      OneMore(|added| - 1, Weight(size - length, degree));
    }
  }

  lemma OneMore(n: nat, w: nat)
    ensures (n + 1) * w == w + n * w
  {
  }

  lemma {:induction false} SimpleIsSmall(p: Path, universe: set<string>)
    requires Simple(p) && forall x <- p :: x in universe
    ensures |p| <= |universe|
  {
    if p != [] {
      var first := p[0];
      assert p == [first] + p[1..];
      assert first in p;
      SimpleIsSmall(p[1..], universe - {first});
    }
  }

  lemma DegreeBound(packages: map<string, seq<string>>) returns (degree: nat)
    ensures forall c <- packages :: |packages[c]| <= degree
    decreases |packages|
  {
    if packages == map[] {
      degree := 0;
    } else {
      var c :| c in packages;
      var rest := packages - {c};
      assert |rest| < |packages| by {
        assert packages.Keys == rest.Keys + {c};
      }
      degree := DegreeBound(rest);
      assert forall d :: d in packages && d != c ==> d in rest && rest[d] == packages[d];
      degree := if degree < |packages[c]| then |packages[c]| else degree;
    }
  }

  /** Taking a path off the queue, and possibly adding its extensions, lightens the queue. */
  lemma StepLightens(packages: map<string, seq<string>>, roots: seq<string>, path: Path, rest: seq<Path>, degree: nat)
    requires forall c <- packages :: |packages[c]| <= degree
    requires RootWalk(packages, roots, path) && Simple(path)
    ensures var size := |Universe(packages, roots)|;
            && QueueWeight(rest, size, degree) < QueueWeight([path] + rest, size, degree)
            && QueueWeight(rest + Added(packages, path), size, degree) < QueueWeight([path] + rest, size, degree)
  {
    var size := |Universe(packages, roots)|;
    assert ([path] + rest)[1..] == rest;
    QueueWeightAdds(rest, Added(packages, path), size, degree);
    SimpleWalkFits(packages, roots, path);
    AddedWeight(packages, roots, path, degree);
  }

  lemma AddedAreFew(packages: map<string, seq<string>>, path: Path, degree: nat)
    requires forall c <- packages :: |packages[c]| <= degree
    ensures |Added(packages, path)| <= degree
  {
    if End(path) in packages {
      ExtensionsAre(path, packages[End(path)]);
    }
  }

  lemma AddedWeight(packages: map<string, seq<string>>, roots: seq<string>, path: Path, degree: nat)
    requires forall c <- packages :: |packages[c]| <= degree
    requires RootWalk(packages, roots, path) && Simple(path) && |path| <= |Universe(packages, roots)|
    ensures var size := |Universe(packages, roots)|;
            QueueWeight(Added(packages, path), size, degree) < Weight(size - |path|, degree)
  {
    var size, added := |Universe(packages, roots)|, Added(packages, path);
    if added != [] {
      AddedAreWalks(packages, roots, path);
      var first := added[0];
      assert first in added;
      SimpleWalkFits(packages, roots, first);
      ExtensionsWeight(added, |path| + 1, size, degree);
      AddedAreFew(packages, path, degree);
      AtMost(|added|, degree, Weight(size - |path| - 1, degree));
    }
  }

  lemma SimpleWalkFits(packages: map<string, seq<string>>, roots: seq<string>, p: Path)
    requires RootWalk(packages, roots, p) && Simple(p)
    ensures |p| <= |Universe(packages, roots)|
  {
    forall k | 0 <= k < |p|
      ensures p[k] in Universe(packages, roots)
    {
      assert k > 0 ==> Edge(Dependencies(packages), p[k - 1], p[k]);
    }
    SimpleIsSmall(p, Universe(packages, roots));
  }

  lemma AtMost(a: nat, b: nat, c: nat)
    requires a <= b
    ensures a * c <= b * c
  {
  }

  // ------------------------------------------------------------------ the result

  /** Of all walks through the lockfile that end where this one does, none is shorter. */
  ghost predicate ShortestInLock(lock: seq<LockedPackage>, p: Path) {
    LockedWalk(lock, p) && forall q :: LockedWalk(lock, q) && End(q) == End(p) ==> |p| <= |q|
  }

  lemma ShortestIsInLock(lock: seq<LockedPackage>)
    ensures forall p :: Shortest(DependencyMap(lock), Roots(lock), p) <==> ShortestInLock(lock, p)
  {
    forall p
      ensures RootWalk(DependencyMap(lock), Roots(lock), p) <==> LockedWalk(lock, p)
    {
      RootWalksAreLocked(lock, p);
    }
  }

  /** For every coordinate a root reaches, exactly the set of all its shortest walks; nothing
      for the others. The search ends on every lockfile, cyclic ones too. */
  method ShortestDependencyPaths(lock: seq<LockedPackage>) returns (paths: map<string, set<Path>>)
    ensures forall c, p :: c in paths && p in paths[c] <==> ShortestInLock(lock, p) && End(p) == c
    ensures forall c :: c in paths <==> exists p :: LockedWalk(lock, p) && End(p) == c
  {
    var packages, roots := DependencyMap(lock), Roots(lock);
    ghost var degree := DegreeBound(packages);
    paths := map[];
    var shortest: map<string, nat> := map[];
    var queue: seq<Path> := seq(|roots|, i requires 0 <= i < |roots| => [roots[i]]);
    RootsAccounted(packages, roots, queue);
    while queue != []
      invariant QueueOk(packages, roots, queue)
      invariant Recorded(packages, roots, shortest, paths)
      invariant AllAccounted(packages, roots, queue, paths)
      decreases QueueWeight(queue, |Universe(packages, roots)|, degree)
    {
      var path, rest := queue[0], queue[1..];
      assert queue == [path] + rest && path in queue;
      StepLightens(packages, roots, path, rest, degree);
      ExpandingKeepsQueue(packages, roots, path, rest);
      var coordinate, length := End(path), |path|;
      if coordinate in shortest && shortest[coordinate] < length {
        SkipLosesNothing(packages, roots, path, rest, shortest, paths);
        queue := rest;
      } else {
        HeadIsShortest(packages, roots, path, rest, shortest, paths);
        RecordingIsSound(packages, roots, path, shortest, paths);
        ExpandingLosesNothing(packages, roots, path, rest, paths);
        shortest := shortest[coordinate := length];
        paths := Record(paths, path);
        queue := Expand(packages, path, rest);
      }
    }
    ReadOff(packages, roots, shortest, paths);
    InLock(lock, paths);
  }

  lemma InLock(lock: seq<LockedPackage>, paths: map<string, set<Path>>)
    requires forall c, p ::
               c in paths && p in paths[c] <==> Shortest(DependencyMap(lock), Roots(lock), p) && End(p) == c
    requires forall c :: c in paths <==> exists p :: RootWalk(DependencyMap(lock), Roots(lock), p) && End(p) == c
    ensures forall c, p :: c in paths && p in paths[c] <==> ShortestInLock(lock, p) && End(p) == c
    ensures forall c :: c in paths <==> exists p :: LockedWalk(lock, p) && End(p) == c
  {
    ShortestIsInLock(lock);
    forall c
      ensures c in paths <==> exists p :: LockedWalk(lock, p) && End(p) == c
    {
      if p :| RootWalk(DependencyMap(lock), Roots(lock), p) && End(p) == c {
        RootWalksAreLocked(lock, p);
      }
      if p :| LockedWalk(lock, p) && End(p) == c {
        RootWalksAreLocked(lock, p);
      }
    }
  }

  /** Queues the path's extensions, one dependency after another. */
  method Expand(packages: map<string, seq<string>>, path: Path, rest: seq<Path>) returns (queue: seq<Path>)
    ensures queue == rest + Added(packages, path)
  {
    queue := rest;
    if End(path) in packages {
      var dependencies := packages[End(path)];
      assert dependencies[0..] == dependencies;
      for k := 0 to |dependencies|
        invariant queue + Extensions(path, dependencies[k..]) == rest + Added(packages, path)
      {
        var dependency := dependencies[k];
        ExtensionsFrom(path, dependencies, k, queue);
        if dependency !in path {
          queue := queue + [path + [dependency]];
        }
      }
    }
  }

  lemma ExtensionsFrom(path: Path, dependencies: seq<string>, k: nat, queue: seq<Path>)
    requires k < |dependencies|
    ensures var tail, next := Extensions(path, dependencies[k..]), Extensions(path, dependencies[k + 1..]);
            queue + tail == if dependencies[k] in path then queue + next else queue + [path + [dependencies[k]]] + next
  {
    assert dependencies[k..][1..] == dependencies[k + 1..];
  }

  lemma RootsAccounted(packages: map<string, seq<string>>, roots: seq<string>, queue: seq<Path>)
    requires |queue| == |roots| && forall i :: 0 <= i < |roots| ==> queue[i] == [roots[i]]
    ensures AllAccounted(packages, roots, queue, map[]) && QueueOk(packages, roots, queue)
  {
    forall p | Shortest(packages, roots, p)
      ensures Accounted(queue, map[], p)
    {
      var i :| 0 <= i < |roots| && roots[i] == p[0];
      assert queue[i] in queue && queue[i] <= p;
    }
  }

  /** Once the queue is empty, what is recorded is everything. */
  lemma ReadOff(packages: map<string, seq<string>>, roots: seq<string>, shortest: map<string, nat>,
                paths: map<string, set<Path>>)
    requires Recorded(packages, roots, shortest, paths) && AllAccounted(packages, roots, [], paths)
    ensures forall c, p :: c in paths && p in paths[c] <==> Shortest(packages, roots, p) && End(p) == c
    ensures forall c :: c in paths <==> exists p :: RootWalk(packages, roots, p) && End(p) == c
  {
    forall p | Shortest(packages, roots, p)
      ensures End(p) in paths && p in paths[End(p)]
    {
      assert Accounted([], paths, p);
    }
    forall p | RootWalk(packages, roots, p)
      ensures End(p) in paths
    {
      var best := ShortestExists(packages, roots, p);
    }
    forall c | c in paths
      ensures exists p :: RootWalk(packages, roots, p) && End(p) == c
    {
      var p :| p in paths[c];
    }
  }
}
