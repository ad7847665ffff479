/** The workspace module graph: scope-filtered reachability, layered topological sort and
    the depth-first search that names a cycle when there is no such sort. */
module ModuleGraph {
  import opened Wrappers
  import opened Digraph

  datatype Scope = CompileScope | RuntimeScope | ProvidedScope | TestScope

  datatype Usage = ForCompile | ForRuntime | ForTest {
    predicate Includes(scope: Scope) {
      match this
      case ForCompile => scope.CompileScope? || scope.ProvidedScope?
      case ForRuntime => scope.CompileScope? || scope.RuntimeScope?
      case ForTest => true
    }
  }

  datatype Dependency = Dependency(index: int, scope: Scope)

  datatype Module = Module(name: string, dependencies: seq<Dependency>)

  /** Discovery resolves every workspace dependency to the index of a declared module. */
  predicate Resolved(modules: seq<Module>) {
    forall i :: 0 <= i < |modules| ==> forall d <- modules[i].dependencies :: 0 <= d.index < |modules|
  }

  /** The module graph, restricted to the dependencies a usage includes. */
  function Scoped(modules: seq<Module>, usage: Usage): Graph<int> {
    map i | i in Indices(modules) ::
      set d | d in modules[i].dependencies && usage.Includes(d.scope) :: d.index
  }

  function Full(modules: seq<Module>): Graph<int> {
    Scoped(modules, ForTest)
  }

  function Indices(modules: seq<Module>): (indices: set<int>)
    ensures forall i :: i in indices <==> 0 <= i < |modules|
  {
    if modules == [] then {} else Indices(modules[..|modules| - 1]) + {|modules| - 1}
  }

  /** Compiling follows compile and provided dependencies, running compile and runtime ones, and
      testing all. */
  lemma ScopesFollowed(modules: seq<Module>, i: int, j: int)
    requires i in Indices(modules)
    ensures Edge(Scoped(modules, ForCompile), i, j)
            <==> Dependency(j, CompileScope) in modules[i].dependencies
                 || Dependency(j, ProvidedScope) in modules[i].dependencies
    ensures Edge(Scoped(modules, ForRuntime), i, j)
            <==> Dependency(j, CompileScope) in modules[i].dependencies
                 || Dependency(j, RuntimeScope) in modules[i].dependencies
    ensures Edge(Full(modules), i, j) <==> exists scope :: Dependency(j, scope) in modules[i].dependencies
  {
    if d :| d in modules[i].dependencies && d.index == j {
      assert d == Dependency(j, d.scope);
    }
  }

  // ------------------------------------------------------- transitive dependencies

  function IncludedIndices(dependencies: seq<Dependency>, usage: Usage): seq<int> {
    if dependencies == [] then []
    else (if usage.Includes(dependencies[0].scope) then [dependencies[0].index] else [])
         + IncludedIndices(dependencies[1..], usage)
  }

  lemma {:induction false} IncludedIndicesAre(dependencies: seq<Dependency>, usage: Usage)
    ensures forall j :: j in IncludedIndices(dependencies, usage)
                        <==> exists d :: d in dependencies && usage.Includes(d.scope) && d.index == j
  {
    if dependencies != [] {
      IncludedIndicesAre(dependencies[1..], usage);
      assert dependencies == [dependencies[0]] + dependencies[1..];
    }
  }

  lemma IncludedIndicesAreEdges(modules: seq<Module>, i: int, usage: Usage)
    requires Resolved(modules) && 0 <= i < |modules|
    ensures forall j :: j in IncludedIndices(modules[i].dependencies, usage) <==> Edge(Scoped(modules, usage), i, j)
    ensures forall j :: j in IncludedIndices(modules[i].dependencies, usage) ==> j in Indices(modules)
  {
    IncludedIndicesAre(modules[i].dependencies, usage);
  }

  /** The worklist computes exactly the modules reachable along included dependencies. */
  method TransitiveDependencies(index: int, modules: seq<Module>, usage: Usage) returns (found: set<int>)
    requires Resolved(modules) && 0 <= index < |modules|
    ensures forall j :: j in found <==> Reaches(Scoped(modules, usage), index, j)
    ensures found <= Indices(modules)
  {
    ghost var g := Scoped(modules, usage);
    found := {};
    var pending := IncludedIndices(modules[index].dependencies, usage);
    IncludedIndicesAreEdges(modules, index, usage);
    forall j | j in pending
      ensures Reaches(g, index, j)
    {
      ReachesEdge(g, index, j);
    }
    while pending != []
      invariant found <= Indices(modules) && forall j <- pending :: j in Indices(modules)
      invariant forall j :: j in pending || j in found ==> Reaches(g, index, j)
      invariant forall j :: Edge(g, index, j) ==> j in found || j in pending
      invariant forall j, k :: j in found && Edge(g, j, k) ==> k in found || k in pending
      decreases Indices(modules) - found, |pending|
    {
      ghost var before := pending;
      var dependency := pending[|pending| - 1];
      assert dependency in pending;
      pending := pending[..|pending| - 1];
      assert before == pending + [dependency];
      if dependency !in found {
        found := found + {dependency};
        var added := IncludedIndices(modules[dependency].dependencies, usage);
        IncludedIndicesAreEdges(modules, dependency, usage);
        forall j | j in added
          ensures Reaches(g, index, j)
        {
          ReachesThenEdge(g, index, dependency, j);
        }
        pending := pending + added;
        assert dependency in Indices(modules) - (found - {dependency});
      }
    }
    ClosedContainsReached(g, index, found);
  }

  // ------------------------------------------------------------- topological layers

  /** Every module lies in a layer, and depends on modules of earlier layers only. */
  ghost predicate RespectsDependencies(modules: seq<Module>, layers: seq<seq<int>>) {
    && (forall i :: i in Indices(modules) ==> InEarlierLayer(layers, |layers|, i))
    && (forall k, i, j ::
          0 <= k < |layers| && i in layers[k] && Edge(Full(modules), i, j) ==> InEarlierLayer(layers, k, j))
  }

  ghost predicate InEarlierLayer(layers: seq<seq<int>>, k: int, j: int) {
    exists m :: 0 <= m < k && m < |layers| && j in layers[m]
  }

  predicate AscendingIndices(s: seq<int>) {
    forall i, j :: 0 <= i < j < |s| ==> s[i] < s[j]
  }

  lemma AscendingAppend(s: seq<int>, x: int)
    requires AscendingIndices(s) && forall i <- s :: i < x
    ensures AscendingIndices(s + [x])
  {
    forall i | 0 <= i < |s|
      ensures s[i] < x
    {
      assert s[i] in s;
    }
  }

  /** No index occurs in two layers or twice in one. */
  predicate Disjoint(layers: seq<seq<int>>) {
    && (forall k :: 0 <= k < |layers| ==> layers[k] != [] && AscendingIndices(layers[k]))
    && (forall k, m :: 0 <= k < m < |layers| ==> forall i <- layers[k] :: i !in layers[m])
  }

  ghost predicate ChainFrom(modules: seq<Module>, i: int, p: seq<int>) {
    Walk(Full(modules), p) && p[0] == i
  }

  /** The longest dependency chain that starts at module `i` has `k` edges. */
  ghost predicate LongestChain(modules: seq<Module>, i: int, k: nat) {
    && (exists p :: ChainFrom(modules, i, p) && |p| == k + 1)
    && (forall p :: ChainFrom(modules, i, p) ==> |p| <= k + 1)
  }

  /** A layering into longest-chain levels: `layers[k]` lists, ascending, exactly the modules
      whose longest dependency chain has `k` edges. */
  ghost predicate ChainLayering(modules: seq<Module>, layers: seq<seq<int>>) {
    && RespectsDependencies(modules, layers) && Disjoint(layers)
    && forall k, i :: 0 <= k < |layers| && i in layers[k] ==> i in Indices(modules) && LongestChain(modules, i, k)
  }

  /** What holds after each round: `layers` is the part of the layering found so far, and
      every module outside it starts a chain that is longer than the layers are many. */
  ghost predicate LayersSoFar(modules: seq<Module>, remaining: set<int>, complete: set<int>, layers: seq<seq<int>>) {
    && remaining + complete == Indices(modules) && remaining !! complete
    && Disjoint(layers)
    && (forall i :: i in complete <==> InEarlierLayer(layers, |layers|, i))
    && (forall k, i, j ::
          0 <= k < |layers| && i in layers[k] && Edge(Full(modules), i, j) ==> InEarlierLayer(layers, k, j))
    && (forall k, i :: 0 <= k < |layers| && i in layers[k] ==> LongestChain(modules, i, k))
    && (forall i :: i in remaining ==> StartsChain(modules, i, |layers| + 1))
  }

  ghost predicate StartsChain(modules: seq<Module>, i: int, length: nat) {
    exists p :: ChainFrom(modules, i, p) && |p| == length
  }

  ghost predicate IsReady(modules: seq<Module>, remaining: set<int>, complete: set<int>, i: int) {
    i in remaining && forall j :: Edge(Full(modules), i, j) ==> j in complete
  }

  method ReadyLayer(modules: seq<Module>, remaining: set<int>, complete: set<int>) returns (layer: seq<int>)
    requires Resolved(modules) && remaining <= Indices(modules)
    ensures AscendingIndices(layer)
    ensures forall i :: i in layer <==> IsReady(modules, remaining, complete, i)
  {
    layer := [];
    for index := 0 to |modules|
      invariant AscendingIndices(layer)
      invariant forall i :: i in layer ==> i < index
      invariant forall i :: i in layer <==> i < index && IsReady(modules, remaining, complete, i)
    {
      if index in remaining && forall d <- modules[index].dependencies :: d.index in complete {
        AscendingAppend(layer, index);
        layer := layer + [index];
      }
    }
  }

  lemma StepKeepsCover(modules: seq<Module>, remaining: set<int>, complete: set<int>, layers: seq<seq<int>>,
                       layer: seq<int>)
    requires LayersSoFar(modules, remaining, complete, layers)
    requires layer != [] && AscendingIndices(layer)
    requires forall i :: i in layer <==> IsReady(modules, remaining, complete, i)
    ensures Disjoint(layers + [layer])
    ensures forall i :: i in complete || i in layer <==> InEarlierLayer(layers + [layer], |layers| + 1, i)
    ensures forall k, i, j :: 0 <= k <= |layers| && i in (layers + [layer])[k] && Edge(Full(modules), i, j)
                              ==> InEarlierLayer(layers + [layer], k, j)
  {
    var longer := layers + [layer];
    forall k, j | 0 <= k <= |layers| && InEarlierLayer(layers, k, j)
      ensures InEarlierLayer(longer, k, j)
    {
      var m :| 0 <= m < k && j in layers[m];
      assert longer[m] == layers[m];
    }
    forall i | i in complete || i in layer
      ensures InEarlierLayer(longer, |longer|, i)
    {
      if i in complete {
        var m :| 0 <= m < |layers| && i in layers[m];
        assert longer[m] == layers[m];
      } else {
        assert longer[|layers|] == layer;
      }
    }
    forall k, m | 0 <= k < m < |longer|
      ensures forall i <- longer[k] :: i !in longer[m]
    {
      if m == |layers| {
        assert forall i <- layers[k] :: InEarlierLayer(layers, |layers|, i);
      }
    }
  }

  lemma ChainTail(modules: seq<Module>, i: int, p: seq<int>)
    requires ChainFrom(modules, i, p) && |p| >= 2
    ensures Edge(Full(modules), i, p[1]) && ChainFrom(modules, p[1], p[1..])
  {
    forall k | 0 <= k < |p[1..]| - 1
      ensures Edge(Full(modules), p[1..][k], p[1..][k + 1])
    {
      assert Edge(Full(modules), p[k + 1], p[k + 2]);
    }
  }

  lemma ChainCons(modules: seq<Module>, i: int, j: int, length: nat)
    requires Edge(Full(modules), i, j) && StartsChain(modules, j, length)
    ensures StartsChain(modules, i, length + 1)
  {
    var p :| ChainFrom(modules, j, p) && |p| == length;
    var q := [i] + p;
    forall k | 0 <= k < |q| - 1
      ensures Edge(Full(modules), q[k], q[k + 1])
    {
      if k > 0 {
        assert Edge(Full(modules), p[k - 1], p[k]);
      }
    }
    assert ChainFrom(modules, i, q);
  }

  /** A ready module's dependencies are all in earlier layers, so its longest chain is one
      longer than theirs; a module that is not ready still waits for a remaining one. */
  lemma StepMeasuresChains(modules: seq<Module>, remaining: set<int>, complete: set<int>, layers: seq<seq<int>>, i: int)
    requires LayersSoFar(modules, remaining, complete, layers) && i in remaining
    requires Resolved(modules)
    ensures IsReady(modules, remaining, complete, i) ==> LongestChain(modules, i, |layers|)
    ensures !IsReady(modules, remaining, complete, i) ==> StartsChain(modules, i, |layers| + 2)
  {
    if IsReady(modules, remaining, complete, i) {
      assert StartsChain(modules, i, |layers| + 1);
      forall p | ChainFrom(modules, i, p)
        ensures |p| <= |layers| + 1
      {
        if |p| >= 2 {
          ChainTail(modules, i, p);
          assert InEarlierLayer(layers, |layers|, p[1]);
          var m :| 0 <= m < |layers| && p[1] in layers[m];
          assert LongestChain(modules, p[1], m);
        }
      }
    } else {
      var j :| Edge(Full(modules), i, j) && j !in complete;
      assert j in Indices(modules);
      ChainCons(modules, i, j, |layers| + 1);
    }
  }

  lemma StepKeepsLayers(modules: seq<Module>, remaining: set<int>, complete: set<int>, layers: seq<seq<int>>,
                        layer: seq<int>)
    requires Resolved(modules) && LayersSoFar(modules, remaining, complete, layers)
    requires layer != [] && AscendingIndices(layer)
    requires forall i :: i in layer <==> IsReady(modules, remaining, complete, i)
    ensures var done := set i | i in layer;
            LayersSoFar(modules, remaining - done, complete + done, layers + [layer])
  {
    StepKeepsCover(modules, remaining, complete, layers, layer);
    StepKeepsChains(modules, remaining, complete, layers, layer);
  }

  lemma StepKeepsChains(modules: seq<Module>, remaining: set<int>, complete: set<int>, layers: seq<seq<int>>,
                        layer: seq<int>)
    requires Resolved(modules) && LayersSoFar(modules, remaining, complete, layers)
    requires forall i :: i in layer <==> IsReady(modules, remaining, complete, i)
    ensures forall k, i :: 0 <= k <= |layers| && i in (layers + [layer])[k] ==> LongestChain(modules, i, k)
    ensures forall i :: i in remaining && i !in layer ==> StartsChain(modules, i, |layers| + 2)
  {
    forall i | i in remaining
      ensures i in layer ==> LongestChain(modules, i, |layers|)
      ensures i !in layer ==> StartsChain(modules, i, |layers| + 2)
    {
      StepMeasuresChains(modules, remaining, complete, layers, i);
    }
    assert forall k, i :: 0 <= k < |layers| && i in (layers + [layer])[k] ==> i in layers[k];
  }

  lemma NoLayersYet(modules: seq<Module>)
    ensures LayersSoFar(modules, Indices(modules), {}, [])
  {
    forall i | i in Indices(modules)
      ensures StartsChain(modules, i, 1)
    {
      assert ChainFrom(modules, i, [i]);
    }
  }

  lemma ReadyShrinksRemaining(remaining: set<int>, layer: seq<int>)
    requires layer != [] && layer[0] in remaining
    ensures remaining - (set i | i in layer) < remaining
  {
    assert layer[0] in layer;
  }

  /** When no remaining module is ready, each of them waits for another remaining one. */
  lemma NothingReady(modules: seq<Module>, remaining: set<int>, complete: set<int>)
    requires Resolved(modules) && remaining + complete == Indices(modules) && remaining != {}
    requires forall i :: !IsReady(modules, remaining, complete, i)
    ensures !Acyclic(Full(modules), remaining)
  {
    forall i | i in remaining
      ensures HasSuccessor(Full(modules), remaining, i)
    {
      assert !IsReady(modules, remaining, complete, i);
      var j :| Edge(Full(modules), i, j) && j !in complete;
      assert j in Indices(modules);
    }
    var cycle := NoSinkHasCycle(Full(modules), remaining);
  }

  lemma LayersAreAcyclic(modules: seq<Module>, layers: seq<seq<int>>)
    requires LayersSoFar(modules, {}, Indices(modules), layers)
    ensures Acyclic(Full(modules), Indices(modules))
    ensures ChainLayering(modules, layers)
  {
    assert RespectsDependencies(modules, layers);
    forall k, i | 0 <= k < |layers| && i in layers[k]
      ensures i in Indices(modules)
    {
      assert InEarlierLayer(layers, |layers|, i);
    }
    forall p | Cycle(Full(modules), p) && Within(p, Indices(modules))
      ensures false
    {
      assert InEarlierLayer(layers, |layers|, p[0]);
      var k :| 0 <= k < |layers| && p[0] in layers[k];
      WalkClimbsDown(modules, layers, p, k);
    }
  }

  /** Along every dependency walk the layer number falls by at least one per edge. */
  lemma {:induction false} WalkClimbsDown(modules: seq<Module>, layers: seq<seq<int>>, p: seq<int>, k: int)
    requires RespectsDependencies(modules, layers)
    requires Walk(Full(modules), p) && 0 <= k < |layers| && p[0] in layers[k]
    ensures |p| <= k + 1
    ensures exists m :: 0 <= m <= k + 1 - |p| && p[|p| - 1] in layers[m]
    decreases |p|
  {
    if |p| == 1 {
      assert p[|p| - 1] in layers[k];
    } else {
      ChainTail(modules, p[0], p);
      assert InEarlierLayer(layers, k, p[1]);
      var m :| 0 <= m < k && p[1] in layers[m];
      WalkClimbsDown(modules, layers, p[1..], m);
    }
  }

  /** On success the layers partition the modules and a module's layer number is the length of
      its longest dependency chain; on failure the result is a closed chain of dependencies. */
  method TopologicalLayers(modules: seq<Module>) returns (r: Result<seq<seq<int>>, seq<int>>)
    requires Resolved(modules)
    ensures r.Success? <==> Acyclic(Full(modules), Indices(modules))
    ensures r.Success? ==> ChainLayering(modules, r.value)
    ensures r.Failure? ==> Cycle(Full(modules), r.error) && Within(r.error, Indices(modules))
  {
    var remaining := Indices(modules);
    var complete: set<int> := {};
    var layers: seq<seq<int>> := [];
    NoLayersYet(modules);
    while remaining != {}
      invariant LayersSoFar(modules, remaining, complete, layers)
      decreases remaining
    {
      var layer := ReadyLayer(modules, remaining, complete);
      if layer == [] {
        var cycle := ModuleDependencyCycle(modules, remaining);
        NothingReady(modules, remaining, complete);
        assert Within(cycle, Indices(modules));
        return Failure(cycle);
      }
      assert layer[0] in layer;
      StepKeepsLayers(modules, remaining, complete, layers, layer);
      ReadyShrinksRemaining(remaining, layer);
      remaining := remaining - (set i | i in layer);
      complete := complete + (set i | i in layer);
      layers := layers + [layer];
    }
    LayersAreAcyclic(modules, layers);
    r := Success(layers);
  }

  /** No layering that respects the dependencies has fewer layers. */
  lemma LayerCountMinimal(modules: seq<Module>, layers: seq<seq<int>>, others: seq<seq<int>>)
    requires ChainLayering(modules, layers)
    requires RespectsDependencies(modules, others)
    ensures |others| >= |layers|
  {
    if layers != [] {
      var last := |layers| - 1;
      var i := layers[last][0];
      assert LongestChain(modules, i, last);
      var p :| ChainFrom(modules, i, p) && |p| == last + 1;
      assert InEarlierLayer(others, |others|, i);
      var k :| 0 <= k < |others| && i in others[k];
      WalkClimbsDown(modules, others, p, k);
    }
  }

  // --------------------------------------------------------- naming a dependency cycle

  /** The modules whose search has finished: `order` lists them so that each depends, among
      the candidates, only on modules listed before it. */
  ghost predicate Finished(modules: seq<Module>, candidates: set<int>, complete: set<int>, order: seq<int>) {
    && complete <= candidates
    && (forall i :: i in order <==> i in complete)
    && (forall i, j :: 0 <= i < j < |order| ==> order[i] != order[j])
    && forall k, j :: 0 <= k < |order| && j in candidates && Edge(Full(modules), order[k], j) ==> j in order[..k]
  }

  /** One depth-first visit. `stack` is the path of active modules that leads to `index`. */
  method Visit(index: int, modules: seq<Module>, candidates: set<int>, complete: set<int>, stack: seq<int>,
               ghost order: seq<int>)
    returns (cycle: Option<seq<int>>, completed: set<int>, ghost ordered: seq<int>)
    requires Resolved(modules) && candidates <= Indices(modules) && index in candidates
    requires Finished(modules, candidates, complete, order)
    requires Walk(Full(modules), stack + [index]) && Within(stack, candidates)
    requires forall i :: i in stack ==> i !in complete
    ensures cycle.Some? ==> Cycle(Full(modules), cycle.value) && Within(cycle.value, candidates)
    ensures cycle.None? ==> Finished(modules, candidates, completed, ordered)
    ensures cycle.None? ==> index in completed && complete <= completed
    ensures cycle.None? ==> forall i :: i in stack ==> i !in completed
    decreases candidates - (set i | i in stack)
  {
    completed, ordered := complete, order;
    ghost var path := stack + [index];
    if index in stack {
      var position :| 0 <= position < |stack| && stack[position] == index;
      assert stack[position..] + [index] == path[position..];
      cycle := Some(stack[position..] + [index]);
      return;
    }
    if index in complete {
      return None, completed, ordered;
    }
    var active := stack + [index];
    assert active[|stack|] == index;
    assert index in candidates - (set i | i in stack) && index in active;
    var dependencies := modules[index].dependencies;
    for k := 0 to |dependencies|
      invariant Finished(modules, candidates, completed, ordered)
      invariant complete <= completed
      invariant forall i :: i in active ==> i !in completed
      invariant forall d :: d in dependencies[..k] && d.index in candidates ==> d.index in completed
    {
      var dependency := dependencies[k].index;
      assert dependencies[k] in dependencies;
      assert Edge(Full(modules), index, dependency);
      if dependency in candidates {
        var found, deeper;
        found, deeper, ordered := Visit(dependency, modules, candidates, completed, active, ordered);
        if found.Some? {
          return found, deeper, ordered;
        }
        completed := deeper;
      }
    }
    assert dependencies[..|dependencies|] == dependencies;
    FinishNode(modules, candidates, completed, ordered, index);
    completed, ordered := completed + {index}, ordered + [index];
    cycle := None;
  }

  lemma FinishNode(modules: seq<Module>, candidates: set<int>, complete: set<int>, order: seq<int>, index: int)
    requires Finished(modules, candidates, complete, order)
    requires index in candidates && index !in complete && 0 <= index < |modules|
    requires forall d :: d in modules[index].dependencies && d.index in candidates ==> d.index in complete
    ensures Finished(modules, candidates, complete + {index}, order + [index])
  {
    var longer := order + [index];
    forall k, j | 0 <= k < |longer| && j in candidates && Edge(Full(modules), longer[k], j)
      ensures j in longer[..k]
    {
      if k < |order| {
        assert longer[..k] == order[..k];
      } else {
        assert longer[..k] == order;
      }
    }
  }

  /** A closed chain among the candidates whenever there is one; otherwise the fallback listing. */
  method ModuleDependencyCycle(modules: seq<Module>, candidates: set<int>) returns (cycle: seq<int>)
    requires Resolved(modules) && candidates <= Indices(modules)
    ensures Acyclic(Full(modules), candidates) || (Cycle(Full(modules), cycle) && Within(cycle, candidates))
    ensures Acyclic(Full(modules), candidates)
            ==> AscendingIndices(cycle) && forall i :: i in cycle <==> i in candidates
  {
    var complete: set<int> := {};
    ghost var order: seq<int> := [];
    for index := 0 to |modules|
      invariant Finished(modules, candidates, complete, order)
      invariant forall i :: i in candidates && i < index ==> i in complete
    {
      if index in candidates {
        var found, completed;
        found, completed, order := Visit(index, modules, candidates, complete, [], order);
        if found.Some? {
          return found.value;
        }
        complete := completed;
      }
    }
    OrderedIsAcyclic(Full(modules), order, candidates);
    cycle := [];
    for index := 0 to |modules|
      invariant AscendingIndices(cycle)
      invariant forall i :: i in cycle ==> i < index
      invariant forall i :: i in cycle <==> i in candidates && i < index
    {
      if index in candidates {
        AscendingAppend(cycle, index);
        cycle := cycle + [index];
      }
    }
  }
}
