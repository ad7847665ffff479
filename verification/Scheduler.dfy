/** The layer-by-layer compilation of a workspace: modules of a layer complete in any order,
    up to a job limit, and see the fingerprints of their compile-scope dependencies. */
module Scheduler {
  import opened Wrappers
  import opened Digraph
  import opened ModuleGraph

  datatype WorkspaceError<+E> =
    | NoModules
    | DependencyCycle(cycle: seq<int>)
    | LostPredecessor
    | CompileFailed(index: int, error: E)

  /** Compiling module `i` with its dependencies' fingerprints: a result and a fingerprint. */
  type Compiler<!F, R, E> = (int, seq<(int, F)>) -> Result<(R, F), E>

  /** The members of `s` below `n`, in ascending order. */
  function Listing(s: set<int>, n: nat): (listing: seq<int>)
    ensures AscendingIndices(listing)
    ensures forall i :: i in listing <==> i in s && 0 <= i < n
  {
    if n == 0 then []
    else
      var shorter := Listing(s, n - 1);
      AscendingAppend(shorter, n - 1);
      if n - 1 in s then shorter + [n - 1] else shorter
  }

  /** Looking up every dependency's fingerprint; a missing one is a lost predecessor. */
  function Upstream<F, E>(dependencies: seq<int>, fingerprints: map<int, F>): Result<seq<(int, F)>, WorkspaceError<E>> {
    if dependencies == [] then Success([])
    else if dependencies[0] !in fingerprints then Failure(LostPredecessor)
    else
      var rest :- Upstream<F, E>(dependencies[1..], fingerprints);
      Success([(dependencies[0], fingerprints[dependencies[0]])] + rest)
  }

  /** The future of one module: its upstream fingerprints first, then the compilation itself. */
  function Finish<F, R, E>(i: int, upstream: Result<seq<(int, F)>, WorkspaceError<E>>, compile: Compiler<F, R, E>)
    : Result<(R, F), WorkspaceError<E>>
  {
    match upstream
    case Failure(error) => Failure(error)
    case Success(inputs) =>
      match compile(i, inputs)
      case Failure(error) => Failure(CompileFailed(i, error))
      case Success(built) => Success(built)
  }

  ghost function Reached(modules: seq<Module>, i: int): set<int> {
    set j | j in Indices(modules) && Reaches(Scoped(modules, ForCompile), i, j)
  }

  /** The pairs a compilation of `i` has to receive: every module it reaches along compile-scope
      dependencies, ascending, with the fingerprint that was recorded for it. */
  ghost predicate Supplies<F>(modules: seq<Module>, i: int, fingerprints: map<int, F>, inputs: seq<(int, F)>) {
    && (forall a, b :: 0 <= a < b < |inputs| ==> inputs[a].0 < inputs[b].0)
    && (forall a :: 0 <= a < |inputs| ==> Recording(fingerprints, inputs[a].0, inputs[a].1))
    && (forall j :: IsFirst(inputs, j) <==> Reaches(Scoped(modules, ForCompile), i, j))
  }

  ghost predicate Recording<F>(fingerprints: map<int, F>, j: int, fingerprint: F) {
    j in fingerprints && fingerprints[j] == fingerprint
  }

  ghost predicate IsFirst<F>(inputs: seq<(int, F)>, j: int) {
    exists a :: 0 <= a < |inputs| && inputs[a].0 == j
  }

  /** Nothing is lost exactly when every listed dependency has a fingerprint, and then each comes with its own. */
  lemma {:induction false} NothingLost<F, E>(dependencies: seq<int>, fingerprints: map<int, F>)
    ensures var upstream := Upstream<F, E>(dependencies, fingerprints);
            && (upstream.Success? <==> forall j <- dependencies :: j in fingerprints)
            && (upstream.Failure? ==> upstream.error == LostPredecessor)
            && (upstream.Success? ==> ListedWith(dependencies, fingerprints, upstream.value))
  {
    if dependencies != [] {
      NothingLost<F, E>(dependencies[1..], fingerprints);
      assert forall j :: j in dependencies <==> j == dependencies[0] || j in dependencies[1..];
      var upstream := Upstream<F, E>(dependencies, fingerprints);
      if upstream.Success? {
        var rest := Upstream<F, E>(dependencies[1..], fingerprints).value;
        assert upstream.value[1..] == rest;
        assert forall a :: 0 < a < |upstream.value| ==> upstream.value[a] == rest[a - 1];
      }
    }
  }

  /** The entries are the listed indices, each with its fingerprint, in the order of the listing. */
  ghost predicate ListedWith<F>(listing: seq<int>, fingerprints: map<int, F>, inputs: seq<(int, F)>) {
    && |inputs| == |listing|
    && forall a :: 0 <= a < |inputs| ==> inputs[a].0 == listing[a] && Recording(fingerprints, inputs[a].0, inputs[a].1)
  }

  lemma ListingSupplies<F>(modules: seq<Module>, i: int, fingerprints: map<int, F>, reached: set<int>,
                           inputs: seq<(int, F)>)
    requires reached <= Indices(modules)
    requires forall j :: j in reached <==> Reaches(Scoped(modules, ForCompile), i, j)
    requires ListedWith(Listing(reached, |modules|), fingerprints, inputs)
    ensures Supplies(modules, i, fingerprints, inputs)
  {
    var listing := Listing(reached, |modules|);
    forall j
      ensures IsFirst(inputs, j) <==> j in reached
    {
      if j in reached {
        assert j in listing;
        var a :| 0 <= a < |listing| && listing[a] == j;
        assert inputs[a].0 == j;
      }
      if IsFirst(inputs, j) {
        var a :| 0 <= a < |inputs| && inputs[a].0 == j;
        assert listing[a] in listing;
      }
    }
  }

  /** That determines them. */
  lemma SupplyUnique<F>(modules: seq<Module>, i: int, fingerprints: map<int, F>, inputs: seq<(int, F)>,
                        others: map<int, F>, inputs': seq<(int, F)>)
    requires Supplies(modules, i, fingerprints, inputs) && Supplies(modules, i, others, inputs')
    requires forall j :: Reaches(Scoped(modules, ForCompile), i, j) && j in fingerprints && j in others ==>
               fingerprints[j] == others[j]
    ensures inputs == inputs'
  {
    AscendingFirsts(inputs, inputs');
    forall a | 0 <= a < |inputs|
      ensures inputs[a] == inputs'[a]
    {
      assert Recording(fingerprints, inputs[a].0, inputs[a].1) && Recording(others, inputs'[a].0, inputs'[a].1);
      assert IsFirst(inputs, inputs[a].0);
    }
  }

  /** Ascending lists with the same first components have them in the same places. */
  lemma {:induction false} AscendingFirsts<F>(one: seq<(int, F)>, other: seq<(int, F)>)
    requires forall a, b :: 0 <= a < b < |one| ==> one[a].0 < one[b].0
    requires forall a, b :: 0 <= a < b < |other| ==> other[a].0 < other[b].0
    requires forall j :: IsFirst(one, j) <==> IsFirst(other, j)
    ensures |one| == |other| && forall a :: 0 <= a < |one| ==> one[a].0 == other[a].0
    decreases |one|
  {
    if one == [] {
      if other != [] {
        assert IsFirst(other, other[0].0);
      }
    } else {
      var n, last := |one| - 1, one[|one| - 1].0;
      assert IsFirst(one, last);
      var m := |other| - 1;
      assert IsFirst(other, other[m].0);
      assert other[m].0 == last;
      forall j
        ensures IsFirst(one[..n], j) <==> IsFirst(other[..m], j)
      {
        DropLastFirst(one, j);
        DropLastFirst(other, j);
      }
      AscendingFirsts(one[..n], other[..m]);
    }
  }

  lemma DropLastFirst<F>(inputs: seq<(int, F)>, j: int)
    requires inputs != [] && forall a, b :: 0 <= a < b < |inputs| ==> inputs[a].0 < inputs[b].0
    ensures IsFirst(inputs[..|inputs| - 1], j) <==> IsFirst(inputs, j) && j != inputs[|inputs| - 1].0
  {
    var front := inputs[..|inputs| - 1];
    if IsFirst(inputs, j) && j != inputs[|inputs| - 1].0 {
      var a :| 0 <= a < |inputs| && inputs[a].0 == j;
      assert front[a].0 == j;
    }
    if IsFirst(front, j) {
      var a :| 0 <= a < |front| && front[a].0 == j;
      assert inputs[a].0 == j;
    }
  }

  /** What compiling module `i` gives with the fingerprints of everything it reaches. */
  ghost predicate Contributes<F(!new), R, E>(modules: seq<Module>, compile: Compiler<F, R, E>,
                                             fingerprints: map<int, F>, i: int, outcome: Result<(R, F), E>) {
    exists inputs :: Supplies(modules, i, fingerprints, inputs) && compile(i, inputs) == outcome
  }

  /** A dependency-closed part of a build in which every module was compiled with exactly the
      fingerprints of the compile-scope dependencies it reaches. */
  ghost predicate Built<F(!new), R, E>(modules: seq<Module>, compile: Compiler<F, R, E>,
                                       results: map<int, R>, fingerprints: map<int, F>) {
    && results.Keys == fingerprints.Keys <= Indices(modules)
    && forall i :: i in fingerprints ==>
                     Contributes(modules, compile, fingerprints, i, Success((results[i], fingerprints[i])))
  }

  lemma ReachedIsEarlier(modules: seq<Module>, layers: seq<seq<int>>, k: int, i: int)
    requires RespectsDependencies(modules, layers) && 0 <= k < |layers| && i in layers[k]
    ensures forall j :: j in Reached(modules, i) ==> InEarlierLayer(layers, k, j)
  {
    forall j | j in Reached(modules, i)
      ensures InEarlierLayer(layers, k, j)
    {
      var p :| WalkBetween(Scoped(modules, ForCompile), p, i, j) && |p| >= 2;
      assert forall m :: 0 <= m < |p| - 1 ==> Edge(Scoped(modules, ForCompile), p[m], p[m + 1]);
      WalkClimbsDown(modules, layers, p, k);
    }
  }

  ghost predicate HasEntry<R, F>(completed: seq<Entry<R, F>>, i: int) {
    exists k :: 0 <= k < |completed| && completed[k].0 == i
  }

  lemma EntryAppended<R, F>(completed: seq<Entry<R, F>>, c: (int, R, F))
    ensures forall i :: HasEntry(completed + [c], i) <==> HasEntry(completed, i) || i == c.0
  {
    var longer := completed + [c];
    forall i | HasEntry(completed, i) || i == c.0
      ensures HasEntry(longer, i)
    {
      if i == c.0 {
        assert longer[|completed|] == c;
      } else {
        var k :| 0 <= k < |completed| && completed[k].0 == i;
        assert longer[k] == completed[k];
      }
    }
  }

  /** Every transitive compile dependency of a module whose layer has come is found. */
  method LookUpUpstream<F, E>(modules: seq<Module>, index: int, fingerprints: map<int, F>)
    returns (upstream: Result<seq<(int, F)>, WorkspaceError<E>>)
    requires Resolved(modules) && index in Indices(modules)
    requires Reached(modules, index) <= fingerprints.Keys
    ensures upstream.Success? && Supplies(modules, index, fingerprints, upstream.value)
  {
    var dependencies := TransitiveDependencies(index, modules, ForCompile);
    assert dependencies == Reached(modules, index);
    var listing := Listing(dependencies, |modules|);
    NothingLost<F, E>(listing, fingerprints);
    upstream := Upstream(listing, fingerprints);
    ListingSupplies(modules, index, fingerprints, dependencies, upstream.value);
  }

  type Entry<R, F> = (int, R, F)

  /** A layer in progress: of the modules started, each is in flight with its inputs looked up,
      or completed with what compiling those inputs gave. */
  ghost predicate LayerInProgress<F(!new), R, E>(
      modules: seq<Module>, compile: Compiler<F, R, E>, fingerprints: map<int, F>, started: seq<int>,
      completed: seq<Entry<R, F>>, inFlight: map<int, Result<seq<(int, F)>, WorkspaceError<E>>>) {
    && (forall i :: i in started <==> i in inFlight.Keys || HasEntry(completed, i))
    && (forall i :: i in started ==> i in Indices(modules) && Reached(modules, i) <= fingerprints.Keys)
    && (forall i :: i in inFlight.Keys ==> i in started && Supplied(modules, fingerprints, i, inFlight[i]))
    && (forall c :: c in completed ==> Contributes(modules, compile, fingerprints, c.0, Success((c.1, c.2))))
  }

  ghost predicate Supplied<F, E>(modules: seq<Module>, fingerprints: map<int, F>, i: int,
                                 upstream: Result<seq<(int, F)>, WorkspaceError<E>>) {
    upstream.Success? && Supplies(modules, i, fingerprints, upstream.value)
  }

  lemma StartKeepsProgress<F(!new), R, E>(modules: seq<Module>, compile: Compiler<F, R, E>, fingerprints: map<int, F>,
                                          started: seq<int>, completed: seq<Entry<R, F>>,
                                          inFlight: map<int, Result<seq<(int, F)>, WorkspaceError<E>>>, i: int,
                                          upstream: Result<seq<(int, F)>, WorkspaceError<E>>)
    requires LayerInProgress(modules, compile, fingerprints, started, completed, inFlight)
    requires i in Indices(modules) && Reached(modules, i) <= fingerprints.Keys
    requires Supplied(modules, fingerprints, i, upstream)
    ensures LayerInProgress(modules, compile, fingerprints, started + [i], completed, inFlight[i := upstream])
  {
  }

  lemma FinishKeepsProgress<F(!new), R, E>(modules: seq<Module>, compile: Compiler<F, R, E>, fingerprints: map<int, F>,
                                           started: seq<int>, completed: seq<Entry<R, F>>,
                                           inFlight: map<int, Result<seq<(int, F)>, WorkspaceError<E>>>, i: int)
    requires LayerInProgress(modules, compile, fingerprints, started, completed, inFlight)
    requires i in inFlight.Keys
    ensures match Finish(i, inFlight[i], compile)
            case Success(built) =>
              LayerInProgress(modules, compile, fingerprints, started, completed + [(i, built.0, built.1)],
                              inFlight - {i})
            case Failure(error) =>
              && error.CompileFailed? && error.index == i
              && Contributes(modules, compile, fingerprints, i, Failure(error.error))
  {
    var outcome := Finish(i, inFlight[i], compile);
    assert Supplied(modules, fingerprints, i, inFlight[i]);
    if outcome.Success? {
      assert compile(i, inFlight[i].value) == Success((outcome.value.0, outcome.value.1));
      EntryAppended(completed, (i, outcome.value.0, outcome.value.1));
    }
  }

  /** One layer: at most `jobs` compilations are in flight, and any of them may finish next. */
  method CompileLayer<F(!new), R, E>(modules: seq<Module>, layer: seq<int>, jobs: nat, compile: Compiler<F, R, E>,
                                     fingerprints: map<int, F>)
    returns (r: Result<seq<Entry<R, F>>, WorkspaceError<E>>)
    requires Resolved(modules)
    requires forall i :: i in layer ==> i in Indices(modules) && Reached(modules, i) <= fingerprints.Keys
    ensures r.Success? ==> forall i :: i in layer <==> HasEntry(r.value, i)
    ensures r.Success? ==>
              forall c :: c in r.value ==> Contributes(modules, compile, fingerprints, c.0, Success((c.1, c.2)))
    ensures r.Failure? ==> r.error.CompileFailed? && r.error.index in layer
                           && Contributes(modules, compile, fingerprints, r.error.index, Failure(r.error.error))
  {
    var next := 0;
    var inFlight: map<int, Result<seq<(int, F)>, WorkspaceError<E>>> := map[];
    var completed: seq<Entry<R, F>> := [];
    while next < |layer| || inFlight.Keys != {}
      invariant 0 <= next <= |layer|
      invariant LayerInProgress(modules, compile, fingerprints, layer[..next], completed, inFlight)
      decreases |layer| - next, inFlight.Keys
    {
      if next < |layer| && |inFlight| < (if jobs == 0 then 1 else jobs) {
        assert layer[next] in layer && layer[..next + 1] == layer[..next] + [layer[next]];
        inFlight := Start(modules, compile, fingerprints, layer[..next], completed, inFlight, layer[next]);
        next := next + 1;
      } else {
        assert |inFlight| == |inFlight.Keys|;
        ghost var someone := AnyMember(inFlight.Keys);
        var done :| done in inFlight.Keys;
        var outcome := Finish(done, inFlight[done], compile);
        FinishKeepsProgress(modules, compile, fingerprints, layer[..next], completed, inFlight, done);
        inFlight := inFlight - {done};
        if outcome.Failure? {
          return Failure(outcome.error);
        }
        completed := completed + [(done, outcome.value.0, outcome.value.1)];
      }
    }
    assert layer[..next] == layer;
    LayerDone(modules, compile, fingerprints, layer, completed, inFlight);
    r := Success(completed);
  }

  lemma LayerDone<F(!new), R, E>(modules: seq<Module>, compile: Compiler<F, R, E>, fingerprints: map<int, F>,
                                 layer: seq<int>, completed: seq<Entry<R, F>>,
                                 inFlight: map<int, Result<seq<(int, F)>, WorkspaceError<E>>>)
    requires LayerInProgress(modules, compile, fingerprints, layer, completed, inFlight)
    requires inFlight.Keys == {}
    ensures forall i :: i in layer <==> HasEntry(completed, i)
    ensures forall c :: c in completed ==> Contributes(modules, compile, fingerprints, c.0, Success((c.1, c.2)))
  {
  }

  method Start<F(!new), R, E>(modules: seq<Module>, ghost compile: Compiler<F, R, E>, fingerprints: map<int, F>,
                              ghost started: seq<int>, ghost completed: seq<Entry<R, F>>,
                              inFlight: map<int, Result<seq<(int, F)>, WorkspaceError<E>>>, index: int)
    returns (more: map<int, Result<seq<(int, F)>, WorkspaceError<E>>>)
    requires Resolved(modules)
    requires LayerInProgress(modules, compile, fingerprints, started, completed, inFlight)
    requires index in Indices(modules) && Reached(modules, index) <= fingerprints.Keys
    ensures LayerInProgress(modules, compile, fingerprints, started + [index], completed, more)
  {
    var upstream := LookUpUpstream<F, E>(modules, index, fingerprints);
    StartKeepsProgress(modules, compile, fingerprints, started, completed, inFlight, index, upstream);
    more := inFlight[index := upstream];
  }

  lemma ContributionStays<F(!new), R, E>(modules: seq<Module>, compile: Compiler<F, R, E>, fingerprints: map<int, F>,
                                         more: map<int, F>,
                                         i: int, outcome: Result<(R, F), E>)
    requires Contributes(modules, compile, fingerprints, i, outcome)
    requires forall j :: j in fingerprints ==> j in more && more[j] == fingerprints[j]
    ensures Contributes(modules, compile, more, i, outcome)
  {
    var inputs: seq<(int, F)> :| Supplies(modules, i, fingerprints, inputs) && compile(i, inputs) == outcome;
    forall a | 0 <= a < |inputs|
      ensures Recording(more, inputs[a].0, inputs[a].1)
    {
      assert Recording(fingerprints, inputs[a].0, inputs[a].1);
    }
    assert Supplies(modules, i, more, inputs);
  }

  /** Recording a finished module extends the build. */
  lemma BuiltGrows<F(!new), R, E>(modules: seq<Module>, compile: Compiler<F, R, E>, results: map<int, R>,
                                  fingerprints: map<int, F>,
                                  i: int, result: R, fingerprint: F)
    requires Built(modules, compile, results, fingerprints) && i in Indices(modules) && i !in fingerprints
    requires Contributes(modules, compile, fingerprints, i, Success((result, fingerprint)))
    ensures Built(modules, compile, results[i := result], fingerprints[i := fingerprint])
  {
    var more, grown := fingerprints[i := fingerprint], results[i := result];
    forall j | j in more
      ensures Contributes(modules, compile, more, j, Success((grown[j], more[j])))
    {
      ContributionStays(modules, compile, fingerprints, more, j, Success((grown[j], more[j])));
    }
  }

  /** In an acyclic graph what a dependency reaches is strictly less than what its dependent reaches. */
  lemma ReachedShrinks(modules: seq<Module>, i: int, j: int)
    requires Acyclic(Full(modules), Indices(modules)) && Resolved(modules)
    requires i in Indices(modules) && j in Reached(modules, i)
    ensures Reached(modules, j) < Reached(modules, i)
  {
    var g := Scoped(modules, ForCompile);
    forall k | k in Reached(modules, j)
      ensures k in Reached(modules, i)
    {
      ReachesTransitive(g, i, j, k);
    }
    if j in Reached(modules, j) {
      var p :| WalkBetween(g, p, j, j) && |p| >= 2;
      forall m | 0 <= m < |p|
        ensures p[m] in Indices(modules) && (m < |p| - 1 ==> Edge(Full(modules), p[m], p[m + 1]))
      {
        assert m < |p| - 1 ==> Edge(g, p[m], p[m + 1]);
        assert m > 0 ==> Edge(g, p[m - 1], p[m]);
      }
      assert Cycle(Full(modules), p) && Within(p, Indices(modules));
    }
  }

  /** Two builds agree on every module they share, whatever the schedules that made them. */
  lemma BuildsAgree<F(!new), R, E>(modules: seq<Module>, compile: Compiler<F, R, E>,
                                   results: map<int, R>, fingerprints: map<int, F>,
                                   results': map<int, R>, fingerprints': map<int, F>, i: int)
    requires Acyclic(Full(modules), Indices(modules)) && Resolved(modules)
    requires Built(modules, compile, results, fingerprints) && Built(modules, compile, results', fingerprints')
    requires i in fingerprints && i in fingerprints'
    ensures results[i] == results'[i] && fingerprints[i] == fingerprints'[i]
    decreases Reached(modules, i)
  {
    forall j | j in Reached(modules, i)
      ensures fingerprints[j] == fingerprints'[j]
    {
      ReachedShrinks(modules, i, j);
      BuildsAgree(modules, compile, results, fingerprints, results', fingerprints', j);
    }
    ContributionsAgree(modules, compile, fingerprints, i, Success((results[i], fingerprints[i])), fingerprints',
                       Success((results'[i], fingerprints'[i])));
  }

  /** A module fares alike wherever what it reaches has the same fingerprints. */
  lemma ContributionsAgree<F(!new), R, E>(modules: seq<Module>, compile: Compiler<F, R, E>,
                                          fingerprints: map<int, F>, i: int, outcome: Result<(R, F), E>,
                                          others: map<int, F>, outcome': Result<(R, F), E>)
    requires Contributes(modules, compile, fingerprints, i, outcome)
    requires Contributes(modules, compile, others, i, outcome')
    requires forall j :: Reaches(Scoped(modules, ForCompile), i, j) && j in fingerprints && j in others ==>
               fingerprints[j] == others[j]
    ensures outcome == outcome'
  {
    var inputs: seq<(int, F)> :| Supplies(modules, i, fingerprints, inputs) && compile(i, inputs) == outcome;
    var inputs': seq<(int, F)> :| Supplies(modules, i, others, inputs') && compile(i, inputs') == outcome';
    SupplyUnique(modules, i, fingerprints, inputs, others, inputs');
  }

  /** What a run of the scheduler may end with. A compile failure is one that every other
      schedule would also meet: the module fails on the inputs all schedules give it. */
  ghost predicate Outcome<F(!new), R(!new), E>(modules: seq<Module>, compile: Compiler<F, R, E>,
                                               r: Result<map<int, R>, WorkspaceError<E>>, fingerprints: map<int, F>) {
    && (r.Success? ==> modules != [] && CompleteBuild(modules, compile, r.value, fingerprints))
    && (r.Failure? ==> !r.error.LostPredecessor?)
    && (r.Failure? && r.error.NoModules? ==> modules == [])
    && (r.Failure? && r.error.DependencyCycle? ==>
          Cycle(Full(modules), r.error.cycle) && Within(r.error.cycle, Indices(modules)))
    && (r.Failure? && r.error.CompileFailed? ==>
          && Acyclic(Full(modules), Indices(modules)) && r.error.index in Indices(modules)
          && (exists results :: Built(modules, compile, results, fingerprints))
          && Contributes(modules, compile, fingerprints, r.error.index, Failure(r.error.error)))
  }

  ghost predicate CompleteBuild<F(!new), R, E>(modules: seq<Module>, compile: Compiler<F, R, E>,
                                               results: map<int, R>, fingerprints: map<int, F>) {
    && Acyclic(Full(modules), Indices(modules))
    && results.Keys == Indices(modules) && Built(modules, compile, results, fingerprints)
  }

  /** Compiling a workspace never loses a predecessor and, when it succeeds, has a result for
      every module, each compiled with the fingerprints of all it reaches. */
  method CompileWorkspace<F(!new), R(!new), E>(modules: seq<Module>, jobs: nat, compile: Compiler<F, R, E>)
    returns (r: Result<map<int, R>, WorkspaceError<E>>, ghost recorded: map<int, F>)
    requires Resolved(modules)
    ensures r.Failure? ==> !r.error.LostPredecessor?
    ensures r.Success? ==> r.value.Keys == Indices(modules)
    ensures Outcome(modules, compile, r, recorded)
  {
    recorded := map[];
    if modules == [] {
      return Failure(NoModules), recorded;
    }
    var sorted := TopologicalLayers(modules);
    if sorted.Failure? {
      return Failure(DependencyCycle(sorted.error)), recorded;
    }
    var layers := sorted.value;
    var results: map<int, R> := map[];
    var fingerprints: map<int, F> := map[];
    for k := 0 to |layers|
      invariant Built(modules, compile, results, fingerprints)
      invariant forall i :: i in fingerprints <==> InEarlierLayer(layers, k, i)
    {
      LayerIsSupplied(modules, layers, k, fingerprints);
      var completed := CompileLayer(modules, layers[k], jobs, compile, fingerprints);
      if completed.Failure? {
        return Failure(completed.error), fingerprints;
      }
      LayerIsNew(modules, layers, k, fingerprints);
      ghost var before := fingerprints;
      RecordingExtends(modules, compile, completed.value, results, fingerprints);
      results, fingerprints := RecordLayer(completed.value, results, fingerprints);
      LayerRecorded(layers, k, before, completed.value, fingerprints);
    }
    return Success(results), fingerprints;
  }

  lemma LayerRecorded<F, R>(layers: seq<seq<int>>, k: nat, before: map<int, F>, entries: seq<Entry<R, F>>,
                            prints: map<int, F>)
    requires k < |layers| && forall i :: i in before <==> InEarlierLayer(layers, k, i)
    requires forall i :: i in prints <==> i in before || HasEntry(entries, i)
    requires forall i :: i in layers[k] <==> HasEntry(entries, i)
    ensures forall i :: i in prints <==> InEarlierLayer(layers, k + 1, i)
  {
    assert forall i :: InEarlierLayer(layers, k + 1, i) <==> InEarlierLayer(layers, k, i) || i in layers[k];
  }

  lemma LayerIsNew<F>(modules: seq<Module>, layers: seq<seq<int>>, k: nat, fingerprints: map<int, F>)
    requires ChainLayering(modules, layers) && k < |layers|
    requires forall i :: i in fingerprints <==> InEarlierLayer(layers, k, i)
    ensures forall i :: i in layers[k] ==> i !in fingerprints
  {
  }

  lemma LayerIsSupplied<F>(modules: seq<Module>, layers: seq<seq<int>>, k: nat, fingerprints: map<int, F>)
    requires ChainLayering(modules, layers) && k < |layers|
    requires forall i :: i in fingerprints <==> InEarlierLayer(layers, k, i)
    ensures forall i :: i in layers[k] ==> i in Indices(modules) && Reached(modules, i) <= fingerprints.Keys
  {
    forall i | i in layers[k]
      ensures Reached(modules, i) <= fingerprints.Keys
    {
      ReachedIsEarlier(modules, layers, k, i);
    }
  }

  /** Part of a layer is recorded: the build holds these entries and has kept what it had. */
  ghost predicate Recorded<F(!new), R, E>(modules: seq<Module>, compile: Compiler<F, R, E>, entries: seq<Entry<R, F>>,
                                          fingerprints: map<int, F>, results: map<int, R>, prints: map<int, F>) {
    && Built(modules, compile, results, prints)
    && (forall i :: i in prints <==> i in fingerprints || HasEntry(entries, i))
    && forall j :: j in fingerprints ==> j in prints && prints[j] == fingerprints[j]
  }

  ghost predicate Recordable<F(!new), R, E>(modules: seq<Module>, compile: Compiler<F, R, E>, fingerprints: map<int, F>,
                                            c: (int, R, F)) {
    c.0 in Indices(modules) && c.0 !in fingerprints
      && Contributes(modules, compile, fingerprints, c.0, Success((c.1, c.2)))
  }

  lemma RecordStep<F(!new), R, E>(modules: seq<Module>, compile: Compiler<F, R, E>, entries: seq<Entry<R, F>>,
                                  fingerprints: map<int, F>, results: map<int, R>, prints: map<int, F>, c: (int, R, F))
    requires Recorded(modules, compile, entries, fingerprints, results, prints)
    requires Recordable(modules, compile, fingerprints, c)
    ensures Recorded(modules, compile, entries + [c], fingerprints, results[c.0 := c.1], prints[c.0 := c.2])
  {
    RecordedOnce(modules, compile, fingerprints, results, prints, c);
    RecordedKeys(entries, fingerprints, prints, c);
  }

  lemma RecordedOnce<F(!new), R, E>(modules: seq<Module>, compile: Compiler<F, R, E>, fingerprints: map<int, F>,
                                    results: map<int, R>, prints: map<int, F>, c: (int, R, F))
    requires Built(modules, compile, results, prints) && Recordable(modules, compile, fingerprints, c)
    requires forall j :: j in fingerprints ==> j in prints && prints[j] == fingerprints[j]
    ensures Built(modules, compile, results[c.0 := c.1], prints[c.0 := c.2])
    ensures c.0 in prints ==> prints[c.0 := c.2] == prints
  {
    ContributionStays(modules, compile, fingerprints, prints, c.0, Success((c.1, c.2)));
    if c.0 !in prints {
      BuiltGrows(modules, compile, results, prints, c.0, c.1, c.2);
    } else {
      ContributionsAgree(modules, compile, prints, c.0, Success((c.1, c.2)), prints,
                         Success((results[c.0], prints[c.0])));
      assert results[c.0 := c.1] == results && prints[c.0 := c.2] == prints;
    }
  }

  lemma RecordedKeys<F, R>(entries: seq<Entry<R, F>>, fingerprints: map<int, F>, prints: map<int, F>, c: (int, R, F))
    requires forall i :: i in prints <==> i in fingerprints || HasEntry(entries, i)
    requires forall j :: j in fingerprints ==> j in prints && prints[j] == fingerprints[j]
    requires c.0 !in fingerprints
    ensures forall i :: i in prints[c.0 := c.2] <==> i in fingerprints || HasEntry(entries + [c], i)
    ensures forall j :: j in fingerprints ==> j in prints[c.0 := c.2] && prints[c.0 := c.2][j] == fingerprints[j]
  {
    EntryAppended(entries, c);
  }

  function ResultsAfter<R, F>(results: map<int, R>, entries: seq<Entry<R, F>>): map<int, R> {
    if entries == [] then results
    else
      var last := entries[|entries| - 1];
      ResultsAfter(results, entries[..|entries| - 1])[last.0 := last.1]
  }

  function PrintsAfter<R, F>(fingerprints: map<int, F>, entries: seq<Entry<R, F>>): map<int, F> {
    if entries == [] then fingerprints
    else
      var last := entries[|entries| - 1];
      PrintsAfter(fingerprints, entries[..|entries| - 1])[last.0 := last.2]
  }

  method RecordLayer<F, R>(completed: seq<Entry<R, F>>, results: map<int, R>, fingerprints: map<int, F>)
    returns (recorded: map<int, R>, prints: map<int, F>)
    ensures recorded == ResultsAfter(results, completed) && prints == PrintsAfter(fingerprints, completed)
  {
    recorded, prints := results, fingerprints;
    for n := 0 to |completed|
      invariant recorded == ResultsAfter(results, completed[..n])
      invariant prints == PrintsAfter(fingerprints, completed[..n])
    {
      var (index, result, fingerprint) := completed[n];
      assert completed[..n + 1][..n] == completed[..n];
      recorded, prints := recorded[index := result], prints[index := fingerprint];
    }
    assert completed[..|completed|] == completed;
  }

  /** Recording the entries of a layer, in whatever order they completed, extends the build. */
  lemma {:induction false} RecordingExtends<F(!new), R, E>(modules: seq<Module>, compile: Compiler<F, R, E>,
                                                           entries: seq<Entry<R, F>>,
                                                           results: map<int, R>, fingerprints: map<int, F>)
    requires Built(modules, compile, results, fingerprints)
    requires forall c :: c in entries ==> Recordable(modules, compile, fingerprints, c)
    ensures Recorded(modules, compile, entries, fingerprints, ResultsAfter(results, entries),
                     PrintsAfter(fingerprints, entries))
    decreases |entries|
  {
    if entries != [] {
      var front, last := entries[..|entries| - 1], entries[|entries| - 1];
      assert last in entries && front + [last] == entries;
      RecordingExtends(modules, compile, front, results, fingerprints);
      RecordStep(modules, compile, front, fingerprints, ResultsAfter(results, front),
                 PrintsAfter(fingerprints, front), last);
    }
  }

  lemma CompleteBuildUnique<F(!new), R, E>(modules: seq<Module>, compile: Compiler<F, R, E>,
                                           results: map<int, R>, prints: map<int, F>,
                                           results': map<int, R>, prints': map<int, F>)
    requires Resolved(modules)
    requires CompleteBuild(modules, compile, results, prints) && CompleteBuild(modules, compile, results', prints')
    ensures results == results' && prints == prints'
  {
    AgreeEverywhere(modules, compile, results, prints, results', prints');
    SameMap(results, results', Indices(modules));
    SameMap(prints, prints', Indices(modules));
  }

  lemma AgreeEverywhere<F(!new), R, E>(modules: seq<Module>, compile: Compiler<F, R, E>,
                                       results: map<int, R>, prints: map<int, F>,
                                       results': map<int, R>, prints': map<int, F>)
    requires Resolved(modules)
    requires CompleteBuild(modules, compile, results, prints) && CompleteBuild(modules, compile, results', prints')
    ensures forall i :: i in Indices(modules) ==> results[i] == results'[i] && prints[i] == prints'[i]
  {
    forall i | i in Indices(modules)
      ensures results[i] == results'[i] && prints[i] == prints'[i]
    {
      BuildsAgree(modules, compile, results, prints, results', prints', i);
    }
  }

  lemma SameMap<V>(a: map<int, V>, b: map<int, V>, keys: set<int>)
    requires a.Keys == keys && b.Keys == keys
    requires forall i :: i in keys ==> a[i] == b[i]
    ensures a == b
  {
    forall i | i in a
      ensures i in b && a[i] == b[i]
    {
      assert i in a.Keys && i in b.Keys;
    }
    assert forall i :: i in b ==> i in b.Keys && i in a.Keys;
  }

  /** A module that fails on the inputs every schedule gives it is in no complete build. */
  lemma FailureIsSticky<F(!new), R, E>(modules: seq<Module>, compile: Compiler<F, R, E>,
                                       results: map<int, R>, prints: map<int, F>,
                                       results': map<int, R>, prints': map<int, F>,
                                       index: int, error: E)
    requires Acyclic(Full(modules), Indices(modules)) && Resolved(modules)
    requires Built(modules, compile, results, prints) && prints.Keys == Indices(modules)
    requires Built(modules, compile, results', prints') && index in Indices(modules)
    ensures !Contributes(modules, compile, prints', index, Failure(error))
  {
    if Contributes(modules, compile, prints', index, Failure(error)) {
      forall j | j in Reached(modules, index)
        ensures prints[j] == prints'[j]
      {
        BuildsAgree(modules, compile, results, prints, results', prints', j);
      }
      ContributionsAgree(modules, compile, prints, index, Success((results[index], prints[index])), prints',
                         Failure(error));
    }
  }

  /** The outcome does not depend on the schedule: if one run succeeds, every run does, with
      the same results and fingerprints. */
  lemma ScheduleIndependent<F(!new), R(!new), E>(modules: seq<Module>, compile: Compiler<F, R, E>,
                                                 one: Result<map<int, R>, WorkspaceError<E>>, prints: map<int, F>,
                                                 other: Result<map<int, R>, WorkspaceError<E>>, prints': map<int, F>)
    requires Resolved(modules)
    requires Outcome(modules, compile, one, prints) && Outcome(modules, compile, other, prints')
    requires one.Success?
    ensures other == one && prints' == prints
  {
    if other.Success? {
      CompleteBuildUnique(modules, compile, one.value, prints, other.value, prints');
    } else if other.error.CompileFailed? {
      var results' :| Built(modules, compile, results', prints');
      FailureIsSticky(modules, compile, one.value, prints, results', prints', other.error.index, other.error.error);
    }
  }
}
