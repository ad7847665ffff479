/** Which generators of a module run, and in which order (`run_module_generators`). */
module GeneratorPlan {
  import opened Wrappers
  import opened Order
  import opened Digraph

  datatype SourceSet = MainSources | TestSources

  datatype Generator = Generator(dependsOn: seq<string>, outputSourceSets: set<SourceSet>)

  datatype PlanError =
    | UnknownGenerator(name: string)
    | DependencyCycle
    | GeneratorFailed(name: string)

  function Needs(generators: map<string, Generator>): Graph<string> {
    map name | name in generators :: set d | d in generators[name].dependsOn
  }

  /** The generators a request names directly. */
  function Requested(generators: map<string, Generator>, selected: Option<set<string>>,
                     sourceSets: set<SourceSet>): set<string> {
    set name | name in generators
               && (selected.None? || name in selected.value)
               && generators[name].outputSourceSets * sourceSets != {}
  }

  ghost predicate DependencyClosed(generators: map<string, Generator>, names: set<string>) {
    forall name, d :: name in names && Edge(Needs(generators), name, d) ==> d in names
  }

  /** `names` is the least dependency-closed set that contains `requested`. */
  ghost predicate LeastClosed(generators: map<string, Generator>, requested: set<string>, names: set<string>) {
    && requested <= names && DependencyClosed(generators, names)
    && forall others :: requested <= others && DependencyClosed(generators, others) ==> names <= others
  }

  function Mentioned(generators: map<string, Generator>): set<string> {
    generators.Keys + set name, d | name in generators && d in generators[name].dependsOn :: d
  }

  /** The worklist adds exactly the dependency closure, or stops at an undeclared generator
      that every closed superset would have to contain. */
  method RequiredGenerators(generators: map<string, Generator>, requested: set<string>)
    returns (r: Result<set<string>, PlanError>)
    requires requested <= generators.Keys
    ensures r.Success? ==> LeastClosed(generators, requested, r.value) && r.value <= generators.Keys
    ensures r.Failure? ==>
              && r.error.UnknownGenerator? && r.error.name !in generators
              && forall others :: requested <= others && DependencyClosed(generators, others) ==> r.error.name in others
  {
    var required := requested;
    var pending := Ascending(requested);
    while pending != []
      invariant requested <= required <= Mentioned(generators)
      invariant forall name <- pending :: name in required
      invariant forall name, d :: name in required && name !in pending && Edge(Needs(generators), name, d)
                  ==> d in required
      invariant forall name <- required :: name in pending || name in generators
      invariant forall others :: requested <= others && DependencyClosed(generators, others) ==> required <= others
      decreases Mentioned(generators) - required, |pending|
    {
      var name := pending[|pending| - 1];
      assert name in pending;
      assert pending == pending[..|pending| - 1] + [name];
      pending := pending[..|pending| - 1];
      if name !in generators {
        return Failure(UnknownGenerator(name));
      }
      required, pending := AddDependencies(generators, requested, name, required, pending);
    }
    r := Success(required);
  }

  /** One worklist step: the dependencies of `name` that are new become required and pending. */
  method AddDependencies(generators: map<string, Generator>, ghost requested: set<string>, name: string,
                         required: set<string>, pending: seq<string>)
    returns (grown: set<string>, worklist: seq<string>)
    requires name in generators && name in required && required <= Mentioned(generators)
    requires forall others :: requested <= others && DependencyClosed(generators, others) ==> required <= others
    ensures required <= grown <= Mentioned(generators)
    ensures forall d :: Edge(Needs(generators), name, d) ==> d in grown
    ensures forall d :: d in worklist <==> d in pending || d in grown - required
    ensures grown == required ==> worklist == pending
    ensures forall others :: requested <= others && DependencyClosed(generators, others) ==> grown <= others
  {
    grown, worklist := required, pending;
    var dependencies := generators[name].dependsOn;
    for k := 0 to |dependencies|
      invariant required <= grown <= Mentioned(generators)
      invariant forall d :: d in dependencies[..k] ==> d in grown
      invariant forall d :: d in worklist <==> d in pending || d in grown - required
      invariant grown == required ==> worklist == pending
      invariant forall others :: requested <= others && DependencyClosed(generators, others) ==> grown <= others
    {
      var dependency := dependencies[k];
      assert dependency in dependencies;
      assert Edge(Needs(generators), name, dependency);
      if dependency !in grown {
        grown := grown + {dependency};
        worklist := worklist + [dependency];
      }
    }
    assert dependencies[..|dependencies|] == dependencies;
  }

  /** Distinct names, each after everything it depends on. */
  ghost predicate RunInOrder(generators: map<string, Generator>, names: set<string>, ran: seq<string>) {
    && (forall name <- ran :: name in names)
    && (forall i, j :: 0 <= i < j < |ran| ==> ran[i] != ran[j])
    && (forall k, d :: 0 <= k < |ran| && Edge(Needs(generators), ran[k], d) ==> d in ran[..k])
  }

  /** `ran` was run in order, every run succeeded, and `complete` holds exactly its names. */
  ghost predicate Progress(generators: map<string, Generator>, names: set<string>, run: (seq<string>, string) -> bool,
                           complete: set<string>, ran: seq<string>) {
    && RunInOrder(generators, names, ran)
    && (forall k :: 0 <= k < |ran| ==> run(ran[..k], ran[k]))
    && complete <= names && forall name :: name in ran <==> name in complete
  }

  /** A request names this generator, and it puts outputs into one of the source sets. */
  ghost predicate Wanted(generators: map<string, Generator>, selected: Option<set<string>>, sourceSets: set<SourceSet>,
                         name: string) {
    && name in generators && (selected.Some? ==> name in selected.value)
    && exists sourceSet :: sourceSet in generators[name].outputSourceSets && sourceSet in sourceSets
  }

  /** The generator is wanted, or one that is wanted depends on it along any number of dependencies. */
  ghost predicate NeededFor(generators: map<string, Generator>, selected: Option<set<string>>,
                            sourceSets: set<SourceSet>, name: string) {
    || Wanted(generators, selected, sourceSets, name)
    || exists wanted ::
         Wanted(generators, selected, sourceSets, wanted) && Reaches(Needs(generators), wanted, name)
  }

  /** The least closed set that contains the request is what the wanted generators need. */
  lemma ClosureIsNeeded(generators: map<string, Generator>, selected: Option<set<string>>, sourceSets: set<SourceSet>,
                        closure: set<string>)
    requires LeastClosed(generators, Requested(generators, selected, sourceSets), closure)
    ensures forall name :: name in closure <==> NeededFor(generators, selected, sourceSets, name)
  {
    var needed := set name | name in closure && NeededFor(generators, selected, sourceSets, name);
    var requested := Requested(generators, selected, sourceSets);
    forall name
      ensures name in requested <==> Wanted(generators, selected, sourceSets, name)
    {
      if name in generators {
        var shared := generators[name].outputSourceSets * sourceSets;
        assert forall sourceSet :: sourceSet in shared <==>
                 sourceSet in generators[name].outputSourceSets && sourceSet in sourceSets;
        assert shared != {} ==> exists sourceSet :: sourceSet in shared;
      }
    }
    forall name, d | name in needed && Edge(Needs(generators), name, d)
      ensures d in needed
    {
      NeedsFurther(generators, selected, sourceSets, name, d);
    }
    assert closure <= needed;
    forall name | NeededFor(generators, selected, sourceSets, name)
      ensures name in closure
    {
      if name !in requested {
        var wanted :| Wanted(generators, selected, sourceSets, wanted) && Reaches(Needs(generators), wanted, name);
        assert wanted in closure;
        ClosedContainsReached(Needs(generators), wanted, closure);
      }
    }
  }

  lemma NeedsFurther(generators: map<string, Generator>, selected: Option<set<string>>, sourceSets: set<SourceSet>,
                     name: string, d: string)
    requires NeededFor(generators, selected, sourceSets, name) && Edge(Needs(generators), name, d)
    ensures NeededFor(generators, selected, sourceSets, d)
  {
    if Wanted(generators, selected, sourceSets, name) {
      ReachesEdge(Needs(generators), name, d);
    } else {
      var wanted :| Wanted(generators, selected, sourceSets, wanted) && Reaches(Needs(generators), wanted, name);
      ReachesThenEdge(Needs(generators), wanted, name, d);
    }
  }

  /** Runs the closure of the request. `run` says whether a generator succeeds, given those run
      before it; `ran` lists the generators that ran successfully. */
  method RunModuleGenerators(generators: map<string, Generator>, selected: Option<set<string>>,
                             sourceSets: set<SourceSet>,
                             run: (seq<string>, string) -> bool)
    returns (r: Result<(), PlanError>, ran: seq<string>, ghost closure: set<string>)
    ensures r.Failure? && r.error.UnknownGenerator? ==>
              && ran == [] && r.error.name !in generators
              && forall others ::
                   Requested(generators, selected, sourceSets) <= others && DependencyClosed(generators, others) ==>
                     r.error.name in others
    ensures r.Success? || !r.error.UnknownGenerator? ==>
              LeastClosed(generators, Requested(generators, selected, sourceSets), closure)
    ensures r.Success? || !r.error.UnknownGenerator? ==>
              forall name :: name in closure <==> NeededFor(generators, selected, sourceSets, name)
    ensures RunInOrder(generators, closure, ran)
    ensures forall k :: 0 <= k < |ran| ==> run(ran[..k], ran[k])
    ensures r.Success? ==> TopologicalOrder(Needs(generators), ran, closure) && Acyclic(Needs(generators), closure)
    ensures r.Failure? && r.error.DependencyCycle? ==> !Acyclic(Needs(generators), closure)
    ensures r.Failure? && r.error.GeneratorFailed? ==> r.error.name in closure && !run(ran, r.error.name)
  {
    ran, closure := [], {};
    var required :- RequiredGenerators(generators, Requested(generators, selected, sourceSets));
    closure := required;
    ClosureIsNeeded(generators, selected, sourceSets, closure);
    var complete: set<string> := {};
    while |complete| < |required|
      invariant Progress(generators, required, run, complete, ran)
      decreases required - complete
    {
      var ready := Ascending(ReadyNow(generators, required, complete));
      if ready == [] {
        StuckIsCyclic(generators, required, complete);
        return Failure(DependencyCycle), ran, closure;
      }
      ghost var before := complete;
      var failed;
      failed, complete, ran := RunRound(generators, required, complete, ran, ready, run);
      if failed.Some? {
        return Failure(GeneratorFailed(failed.value)), ran, closure;
      }
      assert ready[0] in ready && ready[0] in required - before;
    }
    EqualSize(complete, required);
    OrderedIsAcyclic(Needs(generators), ran, required);
    r := Success(());
  }

  /** Runs the ready generators one after another, stopping at the first that fails. */
  method RunRound(generators: map<string, Generator>, ghost required: set<string>, complete: set<string>,
                  ran: seq<string>,
                  ready: seq<string>, run: (seq<string>, string) -> bool)
    returns (failed: Option<string>, done: set<string>, trace: seq<string>)
    requires required <= generators.Keys && Progress(generators, required, run, complete, ran)
    requires StrictlySorted(ready) && forall name :: name in ready <==> name in ReadyNow(generators, required, complete)
    ensures Progress(generators, required, run, done, trace)
    ensures complete <= done
    ensures failed.None? ==> forall name <- ready :: name in done
    ensures failed.Some? ==> failed.value in required && !run(trace, failed.value)
  {
    done, trace := complete, ran;
    for n := 0 to |ready|
      invariant Progress(generators, required, run, done, trace)
      invariant complete <= done && forall name :: name in done <==> name in complete || name in ready[..n]
    {
      var name := ready[n];
      assert name in ready;
      if !run(trace, name) {
        return Some(name), done, trace;
      }
      NamesDiffer(ready, n);
      RunNext(generators, required, complete, trace, name, run);
      assert ready[..n + 1] == ready[..n] + [name];
      trace := trace + [name];
      done := done + {name};
    }
    assert ready[..|ready|] == ready;
    failed := None;
  }

  function ReadyNow(generators: map<string, Generator>, required: set<string>, complete: set<string>): set<string>
    requires required <= generators.Keys
  {
    set name | name in required && name !in complete && forall d <- generators[name].dependsOn :: d in complete
  }

  lemma EqualSize(a: set<string>, b: set<string>)
    requires a <= b && |a| >= |b|
    ensures a == b
  {
    assert b == a + (b - a);
    assert b - a == {};
    forall x | x in b
      ensures x in a
    {
      assert x !in b - a;
    }
  }

  lemma NamesDiffer(ready: seq<string>, n: nat)
    requires StrictlySorted(ready) && n < |ready|
    ensures ready[n] !in ready[..n]
  {
    forall m | 0 <= m < n
      ensures ready[m] != ready[n]
    {
      LessTrichotomy(ready[m], ready[n]);
    }
  }

  lemma RunNext(generators: map<string, Generator>, names: set<string>, before: set<string>, ran: seq<string>,
                name: string,
                run: (seq<string>, string) -> bool)
    requires RunInOrder(generators, names, ran) && names <= generators.Keys
    requires name in ReadyNow(generators, names, before) && name !in ran && forall x <- before :: x in ran
    requires run(ran, name) && forall k :: 0 <= k < |ran| ==> run(ran[..k], ran[k])
    ensures RunInOrder(generators, names, ran + [name])
    ensures forall k :: 0 <= k <= |ran| ==> run((ran + [name])[..k], (ran + [name])[k])
  {
    var longer := ran + [name];
    assert forall k :: 0 <= k <= |ran| ==> longer[..k] == ran[..k];
    assert ran[..|ran|] == ran;
  }

  /** When nothing is ready, every unfinished generator waits for an unfinished one. */
  lemma StuckIsCyclic(generators: map<string, Generator>, required: set<string>, complete: set<string>)
    requires required <= generators.Keys && DependencyClosed(generators, required)
    requires complete <= required && |complete| < |required|
    requires ReadyNow(generators, required, complete) == {}
    ensures !Acyclic(Needs(generators), required)
  {
    var g := Needs(generators);
    var waiting := required - complete;
    assert waiting != {} by {
      assert required == complete + waiting;
    }
    forall name | name in waiting
      ensures HasSuccessor(g, waiting, name)
    {
      assert name !in ReadyNow(generators, required, complete);
      var d :| d in generators[name].dependsOn && d !in complete;
      assert Edge(g, name, d);
    }
    var cycle := NoSinkHasCycle(g, waiting);
    assert Within(cycle, required);
  }
}
