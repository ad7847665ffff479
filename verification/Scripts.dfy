/** Project scripts: `ScriptExecutor::execute` runs a script, or the steps it is composed of. */
module Scripts {
  import opened Wrappers
  import Digraph

  datatype Definition = Definition(
    command: seq<string>, steps: seq<string>, workingDirectory: Option<string>, environment: map<string, string>)

  datatype Script = Shell(source: string) | Structured(definition: Definition)

  /** What a declared working directory turns out to be. */
  datatype Place = Missing | Outside | Inside(path: string)

  /** The script table, and the file system as far as working directories go. */
  datatype Project = Project(scripts: map<string, Script>, place: string -> Place)

  datatype Context = Context(workingDirectory: string, environment: map<string, string>)

  datatype Invocation =
    | ViaShell(source: string, arguments: seq<string>)
    | Direct(program: string, arguments: seq<string>)

  datatype Launch = Launch(name: string, invocation: Invocation, context: Context)

  datatype ScriptError =
    | CycleDetected(cycle: seq<string>)
    | Undefined(name: string)
    | UnexpectedArguments(name: string)
    | NoDirectory(name: string)
    | OutsideProject(name: string)
    | NoExecutable(name: string)
    | ProcessFailed(name: string)

  /** Launches in order, and the error that ends them if there is one. */
  datatype Plan = Plan(launches: seq<Launch>, error: Option<ScriptError>)

  function Failed(error: ScriptError): Plan {
    Plan([], Some(error))
  }

  function Then(p: Plan, q: Plan): Plan {
    if p.error.Some? then p else Plan(p.launches + q.launches, q.error)
  }

  predicate Composed(script: Script) {
    script.Structured? && script.definition.steps != []
  }

  /** The steps of a script lie beneath it. */
  function StepGraph(project: Project): Digraph.Graph<string> {
    map name | name in project.scripts ::
      if Composed(project.scripts[name]) then set step | step in project.scripts[name].definition.steps else {}
  }

  // ------------------------------------------------------------------ contexts

  function LayerContext(project: Project, name: string, definition: Definition, inherited: Context)
    : Result<Context, ScriptError>
  {
    var directory :- WorkingDirectory(project, name, definition, inherited);
    Success(Context(directory, inherited.environment + definition.environment))
  }

  function WorkingDirectory(project: Project, name: string, definition: Definition, inherited: Context)
    : Result<string, ScriptError>
  {
    if definition.workingDirectory.None? then Success(inherited.workingDirectory)
    else
      match project.place(definition.workingDirectory.value)
      case Missing => Failure(NoDirectory(name))
      case Outside => Failure(OutsideProject(name))
      case Inside(path) => Success(path)
  }

  // ------------------------------------------------------------------ the plan of a script

  function Names(stack: seq<string>): set<string> {
    set name | name in stack
  }

  function Unvisited(project: Project, stack: seq<string>): nat {
    |project.scripts.Keys - Names(stack)|
  }

  lemma UnvisitedShrinks(project: Project, stack: seq<string>, name: string)
    requires name in project.scripts && name !in stack
    ensures Unvisited(project, stack + [name]) < Unvisited(project, stack)
  {
    var left := project.scripts.Keys - Names(stack);
    assert Names(stack + [name]) == Names(stack) + {name};
    assert project.scripts.Keys - Names(stack + [name]) == left - {name};
    assert name in left;
  }

  function Position(stack: seq<string>, name: string): (start: nat)
    requires name in stack
    ensures start < |stack| && stack[start] == name && name !in stack[..start]
  {
    if stack[0] == name then 0
    else
      assert stack == [stack[0]] + stack[1..];
      assert forall n :: 0 <= n < |stack| - 1 ==> stack[..n + 1] == [stack[0]] + stack[1..][..n];
      1 + Position(stack[1..], name)
  }

  /** Everything that running a script would launch if every process succeeded, left to right, up to
      the first error. `stack` holds the scripts being run. */
  function Expand(project: Project, name: string, arguments: seq<string>, inherited: Context, stack: seq<string>): Plan
    decreases Unvisited(project, stack), 1, 0
  {
    if name in stack then Failed(CycleDetected(stack[Position(stack, name)..] + [name]))
    else if name !in project.scripts then Failed(Undefined(name))
    else
      UnvisitedShrinks(project, stack, name);
      match project.scripts[name]
      case Shell(source) => Plan([Launch(name, ViaShell(source, arguments), inherited)], None)
      case Structured(definition) =>
        if definition.steps != [] && arguments != [] then Failed(UnexpectedArguments(name))
        else
          var context := LayerContext(project, name, definition, inherited);
          if context.Failure? then Failed(context.error)
          else if definition.steps != [] then ExpandSteps(project, definition.steps, context.value, stack + [name])
          else if definition.command == [] then Failed(NoExecutable(name))
          else Plan([Launch(name, Direct(definition.command[0], definition.command[1..] + arguments), context.value)],
                    None)
  }

  function ExpandSteps(project: Project, steps: seq<string>, context: Context, stack: seq<string>): Plan
    decreases Unvisited(project, stack), 2, |steps|
  {
    if steps == [] then Plan([], None)
    else
      Then(ExpandSteps(project, steps[..|steps| - 1], context, stack),
           Expand(project, steps[|steps| - 1], [], context, stack))
  }

  // ------------------------------------------------------------------ what is really started

  /** How many of the launches exit successfully before one does not. `exits` tells the status of
      every process that is started, in order. */
  function Successes(exits: nat -> bool, from: nat, launches: seq<Launch>): (n: nat)
    ensures n <= |launches|
    decreases |launches|
  {
    if launches == [] || !exits(from) then 0 else 1 + Successes(exits, from + 1, launches[1..])
  }

  datatype Mode = DryRun | Real(exits: nat -> bool)

  /** What a plan comes to: it stops at the first process that fails. In a dry run nothing is
      started, so nothing can fail. */
  function Actual(mode: Mode, from: nat, plan: Plan): Plan {
    var n := if mode.DryRun? then |plan.launches| else Successes(mode.exits, from, plan.launches);
    if n == |plan.launches| then plan
    else Plan(plan.launches[..n + 1], Some(ProcessFailed(plan.launches[n].name)))
  }

  /** All processes from one number up to another exit successfully. */
  ghost predicate AllExit(exits: nat -> bool, from: nat, to: nat) {
    forall k: nat :: from <= k < to ==> exits(k)
  }

  lemma {:induction false} FirstFailure(exits: nat -> bool, from: nat, launches: seq<Launch>)
    ensures var n := Successes(exits, from, launches);
            AllExit(exits, from, from + n) && (n < |launches| ==> !exits(from + n))
    decreases |launches|
  {
    if launches != [] && exits(from) {
      FirstFailure(exits, from + 1, launches[1..]);
    }
  }

  /** What is started is a prefix of the plan: all of it when every process of it succeeds, and
      otherwise everything up to and with the first that fails. */
  lemma StartedIsPrefix(mode: Mode, from: nat, plan: Plan)
    ensures Actual(mode, from, plan).launches <= plan.launches
    ensures mode.DryRun? || AllExit(mode.exits, from, from + |plan.launches|) ==> Actual(mode, from, plan) == plan
    ensures mode.Real? && !AllExit(mode.exits, from, from + |plan.launches|) ==>
              var started := Actual(mode, from, plan).launches;
              && started != []
              && AllExit(mode.exits, from, from + |started| - 1)
              && !mode.exits(from + |started| - 1)
              && Actual(mode, from, plan).error == Some(ProcessFailed(started[|started| - 1].name))
  {
    if mode.Real? {
      FirstFailure(mode.exits, from, plan.launches);
    }
  }

  lemma {:induction false} SuccessesAcross(exits: nat -> bool, from: nat, front: seq<Launch>, back: seq<Launch>)
    ensures Successes(exits, from, front + back)
            == var n := Successes(exits, from, front);
               if n < |front| then n else n + Successes(exits, from + |front|, back)
    decreases |front|
  {
    if front == [] {
      assert front + back == back;
    } else if exits(from) {
      assert (front + back)[1..] == front[1..] + back;
      SuccessesAcross(exits, from + 1, front[1..], back);
    }
  }

  lemma ActualThen(mode: Mode, from: nat, p: Plan, q: Plan)
    ensures Actual(mode, from, Then(p, q))
            == Then(Actual(mode, from, p), Actual(mode, from + |p.launches|, q))
  {
    if p.error.None? && mode.Real? {
      SuccessesAcross(mode.exits, from, p.launches, q.launches);
      var n := Successes(mode.exits, from, p.launches);
      if n < |p.launches| {
        assert (p.launches + q.launches)[..n + 1] == p.launches[..n + 1];
      } else {
        var m := Successes(mode.exits, from + |p.launches|, q.launches);
        if m < |q.launches| {
          assert (p.launches + q.launches)[..n + m + 1] == p.launches + q.launches[..m + 1];
        }
      }
    }
  }

  /** Once a step has failed, the steps after it change nothing. */
  lemma {:induction false} FailureEndsSteps(project: Project, steps: seq<string>, context: Context, stack: seq<string>,
                                            mode: Mode, from: nat, i: nat)
    requires i <= |steps|
    requires Actual(mode, from, ExpandSteps(project, steps[..i], context, stack)).error.Some?
    ensures Actual(mode, from, ExpandSteps(project, steps, context, stack))
            == Actual(mode, from, ExpandSteps(project, steps[..i], context, stack))
    decreases |steps|
  {
    if i < |steps| {
      var front := steps[..|steps| - 1];
      assert front[..i] == steps[..i];
      FailureEndsSteps(project, front, context, stack, mode, from, i);
      ActualThen(mode, from, ExpandSteps(project, front, context, stack),
                 Expand(project, steps[|steps| - 1], [], context, stack));
    } else {
      assert steps[..i] == steps;
    }
  }

  /** Following a plan from a log of launches leads to this log and this error. */
  predicate Outcome(mode: Mode, before: seq<Launch>, plan: Plan, after: seq<Launch>, error: Option<ScriptError>) {
    var actual := Actual(mode, |before|, plan);
    after == before + actual.launches && error == actual.error
  }

  /** The next step either runs to its end as well, or ends the steps. */
  lemma NextStep(project: Project, steps: seq<string>, context: Context, stack: seq<string>, i: nat, mode: Mode,
                 before: seq<Launch>, reached: seq<Launch>, after: seq<Launch>, error: Option<ScriptError>)
    requires i < |steps|
    requires Outcome(mode, before, ExpandSteps(project, steps[..i], context, stack), reached, None)
    requires Outcome(mode, reached, Expand(project, steps[i], [], context, stack), after, error)
    ensures error.None? ==> Outcome(mode, before, ExpandSteps(project, steps[..i + 1], context, stack), after, None)
    ensures error.Some? ==> Outcome(mode, before, ExpandSteps(project, steps, context, stack), after, error)
  {
    var plan := ExpandSteps(project, steps[..i], context, stack);
    var next := Expand(project, steps[i], [], context, stack);
    assert steps[..i + 1][..i] == steps[..i];
    assert Actual(mode, |before|, plan) == plan && |reached| == |before| + |plan.launches|;
    ActualThen(mode, |before|, plan, next);
    assert after == before + (plan.launches + Actual(mode, |reached|, next).launches);
    if error.Some? {
      FailureEndsSteps(project, steps, context, stack, mode, |before|, i + 1);
    }
  }

  // ------------------------------------------------------------------ contexts along a call path

  /** The declared overlays of a script; a shell script has none. */
  function Overlay(project: Project, name: string): map<string, string> {
    if name in project.scripts && project.scripts[name].Structured? then project.scripts[name].definition.environment
    else map[]
  }

  /** The context that results from entering the scripts of a path one after the other. */
  function ContextAlong(project: Project, path: seq<string>, inherited: Context): Result<Context, ScriptError> {
    if path == [] then Success(inherited)
    else
      var name := path[|path| - 1];
      var outer :- ContextAlong(project, path[..|path| - 1], inherited);
      if name in project.scripts && project.scripts[name].Structured?
      then LayerContext(project, name, project.scripts[name].definition, outer)
      else Success(outer)
  }

  lemma {:induction false} ContextFromFront(project: Project, name: string, path: seq<string>, inherited: Context)
    requires ContextAlong(project, [name], inherited).Success?
    ensures ContextAlong(project, [name] + path, inherited)
            == ContextAlong(project, path, ContextAlong(project, [name], inherited).value)
    decreases |path|
  {
    if path == [] {
      assert [name] + path == [name];
    } else {
      ContextFromFront(project, name, path[..|path| - 1], inherited);
      assert ([name] + path)[..|path|] == [name] + path[..|path| - 1];
    }
  }

  /** The innermost script of the path that sets a variable decides its value. */
  lemma {:induction false} InnermostOverlayWins(project: Project, path: seq<string>, inherited: Context, key: string,
                                                i: int)
    requires ContextAlong(project, path, inherited).Success?
    requires -1 <= i < |path| && (i >= 0 ==> key in Overlay(project, path[i]))
    requires forall j :: i < j < |path| ==> key !in Overlay(project, path[j])
    ensures var environment := ContextAlong(project, path, inherited).value.environment;
            if i >= 0 then key in environment && environment[key] == Overlay(project, path[i])[key]
            else (key in environment <==> key in inherited.environment)
                 && (key in environment ==> environment[key] == inherited.environment[key])
    decreases |path|
  {
    if path != [] && i < |path| - 1 {
      InnermostOverlayWins(project, path[..|path| - 1], inherited, key, i);
    }
  }

  predicate Places(project: Project, name: string) {
    name in project.scripts && project.scripts[name].Structured?
    && project.scripts[name].definition.workingDirectory.Some?
  }

  /** The innermost script of the path with a working directory decides where a leaf runs, and that
      directory lies inside the project. */
  lemma {:induction false} InnermostDirectoryWins(project: Project, path: seq<string>, inherited: Context, i: int)
    requires ContextAlong(project, path, inherited).Success?
    requires -1 <= i < |path| && (i >= 0 ==> Places(project, path[i]))
    requires forall j :: i < j < |path| ==> !Places(project, path[j])
    ensures var directory := ContextAlong(project, path, inherited).value.workingDirectory;
            if i >= 0 then
              project.place(project.scripts[path[i]].definition.workingDirectory.value) == Inside(directory)
            else directory == inherited.workingDirectory
    decreases |path|
  {
    if path != [] && i < |path| - 1 {
      InnermostDirectoryWins(project, path[..|path| - 1], inherited, i);
    }
  }

  function LeafInvocation(project: Project, name: string, arguments: seq<string>): Option<Invocation> {
    if name !in project.scripts || Composed(project.scripts[name]) then None
    else if project.scripts[name].Shell? then Some(ViaShell(project.scripts[name].source, arguments))
    else
      var command := project.scripts[name].definition.command;
      if command == [] then None else Some(Direct(command[0], command[1..] + arguments))
  }

  /** A launch is the leaf at the end of a path of step edges from the script that was asked for,
      under the contexts of that path; only the script asked for gets the arguments. */
  ghost predicate LaunchedAlong(project: Project, path: seq<string>, name: string, arguments: seq<string>,
                                inherited: Context, launch: Launch) {
    && Digraph.WalkBetween(StepGraph(project), path, name, launch.name)
    && ContextAlong(project, path, inherited) == Success(launch.context)
    && LeafInvocation(project, launch.name, if |path| == 1 then arguments else []) == Some(launch.invocation)
  }

  ghost predicate Accounted(project: Project, name: string, arguments: seq<string>, inherited: Context,
                            launch: Launch) {
    exists path :: LaunchedAlong(project, path, name, arguments, inherited, launch)
  }

  lemma EntersContext(project: Project, name: string, inherited: Context)
    requires name in project.scripts
    ensures ContextAlong(project, [name], inherited)
            == if project.scripts[name].Shell? then Success(inherited)
               else LayerContext(project, name, project.scripts[name].definition, inherited)
  {
    assert [name][..0] == [];
    assert ContextAlong(project, [], inherited) == Success(inherited);
  }

  lemma PathFromStep(project: Project, name: string, step: string, context: Context, inherited: Context, launch: Launch)
    requires name in project.scripts && Digraph.Edge(StepGraph(project), name, step)
    requires ContextAlong(project, [name], inherited) == Success(context)
    requires Accounted(project, step, [], context, launch)
    ensures Accounted(project, name, [], inherited, launch)
  {
    var path :| LaunchedAlong(project, path, step, [], context, launch);
    var longer := [name] + path;
    forall k | 0 <= k < |longer| - 1
      ensures Digraph.Edge(StepGraph(project), longer[k], longer[k + 1])
    {
      if k > 0 {
        assert Digraph.Edge(StepGraph(project), path[k - 1], path[k]);
      }
    }
    ContextFromFront(project, name, path, inherited);
    assert LaunchedAlong(project, longer, name, [], inherited, launch);
  }

  /** Every launch of a plan is accounted for by a call path. */
  lemma {:induction false} LaunchesAreLeaves(project: Project, name: string, arguments: seq<string>, inherited: Context,
                                             stack: seq<string>)
    ensures forall launch :: launch in Expand(project, name, arguments, inherited, stack).launches ==>
              Accounted(project, name, arguments, inherited, launch)
    decreases Unvisited(project, stack), 1, 0
  {
    if name !in stack && name in project.scripts {
      UnvisitedShrinks(project, stack, name);
      EntersContext(project, name, inherited);
      var context := ContextAlong(project, [name], inherited);
      if Composed(project.scripts[name]) && arguments == [] && context.Success? {
        var steps := project.scripts[name].definition.steps;
        assert forall step :: step in steps ==> Digraph.Edge(StepGraph(project), name, step);
        StepLaunches(project, name, steps, context.value, inherited, stack + [name]);
      } else {
        forall launch | launch in Expand(project, name, arguments, inherited, stack).launches
          ensures Accounted(project, name, arguments, inherited, launch)
        {
          assert LaunchedAlong(project, [name], name, arguments, inherited, launch);
        }
      }
    }
  }

  lemma {:induction false} StepLaunches(project: Project, name: string, steps: seq<string>, context: Context,
                                        inherited: Context, stack: seq<string>)
    requires name in project.scripts && forall step :: step in steps ==> Digraph.Edge(StepGraph(project), name, step)
    requires ContextAlong(project, [name], inherited) == Success(context)
    ensures forall launch :: launch in ExpandSteps(project, steps, context, stack).launches ==>
              Accounted(project, name, [], inherited, launch)
    decreases Unvisited(project, stack), 2, |steps|
  {
    if steps != [] {
      var last := steps[|steps| - 1];
      assert last in steps;
      StepLaunches(project, name, steps[..|steps| - 1], context, inherited, stack);
      LaunchesAreLeaves(project, last, [], context, stack);
      forall launch | launch in Expand(project, last, [], context, stack).launches
        ensures Accounted(project, name, [], inherited, launch)
      {
        PathFromStep(project, name, last, context, inherited, launch);
      }
    }
  }

  // ------------------------------------------------------------------ cycles

  predicate Simple(path: seq<string>) {
    forall i, j :: 0 <= i < j < |path| ==> path[i] != path[j]
  }

  /** The chain of scripts being run, with the next one. */
  predicate OnPath(project: Project, stack: seq<string>, name: string) {
    Digraph.Walk(StepGraph(project), stack + [name])
  }

  /** The reported cycle closes a walk that starts at the outermost script. */
  ghost predicate ClosesCycle(project: Project, root: string, cycle: seq<string>) {
    && Digraph.Cycle(StepGraph(project), cycle)
    && exists walk :: Digraph.Walk(StepGraph(project), walk) && walk[0] == root && !Simple(walk)
                      && |cycle| <= |walk| && walk[|walk| - |cycle|..] == cycle
  }

  lemma StackCloses(project: Project, name: string, stack: seq<string>)
    requires OnPath(project, stack, name) && name in stack
    ensures ClosesCycle(project, (stack + [name])[0], stack[Position(stack, name)..] + [name])
  {
    var walk, start := stack + [name], Position(stack, name);
    var cycle := stack[start..] + [name];
    assert walk[start..] == cycle && walk[start] == walk[|stack|];
    forall k | 0 <= k < |cycle| - 1
      ensures Digraph.Edge(StepGraph(project), cycle[k], cycle[k + 1])
    {
      assert Digraph.Edge(StepGraph(project), walk[start + k], walk[start + k + 1]);
    }
    assert walk[|walk| - |cycle|..] == cycle;
  }

  /** A reported cycle is a real one. */
  lemma {:induction false} ReportedCycleIsReal(project: Project, name: string, arguments: seq<string>,
                                               inherited: Context,
                                               stack: seq<string>)
    requires OnPath(project, stack, name)
    ensures var error := Expand(project, name, arguments, inherited, stack).error;
            error.Some? && error.value.CycleDetected? ==> ClosesCycle(project, (stack + [name])[0], error.value.cycle)
    decreases Unvisited(project, stack), 1, 0
  {
    if name in stack {
      StackCloses(project, name, stack);
    } else if name in project.scripts && Composed(project.scripts[name]) && arguments == [] {
      var definition := project.scripts[name].definition;
      var context := LayerContext(project, name, definition, inherited);
      if context.Success? {
        UnvisitedShrinks(project, stack, name);
        StepCycles(project, name, definition.steps, context.value, stack + [name]);
      }
    }
  }

  lemma {:induction false} StepCycles(project: Project, name: string, steps: seq<string>, context: Context,
                                      stack: seq<string>)
    requires stack != [] && stack[|stack| - 1] == name && Digraph.Walk(StepGraph(project), stack)
    requires name in project.scripts && Composed(project.scripts[name])
    requires forall step :: step in steps ==> step in project.scripts[name].definition.steps
    ensures var error := ExpandSteps(project, steps, context, stack).error;
            error.Some? && error.value.CycleDetected? ==> ClosesCycle(project, stack[0], error.value.cycle)
    decreases Unvisited(project, stack), 2, |steps|
  {
    if steps != [] {
      var last := steps[|steps| - 1];
      assert last in steps;
      StepCycles(project, name, steps[..|steps| - 1], context, stack);
      assert Digraph.Edge(StepGraph(project), name, last);
      assert OnPath(project, stack, last);
      ReportedCycleIsReal(project, last, [], context, stack);
    }
  }

  /** When the plan of a script has no error, neither has that of any of its steps. */
  lemma StepHasNoError(project: Project, name: string, arguments: seq<string>, inherited: Context, stack: seq<string>,
                       step: string) returns (context: Context)
    requires Expand(project, name, arguments, inherited, stack).error.None?
    requires Digraph.Edge(StepGraph(project), name, step)
    ensures Expand(project, step, [], context, stack + [name]).error.None?
  {
    var definition := project.scripts[name].definition;
    context := LayerContext(project, name, definition, inherited).value;
    UnvisitedShrinks(project, stack, name);
    EveryStepPasses(project, definition.steps, context, stack + [name], step);
  }

  lemma {:induction false} EveryStepPasses(project: Project, steps: seq<string>, context: Context, stack: seq<string>,
                                           step: string)
    requires ExpandSteps(project, steps, context, stack).error.None? && step in steps
    ensures Expand(project, step, [], context, stack).error.None?
    decreases |steps|
  {
    if step != steps[|steps| - 1] {
      EveryStepPasses(project, steps[..|steps| - 1], context, stack, step);
    }
  }

  /** Without an error no walk of step edges from the script meets a script twice, or one on the stack. */
  lemma {:induction false} NoErrorNoRepeat(project: Project, name: string, arguments: seq<string>, inherited: Context,
                                           stack: seq<string>, walk: seq<string>)
    requires Expand(project, name, arguments, inherited, stack).error.None?
    requires Digraph.Walk(StepGraph(project), walk) && walk[0] == name
    ensures Simple(walk) && forall k :: 0 <= k < |walk| ==> walk[k] !in stack
    decreases |walk|
  {
    if |walk| > 1 {
      assert Digraph.Edge(StepGraph(project), name, walk[1]);
      var context := StepHasNoError(project, name, arguments, inherited, stack, walk[1]);
      forall k | 0 <= k < |walk| - 2
        ensures Digraph.Edge(StepGraph(project), walk[1..][k], walk[1..][k + 1])
      {
        assert Digraph.Edge(StepGraph(project), walk[k + 1], walk[k + 2]);
      }
      NoErrorNoRepeat(project, walk[1], [], context, stack + [name], walk[1..]);
      assert name in stack + [name];
      forall k | 1 <= k < |walk|
        ensures walk[k] != name && walk[k] !in stack
      {
        assert walk[k] == walk[1..][k - 1];
      }
      forall i, j | 1 <= i < j < |walk|
        ensures walk[i] != walk[j]
      {
        assert walk[i] == walk[1..][i - 1] && walk[j] == walk[1..][j - 1];
      }
    }
  }

  /** Nothing but a cycle can go wrong: steps are defined, commands are not empty, and working
      directories lie inside the project. */
  predicate Sound(project: Project) {
    forall name :: name in project.scripts && project.scripts[name].Structured? ==>
      SoundDefinition(project, project.scripts[name].definition)
  }

  predicate SoundDefinition(project: Project, definition: Definition) {
    && (definition.workingDirectory.Some? ==> project.place(definition.workingDirectory.value).Inside?)
    && (definition.steps == [] ==> definition.command != [])
    && forall step :: step in definition.steps ==> step in project.scripts
  }

  lemma {:induction false} OnlyCycles(project: Project, name: string, arguments: seq<string>, inherited: Context,
                                      stack: seq<string>)
    requires Sound(project) && name in project.scripts && (Composed(project.scripts[name]) ==> arguments == [])
    ensures var error := Expand(project, name, arguments, inherited, stack).error;
            error.Some? ==> error.value.CycleDetected?
    decreases Unvisited(project, stack), 1, 0
  {
    if name !in stack && Composed(project.scripts[name]) {
      var definition := project.scripts[name].definition;
      var context := LayerContext(project, name, definition, inherited).value;
      UnvisitedShrinks(project, stack, name);
      OnlyStepCycles(project, definition.steps, context, stack + [name]);
    }
  }

  lemma {:induction false} OnlyStepCycles(project: Project, steps: seq<string>, context: Context, stack: seq<string>)
    requires Sound(project) && forall step :: step in steps ==> step in project.scripts
    ensures var error := ExpandSteps(project, steps, context, stack).error;
            error.Some? ==> error.value.CycleDetected?
    decreases Unvisited(project, stack), 2, |steps|
  {
    if steps != [] {
      OnlyStepCycles(project, steps[..|steps| - 1], context, stack);
      OnlyCycles(project, steps[|steps| - 1], [], context, stack);
    }
  }

  ghost predicate NoCycleBelow(project: Project, name: string) {
    forall walk :: Digraph.Walk(StepGraph(project), walk) && walk[0] == name ==> Simple(walk)
  }

  /** In a sound project the plan of a script is free of errors exactly when no cycle of steps lies
      beneath it. */
  lemma PlansUnlessCyclic(project: Project, name: string, arguments: seq<string>, inherited: Context)
    requires Sound(project) && name in project.scripts && (Composed(project.scripts[name]) ==> arguments == [])
    ensures Expand(project, name, arguments, inherited, []).error.None? <==> NoCycleBelow(project, name)
  {
    if Expand(project, name, arguments, inherited, []).error.None? {
      forall walk | Digraph.Walk(StepGraph(project), walk) && walk[0] == name
        ensures Simple(walk)
      {
        NoErrorNoRepeat(project, name, arguments, inherited, [], walk);
      }
    } else {
      OnlyCycles(project, name, arguments, inherited, []);
      assert [] + [name] == [name];
      ReportedCycleIsReal(project, name, arguments, inherited, []);
    }
  }

  // ------------------------------------------------------------------ steps on their own

  /** The stack only serves to find cycles: with fewer scripts on it the plan is the same. */
  lemma {:induction false} StackIrrelevant(project: Project, name: string, arguments: seq<string>, inherited: Context,
                                           stack: seq<string>, fewer: seq<string>)
    requires Names(fewer) <= Names(stack)
    requires var error := Expand(project, name, arguments, inherited, stack).error;
             error.Some? ==> !error.value.CycleDetected?
    ensures Expand(project, name, arguments, inherited, fewer) == Expand(project, name, arguments, inherited, stack)
    decreases Unvisited(project, stack), 1, 0
  {
    assert name !in Names(stack) && name !in Names(fewer);
    if name in project.scripts && Composed(project.scripts[name]) && arguments == [] {
      var definition := project.scripts[name].definition;
      var context := LayerContext(project, name, definition, inherited);
      if context.Success? {
        UnvisitedShrinks(project, stack, name);
        assert Names(fewer + [name]) == Names(fewer) + {name} && Names(stack + [name]) == Names(stack) + {name};
        StackIrrelevantToSteps(project, definition.steps, context.value, stack + [name], fewer + [name]);
      }
    }
  }

  lemma {:induction false} StackIrrelevantToSteps(project: Project, steps: seq<string>, context: Context,
                                                  stack: seq<string>, fewer: seq<string>)
    requires Names(fewer) <= Names(stack)
    requires var error := ExpandSteps(project, steps, context, stack).error;
             error.Some? ==> !error.value.CycleDetected?
    ensures ExpandSteps(project, steps, context, fewer) == ExpandSteps(project, steps, context, stack)
    decreases Unvisited(project, stack), 2, |steps|
  {
    if steps != [] {
      var front, last := steps[..|steps| - 1], steps[|steps| - 1];
      StackIrrelevantToSteps(project, front, context, stack, fewer);
      if ExpandSteps(project, front, context, stack).error.None? {
        StackIrrelevant(project, last, [], context, stack, fewer);
      }
    }
  }

  class ScriptExecutor {
    const project: Project
    const mode: Mode
    var launched: seq<Launch>
    var stack: seq<string>

    constructor (project: Project, mode: Mode)
      ensures this.project == project && this.mode == mode
      ensures launched == [] && stack == []
    {
      this.project, this.mode := project, mode;
      launched, stack := [], [];
    }

    /** Runs a script. What is launched (or, in a dry run, displayed) and the outcome are those of
        its plan, cut off at the first process that fails. */
    method Execute(name: string, arguments: seq<string>, inherited: Context) returns (error: Option<ScriptError>)
      modifies this
      ensures Outcome(mode, old(launched), Expand(project, name, arguments, inherited, old(stack)), launched, error)
      ensures error.None? ==> stack == old(stack)
      decreases Unvisited(project, stack), 1, 0
    {
      if name in stack {
        return Some(CycleDetected(stack[Position(stack, name)..] + [name]));
      }
      if name !in project.scripts {
        return Some(Undefined(name));
      }
      UnvisitedShrinks(project, stack, name);
      ghost var outer := stack;
      stack := stack + [name];
      match project.scripts[name] {
        case Shell(source) =>
          error := Start(Launch(name, ViaShell(source, arguments), inherited));
        case Structured(definition) =>
          if definition.steps != [] && arguments != [] {
            return Some(UnexpectedArguments(name));
          }
          var context := LayerContext(project, name, definition, inherited);
          if context.Failure? {
            return Some(context.error);
          }
          if definition.steps != [] {
            error := ExecuteSteps(definition.steps, context.value);
            if error.Some? {
              return;
            }
          } else if definition.command == [] {
            error := Some(NoExecutable(name));
          } else {
            error := Start(Launch(name, Direct(definition.command[0], definition.command[1..] + arguments),
                                  context.value));
          }
      }
      assert stack[..|stack| - 1] == outer;
      stack := stack[..|stack| - 1];
    }

    method ExecuteSteps(steps: seq<string>, context: Context) returns (error: Option<ScriptError>)
      modifies this
      ensures Outcome(mode, old(launched), ExpandSteps(project, steps, context, old(stack)), launched, error)
      ensures error.None? ==> stack == old(stack)
      decreases Unvisited(project, stack), 2, 0
    {
      ghost var before, active := launched, stack;
      var i := 0;
      while i < |steps|
        invariant 0 <= i <= |steps| && stack == active
        invariant Outcome(mode, before, ExpandSteps(project, steps[..i], context, active), launched, None)
      {
        ghost var reached := launched;
        error := Execute(steps[i], [], context);
        NextStep(project, steps, context, active, i, mode, before, reached, launched, error);
        if error.Some? {
          return;
        }
        i := i + 1;
      }
      assert steps[..i] == steps;
      error := None;
    }

    method Start(launch: Launch) returns (error: Option<ScriptError>)
      modifies this`launched
      ensures Outcome(mode, old(launched), Plan([launch], None), launched, error)
    {
      launched := launched + [launch];
      assert [launch][..1] == [launch];
      error := if mode.DryRun? || mode.exits(|launched| - 1) then None else Some(ProcessFailed(launch.name));
    }
  }
}
