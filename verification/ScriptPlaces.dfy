/** The plan of a script, read off the script table. A place in the tree of steps is a list of step
    positions; the launches of a plan are the leaves of that tree in left-to-right order, up to the
    first place where something is wrong. */
module ScriptPlaces {
  import opened Wrappers
  import opened Scripts
  import Digraph

  type Place = seq<nat>

  /** What stands at a place: nothing, a composed script, a script that is launched, or an error. */
  datatype Spot = Nowhere | Inner | Leaf(launch: Launch) | Bad(error: ScriptError)

  /** The scripts met on the way to a place, from the script asked for. */
  function PathTo(project: Project, name: string, place: Place): (path: Option<seq<string>>)
    ensures path.Some? ==> |path.value| == |place| + 1 && path.value[0] == name
    decreases |place|
  {
    if place == [] then Some([name])
    else if name in project.scripts && Composed(project.scripts[name])
            && place[0] < |project.scripts[name].definition.steps| then
      var rest := PathTo(project, project.scripts[name].definition.steps[place[0]], place[1..]);
      if rest.None? then None else Some([name] + rest.value)
    else None
  }

  /** What is wrong at the end of a path, if anything is. */
  function Trouble(project: Project, path: seq<string>, arguments: seq<string>, inherited: Context, stack: seq<string>)
    : Option<ScriptError>
    requires path != []
  {
    var name, active := path[|path| - 1], stack + path[..|path| - 1];
    if name in active then Some(CycleDetected(active[Position(active, name)..] + [name]))
    else if name !in project.scripts then Some(Undefined(name))
    else if Composed(project.scripts[name]) && |path| == 1 && arguments != [] then Some(UnexpectedArguments(name))
    else
      var context := ContextAlong(project, path, inherited);
      if context.Failure? then Some(context.error)
      else if !Composed(project.scripts[name]) && LeafInvocation(project, name, arguments).None? then
        Some(NoExecutable(name))
      else None
  }

  function SpotAt(project: Project, name: string, arguments: seq<string>, inherited: Context, stack: seq<string>,
                  place: Place): Spot
  {
    var to := PathTo(project, name, place);
    if to.None? then Nowhere
    else
      var path, given := to.value, if place == [] then arguments else [];
      var trouble := Trouble(project, path, given, inherited, stack);
      if trouble.Some? then Bad(trouble.value)
      else
        var last := path[|path| - 1];
        var invocation := LeafInvocation(project, last, given);
        if invocation.None? then Inner
        else Leaf(Launch(last, invocation.value, ContextAlong(project, path, inherited).value))
  }

  function Spots(project: Project, name: string, arguments: seq<string>, inherited: Context, stack: seq<string>)
    : Place -> Spot
  {
    place => SpotAt(project, name, arguments, inherited, stack, place)
  }

  /** Left-to-right order; a script comes before what lies beneath it. */
  predicate Before(a: Place, b: Place)
    decreases |b|
  {
    b != [] && (a == [] || a[0] < b[0] || (a[0] == b[0] && Before(a[1..], b[1..])))
  }

  predicate Earlier(place: Place, limit: Option<Place>) {
    limit.Some? ==> Before(place, limit.value)
  }

  /** The plan launches the leaves in order, each once and none left out, up to the limit; the limit is
      the first place where something is wrong. */
  ghost predicate Covers(spot: Place -> Spot, places: seq<Place>, limit: Option<Place>, plan: Plan) {
    && |places| == |plan.launches|
    && (forall i :: 0 <= i < |places| ==> spot(places[i]) == Leaf(plan.launches[i]) && Earlier(places[i], limit))
    && (forall i, j :: 0 <= i < j < |places| ==> Before(places[i], places[j]))
    && (forall p :: spot(p).Leaf? && Earlier(p, limit) ==> p in places)
    && (forall p :: spot(p).Bad? ==> !Earlier(p, limit))
    && (limit.None? ==> plan.error.None?)
    && (limit.Some? ==> plan.error.Some? && spot(limit.value) == Bad(plan.error.value))
  }

  // ------------------------------------------------------------------ the steps of a script

  /** The places beneath the first `n` steps. */
  function StepSpots(project: Project, steps: seq<string>, n: nat, context: Context, stack: seq<string>): Place -> Spot
    requires n <= |steps|
  {
    place =>
      if place != [] && place[0] < n then SpotAt(project, steps[place[0]], [], context, stack, place[1..])
      else Nowhere
  }

  function Under(k: nat, places: seq<Place>): seq<Place> {
    seq(|places|, i requires 0 <= i < |places| => [k] + places[i])
  }

  function LimitUnder(k: nat, limit: Option<Place>): Option<Place> {
    if limit.None? then None else Some([k] + limit.value)
  }

  lemma UnderBefore(k: nat, a: Place, b: Place)
    ensures Before([k] + a, [k] + b) <==> Before(a, b)
  {
    assert ([k] + a)[1..] == a && ([k] + b)[1..] == b;
  }

  /** After steps without an error come the places beneath the next step. */
  lemma NextStepCovers(n: nat, front: Place -> Spot, places: seq<Place>, plan: Plan,
                       last: Place -> Spot, places': seq<Place>, limit: Option<Place>, plan': Plan, spot: Place -> Spot)
    requires Covers(front, places, None, plan) && Covers(last, places', limit, plan')
    requires forall p :: !front(p).Nowhere? ==> p != [] && p[0] < n
    requires forall p :: spot(p) == if p != [] && p[0] == n then last(p[1..]) else front(p)
    ensures Covers(spot, places + Under(n, places'), LimitUnder(n, limit), Scripts.Then(plan, plan'))
  {
    var all, end, joined := places + Under(n, places'), LimitUnder(n, limit), Scripts.Then(plan, plan');
    assert joined.launches == plan.launches + plan'.launches;
    forall i | 0 <= i < |all|
      ensures spot(all[i]) == Leaf(joined.launches[i]) && Earlier(all[i], end)
    {
      if i < |places| {
        assert front(places[i]).Leaf?;
      } else {
        var p := places'[i - |places|];
        assert last(p).Leaf? && all[i] == [n] + p && all[i][1..] == p;
        if limit.Some? {
          UnderBefore(n, p, limit.value);
        }
      }
    }
    forall i, j | 0 <= i < j < |all|
      ensures Before(all[i], all[j])
    {
      if j < |places| {
        assert Before(places[i], places[j]);
      } else if i < |places| {
        assert front(places[i]).Leaf?;
      } else {
        UnderBefore(n, places'[i - |places|], places'[j - |places|]);
      }
    }
    NoneLeftOut(n, front, places, last, places', limit, spot);
    if limit.Some? {
      assert ([n] + limit.value)[1..] == limit.value;
    }
  }

  lemma NoneLeftOut(n: nat, front: Place -> Spot, places: seq<Place>, last: Place -> Spot, places': seq<Place>,
                    limit: Option<Place>, spot: Place -> Spot)
    requires forall p :: front(p).Leaf? ==> p in places
    requires forall p :: !front(p).Bad?
    requires forall p :: last(p).Leaf? && Earlier(p, limit) ==> p in places'
    requires forall p :: last(p).Bad? ==> !Earlier(p, limit)
    requires forall p :: spot(p) == if p != [] && p[0] == n then last(p[1..]) else front(p)
    ensures forall p :: spot(p).Leaf? && Earlier(p, LimitUnder(n, limit)) ==> p in places + Under(n, places')
    ensures forall p :: spot(p).Bad? ==> !Earlier(p, LimitUnder(n, limit))
  {
    forall p | spot(p).Leaf? || spot(p).Bad?
      ensures spot(p).Leaf? && Earlier(p, LimitUnder(n, limit)) ==> p in places + Under(n, places')
      ensures spot(p).Bad? ==> !Earlier(p, LimitUnder(n, limit))
    {
      if p != [] && p[0] == n {
        var rest := p[1..];
        assert p == [n] + rest;
        if limit.Some? {
          UnderBefore(n, rest, limit.value);
        }
        if last(rest).Leaf? && Earlier(rest, limit) {
          var i :| 0 <= i < |places'| && places'[i] == rest;
          assert Under(n, places')[i] == p;
        }
      } else {
        assert front(p) == spot(p);
      }
    }
  }

  /** An error ends the steps: what lies beneath later ones does not count. */
  lemma CoversAlike(spot: Place -> Spot, other: Place -> Spot, places: seq<Place>, limit: Option<Place>, plan: Plan)
    requires Covers(spot, places, limit, plan)
    requires forall p :: Earlier(p, limit) || limit == Some(p) ==> other(p) == spot(p)
    ensures Covers(other, places, limit, plan)
  {
  }

  // ------------------------------------------------------------------ the plan

  /** Beneath a composed script a place is where its step has it. */
  lemma SpotBelow(project: Project, name: string, context: Context, inherited: Context, stack: seq<string>,
                  place: Place)
    requires name in project.scripts && Composed(project.scripts[name]) && name !in stack
    requires ContextAlong(project, [name], inherited) == Success(context)
    requires place != []
    ensures var steps := project.scripts[name].definition.steps;
            SpotAt(project, name, [], inherited, stack, place)
            == StepSpots(project, steps, |steps|, context, stack + [name])(place)
  {
    var steps := project.scripts[name].definition.steps;
    if place[0] < |steps| {
      var to := PathTo(project, steps[place[0]], place[1..]);
      if to.Some? {
        TroubleBelow(project, name, to.value, context, inherited, stack);
      }
    }
  }

  lemma TroubleBelow(project: Project, name: string, path: seq<string>, context: Context, inherited: Context,
                     stack: seq<string>)
    requires path != [] && ContextAlong(project, [name], inherited) == Success(context)
    ensures ContextAlong(project, [name] + path, inherited) == ContextAlong(project, path, context)
    ensures Trouble(project, [name] + path, [], inherited, stack) == Trouble(project, path, [], context, stack + [name])
  {
    ContextFromFront(project, name, path, inherited);
    var longer := [name] + path;
    assert longer[..|longer| - 1] == [name] + path[..|path| - 1];
    assert stack + longer[..|longer| - 1] == stack + [name] + path[..|path| - 1];
  }

  /** The plan of a script is its leaves from left to right, up to the first place with an error. */
  lemma {:induction false} PlanIsLeaves(project: Project, name: string, arguments: seq<string>, inherited: Context,
                                        stack: seq<string>) returns (places: seq<Place>, limit: Option<Place>)
    ensures Covers(Spots(project, name, arguments, inherited, stack), places, limit,
                   Expand(project, name, arguments, inherited, stack))
    decreases Unvisited(project, stack), 1, 0
  {
    var root := SpotAt(project, name, arguments, inherited, stack, []);
    RootSpot(project, name, arguments, inherited, stack);
    if root.Inner? {
      UnvisitedShrinks(project, stack, name);
      var steps := project.scripts[name].definition.steps;
      var context := ContextAlong(project, [name], inherited).value;
      places, limit := StepPlaces(project, steps, |steps|, context, stack + [name]);
      assert steps[..|steps|] == steps;
      StepsCover(project, name, context, inherited, stack, places, limit);
    } else {
      places, limit := AloneCovers(project, name, arguments, inherited, stack);
    }
  }

  /** What stands at the root decides how the plan begins. */
  lemma RootSpot(project: Project, name: string, arguments: seq<string>, inherited: Context, stack: seq<string>)
    ensures var plan := Expand(project, name, arguments, inherited, stack);
            var root := SpotAt(project, name, arguments, inherited, stack, []);
            && (root.Bad? ==> plan == Failed(root.error))
            && (root.Leaf? ==> plan == Plan([root.launch], None))
            && !root.Nowhere?
            && (root.Inner? ==>
                  && name !in stack && name in project.scripts && Composed(project.scripts[name]) && arguments == []
                  && ContextAlong(project, [name], inherited).Success?
                  && plan == ExpandSteps(project, project.scripts[name].definition.steps,
                                         ContextAlong(project, [name], inherited).value, stack + [name]))
  {
    assert PathTo(project, name, []) == Some([name]);
    assert [name][..0] == [] && stack + [] == stack;
    if name !in stack && name in project.scripts {
      UnvisitedShrinks(project, stack, name);
      EntersContext(project, name, inherited);
    }
  }

  lemma AloneCovers(project: Project, name: string, arguments: seq<string>, inherited: Context, stack: seq<string>)
    returns (places: seq<Place>, limit: Option<Place>)
    requires !SpotAt(project, name, arguments, inherited, stack, []).Inner?
    ensures Covers(Spots(project, name, arguments, inherited, stack), places, limit,
                   Expand(project, name, arguments, inherited, stack))
  {
    var root := SpotAt(project, name, arguments, inherited, stack, []);
    RootSpot(project, name, arguments, inherited, stack);
    if root.Leaf? {
      places, limit := [[]], None;
      NothingBelow(project, name, arguments, inherited, stack);
    } else {
      places, limit := [], Some([]);
    }
  }

  lemma NothingBelow(project: Project, name: string, arguments: seq<string>, inherited: Context, stack: seq<string>)
    requires SpotAt(project, name, arguments, inherited, stack, []).Leaf?
    ensures forall p :: p != [] ==> SpotAt(project, name, arguments, inherited, stack, p).Nowhere?
  {
    assert PathTo(project, name, []) == Some([name]);
  }

  lemma StepsCover(project: Project, name: string, context: Context, inherited: Context, stack: seq<string>,
                   places: seq<Place>, limit: Option<Place>)
    requires SpotAt(project, name, [], inherited, stack, []).Inner?
    requires name in project.scripts && Composed(project.scripts[name]) && name !in stack
    requires ContextAlong(project, [name], inherited) == Success(context)
    requires var steps := project.scripts[name].definition.steps;
             Covers(StepSpots(project, steps, |steps|, context, stack + [name]), places, limit,
                    Expand(project, name, [], inherited, stack))
    ensures Covers(Spots(project, name, [], inherited, stack), places, limit,
                   Expand(project, name, [], inherited, stack))
  {
    var steps := project.scripts[name].definition.steps;
    var below, spot := StepSpots(project, steps, |steps|, context, stack + [name]),
                       Spots(project, name, [], inherited, stack);
    forall p: Place | p != []
      ensures spot(p) == below(p)
    {
      SpotBelow(project, name, context, inherited, stack, p);
    }
    SameBelow(below, spot, places, limit, Expand(project, name, [], inherited, stack));
  }

  lemma SameBelow(below: Place -> Spot, spot: Place -> Spot, places: seq<Place>, limit: Option<Place>, plan: Plan)
    requires Covers(below, places, limit, plan)
    requires below([]).Nowhere? && spot([]).Inner?
    requires forall p :: p != [] ==> spot(p) == below(p)
    ensures Covers(spot, places, limit, plan)
  {
    forall i | 0 <= i < |places|
      ensures spot(places[i]) == Leaf(plan.launches[i])
    {
      assert below(places[i]).Leaf?;
    }
    if limit.Some? {
      assert below(limit.value).Bad?;
    }
  }

  lemma {:induction false} StepPlaces(project: Project, steps: seq<string>, n: nat, context: Context,
                                      stack: seq<string>) returns (places: seq<Place>, limit: Option<Place>)
    requires n <= |steps|
    ensures Covers(StepSpots(project, steps, n, context, stack), places, limit,
                   ExpandSteps(project, steps[..n], context, stack))
    decreases Unvisited(project, stack), 2, n
  {
    var spot := StepSpots(project, steps, n, context, stack);
    if n == 0 {
      places, limit := [], None;
    } else {
      var step := steps[n - 1];
      assert steps[..n][..n - 1] == steps[..n - 1];
      places, limit := StepPlaces(project, steps, n - 1, context, stack);
      var front := StepSpots(project, steps, n - 1, context, stack);
      if limit.Some? {
        CoversAlike(front, spot, places, limit, ExpandSteps(project, steps[..n - 1], context, stack));
      } else {
        var others, end := PlanIsLeaves(project, step, [], context, stack);
        NextStepCovers(n - 1, front, places, ExpandSteps(project, steps[..n - 1], context, stack),
                       Spots(project, step, [], context, stack), others, end,
                       Expand(project, step, [], context, stack), spot);
        places, limit := places + Under(n - 1, others), LimitUnder(n - 1, end);
      }
    }
  }

  // ------------------------------------------------------------------ no walk is left out

  /** Every walk of step edges leads to a place. */
  lemma {:induction false} WalkHasPlace(project: Project, walk: seq<string>) returns (place: Place)
    requires Digraph.Walk(StepGraph(project), walk)
    ensures PathTo(project, walk[0], place) == Some(walk)
    decreases |walk|
  {
    if |walk| == 1 {
      place := [];
      assert walk == [walk[0]];
    } else {
      assert Digraph.Edge(StepGraph(project), walk[0], walk[1]);
      var steps := project.scripts[walk[0]].definition.steps;
      var k :| 0 <= k < |steps| && steps[k] == walk[1];
      forall i | 0 <= i < |walk| - 2
        ensures Digraph.Edge(StepGraph(project), walk[1..][i], walk[1..][i + 1])
      {
        assert Digraph.Edge(StepGraph(project), walk[i + 1], walk[i + 2]);
      }
      var rest := WalkHasPlace(project, walk[1..]);
      place := [k] + rest;
      assert place[1..] == rest && walk == [walk[0]] + walk[1..];
    }
  }

  /** What a script without steps starts. */
  function Started(script: Script, arguments: seq<string>): Invocation
    requires script.Structured? ==> script.definition.command != []
  {
    match script
    case Shell(source) => ViaShell(source, arguments)
    case Structured(definition) => Direct(definition.command[0], definition.command[1..] + arguments)
  }

  /** When the plan has no error, every walk of step edges to a script without steps is launched: that
      script's shell text or command, in the context of the walk; only the script asked for gets the
      arguments. */
  lemma EveryWalkIsLaunched(project: Project, arguments: seq<string>, inherited: Context, walk: seq<string>)
    requires Digraph.Walk(StepGraph(project), walk)
    requires Expand(project, walk[0], arguments, inherited, []).error.None?
    requires walk[|walk| - 1] in project.scripts && !Composed(project.scripts[walk[|walk| - 1]])
    ensures var last := walk[|walk| - 1];
            && (project.scripts[last].Structured? ==> project.scripts[last].definition.command != [])
            && ContextAlong(project, walk, inherited).Success?
            && Launch(last, Started(project.scripts[last], if |walk| == 1 then arguments else []),
                      ContextAlong(project, walk, inherited).value)
               in Expand(project, walk[0], arguments, inherited, []).launches
  {
    var plan := Expand(project, walk[0], arguments, inherited, []);
    var places, limit := PlanIsLeaves(project, walk[0], arguments, inherited, []);
    var place := WalkHasPlace(project, walk);
    var spot := Spots(project, walk[0], arguments, inherited, []);
    assert spot(place) == SpotAt(project, walk[0], arguments, inherited, [], place);
    assert !spot(place).Bad?;
    var i :| 0 <= i < |places| && places[i] == place;
    assert plan.launches[i] in plan.launches;
  }
}
