/** Construction-time validation of the step graph: a three-colour depth-first search. */
module CycleDetection {
  import opened Graph
  import opened PipelineSchema

  datatype DagError =
    | UnknownStep(step: StepId, dep: StepId)
    | Cycle(path: seq<StepId>)
  datatype Result<+T> = Ok(value: T) | Err(error: DagError)

  /** What the error says is true of the graph. */
  ghost predicate Justified(g: Deps, e: DagError) {
    match e
    case UnknownStep(s, d) => s in g && d in g[s] && d !in g
    case Cycle(p) => IsPath(g, p) && |p| >= 2 && p[0] == p[|p| - 1]
  }

  lemma JustifiedMeansIllFormed(g: Deps, e: DagError)
    requires Justified(g, e)
    ensures !(NoDangling(g) && Acyclic(g))
  {
    match e
    case UnknownStep(s, d) =>
    case Cycle(p) =>
      assert Edge(g, p, 0);
      assert IsPathBetween(g, p, p[0], p[0]);
  }

  datatype Colour = White | Grey | Black

  /** The depth-first search's closure state: colours, plus the order steps finished in. */
  class CycleCheck {
    const deps: Deps
    var colour: map<StepId, Colour>
    ghost var finished: seq<StepId>

    constructor (deps: Deps)
      ensures this.deps == deps && Valid([])
      ensures forall s :: s in deps ==> colour[s] == White
      ensures finished == []
    {
      this.deps := deps;
      this.colour := map s | s in deps :: White;
      this.finished := [];
    }

    ghost predicate Valid(stack: seq<StepId>)
      reads this
    {
      && colour.Keys == deps.Keys
      && (forall s :: s in deps ==> (colour[s] == Grey <==> s in stack))
      && (forall s :: s in deps ==> (colour[s] == Black <==> s in finished))
      && NoDuplicates(finished) && DepsFirst(deps, finished)
      && Elems(stack) <= deps.Keys
      && (stack != [] ==> IsPath(deps, stack))
    }

    ghost function Unvisited(): set<StepId>
      reads this
    {
      set s | s in deps && s in colour && colour[s] == White
    }

    method Enter(node: StepId, above: seq<StepId>) returns (stack: seq<StepId>)
      requires Valid(above) && node in deps && colour[node] == White
      requires above != [] ==> node in deps[above[|above| - 1]]
      modifies this`colour
      ensures stack == above + [node] && Valid(stack)
      ensures Unvisited() == old(Unvisited()) - {node}
    {
      colour := colour[node := Grey];
      stack := above + [node];
      StackExtends(above, node);
    }

    method Leave(node: StepId, above: seq<StepId>)
      requires Valid(above + [node]) && node in deps && node !in above && deps[node] <= Elems(finished)
      modifies this
      ensures Valid(above) && finished == old(finished) + [node]
      ensures Unvisited() == old(Unvisited())
    {
      assert node in above + [node];
      if above != [] {
        StackShrinks(above, node);
      }
      FinishLast(node);
      colour := colour[node := Black];
      finished := finished + [node];
    }

    /** `Ok` when the subtree under `node` is clean; otherwise the first error met. */
    method Visit(node: StepId, above: seq<StepId>) returns (error: Result<()>)
      requires Valid(above) && node in deps && colour[node] == White
      requires above != [] ==> node in deps[above[|above| - 1]]
      modifies this
      ensures error.Err? ==> Justified(deps, error.error)
      ensures error.Ok? ==> Valid(above) && node in finished
      ensures error.Ok? ==> Elems(old(finished)) <= Elems(finished)
      ensures error.Ok? ==> Unvisited() <= old(Unvisited())
      decreases Unvisited()
    {
      assert node !in above;
      var stack := Enter(node, above);
      var todo := deps[node];
      ghost var settled := {};
      while todo != {}
        invariant Valid(stack)
        invariant Elems(old(finished)) <= Elems(finished)
        invariant Unvisited() <= old(Unvisited()) - {node}
        invariant deps[node] == todo + settled && settled <= Elems(finished)
        decreases todo
      {
        var dep :| dep in todo;
        todo := todo - {dep};
        if dep !in colour {
          return Err(UnknownStep(node, dep));
        }
        if colour[dep] == Grey {
          ClosesCycle(stack, dep);
          return Err(Cycle(stack[IndexOf(stack, dep)..] + [dep]));
        }
        if colour[dep] == White {
          var below := Visit(dep, stack);
          if below.Err? {
            return below;
          }
        }
        settled := settled + {dep};
      }
      Leave(node, above);
      return Ok(());
    }

    lemma StackShrinks(above: seq<StepId>, node: StepId)
      requires above != [] && IsPath(deps, above + [node])
      ensures IsPath(deps, above)
    {
      var p := above + [node];
      forall i | 0 <= i < |above| - 1 ensures Edge(deps, above, i) {
        assert Edge(deps, p, i);
      }
    }

    lemma StackExtends(above: seq<StepId>, node: StepId)
      requires above != [] ==> IsPath(deps, above) && above[|above| - 1] in deps && node in deps[above[|above| - 1]]
      ensures IsPath(deps, above + [node])
    {
      var p := above + [node];
      forall i | 0 <= i < |p| - 1 ensures Edge(deps, p, i) {
        if i < |above| - 1 {
          assert Edge(deps, above, i);
        }
      }
    }

    lemma ClosesCycle(stack: seq<StepId>, dep: StepId)
      requires stack != [] && IsPath(deps, stack) && dep in stack
      requires stack[|stack| - 1] in deps && dep in deps[stack[|stack| - 1]]
      ensures Justified(deps, Cycle(stack[IndexOf(stack, dep)..] + [dep]))
    {
      var k := IndexOf(stack, dep);
      var tail := stack[k..];
      forall i | 0 <= i < |tail| - 1 ensures Edge(deps, tail, i) {
        assert Edge(deps, stack, k + i);
      }
      StackExtends(tail, dep);
    }

    lemma FinishLast(node: StepId)
      requires NoDuplicates(finished) && DepsFirst(deps, finished)
      requires node in deps && node !in finished && deps[node] <= Elems(finished)
      ensures NoDuplicates(finished + [node]) && DepsFirst(deps, finished + [node])
    {
      var f := finished + [node];
      forall i | 0 <= i < |f| ensures DepsBefore(deps, f, i) {
        if i < |finished| {
          assert DepsBefore(deps, finished, i);
          assert f[..i] == finished[..i];
        } else {
          assert f[..i] == finished;
        }
      }
    }
  }

  /** The whole check: it passes exactly on graphs with no dangling name and no cycle. */
  method ValidateNoCycles(steps: seq<Step>, deps: Deps) returns (r: Result<()>, ghost order: seq<StepId>)
    requires DepsOfSteps(steps, deps)
    ensures r.Ok? <==> NoDangling(deps) && Acyclic(deps)
    ensures r.Err? ==> Justified(deps, r.error)
    ensures r.Ok? ==> IsTopologicalOrder(deps, order)
  {
    var check := new CycleCheck(deps);
    order := [];
    var i := 0;
    while i < |steps|
      invariant 0 <= i <= |steps|
      invariant check.deps == deps && check.Valid([])
      invariant Elems(Ids(steps)[..i]) <= Elems(check.finished)
    {
      assert steps[i].id in deps;
      if check.colour[steps[i].id] == White {
        r := check.Visit(steps[i].id, []);
        if r.Err? {
          JustifiedMeansIllFormed(deps, r.error);
          return;
        }
      }
      ElemsPrefix(Ids(steps), i);
      i := i + 1;
    }
    assert Ids(steps)[..i] == Ids(steps);
    order := check.finished;
    assert Elems(order) == deps.Keys by {
      forall s | s in order ensures s in deps {
        var k :| 0 <= k < |order| && order[k] == s;
        assert DepsBefore(deps, order, k);
      }
    }
    OrderedMeansAcyclic(deps, order);
    r := Ok(());
  }
}
