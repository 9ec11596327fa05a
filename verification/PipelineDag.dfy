/** The step DAG of a validated pipeline: which steps are ready, and what lies downstream. */
module PipelineDag {
  import opened Graph
  import opened PipelineSchema
  import opened CycleDetection
  import opened TopologicalSort

  /** The steps of `order` that are unresolved and whose direct dependencies all are resolved. */
  function ReadyIn(g: Deps, order: seq<StepId>, resolved: set<StepId>): seq<StepId>
    requires Elems(order) <= g.Keys
  {
    if order == [] then []
    else
      var last := order[|order| - 1];
      assert last in Elems(order) && Elems(order[..|order| - 1]) <= Elems(order);
      ReadyIn(g, order[..|order| - 1], resolved) +
        (if last !in resolved && g[last] <= resolved then [last] else [])
  }

  lemma {:induction false} ReadyInMembers(g: Deps, order: seq<StepId>, resolved: set<StepId>)
    requires Elems(order) <= g.Keys && NoDuplicates(order)
    ensures Elems(ReadyIn(g, order, resolved)) == Frontier(g, resolved) * Elems(order)
    ensures NoDuplicates(ReadyIn(g, order, resolved))
  {
    if order != [] {
      var n := |order| - 1;
      assert order == order[..n] + [order[n]];
      ElemsAppend(order[..n], order[n]);
      PrefixGrows(order, n);
      ReadyInMembers(g, order[..n], resolved);
      var last := if order[n] !in resolved && g[order[n]] <= resolved then [order[n]] else [];
      ElemsConcat(ReadyIn(g, order[..n], resolved), last);
      assert order[n] !in Elems(ReadyIn(g, order[..n], resolved));
    }
  }

  /** `some` lists steps of `order` in the order in which `order` has them. */
  ghost predicate InOrderOf(order: seq<StepId>, some: seq<StepId>) {
    forall i, j, a, b :: 0 <= i < j < |some| && 0 <= a < |order| && 0 <= b < |order| ==>
      order[a] == some[i] && order[b] == some[j] ==> a < b
  }

  lemma {:induction false} ReadyInOrder(g: Deps, order: seq<StepId>, resolved: set<StepId>)
    requires Elems(order) <= g.Keys && NoDuplicates(order)
    ensures InOrderOf(order, ReadyIn(g, order, resolved))
  {
    if order != [] {
      var n := |order| - 1;
      PrefixGrows(order, n);
      ReadyInOrder(g, order[..n], resolved);
      ReadyInMembers(g, order[..n], resolved);
      var ready := ReadyIn(g, order[..n], resolved);
      LastComesLast(order, n, ready, order[n] !in resolved && g[order[n]] <= resolved);
    }
  }

  lemma LastComesLast(order: seq<StepId>, n: nat, some: seq<StepId>, taken: bool)
    requires |order| == n + 1 && NoDuplicates(order) && InOrderOf(order[..n], some)
    requires Elems(some) <= Elems(order[..n])
    ensures InOrderOf(order, some + if taken then [order[n]] else [])
  {
    var all := some + if taken then [order[n]] else [];
    forall i, j, a, b | 0 <= i < j < |all| && 0 <= a < |order| && 0 <= b < |order|
                        && order[a] == all[i] && order[b] == all[j]
      ensures a < b
    {
      assert all[i] in Elems(some);
      var c :| 0 <= c < n && order[..n][c] == all[i];
      assert order[c] == order[a];
      if j < |some| {
        assert all[j] in Elems(some);
        var d :| 0 <= d < n && order[..n][d] == all[j];
        assert order[d] == order[b] && order[..n][a] == some[i] && order[..n][b] == some[j];
      }
    }
  }

  /** For every step, the steps that name it in `depends_on`, in declaration order. */
  method ReverseEdges(ids: seq<StepId>, deps: Deps) returns (dependents: map<StepId, seq<StepId>>)
    requires NoDuplicates(ids) && Elems(ids) == deps.Keys && NoDangling(deps)
    ensures Reverses(deps, dependents)
  {
    dependents := map s | s in deps :: [];
    for i := 0 to |ids|
      invariant ReversedUpTo(deps, dependents, Elems(ids[..i]))
    {
      PrefixGrows(ids, i);
      assert ids[i] in Elems(ids);
      dependents := AddEdgesOf(deps, dependents, ids[i], Elems(ids[..i]));
    }
    assert ids[..|ids|] == ids;
  }

  ghost predicate ReversedUpTo(g: Deps, dependents: map<StepId, seq<StepId>>, done: set<StepId>) {
    && dependents.Keys == g.Keys
    && forall d :: d in dependents ==>
         NoDuplicates(dependents[d]) && forall s :: s in dependents[d] <==> s in done && s in g && d in g[s]
  }

  ghost predicate AddingEdges(
      g: Deps, before: map<StepId, seq<StepId>>, now: map<StepId, seq<StepId>>, s: StepId, todo: set<StepId>)
    requires s in g
  {
    && now.Keys == before.Keys
    && forall d :: d in before ==> now[d] == before[d] + (if d in g[s] - todo then [s] else [])
  }

  method AddEdgesOf(deps: Deps, before: map<StepId, seq<StepId>>, s: StepId, ghost done: set<StepId>)
    returns (dependents: map<StepId, seq<StepId>>)
    requires NoDangling(deps) && s in deps && s !in done && ReversedUpTo(deps, before, done)
    ensures ReversedUpTo(deps, dependents, done + {s})
  {
    dependents := before;
    var todo := deps[s];
    while todo != {}
      invariant todo <= deps[s] && AddingEdges(deps, before, dependents, s, todo)
      decreases todo
    {
      var dep :| dep in todo;
      todo := todo - {dep};
      dependents := dependents[dep := dependents[dep] + [s]];
    }
    forall d | d in dependents
      ensures NoDuplicates(dependents[d])
      ensures forall t :: t in dependents[d] <==> t in done + {s} && t in deps && d in deps[t]
    {
      assert s !in before[d];
    }
  }

  class PipelineDAG {
    const steps: seq<Step>
    const stepsById: map<StepId, Step>
    const deps: Deps
    const topologicalOrder: seq<StepId>

    ghost predicate Valid() {
      && UniqueIds(steps) && DepsOfSteps(steps, deps)
      && IsTopologicalOrder(deps, topologicalOrder)
      && stepsById.Keys == deps.Keys
      && forall s :: s in stepsById ==> stepsById[s] in steps && stepsById[s].id == s
    }

    constructor Validated(
        steps: seq<Step>, stepsById: map<StepId, Step>, deps: Deps, order: seq<StepId>)
      ensures this.steps == steps && this.stepsById == stepsById
      ensures this.deps == deps && topologicalOrder == order
    {
      this.steps := steps;
      this.stepsById := stepsById;
      this.deps := deps;
      this.topologicalOrder := order;
    }

    /** All unresolved steps whose dependencies have resolved, in topological order. */
    method ReadySteps(completed: set<StepId>, failed: set<StepId>, skipped: set<StepId>)
      returns (ready: seq<StepId>)
      requires Valid()
      ensures ready == ReadyIn(deps, topologicalOrder, completed + failed + skipped)
      ensures var resolved := completed + failed + skipped;
        forall s :: s in ready <==> s in deps && s !in resolved && deps[s] <= resolved
      ensures NoDuplicates(ready) && InOrderOf(topologicalOrder, ready)
    {
      var resolved := completed + failed + skipped;
      ready := [];
      for i := 0 to |topologicalOrder|
        invariant Elems(topologicalOrder[..i]) <= deps.Keys
        invariant ready == ReadyIn(deps, topologicalOrder[..i], resolved)
      {
        var stepId := topologicalOrder[i];
        assert stepId in Elems(topologicalOrder);
        assert topologicalOrder[..i + 1][..i] == topologicalOrder[..i];
        if stepId !in resolved && deps[stepId] <= resolved {
          ready := ready + [stepId];
        }
      }
      assert topologicalOrder[..|topologicalOrder|] == topologicalOrder;
      ReadyInMembers(deps, topologicalOrder, resolved);
      ReadyInOrder(deps, topologicalOrder, resolved);
      assert forall s :: s in ready <==> s in Elems(ready);
    }

    /** The worklist computes exactly the steps that depend on `stepId`, however indirectly. */
    method DownstreamOf(stepId: StepId) returns (result: set<StepId>)
      requires Valid() && stepId in deps
      ensures result == Dependents(deps, stepId) && stepId !in result
    {
      OrderedMeansAcyclic(deps, topologicalOrder);
      IdsAreDistinct(steps);
      result := CollectDependents(Ids(steps), deps, stepId);
    }
  }

  /** Everything found depends on `root`, and whatever is missing is still behind the frontier. */
  ghost predicate Exploring(g: Deps, root: StepId, found: set<StepId>, frontier: set<StepId>) {
    && found <= Dependents(g, root)
    && frontier <= Dependents(g, root)
    && (forall s :: s in g && root in g[s] ==> s in found + frontier)
    && (forall s, d :: s in g && d in found && d in g[s] ==> s in found + frontier)
  }

  lemma StartExploring(g: Deps, root: StepId, dependents: map<StepId, seq<StepId>>)
    requires Reverses(g, dependents) && root in g
    ensures Exploring(g, root, {}, Elems(dependents[root]))
  {
    forall s | s in g && root in g[s] ensures DependsOn(g, s, root) {
      DirectDependency(g, s, root);
    }
  }

  lemma ExploreOne(
      g: Deps, root: StepId, found: set<StepId>, frontier: set<StepId>, node: StepId,
      dependents: map<StepId, seq<StepId>>)
    requires Exploring(g, root, found, frontier + {node}) && Reverses(g, dependents)
    ensures node in g && node in dependents
    ensures node in found ==> Exploring(g, root, found, frontier)
    ensures Exploring(g, root, found + {node}, frontier + Elems(dependents[node]))
  {
    assert node in frontier + {node};
    forall s | s in Elems(dependents[node]) ensures s in Dependents(g, root) {
      DependsThrough(g, s, node, root);
    }
  }

  /** One turn of the worklist: pop the last entry and, if it is new, push its dependents. */
  method ExploreNext(
      ghost g: Deps, ghost root: StepId, found: set<StepId>, frontier: seq<StepId>,
      dependents: map<StepId, seq<StepId>>)
    returns (found': set<StepId>, frontier': seq<StepId>)
    requires frontier != [] && Exploring(g, root, found, Elems(frontier)) && Reverses(g, dependents)
    ensures Exploring(g, root, found', Elems(frontier'))
    ensures (found' == found && |frontier'| < |frontier|) || g.Keys - found' < g.Keys - found
  {
    var node, rest := frontier[|frontier| - 1], frontier[..|frontier| - 1];
    assert frontier == rest + [node];
    ElemsAppend(rest, node);
    ExploreOne(g, root, found, Elems(rest), node, dependents);
    found', frontier' := found, rest;
    if node !in found {
      ElemsConcat(rest, dependents[node]);
      found', frontier' := found + {node}, rest + dependents[node];
      assert node in g.Keys - found;
    }
  }

  lemma ExploredAll(g: Deps, root: StepId, found: set<StepId>)
    requires Exploring(g, root, found, {}) && Acyclic(g) && root in g
    ensures found == Dependents(g, root) && root !in found
  {
    forall s | s in Dependents(g, root) ensures s in found {
      var p :| IsPathBetween(g, p, s, root);
      FoundAlong(g, root, found, p);
    }
  }

  lemma FoundAlong(g: Deps, root: StepId, found: set<StepId>, p: seq<StepId>)
    requires Exploring(g, root, found, {}) && IsPath(g, p) && |p| >= 2 && p[|p| - 1] == root
    ensures p[0] in found
    decreases |p|
  {
    assert Edge(g, p, 0);
    if |p| > 2 {
      PathTail(g, p);
      FoundAlong(g, root, found, p[1..]);
    }
  }

  method CollectDependents(ids: seq<StepId>, deps: Deps, stepId: StepId) returns (result: set<StepId>)
    requires NoDuplicates(ids) && Elems(ids) == deps.Keys && stepId in deps
    requires NoDangling(deps) && Acyclic(deps)
    ensures result == Dependents(deps, stepId) && stepId !in result
  {
    var dependents := ReverseEdges(ids, deps);
    result := {};
    var frontier := dependents[stepId];
    StartExploring(deps, stepId, dependents);
    while frontier != []
      invariant Exploring(deps, stepId, result, Elems(frontier))
      decreases deps.Keys - result, |frontier|
    {
      result, frontier := ExploreNext(deps, stepId, result, frontier, dependents);
    }
    ExploredAll(deps, stepId, result);
  }

  lemma IdsAreDistinct(steps: seq<Step>)
    requires UniqueIds(steps)
    ensures NoDuplicates(Ids(steps))
  {
  }

  /** The graph of a pipeline, or the reason it has none. */
  method Create(steps: seq<Step>) returns (r: Result<PipelineDAG>)
    requires UniqueIds(steps)
    ensures r.Ok? ==> r.value.Valid() && r.value.steps == steps
    ensures r.Ok? ==> IsDeclarationLeast(r.value.deps, steps, r.value.topologicalOrder)
    ensures r.Ok? <==> NoDangling(DepsFrom(steps)) && Acyclic(DepsFrom(steps))
    ensures r.Err? ==> Justified(DepsFrom(steps), r.error)
  {
    var deps := DepsFrom(steps);
    var valid, known := ValidateNoCycles(steps, deps);
    if valid.Err? {
      return Err(valid.error);
    }
    IdsAreDistinct(steps);
    OrderedMeansAcyclic(deps, known);
    var ids := Ids(steps);
    var index := DeclarationIndex(steps);
    var dependents := ReverseEdges(ids, deps);
    var order := ComputeTopologicalOrder(ids, deps, index, dependents, known);
    var dag := new PipelineDAG.Validated(steps, StepsById(steps), deps, order);
    return Ok(dag);
  }

  /** The `_deps` dictionary of the constructor: one set of ids per step. */
  function DepsFrom(steps: seq<Step>): (g: Deps)
    requires UniqueIds(steps)
    ensures DepsOfSteps(steps, g)
  {
    var byId := StepsById(steps);
    map s | s in byId :: Elems(byId[s].dependsOn)
  }

  function StepsById(steps: seq<Step>): (byId: map<StepId, Step>)
    requires UniqueIds(steps)
    ensures byId.Keys == Elems(Ids(steps))
    ensures forall s :: s in byId ==> byId[s] in steps && byId[s].id == s
    ensures forall i :: 0 <= i < |steps| ==> steps[i].id in byId && byId[steps[i].id] == steps[i]
  {
    map s | s in Elems(Ids(steps)) :: steps[IndexOf(Ids(steps), s)]
  }

  function DeclarationIndex(steps: seq<Step>): (index: Index)
    requires UniqueIds(steps)
    ensures Indexes(DepsFrom(steps), index)
    ensures forall i :: 0 <= i < |steps| ==> steps[i].id in index && index[steps[i].id] == i
  {
    map s | s in Elems(Ids(steps)) :: IndexOf(Ids(steps), s)
  }

  /**
   The topological order that always places the earliest-declared available step.
   `OrderIsLexicographicallyLeast` shows that no other topological order precedes it.
   */
  ghost predicate IsDeclarationLeast(g: Deps, steps: seq<Step>, order: seq<StepId>)
  {
    && UniqueIds(steps) && g == DepsFrom(steps)
    && IsTopologicalOrder(g, order)
    && EarliestFirst(g, DeclarationIndex(steps), order)
  }

  /** Main result on the order: it is the lexicographically least by declaration index. */
  lemma OrderIsLexicographicallyLeast(g: Deps, steps: seq<Step>, order: seq<StepId>, other: seq<StepId>)
    requires IsDeclarationLeast(g, steps, order) && IsTopologicalOrder(g, other)
    ensures LexLeast(g, DeclarationIndex(steps), order, other)
  {
    GreedyIsLeast(g, DeclarationIndex(steps), order, other);
  }
}
