/**
 Kahn's algorithm with a declaration-order tie-break. The ready queue is kept sorted by
 declaration index, which makes the result the lexicographically least topological order.
 */
module TopologicalSort {
  import opened Graph
  import opened PipelineSchema

  type Index = map<StepId, nat>

  ghost predicate Indexes(g: Deps, index: Index) {
    && index.Keys == g.Keys
    && forall s, t :: s in index && t in index && s != t ==> index[s] != index[t]
  }

  ghost predicate Ascending(q: seq<StepId>, index: Index) {
    && Elems(q) <= index.Keys
    && forall i, j :: 0 <= i < j < |q| ==> q[i] in index && q[j] in index && index[q[i]] < index[q[j]]
  }

  // ---- the sorted ready queue ----------------------------------------------

  /** The first position at or after `i` holding a step declared later than `target`. */
  function FirstLater(q: seq<StepId>, target: nat, index: Index, i: nat): (n: nat)
    requires i <= |q| && Elems(q) <= index.Keys
    ensures i <= n <= |q|
    ensures forall k :: i <= k < n ==> q[k] in index && index[q[k]] <= target
    ensures n < |q| ==> q[n] in index && index[q[n]] > target
    decreases |q| - i
  {
    if i == |q| then i
    else
      assert q[i] in Elems(q);
      if index[q[i]] > target then i else FirstLater(q, target, index, i + 1)
  }

  function Insert(q: seq<StepId>, item: StepId, index: Index): seq<StepId>
    requires Elems(q) <= index.Keys && item in index
  {
    var n := FirstLater(q, index[item], index, 0);
    q[..n] + [item] + q[n..]
  }

  lemma InsertElems(q: seq<StepId>, item: StepId, index: Index)
    requires Elems(q) <= index.Keys && item in index
    ensures Elems(Insert(q, item, index)) == Elems(q) + {item}
    ensures multiset(Insert(q, item, index)) == multiset(q) + multiset{item}
  {
    var n := FirstLater(q, index[item], index, 0);
    assert q == q[..n] + q[n..];
    ElemsConcat(q[..n], q[n..]);
    ElemsConcat(q[..n], [item]);
    ElemsConcat(q[..n] + [item], q[n..]);
  }

  lemma InsertKeepsAscending(q: seq<StepId>, item: StepId, index: Index)
    requires Ascending(q, index) && item in index
    requires forall s :: s in q ==> s in index && index[s] != index[item]
    ensures Ascending(Insert(q, item, index), index)
  {
    InsertElems(q, item, index);
  }

  /** The in-place insertion loop: before the first entry declared later, else at the end. */
  method InsertSorted(queue: seq<StepId>, item: StepId, index: Index) returns (r: seq<StepId>)
    requires Elems(queue) <= index.Keys && item in index
    ensures r == Insert(queue, item, index)
  {
    var target := index[item];
    for i := 0 to |queue|
      invariant FirstLater(queue, target, index, 0) == FirstLater(queue, target, index, i)
    {
      assert queue[i] in Elems(queue);
      if index[queue[i]] > target {
        return queue[..i] + [item] + queue[i..];
      }
    }
    r := queue + [item];
  }

  /** Python's `sorted` by declaration index. */
  function SortByIndex(q: seq<StepId>, index: Index): (r: seq<StepId>)
    requires Elems(q) <= index.Keys
    ensures Elems(r) == Elems(q)
  {
    if q == [] then []
    else
      assert q == [q[0]] + q[1..] && q[0] in Elems(q);
      ElemsConcat([q[0]], q[1..]);
      InsertElems(SortByIndex(q[1..], index), q[0], index);
      Insert(SortByIndex(q[1..], index), q[0], index)
  }

  lemma {:induction false} SortIsAscending(g: Deps, q: seq<StepId>, index: Index)
    requires Indexes(g, index) && NoDuplicates(q) && Elems(q) <= g.Keys
    ensures Ascending(SortByIndex(q, index), index)
  {
    if q != [] {
      assert q == [q[0]] + q[1..] && q[0] in Elems(q);
      SortIsAscending(g, q[1..], index);
      var r := SortByIndex(q[1..], index);
      forall s | s in r ensures s in index && index[s] != index[q[0]] {
        assert s in Elems(r);
        assert s in q[1..];
      }
      InsertKeepsAscending(r, q[0], index);
    }
  }

  // ---- the greedy characterisation -------------------------------------------

  /** Not yet placed, with every direct dependency placed. */
  ghost predicate Available(g: Deps, placed: set<StepId>, s: StepId) {
    s in g && s !in placed && g[s] <= placed
  }

  ghost function Frontier(g: Deps, placed: set<StepId>): set<StepId> {
    set s | s in g && Available(g, placed, s)
  }

  /** What placing `node` makes available: its dependents with nothing else missing. */
  ghost function Released(g: Deps, placed: set<StepId>, node: StepId): set<StepId> {
    set s | s in g && node in g[s] && g[s] <= placed + {node}
  }

  ghost predicate EarliestAt(g: Deps, index: Index, o: seq<StepId>, k: nat)
    requires Indexes(g, index) && k < |o|
  {
    && Available(g, Elems(o[..k]), o[k])
    && forall s :: s in Frontier(g, Elems(o[..k])) ==> index[o[k]] <= index[s]
  }

  /** Each entry is the earliest-declared step available once the entries before it are placed. */
  ghost predicate EarliestFirst(g: Deps, index: Index, o: seq<StepId>)
    requires Indexes(g, index)
  {
    forall k :: 0 <= k < |o| ==> EarliestAt(g, index, o, k)
  }

  lemma EarliestFirstIsDepsFirst(g: Deps, index: Index, o: seq<StepId>)
    requires Indexes(g, index) && EarliestFirst(g, index, o)
    ensures NoDuplicates(o) && DepsFirst(g, o) && Elems(o) <= g.Keys
  {
    forall j | 0 <= j < |o| ensures DepsBefore(g, o, j) && o[j] in g {
      assert EarliestAt(g, index, o, j);
    }
    forall i, j | 0 <= i < j < |o| ensures o[i] != o[j] {
      assert EarliestAt(g, index, o, j);
      assert o[i] in o[..j];
    }
  }

  /** Placed before, at the first place where two orders differ. */
  ghost predicate LexLeast(g: Deps, index: Index, o: seq<StepId>, q: seq<StepId>)
    requires Indexes(g, index)
  {
    o == q || exists k :: 0 <= k < |o| && k < |q| && FirstDifference(g, index, o, q, k)
  }

  ghost predicate FirstDifference(g: Deps, index: Index, o: seq<StepId>, q: seq<StepId>, k: nat)
    requires Indexes(g, index) && k < |o| && k < |q|
  {
    o[..k] == q[..k] && o[k] in g && q[k] in g && index[o[k]] < index[q[k]]
  }

  /** The greedy order precedes every other topological order, so it is the unique least one. */
  lemma GreedyIsLeast(g: Deps, index: Index, o: seq<StepId>, q: seq<StepId>)
    requires Indexes(g, index) && EarliestFirst(g, index, o)
    requires IsTopologicalOrder(g, o) && IsTopologicalOrder(g, q)
    ensures LexLeast(g, index, o, q)
  {
    GreedyIsLeastFrom(g, index, o, q, 0);
  }

  lemma NoLonger(g: Deps, o: seq<StepId>, q: seq<StepId>)
    requires IsTopologicalOrder(g, o) && IsTopologicalOrder(g, q) && |o| <= |q| && q[..|o|] == o
    ensures |q| == |o|
  {
    if |o| < |q| {
      PrefixGrows(q, |o|);
    }
  }

  lemma GreedyIsLeastFrom(g: Deps, index: Index, o: seq<StepId>, q: seq<StepId>, k: nat)
    requires Indexes(g, index) && EarliestFirst(g, index, o)
    requires IsTopologicalOrder(g, o) && IsTopologicalOrder(g, q)
    requires k <= |o| && k <= |q| && o[..k] == q[..k]
    ensures LexLeast(g, index, o, q)
    decreases |o| - k
  {
    if k == |o| {
      if k < |q| {
        NoLonger(g, o, q);
        assert false;
      }
    } else if k == |q| {
      NoLonger(g, q, o);
      assert false;
    } else if o[k] == q[k] {
      assert o[..k + 1] == o[..k] + [o[k]] && q[..k + 1] == q[..k] + [q[k]];
      GreedyIsLeastFrom(g, index, o, q, k + 1);
    } else {
      assert DepsBefore(g, q, k) && EarliestAt(g, index, o, k);
      assert q[k] in Frontier(g, Elems(o[..k]));
      assert FirstDifference(g, index, o, q, k);
    }
  }

  /** In an acyclic graph something is always available until everything is placed. */
  lemma NeverStuck(g: Deps, known: seq<StepId>, placed: set<StepId>)
    requires IsTopologicalOrder(g, known) && Frontier(g, placed) == {}
    ensures g.Keys <= placed
  {
    if !(g.Keys <= placed) {
      var s :| s in g && s !in placed;
      assert s in Elems(known);
      var i :| 0 <= i < |known| && known[i] == s;
      FirstUnplaced(g, known, placed, i);
    }
  }

  lemma FirstUnplaced(g: Deps, known: seq<StepId>, placed: set<StepId>, i: nat)
    requires IsTopologicalOrder(g, known) && i < |known| && known[i] !in placed
    ensures exists s :: s in Frontier(g, placed)
    decreases i
  {
    assert DepsBefore(g, known, i);
    if g[known[i]] <= placed {
      assert known[i] in Frontier(g, placed);
    } else {
      var d :| d in g[known[i]] && d !in placed;
      assert d in Elems(known[..i]);
      var j :| 0 <= j < i && known[j] == d;
      FirstUnplaced(g, known, placed, j);
    }
  }

  // ---- Kahn's loop ----------------------------------------------------------

  ghost predicate Reverses(g: Deps, dependents: map<StepId, seq<StepId>>) {
    && dependents.Keys == g.Keys
    && forall d :: d in dependents ==>
         NoDuplicates(dependents[d]) && forall s :: s in dependents[d] <==> s in g && d in g[s]
  }

  ghost predicate CountsMissing(g: Deps, indegree: map<StepId, int>, placed: set<StepId>) {
    indegree.Keys == g.Keys && forall s :: s in g ==> indegree[s] == |g[s] - placed|
  }

  /** Partway through a pop: the first `i` dependents are lowered, those at zero collected. */
  ghost predicate Popping(
      g: Deps, placed: set<StepId>, node: StepId, seen: set<StepId>,
      indegree: map<StepId, int>, newlyReady: seq<StepId>)
  {
    && Lowered(g, placed, indegree, seen)
    && NoDuplicates(newlyReady)
    && Elems(newlyReady) == Released(g, placed, node) * seen
  }

  method ReleaseOne(
      ghost g: Deps, ghost placed: set<StepId>, ghost node: StepId, ghost seen: set<StepId>,
      dependent: StepId, before: map<StepId, int>, collected: seq<StepId>)
    returns (indegree: map<StepId, int>, newlyReady: seq<StepId>)
    requires Popping(g, placed, node, seen, before, collected)
    requires node !in placed && dependent in g && node in g[dependent] && dependent !in seen
    ensures Popping(g, placed, node, seen + {dependent}, indegree, newlyReady)
  {
    LowerOne(g, placed, node, before, seen, dependent);
    indegree := before[dependent := before[dependent] - 1];
    newlyReady := collected;
    if indegree[dependent] == 0 {
      assert dependent !in Elems(collected);
      ElemsAppend(collected, dependent);
      newlyReady := collected + [dependent];
    }
  }

  /** One pop of the loop: lower the dependents' counts and collect those that reach zero. */
  method ReleaseDependents(
      ghost g: Deps, ghost placed: set<StepId>, ghost node: StepId, dependents: seq<StepId>,
      before: map<StepId, int>)
    returns (indegree: map<StepId, int>, newlyReady: seq<StepId>)
    requires CountsMissing(g, before, placed)
    requires node in g && node !in placed && NoDuplicates(dependents)
    requires forall s :: s in dependents <==> s in g && node in g[s]
    ensures CountsMissing(g, indegree, placed + {node})
    ensures NoDuplicates(newlyReady)
    ensures Elems(newlyReady) == Released(g, placed, node)
  {
    indegree := before;
    newlyReady := [];
    for i := 0 to |dependents|
      invariant Popping(g, placed, node, Elems(dependents[..i]), indegree, newlyReady)
    {
      PrefixGrows(dependents, i);
      assert dependents[i] in dependents;
      indegree, newlyReady :=
        ReleaseOne(g, placed, node, Elems(dependents[..i]), dependents[i], indegree, newlyReady);
    }
    assert dependents[..|dependents|] == dependents;
    AllLowered(g, placed, node, indegree, Elems(dependents));
  }

  /** Counts midway through a pop: the dependents in `seen` are already one lower. */
  ghost predicate Lowered(g: Deps, placed: set<StepId>, indegree: map<StepId, int>, seen: set<StepId>) {
    && indegree.Keys == g.Keys
    && forall s :: s in g ==> indegree[s] == |g[s] - placed| - (if s in seen then 1 else 0)
  }

  lemma LowerOne(
      g: Deps, placed: set<StepId>, node: StepId, indegree: map<StepId, int>, seen: set<StepId>, d: StepId)
    requires Lowered(g, placed, indegree, seen) && node !in placed
    requires d in g && d !in seen && node in g[d]
    ensures Lowered(g, placed, indegree[d := indegree[d] - 1], seen + {d})
    ensures indegree[d] - 1 == 0 <==> d in Released(g, placed, node)
  {
    RemovingOne(g[d], placed, node);
  }

  lemma AllLowered(
      g: Deps, placed: set<StepId>, node: StepId, indegree: map<StepId, int>, seen: set<StepId>)
    requires Lowered(g, placed, indegree, seen) && node !in placed
    requires forall s :: s in seen <==> s in g && node in g[s]
    ensures CountsMissing(g, indegree, placed + {node})
    ensures Released(g, placed, node) * seen == Released(g, placed, node)
  {
    forall s | s in g ensures indegree[s] == |g[s] - (placed + {node})| {
      RemovingOne(g[s], placed, node);
    }
  }

  lemma RemovingOne(deps: set<StepId>, placed: set<StepId>, node: StepId)
    requires node !in placed
    ensures |deps - (placed + {node})| == |deps - placed| - (if node in deps then 1 else 0)
    ensures |deps - (placed + {node})| == 0 <==> deps <= placed + {node}
  {
    if node in deps {
      assert deps - placed == (deps - (placed + {node})) + {node};
    } else {
      assert deps - placed == deps - (placed + {node});
    }
    if |deps - (placed + {node})| == 0 {
      assert deps - (placed + {node}) == {};
    } else {
      var x :| x in deps - (placed + {node});
    }
  }

  method EnqueueAll(ghost g: Deps, queue: seq<StepId>, items: seq<StepId>, index: Index)
    returns (ready: seq<StepId>)
    requires Indexes(g, index) && Ascending(queue, index)
    requires Elems(items) <= index.Keys && NoDuplicates(items) && Elems(items) !! Elems(queue)
    ensures Ascending(ready, index) && Elems(ready) == Elems(queue) + Elems(items)
  {
    ready := queue;
    var i := 0;
    while i < |items|
      invariant 0 <= i <= |items|
      invariant Ascending(ready, index) && Elems(ready) == Elems(queue) + Elems(items[..i])
    {
      assert items[i] in Elems(items) && items[i] !in Elems(ready);
      InsertKeepsAscending(ready, items[i], index);
      ready := InsertSorted(ready, items[i], index);
      assert items[..i + 1] == items[..i] + [items[i]];
      i := i + 1;
    }
    assert items[..i] == items;
  }

  ghost predicate KahnState(
      g: Deps, index: Index, order: seq<StepId>, ready: seq<StepId>, indegree: map<StepId, int>)
    requires Indexes(g, index)
  {
    && EarliestFirst(g, index, order)
    && Ascending(ready, index)
    && Elems(ready) == Frontier(g, Elems(order))
    && CountsMissing(g, indegree, Elems(order))
  }

  /** One iteration of the loop. */
  method PlaceNext(
      deps: Deps, index: Index, dependents: map<StepId, seq<StepId>>, order: seq<StepId>,
      queue: seq<StepId>, before: map<StepId, int>)
    returns (ready: seq<StepId>, indegree: map<StepId, int>)
    requires Indexes(deps, index) && Reverses(deps, dependents)
    requires queue != [] && KahnState(deps, index, order, queue, before)
    ensures queue[0] in deps && queue[0] !in Elems(order)
    ensures KahnState(deps, index, order + [queue[0]], ready, indegree)
  {
    var node := queue[0];
    PopsEarliest(deps, index, order, queue);
    ElemsAppend(order, node);
    var newlyReady;
    indegree, newlyReady := ReleaseDependents(deps, Elems(order), node, dependents[node], before);
    SortIsAscending(deps, newlyReady, index);
    var sorted := SortByIndex(newlyReady, index);
    ready := EnqueueAll(deps, queue[1..], sorted, index);
  }

  /** A step is placed exactly once, as the earliest-declared available one. */
  method ComputeTopologicalOrder(
      ids: seq<StepId>, deps: Deps, index: Index, dependents: map<StepId, seq<StepId>>,
      ghost known: seq<StepId>)
    returns (order: seq<StepId>)
    requires NoDuplicates(ids) && Elems(ids) == deps.Keys && Indexes(deps, index)
    requires Reverses(deps, dependents) && IsTopologicalOrder(deps, known)
    ensures IsTopologicalOrder(deps, order) && EarliestFirst(deps, index, order)
  {
    OrderedMeansAcyclic(deps, known);
    var indegree := InDegrees(deps);
    var ready := StepsWithoutDependencies(ids, deps, index);
    order := [];
    while ready != []
      invariant KahnState(deps, index, order, ready, indegree)
      decreases deps.Keys - Elems(order)
    {
      var node := ready[0];
      ready, indegree := PlaceNext(deps, index, dependents, order, ready, indegree);
      ElemsAppend(order, node);
      order := order + [node];
    }
    QueueDrained(deps, index, order, indegree, known);
  }

  lemma QueueDrained(
      g: Deps, index: Index, order: seq<StepId>, indegree: map<StepId, int>, known: seq<StepId>)
    requires Indexes(g, index) && IsTopologicalOrder(g, known) && KahnState(g, index, order, [], indegree)
    ensures IsTopologicalOrder(g, order)
  {
    NeverStuck(g, known, Elems(order));
    EarliestFirstIsDepsFirst(g, index, order);
  }

  function InDegrees(deps: Deps): (indegree: map<StepId, int>)
    ensures CountsMissing(deps, indegree, Elems([]))
  {
    assert forall s :: s in deps ==> deps[s] - Elems([]) == deps[s];
    map s | s in deps :: |deps[s]|
  }

  method StepsWithoutDependencies(ids: seq<StepId>, deps: Deps, index: Index) returns (ready: seq<StepId>)
    requires NoDuplicates(ids) && Elems(ids) == deps.Keys && Indexes(deps, index)
    ensures Ascending(ready, index) && Elems(ready) == Frontier(deps, Elems([]))
  {
    var roots := [];
    for i := 0 to |ids|
      invariant NoDuplicates(roots)
      invariant Elems(roots) == set s | s in ids[..i] && s in deps && deps[s] == {}
    {
      assert ids[i] in Elems(ids) && ids[..i + 1] == ids[..i] + [ids[i]];
      assert ids[i] !in Elems(roots);
      if deps[ids[i]] == {} {
        ElemsAppend(roots, ids[i]);
        roots := roots + [ids[i]];
      }
    }
    assert ids[..|ids|] == ids;
    SortIsAscending(deps, roots, index);
    ready := SortByIndex(roots, index);
    assert forall s :: s in deps ==> s in Elems(ids);
  }

  lemma AscendingHasNoDuplicates(q: seq<StepId>, index: Index)
    requires Ascending(q, index)
    ensures NoDuplicates(q)
  {
  }

  lemma PopsEarliest(g: Deps, index: Index, order: seq<StepId>, ready: seq<StepId>)
    requires Indexes(g, index) && EarliestFirst(g, index, order)
    requires ready != [] && Ascending(ready, index) && Elems(ready) == Frontier(g, Elems(order))
    ensures ready[0] in g && ready[0] !in Elems(order)
    ensures EarliestFirst(g, index, order + [ready[0]])
    ensures Ascending(ready[1..], index)
    ensures Elems(ready[1..]) == Frontier(g, Elems(order)) - {ready[0]}
    ensures Frontier(g, Elems(order) + {ready[0]}) == Elems(ready[1..]) + Released(g, Elems(order), ready[0])
    ensures Elems(ready[1..]) !! Released(g, Elems(order), ready[0])
  {
    var node := ready[0];
    var placed := Elems(order);
    assert node in Elems(ready);
    var o := order + [node];
    forall k | 0 <= k < |o| ensures EarliestAt(g, index, o, k) {
      if k < |order| {
        assert EarliestAt(g, index, order, k) && o[..k] == order[..k];
      } else {
        assert o[..k] == order;
        forall s | s in Frontier(g, placed) ensures index[node] <= index[s] {
          assert s in Elems(ready);
        }
      }
    }
    assert ready == [node] + ready[1..];
    AscendingHasNoDuplicates(ready, index);
    assert node !in ready[1..];
    EarliestFirstIsDepsFirst(g, index, order);
    // A dependent of the popped step cannot be placed yet: its dependencies would be placed too.
    forall s | s in g && node in g[s] ensures s !in placed {
      if s in placed {
        PlacedHaveDependenciesPlaced(g, order, s);
      }
    }
    forall s | s in g && node in g[s] && g[s] <= placed + {node} ensures s != node {
      OnlyAvailableOnce(g, placed, node, s);
    }
  }

  lemma PlacedHaveDependenciesPlaced(g: Deps, order: seq<StepId>, s: StepId)
    requires DepsFirst(g, order) && s in order
    ensures s in g && g[s] <= Elems(order)
  {
    var k :| 0 <= k < |order| && order[k] == s;
    assert DepsBefore(g, order, k);
    assert Elems(order[..k]) <= Elems(order);
  }

  lemma OnlyAvailableOnce(g: Deps, placed: set<StepId>, node: StepId, s: StepId)
    requires Available(g, placed, node) && s in g && node in g[s]
    ensures s != node
  {
  }
}
