/**
 The dependency graph under a pipeline: every step id maps to the set of ids it
 depends on. "Depends on" here always means transitively, through a path of edges.
 */
module Graph {

  type StepId = string
  type Deps = map<StepId, set<StepId>>

  function Elems<T>(q: seq<T>): set<T> {
    set x | x in q
  }

  lemma ElemsConcat<T>(a: seq<T>, b: seq<T>)
    ensures Elems(a + b) == Elems(a) + Elems(b)
  {
  }

  lemma ElemsAppend<T>(a: seq<T>, x: T)
    ensures Elems(a + [x]) == Elems(a) + {x}
  {
  }

  lemma ElemsPrefix<T>(q: seq<T>, i: nat)
    requires i < |q|
    ensures Elems(q[..i + 1]) == Elems(q[..i]) + {q[i]}
  {
    assert q[..i + 1] == q[..i] + [q[i]];
  }

  ghost predicate NoDuplicates<T>(q: seq<T>) {
    forall i, j :: 0 <= i < j < |q| ==> q[i] != q[j]
  }

  lemma PrefixGrows<T>(q: seq<T>, i: nat)
    requires NoDuplicates(q) && i < |q|
    ensures Elems(q[..i + 1]) == Elems(q[..i]) + {q[i]} && q[i] !in Elems(q[..i])
  {
    assert q[..i + 1] == q[..i] + [q[i]];
  }

  ghost predicate Edge(g: Deps, p: seq<StepId>, i: nat)
    requires i + 1 < |p|
  {
    p[i] in g && p[i + 1] in g[p[i]]
  }

  /** A walk along edges, from a step to something it depends on. */
  ghost predicate IsPath(g: Deps, p: seq<StepId>) {
    && p != []
    && forall i :: 0 <= i < |p| - 1 ==> Edge(g, p, i)
  }

  ghost predicate IsPathBetween(g: Deps, p: seq<StepId>, from: StepId, to: StepId) {
    IsPath(g, p) && |p| >= 2 && p[0] == from && p[|p| - 1] == to
  }

  ghost predicate DependsOn(g: Deps, s: StepId, a: StepId) {
    exists p :: IsPathBetween(g, p, s, a)
  }

  ghost predicate Acyclic(g: Deps) {
    forall s :: s in g ==> !DependsOn(g, s, s)
  }

  /** No `depends_on` entry names a step that does not exist. */
  ghost predicate NoDangling(g: Deps) {
    forall s :: s in g ==> g[s] <= g.Keys
  }

  ghost function Dependents(g: Deps, a: StepId): set<StepId> {
    set s | s in g && DependsOn(g, s, a)
  }

  lemma DirectDependency(g: Deps, s: StepId, d: StepId)
    requires s in g && d in g[s]
    ensures DependsOn(g, s, d)
  {
    assert IsPathBetween(g, [s, d], s, d);
  }

  lemma DependsThrough(g: Deps, s: StepId, d: StepId, a: StepId)
    requires s in g && d in g[s] && DependsOn(g, d, a)
    ensures DependsOn(g, s, a)
  {
    var p :| IsPathBetween(g, p, d, a);
    var q := [s] + p;
    forall i | 0 <= i < |q| - 1 ensures Edge(g, q, i) {
      if i > 0 {
        assert Edge(g, p, i - 1);
      }
    }
    assert IsPathBetween(g, q, s, a);
  }

  lemma DependsTransitive(g: Deps, s: StepId, m: StepId, a: StepId)
    requires DependsOn(g, s, m) && DependsOn(g, m, a)
    ensures DependsOn(g, s, a)
  {
    var p :| IsPathBetween(g, p, s, m);
    DependsTransitiveAlong(g, p, s, m, a);
  }

  lemma DependsTransitiveAlong(g: Deps, p: seq<StepId>, s: StepId, m: StepId, a: StepId)
    requires IsPathBetween(g, p, s, m) && DependsOn(g, m, a)
    ensures DependsOn(g, s, a)
    decreases |p|
  {
    assert Edge(g, p, 0);
    if |p| > 2 {
      PathTail(g, p);
      DependsTransitiveAlong(g, p[1..], p[1], m, a);
    }
    DependsThrough(g, s, p[1], a);
  }

  lemma PathTail(g: Deps, p: seq<StepId>)
    requires IsPath(g, p) && |p| >= 2
    ensures IsPath(g, p[1..])
  {
    var q := p[1..];
    forall i | 0 <= i < |q| - 1 ensures Edge(g, q, i) {
      assert Edge(g, p, i + 1);
    }
  }

  /** The first edge of a dependency: either it is the whole dependency, or the rest continues it. */
  lemma FirstEdge(g: Deps, s: StepId, a: StepId) returns (d: StepId)
    requires DependsOn(g, s, a)
    ensures s in g && d in g[s] && (d == a || DependsOn(g, d, a))
  {
    var p :| IsPathBetween(g, p, s, a);
    assert Edge(g, p, 0);
    d := p[1];
    if |p| > 2 {
      PathTail(g, p);
      assert IsPathBetween(g, p[1..], d, a);
    }
  }

  // ---- orders ------------------------------------------------------------

  ghost predicate DepsBefore(g: Deps, o: seq<StepId>, i: nat)
    requires i < |o|
  {
    o[i] in g && g[o[i]] <= Elems(o[..i])
  }

  /** Every entry is a step whose direct dependencies all stand strictly before it. */
  ghost predicate DepsFirst(g: Deps, o: seq<StepId>) {
    forall i :: 0 <= i < |o| ==> DepsBefore(g, o, i)
  }

  ghost predicate IsTopologicalOrder(g: Deps, o: seq<StepId>) {
    NoDuplicates(o) && Elems(o) == g.Keys && DepsFirst(g, o)
  }

  lemma DependencyStandsBefore(g: Deps, o: seq<StepId>, p: seq<StepId>, i: nat)
    requires NoDuplicates(o) && DepsFirst(g, o) && IsPath(g, p) && |p| >= 2
    requires i < |o| && o[i] == p[0]
    ensures exists j :: 0 <= j < i && o[j] == p[|p| - 1]
    decreases |p|
  {
    assert Edge(g, p, 0);
    assert DepsBefore(g, o, i);
    assert p[1] in Elems(o[..i]);
    var j :| 0 <= j < i && o[j] == p[1];
    if |p| > 2 {
      PathTail(g, p);
      DependencyStandsBefore(g, o, p[1..], j);
    }
  }

  lemma OrderedMeansAcyclic(g: Deps, o: seq<StepId>)
    requires IsTopologicalOrder(g, o)
    ensures Acyclic(g) && NoDangling(g)
  {
    forall s | s in g ensures !DependsOn(g, s, s) && g[s] <= g.Keys {
      assert s in Elems(o);
      var i :| 0 <= i < |o| && o[i] == s;
      if DependsOn(g, s, s) {
        var p :| IsPathBetween(g, p, s, s);
        DependencyStandsBefore(g, o, p, i);
        assert false;
      }
      assert DepsBefore(g, o, i);
      assert Elems(o[..i]) <= Elems(o);
    }
  }

  /** All ancestors of a step lie strictly before it in any topological order. */
  lemma AncestorsBefore(g: Deps, o: seq<StepId>, i: nat, a: StepId)
    requires IsTopologicalOrder(g, o) && i < |o| && DependsOn(g, o[i], a)
    ensures a in g && a in Elems(o[..i])
  {
    var p :| IsPathBetween(g, p, o[i], a);
    DependencyStandsBefore(g, o, p, i);
    assert Elems(o[..i]) <= Elems(o);
  }
}
