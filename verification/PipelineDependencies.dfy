/**
 The dependency check of the pipeline builder (_validate_dependencies and _detect_cycle_util in
 ingest_pipeline.py): a depth-first search over shared, mutable "visiting" and "visited" sets.
 */
module PipelineDependencies {
  import opened Sequences

  type Graph = map<string, seq<string>>

  datatype Stage = Stage(name: string, runsAfter: seq<string>)

  datatype Verdict =
    | Accepted
    | UndefinedStage(stage: string, dependency: string)
    | Circular(stage: string, dependency: string)

  /** The dict comprehension over the stages: a later stage of the same name wins. */
  function DependencyGraph(stages: seq<Stage>): Graph {
    if stages == [] then map[]
    else
      var last := stages[|stages| - 1];
      DependencyGraph(stages[..|stages| - 1])[last.name := last.runsAfter]
  }

  // --- the stages themselves ------------------------------------------------------------------------

  /** Some stage has this name. */
  ghost predicate IsStage(stages: seq<Stage>, name: string) {
    exists i :: 0 <= i < |stages| && stages[i].name == name
  }

  /** The i-th stage is the last one of its name, whose dependencies count. */
  ghost predicate Governs(stages: seq<Stage>, i: nat) {
    i < |stages| && forall j :: i < j < |stages| ==> stages[j].name != stages[i].name
  }

  ghost predicate RunsAfter(stages: seq<Stage>, name: string, dependency: string) {
    exists i: nat :: Governs(stages, i) && stages[i].name == name && dependency in stages[i].runsAfter
  }

  ghost predicate AllDefined(stages: seq<Stage>) {
    forall s, d :: RunsAfter(stages, s, d) ==> IsStage(stages, d)
  }

  /** All stages in an order in which each comes after those it runs after. */
  ghost predicate StartOrder(stages: seq<Stage>, order: seq<string>) {
    && (forall s :: IsStage(stages, s) ==> s in order)
    && forall i, d :: 0 <= i < |order| && RunsAfter(stages, order[i], d) ==> d in order[..i]
  }

  /** p goes round: each stage runs after the next, and the last is the first again. */
  ghost predicate GoesRound(stages: seq<Stage>, p: seq<string>) {
    && |p| >= 2 && p[0] == p[|p| - 1]
    && forall i :: 0 <= i < |p| - 1 ==> RunsAfter(stages, p[i], p[i + 1])
  }

  lemma {:induction false} GraphHoldsStages(stages: seq<Stage>, name: string)
    ensures name in DependencyGraph(stages) <==> IsStage(stages, name)
    ensures forall i: nat :: Governs(stages, i) && stages[i].name == name ==>
      name in DependencyGraph(stages) && DependencyGraph(stages)[name] == stages[i].runsAfter
    ensures IsStage(stages, name) ==> exists i: nat :: Governs(stages, i) && stages[i].name == name
  {
    if stages != [] {
      var n := |stages| - 1;
      var before := stages[..n];
      GraphHoldsStages(before, name);
      assert stages == before + [stages[n]];
      assert Governs(stages, n);
      if stages[n].name != name && IsStage(before, name) {
        var i: nat :| Governs(before, i) && before[i].name == name;
        assert Governs(stages, i);
      }
      forall i: nat | Governs(stages, i) && stages[i].name == name
        ensures name in DependencyGraph(stages) && DependencyGraph(stages)[name] == stages[i].runsAfter
      {
        if i < n {
          assert stages[n].name != name;
          assert Governs(before, i);
        }
      }
    }
  }

  /** The graph says what the stages say. */
  lemma GraphIsStages(stages: seq<Stage>)
    ensures forall s :: s in DependencyGraph(stages) <==> IsStage(stages, s)
    ensures forall s, d :: Edge(DependencyGraph(stages), s, d) <==> RunsAfter(stages, s, d)
  {
    hide Governs, IsStage;
    forall s {
      GraphHoldsStages(stages, s);
    }
    forall s, d
      ensures Edge(DependencyGraph(stages), s, d) <==> RunsAfter(stages, s, d)
    {
      GraphHoldsStages(stages, s);
    }
  }

  lemma VerdictOnStages(stages: seq<Stage>)
    ensures Closed(DependencyGraph(stages)) <==> AllDefined(stages)
    ensures forall order :: IsOrder(DependencyGraph(stages), order) <==> StartOrder(stages, order)
    ensures forall p :: IsCycle(DependencyGraph(stages), p) <==> GoesRound(stages, p)
  {
    hide DependencyGraph, RunsAfter, IsStage;
    GraphIsStages(stages);
    var g := DependencyGraph(stages);
    assert forall s, d :: s in g && d in g[s] <==> Edge(g, s, d);
    forall p
      ensures IsCycle(g, p) <==> GoesRound(stages, p)
    {
    }
  }

  // --- what the answers mean ------------------------------------------------------------------------

  ghost predicate Closed(g: Graph) {
    forall s, d :: s in g && d in g[s] ==> d in g
  }

  ghost predicate Edge(g: Graph, s: string, d: string) {
    s in g && d in g[s]
  }

  /** p leads from its first to its last stage, each one running after the next. */
  ghost predicate IsPath(g: Graph, p: seq<string>) {
    p != [] && forall i :: 0 <= i < |p| - 1 ==> Edge(g, p[i], p[i + 1])
  }

  ghost predicate LeadsTo(g: Graph, from: string, to: string) {
    exists p :: IsPath(g, p) && p[0] == from && p[|p| - 1] == to
  }

  lemma PathTail(g: Graph, p: seq<string>, k: nat)
    requires IsPath(g, p) && k < |p|
    ensures LeadsTo(g, p[k], p[|p| - 1])
  {
    var tail := p[k..];
    forall i | 0 <= i < |tail| - 1
      ensures Edge(g, tail[i], tail[i + 1])
    {
      assert Edge(g, p[k + i], p[k + i + 1]);
    }
    assert IsPath(g, tail);
  }

  /** Some stage runs, directly or not, after itself. */
  ghost predicate HasCycle(g: Graph) {
    exists p :: IsCycle(g, p)
  }

  ghost predicate IsCycle(g: Graph, p: seq<string>) {
    IsPath(g, p) && |p| >= 2 && p[0] == p[|p| - 1]
  }

  /** The stages can be started in an order in which each comes after all it runs after. */
  ghost predicate HasOrder(g: Graph) {
    exists order :: IsOrder(g, order)
  }

  ghost predicate IsOrder(g: Graph, order: seq<string>) {
    && (forall s :: s in g ==> s in order)
    && Ordered(g, order)
  }

  /** Every stage of the sequence comes after all its dependencies. */
  ghost predicate Ordered(g: Graph, order: seq<string>) {
    forall i, d :: 0 <= i < |order| && Edge(g, order[i], d) ==> d in order[..i]
  }

  lemma OrderedAppend(g: Graph, order: seq<string>, s: string)
    requires Ordered(g, order) && forall d :: Edge(g, s, d) ==> d in order
    ensures Ordered(g, order + [s])
  {
    var longer := order + [s];
    forall i, d | 0 <= i < |longer| && Edge(g, longer[i], d)
      ensures d in longer[..i]
    {
      assert longer[..i] == order[..i];
    }
  }

  /** In an order, the first occurrences strictly decrease along a path. */
  lemma {:induction false} PathGoesBack(g: Graph, order: seq<string>, p: seq<string>, i: nat) returns (k: nat)
    requires Ordered(g, order) && IsPath(g, p) && i < |order| && order[i] == p[0]
    ensures k <= i && order[k] == p[|p| - 1] && (|p| >= 2 ==> k < i)
    decreases |p|
  {
    if |p| == 1 {
      k := i;
    } else {
      assert Edge(g, p[0], p[1]);
      var j :| 0 <= j < i && order[..i][j] == p[1];
      k := PathGoesBack(g, order, p[1..], j);
    }
  }

  /** A cycle would lead backwards in the order for ever. */
  lemma {:induction false} CycleGoesBack(g: Graph, order: seq<string>, p: seq<string>, i: nat)
    requires Ordered(g, order) && IsCycle(g, p) && i < |order| && order[i] == p[0]
    ensures false
    decreases i
  {
    var k := PathGoesBack(g, order, p, i);
    CycleGoesBack(g, order, p, k);
  }

  lemma OrderExcludesCycle(g: Graph)
    requires HasOrder(g)
    ensures !HasCycle(g)
  {
    var order :| IsOrder(g, order);
    forall p
      ensures !IsCycle(g, p)
    {
      if IsCycle(g, p) {
        assert Edge(g, p[0], p[1]);
        var i :| 0 <= i < |order| && order[i] == p[0];
        CycleGoesBack(g, order, p, i);
      }
    }
  }

  // --- the search ---------------------------------------------------------------------------------

  class CycleSearch {
    const graph: Graph
    var visiting: set<string>
    var visited: set<string>

    // The stages in the order in which the search left them, and those it is in, outermost first.
    ghost var finished: seq<string>
    ghost var stack: seq<string>

    constructor (graph: Graph)
      ensures this.graph == graph && Valid() && visiting == {} && visited == {} && stack == []
    {
      this.graph := graph;
      visiting, visited, finished, stack := {}, {}, [], [];
    }

    ghost predicate Valid()
      reads this
    {
      && visiting == SetOf(stack) && visited == SetOf(finished)
      && visiting <= graph.Keys && visited <= graph.Keys && visiting !! visited
      && Ordered(graph, finished)
      && (stack != [] ==> IsPath(graph, stack))
    }

    /** _detect_cycle_util; the result is the reported pair when it raises. */
    method DetectCycle(stage: string) returns (found: Verdict)
      requires Valid() && Closed(graph) && stage in graph && stage !in visiting && stage !in visited
      requires stack != [] ==> Edge(graph, stack[|stack| - 1], stage)
      modifies this
      ensures found.Accepted? ==>
          && Valid() && visiting == old(visiting) && stack == old(stack)
          && stage in visited && old(visited) <= visited
      ensures !found.Accepted? ==>
          found.Circular? && Edge(graph, found.stage, found.dependency) && LeadsTo(graph, found.dependency, found.stage)
      decreases graph.Keys - visiting - visited
    {
      visiting := visiting + {stage};
      stack := stack + [stage];
      assert IsPath(graph, stack);
      var dependencies := graph[stage];
      var i := 0;
      while i < |dependencies|
        invariant 0 <= i <= |dependencies|
        invariant Valid() && visiting == old(visiting) + {stage} && stack == old(stack) + [stage]
        invariant old(visited) <= visited
        invariant forall d :: d in dependencies[..i] ==> d in visited
      {
        var dependency := dependencies[i];
        if dependency in visiting {
          ghost var k :| 0 <= k < |stack| && stack[k] == dependency;
          PathTail(graph, stack, k);
          return Circular(stage, dependency);
        }
        if dependency !in visited {
          assert graph.Keys - visiting - visited <= graph.Keys - old(visiting) - old(visited) - {stage};
          assert stage in graph.Keys - old(visiting) - old(visited);
          var deeper := DetectCycle(dependency);
          if !deeper.Accepted? {
            return deeper;
          }
        }
        assert dependencies[..i + 1] == dependencies[..i] + [dependency];
        i := i + 1;
      }
      assert dependencies[..i] == dependencies;
      visiting := visiting - {stage};
      stack := old(stack);
      visited := visited + {stage};
      OrderedAppend(graph, finished, stage);
      finished := finished + [stage];
      found := Accepted;
    }
  }

  /** A stage that its own dependency runs after is on a cycle. */
  lemma CircularIsCycle(g: Graph, stage: string, dependency: string)
    requires Edge(g, stage, dependency) && LeadsTo(g, dependency, stage)
    ensures HasCycle(g)
  {
    var p :| IsPath(g, p) && p[0] == dependency && p[|p| - 1] == stage;
    var cycle := [stage] + p;
    forall i | 0 <= i < |cycle| - 1
      ensures Edge(g, cycle[i], cycle[i + 1])
    {
      if i > 0 { assert Edge(g, p[i - 1], p[i]); }
    }
    assert IsCycle(g, cycle);
  }

  /** The reported pair is one edge of a cycle. */
  ghost predicate OnCycle(stages: seq<Stage>, stage: string, dependency: string) {
    exists p :: GoesRound(stages, p) && p[0] == stage && p[1] == dependency
  }

  lemma ReportedIsOnCycle(stages: seq<Stage>, stage: string, dependency: string)
    requires Edge(DependencyGraph(stages), stage, dependency)
    requires LeadsTo(DependencyGraph(stages), dependency, stage)
    ensures OnCycle(stages, stage, dependency)
  {
    hide DependencyGraph, RunsAfter, IsStage;
    GraphIsStages(stages);
    var g := DependencyGraph(stages);
    var p :| IsPath(g, p) && p[0] == dependency && p[|p| - 1] == stage;
    var cycle := [stage] + p;
    forall i | 0 <= i < |cycle| - 1
      ensures RunsAfter(stages, cycle[i], cycle[i + 1])
    {
      if i > 0 { assert Edge(g, p[i - 1], p[i]); }
    }
    assert GoesRound(stages, cycle);
  }

  /**
   _validate_dependencies: accepts just when every dependency is a stage and the stages can be ordered, which is
   just when there is no cycle; a reported pair is a real edge, on a real cycle when it is called circular.
   The stages and their dependencies are looked at in any order.
   */
  method ValidateDependencies(stages: seq<Stage>) returns (verdict: Verdict)
    ensures verdict.Accepted? <==> AllDefined(stages) && exists order :: StartOrder(stages, order)
    ensures verdict.Accepted? <==> AllDefined(stages) && forall p :: !GoesRound(stages, p)
    ensures verdict.UndefinedStage? ==>
      RunsAfter(stages, verdict.stage, verdict.dependency) && !IsStage(stages, verdict.dependency)
    ensures verdict.Circular? ==> AllDefined(stages) && OnCycle(stages, verdict.stage, verdict.dependency)
  {
    hide DependencyGraph, StartOrder, GoesRound, AllDefined, RunsAfter, IsStage, IsCycle, IsOrder;
    verdict := SearchGraph(DependencyGraph(stages));
    GraphIsStages(stages);
    VerdictOnStages(stages);
    if verdict.Circular? { ReportedIsOnCycle(stages, verdict.stage, verdict.dependency); }
  }

  /** The two checks on the graph. */
  method SearchGraph(g: Graph) returns (verdict: Verdict)
    ensures verdict.Accepted? <==> Closed(g) && HasOrder(g)
    ensures verdict.Accepted? <==> Closed(g) && !HasCycle(g)
    ensures verdict.UndefinedStage? ==> Edge(g, verdict.stage, verdict.dependency) && verdict.dependency !in g
    ensures verdict.Circular? ==>
      && Closed(g) && Edge(g, verdict.stage, verdict.dependency)
      && LeadsTo(g, verdict.dependency, verdict.stage)
  {
    var names := g.Keys;
    var unchecked := names;
    while unchecked != {}
      invariant unchecked <= names
      invariant forall s, d :: s in names - unchecked && d in g[s] ==> d in g
      decreases |unchecked|
    {
      var name :| name in unchecked;
      unchecked := unchecked - {name};
      if exists d :: d in g[name] && d !in names {
        var d :| d in g[name] && d !in names;
        return UndefinedStage(name, d);
      }
    }
    var search := new CycleSearch(g);
    var todo := names;
    while todo != {}
      invariant todo <= names && search.graph == g && search.Valid() && search.stack == []
      invariant names - todo <= search.visited
      decreases |todo|
    {
      var name :| name in todo;
      todo := todo - {name};
      if name !in search.visited {
        verdict := search.DetectCycle(name);
        if !verdict.Accepted? {
          CircularIsCycle(g, verdict.stage, verdict.dependency);
          if HasOrder(g) { OrderExcludesCycle(g); }
          return;
        }
      }
    }
    forall s | s in g
      ensures s in search.finished
    {
      assert s in search.visited;
    }
    assert IsOrder(g, search.finished);
    OrderExcludesCycle(g);
    verdict := Accepted;
  }
}
