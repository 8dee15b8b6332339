/** The dependency graph of the development plan: a depth-first search that reports cycles. */
module PlanGraph {

  /** Tasks in table order, with the dependencies of each. */
  datatype Plan = Plan(order: seq<string>, deps: map<string, seq<string>>)

  ghost predicate IsPlan(g: Plan) {
    (forall t :: t in g.order <==> t in g.deps)
    && (forall i, j :: 0 <= i < j < |g.order| ==> g.order[i] != g.order[j])
  }

  datatype PlanError = WrongCount(found: nat) | UnknownDependency(task: string, dep: string) | CycleAt(task: string)

  const EXPECTED_COUNT := 42

  // ---------------------------------------------------------------- cycles and orders

  predicate DependsOn(g: Plan, u: string, v: string) {
    u in g.deps && v in g.deps[u]
  }

  predicate IsPath(g: Plan, p: seq<string>) {
    forall i :: 0 <= i < |p| - 1 ==> DependsOn(g, p[i], p[i + 1])
  }

  /** A path of at least one dependency that leads back to where it starts. */
  predicate IsCycle(g: Plan, p: seq<string>) {
    |p| >= 2 && p[0] == p[|p| - 1] && IsPath(g, p)
  }

  ghost predicate OnCycle(g: Plan, u: string) {
    exists p :: IsCycle(g, p) && p[0] == u
  }

  ghost predicate Cyclic(g: Plan) {
    exists p :: IsCycle(g, p)
  }

  /** Every task of the order has all its dependencies before it. */
  ghost predicate DepsFirst(g: Plan, order: seq<string>) {
    forall i, v :: 0 <= i < |order| && DependsOn(g, order[i], v) ==> v in order[..i]
  }

  predicate Repeats(order: seq<string>) {
    exists i, j :: 0 <= i < j < |order| && order[i] == order[j]
  }

  /** A topological order of the whole plan. */
  ghost predicate Topological(g: Plan, order: seq<string>) {
    !Repeats(order) && DepsFirst(g, order) && forall t :: t in g.deps ==> t in order
  }

  /** Along a path, positions in such an order go down. */
  lemma {:induction false} PathDescends(g: Plan, order: seq<string>, p: seq<string>, at: nat) returns (end: nat)
    requires !Repeats(order) && DepsFirst(g, order) && IsPath(g, p) && |p| > 0
    requires at < |order| && order[at] == p[0]
    ensures end <= at && order[end] == p[|p| - 1] && (|p| > 1 ==> end < at)
    decreases |p|
  {
    if |p| == 1 {
      end := at;
    } else {
      assert DependsOn(g, order[at], p[1]);
      var next :| 0 <= next < at && order[next] == p[1];
      end := PathDescends(g, order, p[1..], next);
    }
  }

  lemma PathNeverReturns(g: Plan, order: seq<string>, p: seq<string>)
    requires Topological(g, order) && IsPath(g, p) && |p| >= 2
    ensures p[0] != p[|p| - 1]
  {
    assert DependsOn(g, p[0], p[1]);
    var at :| 0 <= at < |order| && order[at] == p[0];
    var end := PathDescends(g, order, p, at);
  }

  /** A plan with a topological order has no cycle. */
  lemma OrderedIsAcyclic(g: Plan, order: seq<string>)
    requires Topological(g, order)
    ensures !Cyclic(g)
  {
    forall p ensures !IsCycle(g, p) {
      if IsPath(g, p) && |p| >= 2 {
        PathNeverReturns(g, order, p);
      }
    }
  }

  // ---------------------------------------------------------------- the errors that need no search

  function CountErrors(g: Plan): seq<PlanError> {
    if |g.deps| != EXPECTED_COUNT then [WrongCount(|g.deps|)] else []
  }

  function UnknownOf(g: Plan, task: string, deps: seq<string>): seq<PlanError> {
    if |deps| == 0 then []
    else
      UnknownOf(g, task, deps[..|deps| - 1])
      + (if deps[|deps| - 1] in g.deps then [] else [UnknownDependency(task, deps[|deps| - 1])])
  }

  function UnknownErrors(g: Plan, tasks: seq<string>): seq<PlanError>
    requires forall i :: 0 <= i < |tasks| ==> tasks[i] in g.deps
  {
    if |tasks| == 0 then []
    else UnknownErrors(g, tasks[..|tasks| - 1]) + UnknownOf(g, tasks[|tasks| - 1], g.deps[tasks[|tasks| - 1]])
  }

  lemma {:induction false} UnknownMeans(g: Plan, task: string, deps: seq<string>, e: PlanError)
    ensures e in UnknownOf(g, task, deps) <==>
            e.UnknownDependency? && e.task == task && e.dep in deps && e.dep !in g.deps
  {
    if |deps| > 0 {
      var init, last := deps[..|deps| - 1], deps[|deps| - 1];
      UnknownMeans(g, task, init, e);
      assert deps == init + [last];
    }
  }

  /** The unknown dependencies reported are exactly those there are. */
  lemma {:induction false} UnknownsReported(g: Plan, tasks: seq<string>, e: PlanError)
    requires forall i :: 0 <= i < |tasks| ==> tasks[i] in g.deps
    ensures e in UnknownErrors(g, tasks) <==>
            e.UnknownDependency? && e.task in tasks && DependsOn(g, e.task, e.dep) && e.dep !in g.deps
  {
    if |tasks| > 0 {
      var init, last := tasks[..|tasks| - 1], tasks[|tasks| - 1];
      UnknownsReported(g, init, e);
      UnknownMeans(g, last, g.deps[last], e);
      assert tasks == init + [last];
    }
  }

  // ---------------------------------------------------------------- the search

  function Nodes(g: Plan): set<string> {
    g.deps.Keys + set u, i | u in g.deps && 0 <= i < |g.deps[u]| :: g.deps[u][i]
  }

  ghost predicate AllOnCycles(g: Plan, cycles: seq<PlanError>) {
    forall i :: 0 <= i < |cycles| ==> cycles[i].CycleAt? && OnCycle(g, cycles[i].task)
  }

  /** The nodes on the way from the root to the current one, which are the ones being visited. */
  ghost predicate IsStack(g: Plan, visiting: set<string>, stack: seq<string>) {
    IsPath(g, stack) && forall u :: u in stack <==> u in visiting
  }

  class Search {
    const plan: Plan
    var visiting: set<string>
    var visited: set<string>
    var cycles: seq<PlanError>
    /** The nodes in the order they were finished. */
    ghost var finished: seq<string>

    constructor (plan: Plan)
      ensures this.plan == plan && visiting == {} && visited == {} && cycles == [] && finished == []
    {
      this.plan := plan;
      visiting, visited, cycles, finished := {}, {}, [], [];
    }

    ghost predicate Valid()
      reads this
    {
      && visiting !! visited && visiting <= Nodes(plan)
      && (forall u :: u in finished <==> u in visited) && !Repeats(finished)
      && AllOnCycles(plan, cycles)
      && (cycles == [] ==> DepsFirst(plan, finished))
    }

    method Visit(node: string, ghost stack: seq<string>)
      requires Valid() && node in Nodes(plan)
      requires IsStack(plan, visiting, stack) && (|stack| > 0 ==> DependsOn(plan, stack[|stack| - 1], node))
      modifies this
      ensures Valid() && visiting == old(visiting) && old(visited) <= visited
      ensures old(cycles) <= cycles && old(finished) <= finished
      ensures cycles == [] ==> node in visited
      decreases Nodes(plan) - visiting
    {
      hide Valid, IsStack, DependsOn, Nodes;
      if node in visiting {
        ReportCycle(node, stack);
        return;
      }
      if node in visited {
        return;
      }
      Enter(node, stack);
      var deps := if node in plan.deps then plan.deps[node] else [];
      for i := 0 to |deps|
        invariant Valid() && IsStack(plan, visiting, stack + [node]) && visiting == old(visiting) + {node} && old(visited) <= visited
        invariant old(cycles) <= cycles && old(finished) <= finished
        invariant cycles == [] ==> forall k :: 0 <= k < i ==> deps[k] in visited
      {
        DependencyIsNode(plan, node, i);
        assert (stack + [node])[|stack + [node]| - 1] == node;
        Visit(deps[i], stack + [node]);
      }
      Finish(node, deps);
    }

    /** Starts visiting a node. */
    method Enter(node: string, ghost stack: seq<string>)
      requires Valid() && IsStack(plan, visiting, stack) && node in Nodes(plan) && node !in visiting && node !in visited
      requires |stack| > 0 ==> DependsOn(plan, stack[|stack| - 1], node)
      modifies this`visiting
      ensures Valid() && IsStack(plan, visiting, stack + [node]) && visiting == old(visiting) + {node}
    {
      hide Nodes, AllOnCycles, DepsFirst, Repeats;
      PushPath(plan, stack, node);
      visiting := visiting + {node};
    }

    /** Reports a node that the way has come back to. */
    method ReportCycle(node: string, ghost stack: seq<string>)
      requires Valid() && IsStack(plan, visiting, stack) && node in visiting && (|stack| > 0 ==> DependsOn(plan, stack[|stack| - 1], node))
      modifies this`cycles
      ensures Valid() && cycles == old(cycles) + [CycleAt(node)]
    {
      hide Nodes, AllOnCycles, DepsFirst, Repeats;
      CloseCycle(plan, stack, node, cycles);
      cycles := cycles + [CycleAt(node)];
    }

    /** A node whose dependencies have all been looked at. */
    method Finish(node: string, ghost deps: seq<string>)
      requires Valid() && node in visiting && deps == (if node in plan.deps then plan.deps[node] else [])
      requires cycles == [] ==> forall k :: 0 <= k < |deps| ==> deps[k] in visited
      modifies this
      ensures Valid() && visiting == old(visiting) - {node} && visited == old(visited) + {node}
      ensures cycles == old(cycles) && finished == old(finished) + [node]
    {
      FinishKeeps(plan, finished, node, cycles == []);
      visiting, visited, finished := visiting - {node}, visited + {node}, finished + [node];
    }
  }

  lemma FinishKeeps(g: Plan, finished: seq<string>, node: string, clean: bool)
    requires !Repeats(finished) && node !in finished
    requires clean ==> DepsFirst(g, finished) && forall v :: DependsOn(g, node, v) ==> v in finished
    ensures !Repeats(finished + [node])
    ensures clean ==> DepsFirst(g, finished + [node])
  {
    var longer := finished + [node];
    if clean {
      forall i, v | 0 <= i < |longer| && DependsOn(g, longer[i], v) ensures v in longer[..i] {
        assert longer[..i] == finished[..i];
        assert i == |finished| ==> finished[..i] == finished;
      }
    }
  }

  lemma PushPath(g: Plan, stack: seq<string>, node: string)
    requires IsPath(g, stack) && (|stack| > 0 ==> DependsOn(g, stack[|stack| - 1], node))
    ensures IsPath(g, stack + [node])
  {
  }

  lemma DependencyIsNode(g: Plan, node: string, i: nat)
    requires node in g.deps && i < |g.deps[node]|
    ensures DependsOn(g, node, g.deps[node][i]) && g.deps[node][i] in Nodes(g)
  {
  }

  /** Coming back to a node on the way is finding a cycle through it. */
  lemma CloseCycle(g: Plan, stack: seq<string>, node: string, cycles: seq<PlanError>)
    requires IsPath(g, stack) && node in stack && DependsOn(g, stack[|stack| - 1], node) && AllOnCycles(g, cycles)
    ensures AllOnCycles(g, cycles + [CycleAt(node)])
  {
    var k :| 0 <= k < |stack| && stack[k] == node;
    var cycle := stack[k..] + [node];
    assert IsCycle(g, cycle);
  }

  method UnknownIn(g: Plan, task: string, deps: seq<string>) returns (errors: seq<PlanError>)
    ensures errors == UnknownOf(g, task, deps)
  {
    errors := [];
    for k := 0 to |deps|
      invariant errors == UnknownOf(g, task, deps[..k])
    {
      assert deps[..k + 1][..k] == deps[..k];
      if deps[k] !in g.deps {
        errors := errors + [UnknownDependency(task, deps[k])];
      }
    }
    assert deps[..|deps|] == deps;
  }

  /** The first two kinds of errors. */
  method TableErrors(g: Plan) returns (errors: seq<PlanError>)
    requires IsPlan(g)
    ensures errors == CountErrors(g) + UnknownErrors(g, g.order)
  {
    errors := [];
    if |g.deps| != EXPECTED_COUNT {
      errors := errors + [WrongCount(|g.deps|)];
    }
    ghost var unknowns: seq<PlanError> := [];
    for i := 0 to |g.order|
      invariant unknowns == UnknownErrors(g, g.order[..i]) && errors == CountErrors(g) + unknowns
    {
      UnknownsNext(g, g.order, i);
      var unknown := UnknownIn(g, g.order[i], g.deps[g.order[i]]);
      Associates(CountErrors(g), unknowns, unknown);
      errors, unknowns := errors + unknown, unknowns + unknown;
    }
    assert g.order[..|g.order|] == g.order;
  }

  lemma Associates(a: seq<PlanError>, b: seq<PlanError>, c: seq<PlanError>)
    ensures a + b + c == a + (b + c)
  {
  }

  lemma UnknownsNext(g: Plan, tasks: seq<string>, i: nat)
    requires i < |tasks| && forall n :: 0 <= n < |tasks| ==> tasks[n] in g.deps
    ensures UnknownErrors(g, tasks[..i + 1]) == UnknownErrors(g, tasks[..i]) + UnknownOf(g, tasks[i], g.deps[tasks[i]])
  {
    assert tasks[..i + 1][..i] == tasks[..i];
  }

  /** Searches from every task. */
  method FindCycles(g: Plan) returns (cycles: seq<PlanError>, ghost order: seq<string>)
    requires IsPlan(g)
    ensures AllOnCycles(g, cycles)
    ensures cycles == [] <==> !Cyclic(g)
    ensures !Cyclic(g) ==> Topological(g, order)
  {
    var search := new Search(g);
    for i := 0 to |g.order|
      invariant search.Valid() && search.visiting == {}
      invariant search.cycles == [] ==> forall k :: 0 <= k < i ==> g.order[k] in search.visited
    {
      search.Visit(g.order[i], []);
    }
    cycles, order := search.cycles, search.finished;
    if cycles == [] {
      assert Topological(g, order);
      OrderedIsAcyclic(g, order);
    } else {
      assert cycles[0].CycleAt? && OnCycle(g, cycles[0].task);
    }
  }

  /** Every node the plan names is finished, each after its dependencies, unless a cycle was reported;
      every report names a node that lies on a cycle; and there is a report exactly when there is a cycle. */
  method Validate(g: Plan) returns (errors: seq<PlanError>, ghost cycles: seq<PlanError>, ghost order: seq<string>)
    requires IsPlan(g)
    ensures errors == CountErrors(g) + UnknownErrors(g, g.order) + cycles
    ensures AllOnCycles(g, cycles)
    ensures cycles == [] <==> !Cyclic(g)
    ensures !Cyclic(g) ==> Topological(g, order)
  {
    errors := TableErrors(g);
    var found;
    found, order := FindCycles(g);
    cycles := found;
    errors := errors + found;
  }

  /** A plan passes exactly when it has the expected number of tasks, names no unknown one, and its
      dependencies have no cycle. */
  lemma PassesExactly(g: Plan, cycles: seq<PlanError>)
    requires IsPlan(g) && (cycles == [] <==> !Cyclic(g))
    ensures CountErrors(g) + UnknownErrors(g, g.order) + cycles == [] <==>
            |g.deps| == EXPECTED_COUNT && (forall u, v :: DependsOn(g, u, v) ==> v in g.deps) && !Cyclic(g)
  {
    var unknown := UnknownErrors(g, g.order);
    if u, v :| DependsOn(g, u, v) && v !in g.deps {
      UnknownsReported(g, g.order, UnknownDependency(u, v));
    } else if unknown != [] {
      UnknownsReported(g, g.order, unknown[0]);
    }
  }
}
