/**
 * `buildDag`: one node per task id, every dependency checked and mirrored into the
 * `dependents` list of the node it names, and the result rejected if it has a cycle.
 */
module DagBuilder {
  import opened Wrappers
  import opened Seqs
  import opened Strings
  import opened Errors
  import opened TaskTypes
  import opened DagTypes
  import CycleDetector

  datatype BuildError =
    | DependencyNotFound(depId: TaskId, taskId: TaskId)
    | CycleDetected(cycle: seq<TaskId>)

  /** The `OrchestratorError` thrown for each failure, with its code and message. */
  function ToOrchestratorError(e: BuildError): (r: OrchestratorError)
    ensures e.DependencyNotFound? ==> r.code == TaskDependencyNotFound
    ensures e.CycleDetected? ==> r.code == DagCycleDetected
  {
    match e
    case DependencyNotFound(depId, taskId) =>
      OrchestratorError(TaskDependencyNotFound,
                        "Task dependency not found: \"" + depId + "\" for task \"" + taskId + "\"")
    case CycleDetected(cycle) =>
      OrchestratorError(DagCycleDetected, "Cycle detected in task dependencies: " + Join(cycle, " -> "))
  }

  // ----- Specification -----

  /** `nodes.set(task.id, …)` applied to the graph: a new id is appended, an existing one keeps its place. */
  function SetTask(d: Dag, t: Task): Dag {
    Dag(if t.id in d.nodes then d.keys else d.keys + [t.id],
        d.nodes[t.id := DagNode(t.id, t.dependsOn, [])])
  }

  /** The graph after the first loop. */
  function InitialDag(tasks: seq<Task>): Dag {
    if |tasks| == 0 then Dag([], map[])
    else SetTask(InitialDag(tasks[..|tasks| - 1]), tasks[|tasks| - 1])
  }

  /** A dependency edge: `task` depends on `dep`. */
  datatype Edge = Edge(task: TaskId, dep: TaskId)

  function EdgesFrom(k: TaskId, deps: seq<TaskId>): seq<Edge> {
    if |deps| == 0 then [] else EdgesFrom(k, deps[..|deps| - 1]) + [Edge(k, deps[|deps| - 1])]
  }

  /** All edges in the order the second loop visits them: node by node, then dependency by dependency. */
  function Edges(keys: seq<TaskId>, d: Dag): seq<Edge> {
    if |keys| == 0 then []
    else Edges(keys[..|keys| - 1], d) + EdgesFrom(keys[|keys| - 1], Deps(d, keys[|keys| - 1]))
  }

  /** The first edge whose dependency names no node. */
  function FirstMissing(es: seq<Edge>, d: Dag): Option<Edge> {
    if |es| == 0 then None
    else match FirstMissing(es[..|es| - 1], d)
      case Some(e) => Some(e)
      case None => if es[|es| - 1].dep in d.nodes then None else Some(es[|es| - 1])
  }

  /** Who depends on `x`, one entry per edge, in edge order. */
  function DependentsOf(es: seq<Edge>, x: TaskId): seq<TaskId> {
    if |es| == 0 then []
    else DependentsOf(es[..|es| - 1], x) + (if es[|es| - 1].dep == x then [es[|es| - 1].task] else [])
  }

  /** The graph after the second loop when no dependency is missing. */
  function Linked(d: Dag): Dag {
    var es := Edges(d.keys, d);
    Dag(d.keys, map k | k in d.nodes :: d.nodes[k].(dependents := DependentsOf(es, k)))
  }

  // ----- The operation -----

  method BuildDag(tasks: seq<Task>) returns (r: Result<Dag, BuildError>)
    ensures var d := InitialDag(tasks);
            match FirstMissing(Edges(d.keys, d), d)
            case Some(e) => r == Err(DependencyNotFound(e.dep, e.task))
            case None =>
              && (r.Ok? <==> NoCycle(Linked(d)))
              && (r.Ok? ==> r.value == Linked(d))
              && (r.Err? ==> r.error.CycleDetected? && IsCycle(Linked(d), r.error.cycle)
                             && Distinct(r.error.cycle))
  {
    var d := InitialNodes(tasks);
    InitialWellFormed(tasks);
    var linked := LinkDependents(d);
    if linked.Err? {
      return linked;
    }
    var dag := linked.value;
    var cycle := CycleDetector.DetectCycle(dag);
    if cycle.Some? {
      return Err(CycleDetected(cycle.value));
    }
    return Ok(dag);
  }

  /** The first loop: one node per task id. */
  method InitialNodes(tasks: seq<Task>) returns (d: Dag)
    ensures d == InitialDag(tasks)
  {
    var keys: seq<TaskId> := [];
    var nodes: map<TaskId, DagNode> := map[];
    var n := 0;
    while n < |tasks|
      invariant n <= |tasks|
      invariant Dag(keys, nodes) == InitialDag(tasks[..n])
    {
      var task := tasks[n];
      if task.id !in nodes {
        keys := keys + [task.id];
      }
      nodes := nodes[task.id := DagNode(task.id, task.dependsOn, [])];
      assert tasks[..n + 1][..n] == tasks[..n];
      n := n + 1;
    }
    assert tasks[..n] == tasks;
    d := Dag(keys, nodes);
  }

  /** `nodes` is the initial graph with each node's dependents read off the edges `es`. */
  ghost predicate LinkedUpTo(d: Dag, nodes: map<TaskId, DagNode>, es: seq<Edge>) {
    && nodes.Keys == d.nodes.Keys
    && forall k :: k in nodes ==> nodes[k] == d.nodes[k].(dependents := DependentsOf(es, k))
  }

  /**
   * The second loop: every dependency is looked up, in edge order, and the depending
   * node is pushed onto the dependency's `dependents`; the first unknown one is reported.
   */
  method LinkDependents(d: Dag) returns (r: Result<Dag, BuildError>)
    requires WellFormed(d)
    requires forall k :: k in d.nodes ==> d.nodes[k].id == k && d.nodes[k].dependents == []
    ensures match FirstMissing(Edges(d.keys, d), d)
            case Some(e) => r == Err(DependencyNotFound(e.dep, e.task))
            case None => r == Ok(Linked(d))
  {
    var keys := d.keys;
    var nodes := d.nodes;
    var i := 0;
    assert LinkedUpTo(d, nodes, []);
    while i < |keys|
      invariant i <= |keys|
      invariant LinkedUpTo(d, nodes, Edges(keys[..i], d))
      invariant FirstMissing(Edges(keys[..i], d), d) == None
    {
      var missing;
      missing, nodes := PushDependents(d, nodes, i);
      if missing.Some? {
        return Err(missing.value);
      }
      i := i + 1;
    }
    assert keys[..i] == keys;
    LinkedAll(d, nodes);
    r := Ok(Dag(keys, nodes));
  }

  /** The inner loop for the `i`-th node. */
  method PushDependents(d: Dag, nodes0: map<TaskId, DagNode>, i: nat)
    returns (missing: Option<BuildError>, nodes: map<TaskId, DagNode>)
    requires WellFormed(d) && i < |d.keys|
    requires forall k :: k in d.nodes ==> d.nodes[k].id == k
    requires LinkedUpTo(d, nodes0, Edges(d.keys[..i], d))
    requires FirstMissing(Edges(d.keys[..i], d), d) == None
    ensures missing.Some? ==> FirstMissing(Edges(d.keys, d), d).Some?
    ensures missing.Some? ==> var e := FirstMissing(Edges(d.keys, d), d).value;
                              missing == Some(DependencyNotFound(e.dep, e.task))
    ensures missing.None? ==> LinkedUpTo(d, nodes, Edges(d.keys[..i + 1], d))
    ensures missing.None? ==> FirstMissing(Edges(d.keys[..i + 1], d), d) == None
  {
    nodes := nodes0;
    var k := d.keys[i];
    var deps := nodes[k].dependencies;
    assert deps == Deps(d, k);
    ghost var base := Edges(d.keys[..i], d);
    ghost var es := base;
    assert deps[..0] == [];
    var j := 0;
    while j < |deps|
      invariant j <= |deps|
      invariant es == base + EdgesFrom(k, deps[..j])
      invariant LinkedUpTo(d, nodes, es)
      invariant FirstMissing(es, d) == None
    {
      var depId := deps[j];
      EdgesFromStep(k, deps, j);
      if depId !in nodes {
        MissingIsFirst(d, i, j);
        return Some(DependencyNotFound(depId, nodes[k].id)), nodes;
      }
      var depNode := nodes[depId];
      PushInv(d, nodes, base, k, deps, j, es);
      nodes := nodes[depId := depNode.(dependents := depNode.dependents + [nodes[k].id])];
      es := es + [Edge(k, depId)];
      j := j + 1;
    }
    assert deps[..j] == deps;
    EdgesStep(d.keys, d, i);
    missing := None;
  }

  // ----- Lemmas -----

  /** The first loop builds a well-formed map whose nodes carry their own id and no dependents yet. */
  lemma {:induction false} InitialWellFormed(tasks: seq<Task>)
    ensures WellFormed(InitialDag(tasks))
    ensures forall k :: k in InitialDag(tasks).nodes ==>
      InitialDag(tasks).nodes[k].id == k && InitialDag(tasks).nodes[k].dependents == []
  {
    if |tasks| > 0 {
      InitialWellFormed(tasks[..|tasks| - 1]);
    }
  }

  /** Every task id gets a node, and no other id does. */
  lemma {:induction false} InitialKeys(tasks: seq<Task>, k: TaskId)
    ensures k in InitialDag(tasks).nodes <==> exists i :: 0 <= i < |tasks| && tasks[i].id == k
  {
    if |tasks| > 0 {
      var front := tasks[..|tasks| - 1];
      InitialKeys(front, k);
      if k in InitialDag(front).nodes {
        var i :| 0 <= i < |front| && front[i].id == k;
        assert tasks[i].id == k;
      }
      if exists i :: 0 <= i < |tasks| && tasks[i].id == k {
        var i :| 0 <= i < |tasks| && tasks[i].id == k;
        if i < |front| {
          assert front[i].id == k;
        }
      }
    }
  }

  /** When ids repeat, the last task with the id decides the node's dependencies. */
  lemma {:induction false} InitialLastWins(tasks: seq<Task>, i: nat)
    requires i < |tasks|
    requires forall j :: i < j < |tasks| ==> tasks[j].id != tasks[i].id
    ensures tasks[i].id in InitialDag(tasks).nodes
    ensures InitialDag(tasks).nodes[tasks[i].id].dependencies == tasks[i].dependsOn
  {
    if i < |tasks| - 1 {
      var front := tasks[..|tasks| - 1];
      InitialLastWins(front, i);
    }
  }

  /** Keys appear in the order of the first task with each id. */
  lemma {:induction false} InitialOrder(tasks: seq<Task>, i: nat, j: nat)
    requires i < j < |tasks|
    requires tasks[i].id != tasks[j].id
    requires forall k :: 0 <= k < i ==> tasks[k].id != tasks[i].id
    requires forall k :: 0 <= k < j ==> tasks[k].id != tasks[j].id
    ensures exists p, q ::
              && 0 <= p < q < |InitialDag(tasks).keys|
              && InitialDag(tasks).keys[p] == tasks[i].id && InitialDag(tasks).keys[q] == tasks[j].id
  {
    var front := tasks[..j];
    InitialKeys(front, tasks[i].id);
    assert front[i].id == tasks[i].id;
    InitialWellFormed(front);
    var p :| 0 <= p < |InitialDag(front).keys| && InitialDag(front).keys[p] == tasks[i].id;
    var q := NewKeyAppended(tasks, j);
    KeysGrow(tasks, j + 1);
    assert InitialDag(tasks).keys[p] == tasks[i].id && InitialDag(tasks).keys[q] == tasks[j].id;
  }

  /** The first task with an id appends that id right after the keys of the tasks before it. */
  lemma NewKeyAppended(tasks: seq<Task>, j: nat) returns (q: nat)
    requires j < |tasks| && forall k :: 0 <= k < j ==> tasks[k].id != tasks[j].id
    ensures q == |InitialDag(tasks[..j]).keys|
    ensures InitialDag(tasks[..j + 1]).keys == InitialDag(tasks[..j]).keys + [tasks[j].id]
  {
    var front := tasks[..j];
    assert tasks[j].id !in InitialDag(front).nodes by {
      InitialKeys(front, tasks[j].id);
    }
    assert tasks[..j + 1][..j] == front;
    q := |InitialDag(front).keys|;
  }

  /** Later tasks only append keys. */
  lemma {:induction false} KeysGrow(tasks: seq<Task>, n: nat)
    requires n <= |tasks|
    ensures InitialDag(tasks[..n]).keys <= InitialDag(tasks).keys
  {
    if n < |tasks| {
      KeysGrow(tasks[..|tasks| - 1], n);
      assert tasks[..|tasks| - 1][..n] == tasks[..n];
      assert tasks[..|tasks| - 1] == tasks[..|tasks| - 1][..|tasks| - 1];
    } else {
      assert tasks[..n] == tasks;
    }
  }

  lemma EdgesFromStep(k: TaskId, deps: seq<TaskId>, j: nat)
    requires j < |deps|
    ensures EdgesFrom(k, deps[..j + 1]) == EdgesFrom(k, deps[..j]) + [Edge(k, deps[j])]
  {
    assert deps[..j + 1][..j] == deps[..j];
  }

  lemma EdgesStep(keys: seq<TaskId>, d: Dag, i: nat)
    requires i < |keys|
    ensures Edges(keys[..i + 1], d) == Edges(keys[..i], d) + EdgesFrom(keys[i], Deps(d, keys[i]))
  {
    assert keys[..i + 1][..i] == keys[..i];
  }

  lemma LinkedAll(d: Dag, nodes: map<TaskId, DagNode>)
    requires LinkedUpTo(d, nodes, Edges(d.keys, d))
    ensures Dag(d.keys, nodes) == Linked(d)
  {
    assert nodes == Linked(d).nodes;
  }

  /** One push in the inner loop keeps its three invariants. */
  lemma PushInv(d: Dag, nodes: map<TaskId, DagNode>, base: seq<Edge>, k: TaskId, deps: seq<TaskId>, j: nat, es: seq<Edge>)
    requires j < |deps| && deps[j] in nodes && k in d.nodes && d.nodes[k].id == k
    requires es == base + EdgesFrom(k, deps[..j]) && LinkedUpTo(d, nodes, es) && FirstMissing(es, d) == None
    ensures var e := Edge(k, deps[j]);
            && es + [e] == base + EdgesFrom(k, deps[..j + 1])
            && FirstMissing(es + [e], d) == None
            && nodes[k].id == k
            && LinkedUpTo(d, nodes[deps[j] := nodes[deps[j]].(dependents := nodes[deps[j]].dependents + [k])], es + [e])
  {
    var e := Edge(k, deps[j]);
    EdgesFromStep(k, deps, j);
    assert (es + [e])[..|es|] == es;
    PushStep(d, nodes, es, e);
  }

  lemma PushStep(d: Dag, nodes: map<TaskId, DagNode>, es: seq<Edge>, e: Edge)
    requires LinkedUpTo(d, nodes, es) && e.dep in nodes
    ensures LinkedUpTo(d, nodes[e.dep := nodes[e.dep].(dependents := nodes[e.dep].dependents + [e.task])], es + [e])
  {
    var after := nodes[e.dep := nodes[e.dep].(dependents := nodes[e.dep].dependents + [e.task])];
    forall k | k in after
      ensures after[k] == d.nodes[k].(dependents := DependentsOf(es + [e], k))
    {
      DependentsSnoc(es, e, k);
    }
  }

  lemma DependentsSnoc(es: seq<Edge>, e: Edge, x: TaskId)
    ensures DependentsOf(es + [e], x) == DependentsOf(es, x) + (if e.dep == x then [e.task] else [])
  {
    assert (es + [e])[..|es|] == es;
  }

  /** An unknown dependency met with no earlier one unknown is the first one of the whole edge order. */
  lemma MissingIsFirst(d: Dag, i: nat, j: nat)
    requires i < |d.keys| && j < |Deps(d, d.keys[i])|
    requires Deps(d, d.keys[i])[j] !in d.nodes
    requires FirstMissing(Edges(d.keys[..i], d) + EdgesFrom(d.keys[i], Deps(d, d.keys[i])[..j]), d) == None
    ensures FirstMissing(Edges(d.keys, d), d) == Some(Edge(d.keys[i], Deps(d, d.keys[i])[j]))
  {
    var k := d.keys[i];
    var deps := Deps(d, k);
    var es := Edges(d.keys[..i], d) + EdgesFrom(k, deps[..j + 1]);
    assert deps[..j + 1][..j] == deps[..j];
    assert es == Edges(d.keys[..i], d) + EdgesFrom(k, deps[..j]) + [Edge(k, deps[j])];
    assert FirstMissing(es, d) == Some(Edge(k, deps[j]));
    EdgesUpTo(d, i, j + 1);
    FirstMissingPrefix(es, Edges(d.keys, d), d);
  }

  /** The edges of the first `i` nodes and the first `n` dependencies of the next come first in the edge order. */
  lemma EdgesUpTo(d: Dag, i: nat, n: nat)
    requires i < |d.keys| && n <= |Deps(d, d.keys[i])|
    ensures Edges(d.keys[..i], d) + EdgesFrom(d.keys[i], Deps(d, d.keys[i])[..n]) <= Edges(d.keys, d)
  {
    var k := d.keys[i];
    var deps := Deps(d, k);
    var es := Edges(d.keys[..i], d) + EdgesFrom(k, deps[..n]);
    EdgesFromPrefix(k, deps, n);
    assert d.keys[..i + 1][..i] == d.keys[..i];
    assert Edges(d.keys[..i + 1], d) == Edges(d.keys[..i], d) + EdgesFrom(k, deps);
    PrefixConcat(Edges(d.keys[..i], d), EdgesFrom(k, deps[..n]), EdgesFrom(k, deps));
    EdgesPrefix(d.keys, d, i + 1);
    PrefixTrans(es, Edges(d.keys[..i + 1], d), Edges(d.keys, d));
  }

  lemma PrefixConcat<T>(a: seq<T>, b: seq<T>, c: seq<T>)
    requires b <= c
    ensures a + b <= a + c
  {
    assert (a + c)[..|a + b|] == a + c[..|b|];
  }

  lemma {:induction false} EdgesFromPrefix(k: TaskId, deps: seq<TaskId>, n: nat)
    requires n <= |deps|
    ensures EdgesFrom(k, deps[..n]) <= EdgesFrom(k, deps)
  {
    if n == |deps| {
      assert deps[..n] == deps;
    } else {
      var front := deps[..|deps| - 1];
      EdgesFromPrefix(k, front, n);
      assert front[..n] == deps[..n];
      PrefixTrans(EdgesFrom(k, deps[..n]), EdgesFrom(k, front), EdgesFrom(k, deps));
    }
  }

  lemma {:induction false} EdgesPrefix(keys: seq<TaskId>, d: Dag, n: nat)
    requires n <= |keys|
    ensures Edges(keys[..n], d) <= Edges(keys, d)
  {
    if n == |keys| {
      assert keys[..n] == keys;
    } else {
      var front := keys[..|keys| - 1];
      EdgesPrefix(front, d, n);
      assert front[..n] == keys[..n];
      PrefixTrans(Edges(keys[..n], d), Edges(front, d), Edges(keys, d));
    }
  }

  /** Once an unknown dependency has been met, later edges do not change which one is first. */
  lemma {:induction false} FirstMissingPrefix(p: seq<Edge>, q: seq<Edge>, d: Dag)
    requires p <= q && FirstMissing(p, d).Some?
    ensures FirstMissing(q, d) == FirstMissing(p, d)
  {
    if |q| > |p| {
      var front := q[..|q| - 1];
      assert p <= front;
      FirstMissingPrefix(p, front, d);
    } else {
      assert p == q;
    }
  }

  /**
   * A built graph keeps the keys and dependencies of the first loop and mirrors every edge:
   * `b` occurs in the dependents of `a` as often as `a` occurs in the dependencies of `b`.
   */
  lemma LinkedMirrors(tasks: seq<Task>, a: TaskId, b: TaskId)
    requires a in InitialDag(tasks).nodes && b in InitialDag(tasks).nodes
    ensures var d := InitialDag(tasks);
            && Linked(d).keys == d.keys && Linked(d).nodes.Keys == d.nodes.Keys
            && Linked(d).nodes[b].dependencies == d.nodes[b].dependencies
            && multiset(Linked(d).nodes[a].dependents)[b] == multiset(Linked(d).nodes[b].dependencies)[a]
  {
    var d := InitialDag(tasks);
    InitialWellFormed(tasks);
    CountDependents(d.keys, d, a, b);
    CountIsMultiplicity(Linked(d).nodes[a].dependents, b);
    CountIsMultiplicity(Linked(d).nodes[b].dependencies, a);
  }

  lemma {:induction false} CountDependents(keys: seq<TaskId>, d: Dag, a: TaskId, b: TaskId)
    requires Distinct(keys)
    ensures Count(DependentsOf(Edges(keys, d), a), b) == if b in keys then Count(Deps(d, b), a) else 0
  {
    if |keys| > 0 {
      var front := keys[..|keys| - 1];
      var last := keys[|keys| - 1];
      CountDependents(front, d, a, b);
      DependentsAppend(Edges(front, d), EdgesFrom(last, Deps(d, last)), a);
      CountAppend(DependentsOf(Edges(front, d), a), DependentsOf(EdgesFrom(last, Deps(d, last)), a), b);
      CountFrom(last, Deps(d, last), a, b);
      assert b in keys <==> b in front || b == last;
      assert last !in front;
    }
  }

  lemma {:induction false} CountFrom(k: TaskId, deps: seq<TaskId>, a: TaskId, b: TaskId)
    ensures Count(DependentsOf(EdgesFrom(k, deps), a), b) == if k == b then Count(deps, a) else 0
  {
    if |deps| > 0 {
      var front := deps[..|deps| - 1];
      var last := deps[|deps| - 1];
      var ef := EdgesFrom(k, front);
      CountFrom(k, front, a, b);
      assert EdgesFrom(k, deps) == ef + [Edge(k, last)];
      DependentsSnoc(ef, Edge(k, last), a);
      CountAppend(DependentsOf(ef, a), if last == a then [k] else [], b);
    }
  }

  lemma {:induction false} DependentsAppend(es: seq<Edge>, more: seq<Edge>, x: TaskId)
    ensures DependentsOf(es + more, x) == DependentsOf(es, x) + DependentsOf(more, x)
  {
    if |more| > 0 {
      var front := more[..|more| - 1];
      DependentsAppend(es, front, x);
      assert (es + more)[..|es + more| - 1] == es + front;
    } else {
      assert es + more == es;
    }
  }

  /** The graph `buildDag` returns satisfies every fact Kahn's algorithm relies on. */
  lemma BuiltConsistent(tasks: seq<Task>)
    requires var d := InitialDag(tasks); FirstMissing(Edges(d.keys, d), d) == None
    ensures Consistent(Linked(InitialDag(tasks)))
  {
    var d := InitialDag(tasks);
    var es := Edges(d.keys, d);
    var l := Linked(d);
    InitialWellFormed(tasks);
    NoneMissing(es, d);
    forall k, w | k in l.nodes && w in l.nodes[k].dependencies
      ensures w in l.nodes
    {
      EdgeListed(d.keys, d, k, w);
      var i :| 0 <= i < |es| && es[i] == Edge(k, w);
    }
    forall a, b | a in l.nodes && b in l.nodes
      ensures Count(l.nodes[a].dependents, b) == Count(l.nodes[b].dependencies, a)
    {
      CountDependents(d.keys, d, a, b);
    }
    forall k, w | k in l.nodes && w in l.nodes[k].dependents
      ensures w in l.nodes
    {
      CountDependents(d.keys, d, k, w);
      CountIsMultiplicity(l.nodes[k].dependents, w);
    }
  }

  /** No dependency is missing exactly when every edge's dependency names a node. */
  lemma {:induction false} NoneMissing(es: seq<Edge>, d: Dag)
    ensures FirstMissing(es, d) == None <==> forall i :: 0 <= i < |es| ==> es[i].dep in d.nodes
  {
    if |es| > 0 {
      var front := es[..|es| - 1];
      NoneMissing(front, d);
      assert forall i :: 0 <= i < |front| ==> front[i] == es[i];
    }
  }

  /** Every dependency of every key is one of the edges the second loop visits. */
  lemma {:induction false} EdgeListed(keys: seq<TaskId>, d: Dag, k: TaskId, w: TaskId)
    requires k in keys && w in Deps(d, k)
    ensures Edge(k, w) in Edges(keys, d)
  {
    var front, last := keys[..|keys| - 1], keys[|keys| - 1];
    assert keys == front + [last];
    if k == last {
      EdgeFromListed(k, Deps(d, k), w);
    } else {
      EdgeListed(front, d, k, w);
    }
  }

  lemma {:induction false} EdgeFromListed(k: TaskId, deps: seq<TaskId>, w: TaskId)
    requires w in deps
    ensures Edge(k, w) in EdgesFrom(k, deps)
  {
    var front, last := deps[..|deps| - 1], deps[|deps| - 1];
    assert deps == front + [last];
    if w != last {
      EdgeFromListed(k, front, w);
    }
  }

  /** The first example of the builder's tests: `B` depends on `A`, so `A` gets `B` as its dependent. */
  lemma TwoTaskExample(a: Task, b: Task)
    requires a.id == "A" && a.dependsOn == [] && b.id == "B" && b.dependsOn == ["A"]
    ensures var d := InitialDag([a, b]);
            && d == Dag(["A", "B"], map["A" := DagNode("A", [], []), "B" := DagNode("B", ["A"], [])])
            && FirstMissing(Edges(d.keys, d), d) == None
            && Linked(d).nodes["A"].dependents == ["B"]
  {
    TwoTaskInitial(a, b);
    var d := InitialDag([a, b]);
    var es := [Edge("B", "A")];
    TwoTaskEdges(d);
    assert es[..0] == [];
    assert FirstMissing(es, d) == None;
    assert DependentsOf(es, "A") == ["B"];
  }

  lemma TwoTaskInitial(a: Task, b: Task)
    requires a.id == "A" && a.dependsOn == [] && b.id == "B" && b.dependsOn == ["A"]
    ensures InitialDag([a, b]) == Dag(["A", "B"], map["A" := DagNode("A", [], []), "B" := DagNode("B", ["A"], [])])
  {
    assert [a, b][..1] == [a];
    assert [a][..0] == [];
    assert InitialDag([]) == Dag([], map[]);
    assert InitialDag([a]) == SetTask(InitialDag([]), a);
    assert InitialDag([a, b]) == SetTask(InitialDag([a]), b);
  }

  lemma TwoTaskEdges(d: Dag)
    requires d == Dag(["A", "B"], map["A" := DagNode("A", [], []), "B" := DagNode("B", ["A"], [])])
    ensures Edges(d.keys, d) == [Edge("B", "A")]
  {
    assert Deps(d, "A") == [] && Deps(d, "B") == ["A"];
    assert ["A"][..0] == [];
    assert Edges(["A"], d) == Edges([], d) + EdgesFrom("A", []);
    assert EdgesFrom("B", ["A"]) == EdgesFrom("B", []) + [Edge("B", "A")];
    assert ["A", "B"][..1] == ["A"];
    assert Edges(["A", "B"], d) == Edges(["A"], d) + EdgesFrom("B", ["A"]);
  }
}
