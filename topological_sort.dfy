/**
 * Kahn's algorithm (`topologicalSort`) and the readiness filter (`getParallelTasks`).
 */
module TopologicalSort {
  import opened Seqs
  import opened DagTypes

  /** Every element comes after all of its dependencies. */
  ghost predicate DependencyOrdered(dag: Dag, r: seq<TaskId>) {
    forall i, w :: 0 <= i < |r| && w in Deps(dag, r[i]) ==> w in r[..i]
  }

  /** How many entries of `s` are not yet in `done`. */
  function Pending(s: seq<TaskId>, done: set<TaskId>): nat {
    if |s| == 0 then 0 else Pending(s[..|s| - 1], done) + (if s[|s| - 1] in done then 0 else 1)
  }

  /** Entries of the degree map that are still positive; each can reach zero, and be queued, once. */
  ghost function Positive(deg: map<TaskId, int>): set<TaskId> {
    set v | v in deg && deg[v] > 0
  }

  function Get(deg: map<TaskId, int>, v: TaskId): int {
    if v in deg then deg[v] else 0
  }

  // ----- The first loop -----

  /** The in-degree map after the first `n` nodes: each node's id mapped to its number of dependencies. */
  function InitDegree(dag: Dag, n: nat): map<TaskId, int>
    requires WellFormed(dag) && n <= |dag.keys|
  {
    if n == 0 then map[]
    else
      var node := dag.nodes[dag.keys[n - 1]];
      InitDegree(dag, n - 1)[node.id := |node.dependencies|]
  }

  /** The ids of the first `n` nodes that have no dependencies, in node order. */
  function Seeds(dag: Dag, n: nat): seq<TaskId>
    requires WellFormed(dag) && n <= |dag.keys|
  {
    if n == 0 then []
    else
      var node := dag.nodes[dag.keys[n - 1]];
      Seeds(dag, n - 1) + (if |node.dependencies| == 0 then [node.id] else [])
  }

  method InitInDegree(dag: Dag) returns (deg: map<TaskId, int>, queue: seq<TaskId>)
    requires WellFormed(dag)
    ensures deg == InitDegree(dag, |dag.keys|) && queue == Seeds(dag, |dag.keys|)
  {
    deg := map[];
    queue := [];
    var i := 0;
    while i < |dag.keys|
      invariant i <= |dag.keys|
      invariant deg == InitDegree(dag, i) && queue == Seeds(dag, i)
    {
      var node := dag.nodes[dag.keys[i]];
      deg := deg[node.id := |node.dependencies|];
      if |node.dependencies| == 0 {
        queue := queue + [node.id];
      }
      i := i + 1;
    }
  }

  // ----- The main loop -----

  /**
   * Repeatedly takes the head of the queue, appends it to the result and lowers the degree of
   * each of its dependents, queueing those that reach zero.
   */
  method TopologicalSort(dag: Dag) returns (result: seq<TaskId>)
    requires WellFormed(dag)
    ensures Seeds(dag, |dag.keys|) <= result
    ensures Consistent(dag) ==> Distinct(result) && (forall x :: x in result ==> x in dag.nodes)
    ensures Consistent(dag) ==> DependencyOrdered(dag, result)
    ensures Consistent(dag) && NoCycle(dag) ==> multiset(result) == multiset(dag.keys)
  {
    var deg, queue := InitInDegree(dag);
    ghost var seeds := queue;
    result := [];
    assert result + queue == seeds;
    if Consistent(dag) {
      InitialInvariant(dag);
    }
    while |queue| > 0
      invariant seeds == Seeds(dag, |dag.keys|) && seeds <= result + queue
      invariant Consistent(dag) ==> KahnInv(dag, result, queue, deg)
      decreases |queue| + |Positive(deg)|
    {
      result, queue, deg := KahnStep(dag, seeds, result, queue, deg);
    }
    KahnDone(dag, seeds, result, queue, deg);
  }

  /** One turn of the main loop: the head of the queue is output and its dependents relaxed. */
  method KahnStep(dag: Dag, ghost seeds: seq<TaskId>, result0: seq<TaskId>, queue0: seq<TaskId>, deg0: map<TaskId, int>)
    returns (result: seq<TaskId>, queue: seq<TaskId>, deg: map<TaskId, int>)
    requires WellFormed(dag) && |queue0| > 0 && seeds <= result0 + queue0
    requires Consistent(dag) ==> KahnInv(dag, result0, queue0, deg0)
    ensures result == result0 + [queue0[0]] && seeds <= result + queue
    ensures Consistent(dag) ==> KahnInv(dag, result, queue, deg)
    ensures |queue| + |Positive(deg)| < |queue0| + |Positive(deg0)|
  {
    var u := queue0[0];
    if Consistent(dag) {
      PopStep(dag, result0, queue0, deg0);
    }
    queue := queue0[1..];
    result := result0 + [u];
    deg := deg0;
    assert result + queue == result0 + queue0;
    if u in dag.nodes {
      deg, queue := RelaxDependents(dag, u, deg, queue, result0);
    }
    PrefixTrans(seeds, result0 + queue0, result + queue);
  }

  /** The loop over the dependents of the node just taken. */
  method RelaxDependents(dag: Dag, u: TaskId, deg0: map<TaskId, int>, queue0: seq<TaskId>, ghost before: seq<TaskId>)
    returns (deg: map<TaskId, int>, queue: seq<TaskId>)
    requires u in dag.nodes
    ensures queue0 <= queue
    ensures |queue| - |queue0| + |Positive(deg)| <= |Positive(deg0)|
    ensures Tracked(dag, before, u, queue0, deg0) ==> KahnInv(dag, before + [u], queue, deg)
  {
    deg, queue := deg0, queue0;
    ghost var tracked := Tracked(dag, before, u, queue0, deg0);
    var dependents := dag.nodes[u].dependents;
    var j := 0;
    while j < |dependents|
      invariant j <= |dependents|
      invariant queue0 <= queue
      invariant |queue| - |queue0| + |Positive(deg)| <= |Positive(deg0)|
      invariant tracked ==> DependentsClosed(dag) && Mirrored(dag) && Mid(dag, before, u, queue, deg, j)
    {
      ghost var oldQueue := queue;
      deg, queue := RelaxOne(dag, u, before, tracked, deg, queue, j);
      PrefixTrans(queue0, oldQueue, queue);
      j := j + 1;
    }
    if tracked {
      RelaxDone(dag, before, u, queue, deg);
    }
  }

  /** One dependent: its degree is lowered, and it is queued when that reaches zero. */
  method RelaxOne(dag: Dag, u: TaskId, ghost before: seq<TaskId>, ghost tracked: bool,
                  deg0: map<TaskId, int>, queue0: seq<TaskId>, j: nat)
    returns (deg: map<TaskId, int>, queue: seq<TaskId>)
    requires u in dag.nodes && j < |dag.nodes[u].dependents|
    requires tracked ==> DependentsClosed(dag) && Mirrored(dag) && Mid(dag, before, u, queue0, deg0, j)
    ensures var v := dag.nodes[u].dependents[j];
            deg == deg0[v := Get(deg0, v) - 1] && queue == if deg[v] == 0 then queue0 + [v] else queue0
    ensures |queue| - |queue0| + |Positive(deg)| <= |Positive(deg0)|
    ensures tracked ==> Mid(dag, before, u, queue, deg, j + 1)
  {
    var v := dag.nodes[u].dependents[j];
    var degree := Get(deg0, v) - 1;
    if tracked {
      RelaxStep(dag, before, u, queue0, deg0, j);
    }
    PositiveUpdate(deg0, v, degree);
    deg := deg0[v := degree];
    queue := queue0;
    if degree == 0 {
      queue := queue + [v];
    }
  }

  // ----- Tasks ready to run -----

  /** Every entry of `deps` is in `completed` (the `every` test). */
  predicate AllIn(deps: seq<TaskId>, completed: set<TaskId>) {
    forall w :: w in deps ==> w in completed
  }

  /** A node is ready when it is not completed and all of its dependencies are. */
  predicate IsReady(node: DagNode, completed: set<TaskId>) {
    node.id !in completed && AllIn(node.dependencies, completed)
  }

  /** The ids of the ready nodes among the first `n`, in node order. */
  function ReadyUpTo(dag: Dag, completed: set<TaskId>, n: nat): seq<TaskId>
    requires WellFormed(dag) && n <= |dag.keys|
  {
    if n == 0 then []
    else
      var node := dag.nodes[dag.keys[n - 1]];
      ReadyUpTo(dag, completed, n - 1) + (if IsReady(node, completed) then [node.id] else [])
  }

  method AllDependenciesMet(deps: seq<TaskId>, completed: set<TaskId>) returns (met: bool)
    ensures met <==> AllIn(deps, completed)
  {
    var i := 0;
    while i < |deps|
      invariant i <= |deps|
      invariant forall k :: 0 <= k < i ==> deps[k] in completed
    {
      if deps[i] !in completed {
        return false;
      }
      i := i + 1;
    }
    return true;
  }

  method GetParallelTasks(dag: Dag, completed: set<TaskId>) returns (ready: seq<TaskId>)
    requires WellFormed(dag)
    ensures ready == ReadyUpTo(dag, completed, |dag.keys|)
  {
    ready := [];
    var i := 0;
    while i < |dag.keys|
      invariant i <= |dag.keys|
      invariant ready == ReadyUpTo(dag, completed, i)
    {
      var node := dag.nodes[dag.keys[i]];
      if node.id !in completed {
        var met := AllDependenciesMet(node.dependencies, completed);
        if met {
          ready := ready + [node.id];
        }
      }
      i := i + 1;
    }
  }

  /** When each node carries its key, the ready list holds exactly the ready nodes, each once. */
  lemma {:induction false} ReadyExactly(dag: Dag, completed: set<TaskId>, n: nat)
    requires WellFormed(dag) && IdsMatch(dag) && n <= |dag.keys|
    ensures Distinct(ReadyUpTo(dag, completed, n))
    ensures forall x :: x in ReadyUpTo(dag, completed, n) <==>
              x in dag.keys[..n] && IsReady(dag.nodes[x], completed)
  {
    if n > 0 {
      ReadyExactly(dag, completed, n - 1);
      assert dag.keys[..n] == dag.keys[..n - 1] + [dag.keys[n - 1]];
      assert dag.keys[n - 1] !in dag.keys[..n - 1];
    }
  }

  /** Readiness only grows as more tasks complete, as long as the task itself is not among them. */
  lemma ReadyMonotone(node: DagNode, s: set<TaskId>, t: set<TaskId>)
    requires IsReady(node, s) && s <= t && node.id !in t
    ensures IsReady(node, t)
  {
  }

  /** With nothing completed, the ready list is the list of nodes without dependencies, the queue's seeds. */
  lemma {:induction false} ReadyWhenNoneCompleted(dag: Dag, n: nat)
    requires WellFormed(dag) && n <= |dag.keys|
    ensures ReadyUpTo(dag, {}, n) == Seeds(dag, n)
  {
    if n > 0 {
      ReadyWhenNoneCompleted(dag, n - 1);
      var node := dag.nodes[dag.keys[n - 1]];
      if |node.dependencies| > 0 {
        assert node.dependencies[0] in node.dependencies;
      }
    }
  }

  /** With every node completed, nothing is ready. */
  lemma {:induction false} ReadyWhenAllCompleted(dag: Dag, completed: set<TaskId>, n: nat)
    requires WellFormed(dag) && n <= |dag.keys|
    requires forall k :: k in dag.nodes ==> dag.nodes[k].id in completed
    ensures ReadyUpTo(dag, completed, n) == []
  {
    if n > 0 {
      ReadyWhenAllCompleted(dag, completed, n - 1);
    }
  }

  // ----- Cycles are left out -----

  /** A dependency-ordered sequence holds no element of a cycle. */
  lemma CycleNotOrdered(dag: Dag, r: seq<TaskId>, c: seq<TaskId>)
    requires DependencyOrdered(dag, r) && IsCycle(dag, c)
    ensures forall x :: x in c ==> x !in r
  {
    if exists x :: x in c && x in r {
      var p := FirstFrom(r, c);
      EarlierOnCycle(dag, r, c, p);
      assert false;
    }
  }

  /** Before any element of a cycle in a dependency-ordered sequence comes another: the one it depends on. */
  lemma EarlierOnCycle(dag: Dag, r: seq<TaskId>, c: seq<TaskId>, p: nat)
    requires DependencyOrdered(dag, r) && IsCycle(dag, c)
    requires p < |r| && r[p] in c
    ensures exists q :: 0 <= q < p && r[q] in c
  {
    var i := IndexIn(c, r[p]);
    var next := if i + 1 < |c| then c[i + 1] else c[0];
    assert next in Deps(dag, r[p]);
    var q :| 0 <= q < p && r[..p][q] == next;
    assert r[q] in c;
  }

  /** The first position of `r` holding an element of `c`. */
  function FirstFrom(r: seq<TaskId>, c: seq<TaskId>): (p: nat)
    requires exists x :: x in c && x in r
    ensures p < |r| && r[p] in c && forall q :: 0 <= q < p ==> r[q] !in c
  {
    if r[0] in c then 0
    else
      assert exists x :: x in c && x in r[1..] by {
        var x :| x in c && x in r;
        assert x != r[0];
      }
      1 + FirstFrom(r[1..], c)
  }

  function IndexIn(c: seq<TaskId>, x: TaskId): (i: nat)
    requires x in c
    ensures i < |c| && c[i] == x
  {
    if c[0] == x then 0 else 1 + IndexIn(c[1..], x)
  }

  /** Whatever depends, through a chain of dependencies, on a cycle is left out as well. */
  lemma {:induction false} ChainNotOrdered(dag: Dag, r: seq<TaskId>, walk: seq<TaskId>, c: seq<TaskId>)
    requires DependencyOrdered(dag, r) && IsCycle(dag, c)
    requires |walk| > 0 && walk[|walk| - 1] in c
    requires forall i :: 0 <= i < |walk| - 1 ==> walk[i + 1] in Deps(dag, walk[i])
    ensures walk[0] !in r
  {
    if |walk| == 1 {
      CycleNotOrdered(dag, r, c);
    } else {
      ChainNotOrdered(dag, r, walk[1..], c);
      if walk[0] in r {
        assert false;
      }
    }
  }

  // ----- Invariants -----

  ghost predicate InNodes(dag: Dag, s: seq<TaskId>) {
    forall i :: 0 <= i < |s| ==> s[i] in dag.nodes
  }

  /** Each node's degree counts its dependencies not yet output, less the lowerings in `lowered`. */
  ghost predicate DegreesOk(dag: Dag, done: set<TaskId>, deg: map<TaskId, int>, lowered: seq<TaskId>) {
    forall k :: k in dag.nodes ==> k in deg && deg[k] == Pending(Deps(dag, k), done) - Count(lowered, k)
  }

  /** A node has degree zero exactly when it has been output or queued. */
  ghost predicate ZeroIffSeen(dag: Dag, out: seq<TaskId>, q: seq<TaskId>, deg: map<TaskId, int>) {
    forall k :: k in dag.nodes ==> (k in out || k in q <==> k in deg && deg[k] == 0)
  }

  /** The state between two iterations of the main loop, for a consistent graph. */
  ghost predicate KahnInv(dag: Dag, r: seq<TaskId>, q: seq<TaskId>, deg: map<TaskId, int>) {
    && InNodes(dag, r + q)
    && Distinct(r + q)
    && DegreesOk(dag, Elems(r), deg, [])
    && ZeroIffSeen(dag, r, q, deg)
    && DependencyOrdered(dag, r)
  }

  /**
   * The state inside the loop over the dependents of `u`, once `j` of them are done: `u`
   * has been appended after `r`, and `j` degrees have been lowered.
   */
  ghost predicate Mid(dag: Dag, r: seq<TaskId>, u: TaskId, q: seq<TaskId>, deg: map<TaskId, int>, j: nat) {
    && u in dag.nodes && j <= |dag.nodes[u].dependents|
    && InNodes(dag, r + [u] + q)
    && Distinct(r + [u] + q)
    && DegreesOk(dag, Elems(r), deg, dag.nodes[u].dependents[..j])
    && ZeroIffSeen(dag, r + [u], q, deg)
    && DependencyOrdered(dag, r + [u])
  }

  /** The facts the loop over the dependents of `u` needs, when the graph is consistent. */
  ghost predicate Tracked(dag: Dag, r: seq<TaskId>, u: TaskId, q: seq<TaskId>, deg: map<TaskId, int>) {
    DependentsClosed(dag) && Mirrored(dag) && Mid(dag, r, u, q, deg, 0)
  }

  lemma InitialInvariant(dag: Dag)
    requires Consistent(dag)
    ensures KahnInv(dag, [], Seeds(dag, |dag.keys|), InitDegree(dag, |dag.keys|))
  {
    InitFacts(dag, |dag.keys|);
    var q := Seeds(dag, |dag.keys|);
    var deg := InitDegree(dag, |dag.keys|);
    assert [] + q == q;
    assert dag.keys[..|dag.keys|] == dag.keys;
    forall k | k in dag.nodes
      ensures k in deg && deg[k] == Pending(Deps(dag, k), Elems([])) - Count([], k)
    {
      PendingAll(Deps(dag, k));
      assert Elems<TaskId>([]) == {};
    }
    forall k | k in dag.nodes
      ensures (k in [] || k in q <==> k in deg && deg[k] == 0)
    {
    }
  }

  /** For a consistent graph the first loop gives each node its number of dependencies, and queues exactly the nodes that have none. */
  lemma {:induction false} InitFacts(dag: Dag, n: nat)
    requires Consistent(dag) && n <= |dag.keys|
    ensures forall k :: k in InitDegree(dag, n) <==> k in dag.keys[..n]
    ensures forall k :: k in dag.keys[..n] ==> InitDegree(dag, n)[k] == |Deps(dag, k)|
    ensures InNodes(dag, Seeds(dag, n)) && Distinct(Seeds(dag, n))
    ensures forall k :: k in Seeds(dag, n) <==> k in dag.keys[..n] && |Deps(dag, k)| == 0
  {
    if n > 0 {
      InitFacts(dag, n - 1);
      assert dag.keys[..n] == dag.keys[..n - 1] + [dag.keys[n - 1]];
      assert dag.keys[n - 1] !in dag.keys[..n - 1];
    }
  }

  lemma PopStep(dag: Dag, r: seq<TaskId>, q: seq<TaskId>, deg: map<TaskId, int>)
    requires KahnInv(dag, r, q, deg) && |q| > 0
    ensures Mid(dag, r, q[0], q[1..], deg, 0)
  {
    var u := q[0];
    assert r + q == r + [u] + q[1..];
    assert (r + q)[|r|] == u;
    assert deg[u] == 0 by {
      assert u in q;
    }
    PendingNone(Deps(dag, u), Elems(r));
    assert dag.nodes[u].dependents[..0] == [];
    OrderedSnoc(dag, r, u);
    SeenShift(dag, r, u, q[1..], deg);
  }

  lemma SeenShift(dag: Dag, r: seq<TaskId>, u: TaskId, q: seq<TaskId>, deg: map<TaskId, int>)
    requires ZeroIffSeen(dag, r, [u] + q, deg)
    ensures ZeroIffSeen(dag, r + [u], q, deg)
  {
    forall k | k in dag.nodes
      ensures (k in r + [u] || k in q <==> k in deg && deg[k] == 0)
    {
      assert k in [u] + q <==> k == u || k in q;
      assert k in r + [u] <==> k in r || k == u;
    }
  }

  lemma RelaxStep(dag: Dag, r: seq<TaskId>, u: TaskId, q: seq<TaskId>, deg: map<TaskId, int>, j: nat)
    requires DependentsClosed(dag) && Mirrored(dag) && Mid(dag, r, u, q, deg, j) && j < |dag.nodes[u].dependents|
    ensures var v := dag.nodes[u].dependents[j];
            var degree := Get(deg, v) - 1;
            Mid(dag, r, u, if degree == 0 then q + [v] else q, deg[v := degree], j + 1)
  {
    var ds := dag.nodes[u].dependents;
    var v := ds[j];
    var degree := Get(deg, v) - 1;
    var q' := if degree == 0 then q + [v] else q;
    assert v in dag.nodes;
    DistinctMiddle(r, u, q);
    NotNegative(dag, r, u, deg, j);
    DegreesStep(dag, Elems(r), deg, ds, j);
    SeenStep(dag, r + [u], q, deg, v);
    RelaxQueue(dag, r + [u], q, deg, v);
    assert r + [u] + q' == (r + [u]) + q';
  }

  /** A node whose degree drops to zero was neither output nor queued, so queueing it keeps the order repeat-free. */
  lemma RelaxQueue(dag: Dag, out: seq<TaskId>, q: seq<TaskId>, deg: map<TaskId, int>, v: TaskId)
    requires InNodes(dag, out + q) && Distinct(out + q) && ZeroIffSeen(dag, out, q, deg)
    requires v in dag.nodes && v in deg && deg[v] >= 1
    ensures var q' := if Get(deg, v) - 1 == 0 then q + [v] else q;
            InNodes(dag, out + q') && Distinct(out + q')
  {
    if Get(deg, v) - 1 == 0 {
      assert v !in out + q;
      DistinctSnoc(out + q, v);
      assert out + (q + [v]) == out + q + [v];
    }
  }

  /** A lowered degree never goes below zero: each lowering of `v` matches one occurrence of `u` in the dependencies of `v`. */
  lemma NotNegative(dag: Dag, r: seq<TaskId>, u: TaskId, deg: map<TaskId, int>, j: nat)
    requires DependentsClosed(dag) && Mirrored(dag) && u in dag.nodes && j < |dag.nodes[u].dependents| && u !in r
    requires DegreesOk(dag, Elems(r), deg, dag.nodes[u].dependents[..j])
    ensures var v := dag.nodes[u].dependents[j]; v in deg && deg[v] >= 1
  {
    var ds := dag.nodes[u].dependents;
    var v := ds[j];
    assert v in dag.nodes;
    assert ds[..j + 1] == ds[..j] + [v];
    CountAppend(ds[..j], [v], v);
    CountPrefix(ds, j + 1, v);
    assert Count(ds, v) == Count(Deps(dag, v), u);
    PendingAtLeast(Deps(dag, v), Elems(r), u);
  }

  lemma DegreesStep(dag: Dag, done: set<TaskId>, deg: map<TaskId, int>, ds: seq<TaskId>, j: nat)
    requires j < |ds| && ds[j] in dag.nodes
    requires DegreesOk(dag, done, deg, ds[..j])
    ensures DegreesOk(dag, done, deg[ds[j] := Get(deg, ds[j]) - 1], ds[..j + 1])
  {
    var v := ds[j];
    assert ds[..j + 1] == ds[..j] + [v];
    forall k | k in dag.nodes
      ensures Count(ds[..j + 1], k) == Count(ds[..j], k) + (if k == v then 1 else 0)
    {
      CountAppend(ds[..j], [v], k);
    }
  }

  lemma SeenStep(dag: Dag, out: seq<TaskId>, q: seq<TaskId>, deg: map<TaskId, int>, v: TaskId)
    requires ZeroIffSeen(dag, out, q, deg)
    requires v in dag.nodes && v in deg && deg[v] >= 1
    ensures var degree := Get(deg, v) - 1;
            ZeroIffSeen(dag, out, if degree == 0 then q + [v] else q, deg[v := degree])
  {
  }

  lemma RelaxDone(dag: Dag, r: seq<TaskId>, u: TaskId, q: seq<TaskId>, deg: map<TaskId, int>)
    requires Mirrored(dag) && u in dag.nodes && Mid(dag, r, u, q, deg, |dag.nodes[u].dependents|)
    ensures KahnInv(dag, r + [u], q, deg)
  {
    var ds := dag.nodes[u].dependents;
    assert ds[..|ds|] == ds;
    assert r + [u] + q == (r + [u]) + q;
    DistinctMiddle(r, u, q);
    assert Elems(r + [u]) == Elems(r) + {u};
    DegreesDone(dag, Elems(r), u, deg);
  }

  lemma DegreesDone(dag: Dag, done: set<TaskId>, u: TaskId, deg: map<TaskId, int>)
    requires Mirrored(dag) && u in dag.nodes && u !in done
    requires DegreesOk(dag, done, deg, dag.nodes[u].dependents)
    ensures DegreesOk(dag, done + {u}, deg, [])
  {
    forall k | k in dag.nodes
      ensures deg[k] == Pending(Deps(dag, k), done + {u}) - Count([], k)
    {
      assert Count(dag.nodes[u].dependents, k) == Count(Deps(dag, k), u);
      PendingAdd(Deps(dag, k), done, u);
    }
  }

  /** When the queue is empty the output is ordered and repetition-free, and complete for an acyclic graph. */
  lemma KahnDone(dag: Dag, seeds: seq<TaskId>, r: seq<TaskId>, q: seq<TaskId>, deg: map<TaskId, int>)
    requires |q| == 0 && seeds <= r + q
    requires Consistent(dag) ==> KahnInv(dag, r, q, deg)
    ensures seeds <= r
    ensures Consistent(dag) ==> Distinct(r) && (forall x :: x in r ==> x in dag.nodes)
    ensures Consistent(dag) ==> DependencyOrdered(dag, r)
    ensures Consistent(dag) && NoCycle(dag) ==> multiset(r) == multiset(dag.keys)
  {
    assert r + q == r;
    if Consistent(dag) && NoCycle(dag) {
      AllReached(dag, r, deg);
      DistinctPermutation(r, dag.keys);
    }
  }

  /** With the queue empty and no cycle, every node has been output. */
  lemma AllReached(dag: Dag, r: seq<TaskId>, deg: map<TaskId, int>)
    requires DepsClosed(dag) && DegreesOk(dag, Elems(r), deg, []) && ZeroIffSeen(dag, r, [], deg) && NoCycle(dag)
    ensures forall k :: k in dag.nodes ==> k in r
  {
    var rest := dag.nodes.Keys - Elems(r);
    if rest != {} {
      var start :| start in rest;
      forall v | v in rest
        ensures HasDepIn(dag, rest, v)
      {
        UnfinishedHasDep(dag, r, deg, v);
      }
      ClosedSetHasCycle(dag, rest, start);
      assert false;
    } else {
      forall k | k in dag.nodes
        ensures k in r
      {
        assert k !in rest;
      }
    }
  }

  lemma UnfinishedHasDep(dag: Dag, r: seq<TaskId>, deg: map<TaskId, int>, v: TaskId)
    requires DepsClosed(dag) && v in dag.nodes && v !in r
    requires DegreesOk(dag, Elems(r), deg, []) && ZeroIffSeen(dag, r, [], deg)
    ensures HasDepIn(dag, dag.nodes.Keys - Elems(r), v)
  {
    assert deg[v] != 0;
    PendingNone(Deps(dag, v), Elems(r));
    var w :| w in Deps(dag, v) && w !in Elems(r);
    assert w in dag.nodes.Keys - Elems(r);
  }

  // ----- Small facts -----

  lemma {:induction false} PendingNone(s: seq<TaskId>, done: set<TaskId>)
    ensures Pending(s, done) == 0 <==> forall w :: w in s ==> w in done
  {
    if |s| > 0 {
      var front, last := s[..|s| - 1], s[|s| - 1];
      PendingNone(front, done);
      assert forall w :: w in s <==> w in front || w == last by {
        assert s == front + [last];
      }
    }
  }

  lemma {:induction false} PendingAll(s: seq<TaskId>)
    ensures Pending(s, {}) == |s|
  {
    if |s| > 0 {
      PendingAll(s[..|s| - 1]);
    }
  }

  lemma {:induction false} PendingAdd(s: seq<TaskId>, done: set<TaskId>, u: TaskId)
    requires u !in done
    ensures Pending(s, done + {u}) == Pending(s, done) - Count(s, u)
  {
    if |s| > 0 {
      PendingAdd(s[..|s| - 1], done, u);
    }
  }

  lemma {:induction false} PendingAtLeast(s: seq<TaskId>, done: set<TaskId>, u: TaskId)
    requires u !in done
    ensures Count(s, u) <= Pending(s, done)
  {
    if |s| > 0 {
      PendingAtLeast(s[..|s| - 1], done, u);
    }
  }

  lemma CountPrefix(s: seq<TaskId>, n: nat, x: TaskId)
    requires n <= |s|
    ensures Count(s[..n], x) <= Count(s, x)
  {
    assert s == s[..n] + s[n..];
    CountAppend(s[..n], s[n..], x);
  }

  lemma DistinctMiddle(r: seq<TaskId>, u: TaskId, q: seq<TaskId>)
    requires Distinct(r + [u] + q)
    ensures u !in r && u !in q
  {
    var s := r + [u] + q;
    assert s[|r|] == u;
    forall i | 0 <= i < |r|
      ensures r[i] != u
    {
      assert s[i] == r[i];
    }
    forall i | 0 <= i < |q|
      ensures q[i] != u
    {
      assert s[|r| + 1 + i] == q[i];
    }
  }

  lemma DistinctSnoc(s: seq<TaskId>, v: TaskId)
    requires Distinct(s) && v !in s
    ensures Distinct(s + [v])
  {
  }

  lemma OrderedSnoc(dag: Dag, r: seq<TaskId>, u: TaskId)
    requires DependencyOrdered(dag, r)
    requires forall w :: w in Deps(dag, u) ==> w in r
    ensures DependencyOrdered(dag, r + [u])
  {
    var r' := r + [u];
    forall i, w | 0 <= i < |r'| && w in Deps(dag, r'[i])
      ensures w in r'[..i]
    {
      if i < |r| {
        assert r'[..i] == r[..i] && r'[i] == r[i];
      } else {
        assert r'[..i] == r;
      }
    }
  }

  lemma PositiveUpdate(deg: map<TaskId, int>, v: TaskId, degree: int)
    requires degree == Get(deg, v) - 1
    ensures |Positive(deg[v := degree])| + (if degree == 0 then 1 else 0) <= |Positive(deg)|
  {
    var after := Positive(deg[v := degree]);
    if degree > 0 {
      assert after == Positive(deg);
    } else if degree == 0 {
      assert Positive(deg) == after + {v};
    } else {
      assert after <= Positive(deg);
      SubsetCard(after, Positive(deg));
    }
  }

  /** Two repeat-free sequences with the same elements are permutations of each other. */
  lemma DistinctPermutation(a: seq<TaskId>, b: seq<TaskId>)
    requires Distinct(a) && Distinct(b)
    requires forall x :: x in a <==> x in b
    ensures multiset(a) == multiset(b)
  {
    forall x
      ensures multiset(a)[x] == multiset(b)[x]
    {
      DistinctCount(a, x);
      DistinctCount(b, x);
    }
  }

  lemma {:induction false} DistinctCount(s: seq<TaskId>, x: TaskId)
    requires Distinct(s)
    ensures multiset(s)[x] == if x in s then 1 else 0
  {
    if |s| > 0 {
      var front := s[..|s| - 1];
      DistinctCount(front, x);
      assert s == front + [s[|s| - 1]];
      assert multiset(s) == multiset(front) + multiset([s[|s| - 1]]);
      assert s[|s| - 1] !in front;
    }
  }
}
