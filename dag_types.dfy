/**
 * The task dependency graph: a JavaScript `Map` from task id to node, kept as the
 * insertion-ordered key sequence beside the map itself.
 */
module DagTypes {
  import opened Seqs

  type TaskId = string

  datatype DagNode = DagNode(id: TaskId, dependencies: seq<TaskId>, dependents: seq<TaskId>)

  datatype Dag = Dag(keys: seq<TaskId>, nodes: map<TaskId, DagNode>)

  /** What every JavaScript `Map` satisfies: each key once, in insertion order. */
  ghost predicate WellFormed(dag: Dag) {
    Distinct(dag.keys) && (forall k :: k in dag.nodes <==> k in dag.keys)
  }

  /** The dependencies of `v`; a node that is absent has none (`dag.nodes.get(v)` is undefined). */
  function Deps(dag: Dag, v: TaskId): seq<TaskId> {
    if v in dag.nodes then dag.nodes[v].dependencies else []
  }

  /** Every id the graph mentions: its keys and every dependency named by a node. */
  ghost function Vertices(dag: Dag): set<TaskId> {
    dag.nodes.Keys + (set k, w | k in dag.nodes && w in dag.nodes[k].dependencies :: w)
  }

  lemma DepsInVertices(dag: Dag, v: TaskId, w: TaskId)
    requires w in Deps(dag, v)
    ensures v in Vertices(dag) && w in Vertices(dag)
  {
  }

  /** `c` walks along dependency edges and the last element depends on the first. */
  ghost predicate IsCycle(dag: Dag, c: seq<TaskId>) {
    |c| > 0
    && (forall i :: 0 <= i < |c| - 1 ==> c[i + 1] in Deps(dag, c[i]))
    && c[0] in Deps(dag, c[|c| - 1])
  }

  ghost predicate NoCycle(dag: Dag) {
    forall c :: !IsCycle(dag, c)
  }

  /** A ranking that strictly decreases from every ranked node to each of its dependencies. */
  ghost predicate Ranked(dag: Dag, rank: map<TaskId, int>) {
    forall b, w :: b in rank && w in Deps(dag, b) ==> w in rank && rank[w] < rank[b]
  }

  /** Along a dependency walk whose first node is ranked, the rank drops at every step. */
  lemma {:induction false} WalkDescends(dag: Dag, rank: map<TaskId, int>, c: seq<TaskId>, k: nat)
    requires Ranked(dag, rank)
    requires |c| > 0 && c[0] in rank
    requires forall i :: 0 <= i < |c| - 1 ==> c[i + 1] in Deps(dag, c[i])
    requires k < |c|
    ensures c[k] in rank && rank[c[k]] <= rank[c[0]] - k
  {
    if k > 0 {
      WalkDescends(dag, rank, c, k - 1);
      assert c[k] in Deps(dag, c[k - 1]);
    }
  }

  /** A graph whose nodes all carry a ranking has no cycle. */
  lemma RankedNoCycle(dag: Dag, rank: map<TaskId, int>)
    requires Ranked(dag, rank)
    requires forall k :: k in dag.nodes ==> k in rank
    ensures NoCycle(dag)
  {
    forall c | IsCycle(dag, c)
      ensures false
    {
      var last := |c| - 1;
      assert c[last] in dag.nodes;
      WalkDescends(dag, rank, c, last);
    }
  }

  // ----- What `buildDag` guarantees -----

  /**
   * What `buildDag` guarantees of its result: each node carries its own key as id, every
   * dependency and dependent names a node, and the two lists mirror each other.
   */
  ghost predicate Consistent(dag: Dag) {
    && WellFormed(dag)
    && IdsMatch(dag)
    && DepsClosed(dag)
    && DependentsClosed(dag)
    && Mirrored(dag)
  }

  ghost predicate IdsMatch(dag: Dag) {
    forall k :: k in dag.nodes ==> dag.nodes[k].id == k
  }

  ghost predicate DepsClosed(dag: Dag) {
    forall k, w :: k in dag.nodes && w in dag.nodes[k].dependencies ==> w in dag.nodes
  }

  ghost predicate DependentsClosed(dag: Dag) {
    forall k, w :: k in dag.nodes && w in dag.nodes[k].dependents ==> w in dag.nodes
  }

  /** `b` occurs among the dependents of `a` as often as `a` occurs among the dependencies of `b`. */
  ghost predicate Mirrored(dag: Dag) {
    forall a, b :: a in dag.nodes && b in dag.nodes ==>
      Count(dag.nodes[a].dependents, b) == Count(dag.nodes[b].dependencies, a)
  }

  /** `v` depends on some member of `s`. */
  ghost predicate HasDepIn(dag: Dag, s: set<TaskId>, v: TaskId) {
    exists w :: w in Deps(dag, v) && w in s
  }

  /**
   * If every member of a non-empty set of ids has a dependency inside the set, the graph
   * has a cycle made of members of the set and without repeats.
   */
  lemma ClosedSetHasCycle(dag: Dag, s: set<TaskId>, start: TaskId)
    requires start in s
    requires forall v {:trigger HasDepIn(dag, s, v)} :: v in s ==> HasDepIn(dag, s, v)
    ensures exists c :: IsCycle(dag, c) && Distinct(c) && (forall x :: x in c ==> x in s)
  {
    var succ := Successors(dag, s);
    var c := ExtendWalk(dag, s, succ, [start]);
    assert IsCycle(dag, c) && Distinct(c) && (forall x :: x in c ==> x in s);
  }

  /** A choice of one dependency inside `s` for every member of `s`. */
  lemma Successors(dag: Dag, s: set<TaskId>) returns (succ: map<TaskId, TaskId>)
    requires forall v {:trigger HasDepIn(dag, s, v)} :: v in s ==> HasDepIn(dag, s, v)
    ensures forall v :: v in s ==> v in succ && succ[v] in Deps(dag, v) && succ[v] in s
  {
    succ := map v | v in s :: Pick(dag, s, v);
  }

  ghost function Pick(dag: Dag, s: set<TaskId>, v: TaskId): (w: TaskId)
    requires HasDepIn(dag, s, v)
    ensures w in Deps(dag, v) && w in s
  {
    var w :| w in Deps(dag, v) && w in s; w
  }

  /** Follows `succ` from the end of a repeat-free walk until it comes back onto the walk. */
  lemma {:induction false} ExtendWalk(dag: Dag, s: set<TaskId>, succ: map<TaskId, TaskId>, walk: seq<TaskId>)
    returns (c: seq<TaskId>)
    requires forall v :: v in s ==> v in succ && succ[v] in Deps(dag, v) && succ[v] in s
    requires |walk| > 0 && Distinct(walk)
    requires forall x :: x in walk ==> x in s
    requires forall i :: 0 <= i < |walk| - 1 ==> walk[i + 1] in Deps(dag, walk[i])
    ensures IsCycle(dag, c) && Distinct(c) && (forall x :: x in c ==> x in s)
    decreases |s| - |walk|
  {
    var last := walk[|walk| - 1];
    var next := succ[last];
    if next in walk {
      var idx :| 0 <= idx < |walk| && walk[idx] == next;
      c := CloseWalk(dag, walk, idx);
    } else {
      var longer := walk + [next];
      WalkStep(dag, s, walk, next);
      c := ExtendWalk(dag, s, succ, longer);
    }
  }

  /** A repeat-free walk inside `s` extended along an edge by a new member of `s` stays one, and is no longer than `s` has members. */
  lemma WalkStep(dag: Dag, s: set<TaskId>, walk: seq<TaskId>, next: TaskId)
    requires |walk| > 0 && Distinct(walk) && (forall x :: x in walk ==> x in s)
    requires forall i :: 0 <= i < |walk| - 1 ==> walk[i + 1] in Deps(dag, walk[i])
    requires next in Deps(dag, walk[|walk| - 1]) && next in s && next !in walk
    ensures var longer := walk + [next];
            && Distinct(longer) && (forall x :: x in longer ==> x in s) && |longer| <= |s|
            && forall i :: 0 <= i < |longer| - 1 ==> longer[i + 1] in Deps(dag, longer[i])
  {
    var longer := walk + [next];
    forall i | 0 <= i < |longer| - 1
      ensures longer[i + 1] in Deps(dag, longer[i])
    {
      if i < |walk| - 1 {
        assert longer[i + 1] == walk[i + 1] && longer[i] == walk[i];
      }
    }
    assert forall i :: 0 <= i < |walk| ==> longer[i] == walk[i];
    DistinctWithin(longer, s);
  }

  /** The tail of a walk from a node the last node depends on is a cycle. */
  lemma CloseWalk(dag: Dag, walk: seq<TaskId>, idx: nat) returns (c: seq<TaskId>)
    requires idx < |walk| && Distinct(walk)
    requires forall i :: 0 <= i < |walk| - 1 ==> walk[i + 1] in Deps(dag, walk[i])
    requires walk[idx] in Deps(dag, walk[|walk| - 1])
    ensures c == walk[idx..] && IsCycle(dag, c) && Distinct(c)
    ensures forall x :: x in c ==> x in walk
  {
    c := walk[idx..];
    assert c[|c| - 1] == walk[|walk| - 1];
    forall i | 0 <= i < |c| - 1
      ensures c[i + 1] in Deps(dag, c[i])
    {
      assert c[i + 1] == walk[idx + i + 1] && c[i] == walk[idx + i];
    }
  }
}
