/**
 * Depth-first cycle detection over the dependency graph. The visited set, the recursion
 * stack and the current path are shared mutable state in the program; here they are
 * threaded through each call and handed back. The ghost map `fin` numbers every finished
 * node, and these numbers are the ranking that shows an acyclic graph when no cycle is found.
 */
module CycleDetector {
  import opened Wrappers
  import opened Seqs
  import opened DagTypes

  /** What holds between calls: finished nodes (visited but off the stack) are ranked. */
  ghost predicate SearchInv(dag: Dag, visited: set<TaskId>, recStack: set<TaskId>, path: seq<TaskId>,
                            fin: map<TaskId, int>, clock: int)
  {
    && visited <= Vertices(dag)
    && recStack == Elems(path)
    && Distinct(path)
    && recStack <= visited
    && fin.Keys == visited - recStack
    && (forall b :: b in fin ==> fin[b] < clock)
    && Ranked(dag, fin)
    && (forall i :: 0 <= i < |path| - 1 ==> path[i + 1] in Deps(dag, path[i]))
  }

  function IndexOf(s: seq<TaskId>, x: TaskId): (i: nat)
    requires x in s
    ensures i < |s| && s[i] == x && x !in s[..i]
  {
    if s[0] == x then 0 else 1 + IndexOf(s[1..], x)
  }

  /** Finishing a node whose dependencies are all finished keeps the ranking. */
  lemma FinishNode(dag: Dag, fin: map<TaskId, int>, clock: int, v: TaskId)
    requires Ranked(dag, fin) && v !in fin
    requires forall b :: b in fin ==> fin[b] < clock
    requires forall w :: w in Deps(dag, v) ==> w in fin
    ensures Ranked(dag, fin[v := clock])
  {
  }

  /** Visiting one more vertex leaves one fewer unvisited. */
  lemma UnvisitedShrinks(vertices: set<TaskId>, visited: set<TaskId>, v: TaskId)
    requires v in vertices && v !in visited
    ensures |vertices - (visited + {v})| + 1 == |vertices - visited|
  {
    assert vertices - visited == (vertices - (visited + {v})) + {v};
  }

  /** More visited vertices leave no more unvisited. */
  lemma VisitedGrow(vertices: set<TaskId>, visited0: set<TaskId>, visited: set<TaskId>)
    requires visited0 <= visited
    ensures |vertices - visited| <= |vertices - visited0|
  {
    SubsetCard(vertices - visited, vertices - visited0);
  }

  /** Entering an unvisited node that extends the path along an edge keeps the invariant. */
  lemma Enter(dag: Dag, visited: set<TaskId>, recStack: set<TaskId>, path: seq<TaskId>,
              fin: map<TaskId, int>, clock: int, v: TaskId)
    requires SearchInv(dag, visited, recStack, path, fin, clock)
    requires v in Vertices(dag) && v !in visited
    requires path == [] || v in Deps(dag, path[|path| - 1])
    ensures SearchInv(dag, visited + {v}, recStack + {v}, path + [v], fin, clock)
  {
    var p := path + [v];
    forall i | 0 <= i < |p| - 1
      ensures p[i + 1] in Deps(dag, p[i])
    {
      if i < |path| - 1 {
        assert p[i + 1] == path[i + 1] && p[i] == path[i];
      }
    }
  }

  /** Leaving a node whose dependencies are all finished ranks it above everything finished. */
  lemma Leave(dag: Dag, visited: set<TaskId>, recStack: set<TaskId>, path: seq<TaskId>,
              fin: map<TaskId, int>, clock: int, v: TaskId)
    requires SearchInv(dag, visited, recStack + {v}, path + [v], fin, clock)
    requires v !in recStack
    requires forall w :: w in Deps(dag, v) ==> w in fin
    ensures SearchInv(dag, visited, recStack, path, fin[v := clock], clock + 1)
    ensures (recStack + {v}) - {v} == recStack && (path + [v])[..|path|] == path
  {
    var p := path + [v];
    assert Elems(p) == Elems(path) + {v};
    assert forall i :: 0 <= i < |path| ==> path[i] == p[i];
    assert p[|path|] == v;
    assert forall k :: 0 <= k < |path| ==> p[k] != p[|path|];
    assert v !in Elems(path);
    assert v !in fin;
    FinishNode(dag, fin, clock, v);

    forall i | 0 <= i < |path| - 1
      ensures path[i + 1] in Deps(dag, path[i])
    {
      assert p[i + 1] == path[i + 1] && p[i] == path[i];
    }
  }

  /**
   * Visits `v`: an unvisited node is searched; a visited one is popped off an empty path,
   * since the program only meets one again from the outer loop.
   */
  method IsCyclicUtil(v: TaskId, dag: Dag, visited0: set<TaskId>, recStack0: set<TaskId>, path0: seq<TaskId>,
                      ghost fin0: map<TaskId, int>, ghost clock0: int)
    returns (r: Option<seq<TaskId>>, visited: set<TaskId>, recStack: set<TaskId>, path: seq<TaskId>,
             ghost fin: map<TaskId, int>, ghost clock: int)
    requires SearchInv(dag, visited0, recStack0, path0, fin0, clock0)
    requires v in Vertices(dag)
    requires v !in visited0 ==> path0 == [] || v in Deps(dag, path0[|path0| - 1])
    requires v in visited0 ==> path0 == []
    ensures r.Some? ==> IsCycle(dag, r.value) && Distinct(r.value)
    ensures r.None? ==> SearchInv(dag, visited, recStack, path, fin, clock)
    ensures r.None? ==> path == path0 && recStack == recStack0 && visited0 + {v} <= visited && v in fin
    ensures r.None? ==> clock0 <= clock && forall b :: b in fin0 ==> b in fin && fin[b] == fin0[b]
    decreases |Vertices(dag) - visited0|, 2
  {
    if v !in visited0 {
      r, visited, recStack, path, fin, clock := VisitNew(v, dag, visited0, recStack0, path0, fin0, clock0);
    } else {
      // The path is empty here, and popping an empty array leaves it empty.
      visited, recStack, path, fin, clock := visited0, recStack0 - {v}, path0, fin0, clock0;
      r := None;
    }
  }

  /** Popping and ranking `v` after its dependencies are searched restores the caller's stack and path. */
  lemma Finish(dag: Dag, visited0: set<TaskId>, recStack0: set<TaskId>, path0: seq<TaskId>,
               fin0: map<TaskId, int>, clock0: int, v: TaskId,
               visited: set<TaskId>, fin: map<TaskId, int>, clock: int)
    requires SearchInv(dag, visited0, recStack0, path0, fin0, clock0) && v !in visited0
    requires SearchInv(dag, visited, recStack0 + {v}, path0 + [v], fin, clock)
    requires forall w :: w in Deps(dag, v) ==> w in fin
    requires visited0 + {v} <= visited && clock0 <= clock
    requires forall b :: b in fin0 ==> b in fin && fin[b] == fin0[b]
    ensures SearchInv(dag, visited, recStack0, path0, fin[v := clock], clock + 1)
    ensures (recStack0 + {v}) - {v} == recStack0 && (path0 + [v])[..|path0|] == path0
    ensures forall b :: b in fin0 ==> b in fin[v := clock] && fin[v := clock][b] == fin0[b]
  {
    assert v !in fin0;
    Leave(dag, visited, recStack0, path0, fin, clock, v);
  }

  /**
   * An unvisited node is pushed, its dependencies are searched, and it is popped and
   * finished unless a cycle was found.
   */
  method VisitNew(v: TaskId, dag: Dag, visited0: set<TaskId>, recStack0: set<TaskId>, path0: seq<TaskId>,
                  ghost fin0: map<TaskId, int>, ghost clock0: int)
    returns (r: Option<seq<TaskId>>, visited: set<TaskId>, recStack: set<TaskId>, path: seq<TaskId>,
             ghost fin: map<TaskId, int>, ghost clock: int)
    requires SearchInv(dag, visited0, recStack0, path0, fin0, clock0)
    requires v in Vertices(dag) && v !in visited0
    requires path0 == [] || v in Deps(dag, path0[|path0| - 1])
    ensures r.Some? ==> IsCycle(dag, r.value) && Distinct(r.value)
    ensures r.None? ==> SearchInv(dag, visited, recStack, path, fin, clock)
    ensures r.None? ==> path == path0 && recStack == recStack0 && visited0 + {v} <= visited && v in fin
    ensures r.None? ==> clock0 <= clock && forall b :: b in fin0 ==> b in fin && fin[b] == fin0[b]
    decreases |Vertices(dag) - visited0|, 1
  {
    Enter(dag, visited0, recStack0, path0, fin0, clock0, v);
    visited, recStack, path, fin, clock := visited0 + {v}, recStack0 + {v}, path0 + [v], fin0, clock0;
    if v in dag.nodes {
      UnvisitedShrinks(Vertices(dag), visited0, v);
      r, visited, recStack, path, fin, clock := VisitDependencies(v, dag, visited, recStack, path, fin, clock);
      if r.Some? {
        return;
      }
    }
    Finish(dag, visited0, recStack0, path0, fin0, clock0, v, visited, fin, clock);
    fin := fin[v := clock];
    clock := clock + 1;
    recStack := recStack - {v};
    path := path[..|path| - 1];
    r := None;
  }

  /**
   * The loop over the dependencies of `v`, the node on top of the path: an unvisited
   * dependency is searched, one on the stack closes a cycle, a finished one is skipped.
   */
  method VisitDependencies(v: TaskId, dag: Dag, visited0: set<TaskId>, recStack0: set<TaskId>, path0: seq<TaskId>,
                           ghost fin0: map<TaskId, int>, ghost clock0: int)
    returns (r: Option<seq<TaskId>>, visited: set<TaskId>, recStack: set<TaskId>, path: seq<TaskId>,
             ghost fin: map<TaskId, int>, ghost clock: int)
    requires SearchInv(dag, visited0, recStack0, path0, fin0, clock0)
    requires path0 != [] && path0[|path0| - 1] == v
    ensures r.Some? ==> IsCycle(dag, r.value) && Distinct(r.value)
    ensures r.None? ==> SearchInv(dag, visited, recStack, path, fin, clock)
    ensures r.None? ==> path == path0 && recStack == recStack0 && visited0 <= visited
    ensures r.None? ==> forall w :: w in Deps(dag, v) ==> w in fin
    ensures r.None? ==> clock0 <= clock && forall b :: b in fin0 ==> b in fin && fin[b] == fin0[b]
    decreases |Vertices(dag) - visited0| + 1, 0
  {
    visited, recStack, path, fin, clock := visited0, recStack0, path0, fin0, clock0;
    var deps := Deps(dag, v);
    var j := 0;
    while j < |deps|
      invariant 0 <= j <= |deps|
      invariant SearchInv(dag, visited, recStack, path, fin, clock)
      invariant visited0 <= visited && recStack == recStack0 && path == path0
      invariant clock0 <= clock && forall b :: b in fin0 ==> b in fin && fin[b] == fin0[b]
      invariant forall k :: 0 <= k < j ==> deps[k] in fin
    {
      VisitedGrow(Vertices(dag), visited0, visited);
      ghost var finBefore := fin;
      r, visited, recStack, path, fin, clock := VisitDependency(v, deps[j], dag, visited, recStack, path, fin, clock);
      if r.Some? {
        return;
      }
      forall k | 0 <= k < j + 1
        ensures deps[k] in fin
      {
        if k < j {
          assert deps[k] in finBefore;
        }
      }
      j := j + 1;
    }
    r := None;
  }

  /**
   * One dependency `w` of `v`: an unvisited one is searched, one on the stack closes a
   * cycle with the path from it, and a finished one is skipped.
   */
  method VisitDependency(v: TaskId, w: TaskId, dag: Dag, visited0: set<TaskId>, recStack0: set<TaskId>,
                         path0: seq<TaskId>, ghost fin0: map<TaskId, int>, ghost clock0: int)
    returns (r: Option<seq<TaskId>>, visited: set<TaskId>, recStack: set<TaskId>, path: seq<TaskId>,
             ghost fin: map<TaskId, int>, ghost clock: int)
    requires SearchInv(dag, visited0, recStack0, path0, fin0, clock0)
    requires path0 != [] && path0[|path0| - 1] == v && w in Deps(dag, v)
    ensures r.Some? ==> IsCycle(dag, r.value) && Distinct(r.value)
    ensures w in visited0 && w in recStack0 ==> w in path0 && r == Some(path0[IndexOf(path0, w)..])
    ensures w in visited0 && w !in recStack0 ==> r.None?
    ensures r.None? ==> SearchInv(dag, visited, recStack, path, fin, clock)
    ensures r.None? ==> path == path0 && recStack == recStack0 && visited0 <= visited && w in fin
    ensures r.None? ==> clock0 <= clock && forall b :: b in fin0 ==> b in fin && fin[b] == fin0[b]
    decreases |Vertices(dag) - visited0|, 3
  {
    visited, recStack, path, fin, clock := visited0, recStack0, path0, fin0, clock0;
    if w !in visited {
      DepsInVertices(dag, v, w);
      r, visited, recStack, path, fin, clock := IsCyclicUtil(w, dag, visited, recStack, path, fin, clock);
    } else if w in recStack {
      var start := IndexOf(path, w);
      ghost var cycle := CloseWalk(dag, path, start);
      r := Some(path[start..]);
    } else {
      r := None;
    }
  }

  /**
   * Runs the search from every node in insertion order and reports the first cycle met,
   * or nothing exactly when the graph is acyclic.
   */
  method DetectCycle(dag: Dag) returns (r: Option<seq<TaskId>>)
    requires WellFormed(dag)
    ensures r.Some? ==> IsCycle(dag, r.value) && Distinct(r.value)
    ensures r.None? <==> NoCycle(dag)
  {
    var visited: set<TaskId> := {};
    var recStack: set<TaskId> := {};
    var path: seq<TaskId> := [];
    ghost var fin: map<TaskId, int> := map[];
    ghost var clock := 0;
    var i := 0;
    while i < |dag.keys|
      invariant 0 <= i <= |dag.keys|
      invariant SearchInv(dag, visited, recStack, path, fin, clock)
      invariant path == [] && recStack == {}
      invariant forall k :: 0 <= k < i ==> dag.keys[k] in fin
    {
      var c;
      c, visited, recStack, path, fin, clock := IsCyclicUtil(dag.keys[i], dag, visited, recStack, path, fin, clock);
      if c.Some? {
        return c;
      }
      i := i + 1;
    }
    RankedNoCycle(dag, fin);
    return None;
  }

  // ----- The examples of the detector's tests, as facts about every cycle it may report -----

  function SelfLoop(): Dag {
    Dag(["A"], map["A" := DagNode("A", ["A"], [])])
  }

  /** `A` depending on itself has a cycle, and the only repeat-free one is `["A"]`. */
  lemma SelfLoopCycle(c: seq<TaskId>)
    ensures !NoCycle(SelfLoop())
    ensures IsCycle(SelfLoop(), c) && Distinct(c) ==> c == ["A"]
  {
    assert IsCycle(SelfLoop(), ["A"]);
    if IsCycle(SelfLoop(), c) && Distinct(c) {
      forall i | 0 <= i < |c|
        ensures c[i] == "A"
      {
        if i == |c| - 1 {
          assert c[0] in Deps(SelfLoop(), c[i]);
        }
      }
    }
  }

  function Ring(): Dag {
    Dag(["A", "B", "C"],
        map["A" := DagNode("A", ["B"], []), "B" := DagNode("B", ["C"], []), "C" := DagNode("C", ["A"], [])])
  }

  /** The ring `A -> B -> C -> A` has a cycle, and every repeat-free cycle has all three nodes. */
  lemma RingCycle(c: seq<TaskId>)
    ensures !NoCycle(Ring())
    ensures IsCycle(Ring(), c) && Distinct(c) ==> |c| == 3
  {
    RingDeps();
    assert IsCycle(Ring(), ["A", "B", "C"]);
    if IsCycle(Ring(), c) && Distinct(c) {
      forall i | 0 <= i < |c|
        ensures c[i] in {"A", "B", "C"}
      {
        if i < |c| - 1 {
          assert c[i + 1] in Deps(Ring(), c[i]);
        } else {
          assert c[0] in Deps(Ring(), c[i]);
        }
      }
      DistinctWithin(c, {"A", "B", "C"});
    }
  }

  /** Each node of the ring depends on the next one only; other ids have no dependencies. */
  lemma RingDeps()
    ensures Deps(Ring(), "A") == ["B"] && Deps(Ring(), "B") == ["C"] && Deps(Ring(), "C") == ["A"]
    ensures forall v :: v != "A" && v != "B" && v != "C" ==> Deps(Ring(), v) == []
  {
  }
}
