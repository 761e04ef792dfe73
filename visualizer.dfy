/** `getMermaidGraph`: the dependency graph as Mermaid flowchart text. */
module Visualizer {
  import opened Seqs
  import opened Strings
  import opened DagTypes

  const Header: string := "graph TD"

  /** The line drawn for the edge from dependency `dep` to task `id`. */
  function EdgeLine(dep: TaskId, id: TaskId): string {
    "    " + dep + " --> " + id
  }

  /** The line that shows a node with neither dependencies nor dependents. */
  function StandaloneLine(id: TaskId): string {
    "    " + id
  }

  /** The edge lines of one node, one per dependency, in dependency order. */
  function EdgeLines(id: TaskId, deps: seq<TaskId>): seq<string> {
    if |deps| == 0 then [] else EdgeLines(id, deps[..|deps| - 1]) + [EdgeLine(deps[|deps| - 1], id)]
  }

  predicate Isolated(node: DagNode) {
    |node.dependencies| == 0 && |node.dependents| == 0
  }

  function NodeLines(node: DagNode): seq<string> {
    EdgeLines(node.id, node.dependencies) + (if Isolated(node) then [StandaloneLine(node.id)] else [])
  }

  /** The header followed by the lines of the first `n` nodes, in node order. */
  function MermaidLines(dag: Dag, n: nat): seq<string>
    requires WellFormed(dag) && n <= |dag.keys|
  {
    if n == 0 then [Header] else MermaidLines(dag, n - 1) + NodeLines(dag.nodes[dag.keys[n - 1]])
  }

  method GetMermaidGraph(dag: Dag) returns (graph: string)
    requires WellFormed(dag)
    ensures graph == Join(MermaidLines(dag, |dag.keys|), "\n")
  {
    var lines := [Header];
    var i := 0;
    while i < |dag.keys|
      invariant i <= |dag.keys|
      invariant lines == MermaidLines(dag, i)
    {
      var node := dag.nodes[dag.keys[i]];
      var j := 0;
      while j < |node.dependencies|
        invariant j <= |node.dependencies|
        invariant lines == MermaidLines(dag, i) + EdgeLines(node.id, node.dependencies[..j])
      {
        assert node.dependencies[..j + 1][..j] == node.dependencies[..j];
        lines := lines + [EdgeLine(node.dependencies[j], node.id)];
        j := j + 1;
      }
      assert node.dependencies[..j] == node.dependencies;
      if |node.dependencies| == 0 && |node.dependents| == 0 {
        lines := lines + [StandaloneLine(node.id)];
      }
      i := i + 1;
    }
    graph := Join(lines, "\n");
  }

  // ----- Properties -----

  /** The number of dependency edges among the first `n` nodes. */
  function EdgeCount(dag: Dag, n: nat): nat
    requires WellFormed(dag) && n <= |dag.keys|
  {
    if n == 0 then 0 else EdgeCount(dag, n - 1) + |dag.nodes[dag.keys[n - 1]].dependencies|
  }

  /** The number of nodes among the first `n` that have neither dependencies nor dependents. */
  function IsolatedCount(dag: Dag, n: nat): nat
    requires WellFormed(dag) && n <= |dag.keys|
  {
    if n == 0 then 0 else IsolatedCount(dag, n - 1) + (if Isolated(dag.nodes[dag.keys[n - 1]]) then 1 else 0)
  }

  lemma {:induction false} EdgeLinesLength(id: TaskId, deps: seq<TaskId>)
    ensures |EdgeLines(id, deps)| == |deps|
  {
    if |deps| > 0 {
      EdgeLinesLength(id, deps[..|deps| - 1]);
    }
  }

  /** One header line, one line per edge and one per isolated node; the header comes first. */
  lemma {:induction false} LineCount(dag: Dag, n: nat)
    requires WellFormed(dag) && n <= |dag.keys|
    ensures |MermaidLines(dag, n)| == 1 + EdgeCount(dag, n) + IsolatedCount(dag, n)
    ensures MermaidLines(dag, n)[0] == Header
  {
    if n > 0 {
      LineCount(dag, n - 1);
      EdgeLinesLength(dag.nodes[dag.keys[n - 1]].id, dag.nodes[dag.keys[n - 1]].dependencies);
    }
  }

  /** The text starts with the header line. */
  lemma StartsWithHeader(dag: Dag)
    requires WellFormed(dag)
    ensures StartsWith(Join(MermaidLines(dag, |dag.keys|), "\n"), Header)
  {
    LineCount(dag, |dag.keys|);
    JoinStartsWith(MermaidLines(dag, |dag.keys|), "\n");
  }

  /** No id in the graph contains a line break. */
  ghost predicate SingleLineIds(dag: Dag) {
    forall k :: k in dag.nodes ==>
      '\n' !in dag.nodes[k].id && forall w :: w in dag.nodes[k].dependencies ==> '\n' !in w
  }

  lemma {:induction false} EdgeLinesSingle(id: TaskId, deps: seq<TaskId>)
    requires '\n' !in id && forall w :: w in deps ==> '\n' !in w
    ensures forall k :: 0 <= k < |EdgeLines(id, deps)| ==> '\n' !in EdgeLines(id, deps)[k]
  {
    if |deps| > 0 {
      EdgeLinesSingle(id, deps[..|deps| - 1]);
    }
  }

  lemma {:induction false} LinesSingle(dag: Dag, n: nat)
    requires WellFormed(dag) && n <= |dag.keys| && SingleLineIds(dag)
    ensures forall k :: 0 <= k < |MermaidLines(dag, n)| ==> '\n' !in MermaidLines(dag, n)[k]
  {
    if n > 0 {
      LinesSingle(dag, n - 1);
      var node := dag.nodes[dag.keys[n - 1]];
      EdgeLinesSingle(node.id, node.dependencies);
    }
  }

  /** When no id contains a line break, splitting the text on `\n` gives back exactly the lines. */
  lemma LinesRecovered(dag: Dag)
    requires WellFormed(dag) && SingleLineIds(dag)
    ensures Split(Join(MermaidLines(dag, |dag.keys|), "\n"), '\n') == MermaidLines(dag, |dag.keys|)
  {
    LinesSingle(dag, |dag.keys|);
    LineCount(dag, |dag.keys|);
    JoinSplit(MermaidLines(dag, |dag.keys|), '\n');
  }

  /** Each dependency `w` of a node gets the line `w --> id` among that node's lines. */
  lemma {:induction false} EdgeDrawn(id: TaskId, deps: seq<TaskId>, w: TaskId)
    requires w in deps
    ensures EdgeLine(w, id) in EdgeLines(id, deps)
  {
    var front, last := deps[..|deps| - 1], deps[|deps| - 1];
    assert deps == front + [last];
    if w != last {
      EdgeDrawn(id, front, w);
    }
  }

  /** Every dependency edge of every node is drawn, and every isolated node is shown on its own. */
  lemma {:induction false} EveryNodeDrawn(dag: Dag, n: nat, i: nat)
    requires WellFormed(dag) && i < n <= |dag.keys|
    ensures var node := dag.nodes[dag.keys[i]];
            && (forall w :: w in node.dependencies ==> EdgeLine(w, node.id) in MermaidLines(dag, n))
            && (Isolated(node) ==> StandaloneLine(node.id) in MermaidLines(dag, n))
  {
    var node := dag.nodes[dag.keys[i]];
    var before, added := MermaidLines(dag, n - 1), NodeLines(dag.nodes[dag.keys[n - 1]]);
    assert MermaidLines(dag, n) == before + added;
    if i == n - 1 {
      forall w | w in node.dependencies
        ensures EdgeLine(w, node.id) in added
      {
        EdgeDrawn(node.id, node.dependencies, w);
      }
      if Isolated(node) {
        assert StandaloneLine(node.id) in added;
      }
    } else {
      EveryNodeDrawn(dag, n - 1, i);
    }
  }

  /** A graph without edges, whose ids do not contain `-->`, is drawn without any arrow. */
  lemma NoEdgesNoArrows(dag: Dag)
    requires WellFormed(dag)
    requires forall k :: k in dag.nodes ==>
      |dag.nodes[k].dependencies| == 0 && !ContainsSubstring(dag.nodes[k].id, "-->")
    ensures !ContainsSubstring(Join(MermaidLines(dag, |dag.keys|), "\n"), "-->")
  {
    ArrowFree(dag, |dag.keys|);
    JoinAvoids(MermaidLines(dag, |dag.keys|), '\n', "-->");
  }

  lemma {:induction false} ArrowFree(dag: Dag, n: nat)
    requires WellFormed(dag) && n <= |dag.keys|
    requires forall k :: k in dag.nodes ==>
      |dag.nodes[k].dependencies| == 0 && !ContainsSubstring(dag.nodes[k].id, "-->")
    ensures forall k :: 0 <= k < |MermaidLines(dag, n)| ==> !ContainsSubstring(MermaidLines(dag, n)[k], "-->")
  {
    if n == 0 {
      AfterPadding(Header, "", "-->");
      assert Header + "" == Header;
    } else {
      ArrowFree(dag, n - 1);
      var node := dag.nodes[dag.keys[n - 1]];
      assert EdgeLines(node.id, node.dependencies) == [];
      AfterPadding("    ", node.id, "-->");
    }
  }
}
