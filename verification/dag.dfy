/** The dependency graph of materialized tables and its depth-first cycle check. */
module Dag {
  import opened Prelude
  import opened Sequences
  import opened Ordering

  /** One statement: its target (if it materializes one) and the tables it reads. */
  datatype Statement = Statement(target: Option<string>, sourcePath: string, sources: set<string>, aggregate: bool)

  datatype Node = Node(target: string, sourcePath: string, sources: seq<string>, hasAggregate: bool)

  /** Nodes by target; a later node replaces an earlier one with the same target. */
  type Graph = map<string, Node>

  function NodeOf(s: Statement): Node
    requires s.target.Some?
  {
    StrTotal();
    Node(s.target.value, s.sourcePath, SortedSet(StrLe, s.sources - {s.target.value}), s.aggregate)
  }

  /** One node for each statement that materializes a table, in order. */
  function NodesOf(statements: seq<Statement>): seq<Node> {
    if statements == [] then []
    else
      var n := |statements| - 1;
      NodesOf(statements[..n]) + if statements[n].target.Some? then [NodeOf(statements[n])] else []
  }

  function ByTarget(nodes: seq<Node>): Graph {
    if nodes == [] then map[] else ByTarget(nodes[..|nodes| - 1])[nodes[|nodes| - 1].target := nodes[|nodes| - 1]]
  }

  lemma {:induction false} ByTargetKeys(nodes: seq<Node>)
    ensures forall n | n in nodes :: n.target in ByTarget(nodes)
    ensures forall t | t in ByTarget(nodes) :: ByTarget(nodes)[t] in nodes && ByTarget(nodes)[t].target == t
  {
    if nodes != [] {
      ByTargetKeys(nodes[..|nodes| - 1]);
      assert nodes == nodes[..|nodes| - 1] + [nodes[|nodes| - 1]];
    }
  }

  // ---- what the statements say ----

  predicate HasTarget(s: Statement) { s.target.Some? }

  /** The node has the statement's target, path and flag, and all it reads but its own target, in strict order. */
  ghost predicate Describes(n: Node, s: Statement) {
    && s.target == Some(n.target) && n.sourcePath == s.sourcePath && n.hasAggregate == s.aggregate
    && (forall b :: b in n.sources <==> b in s.sources && b != n.target)
    && forall i, j | 0 <= i < j < |n.sources| :: StrLe(n.sources[i], n.sources[j]) && n.sources[i] != n.sources[j]
  }

  /** A node for each statement with a target, in order. */
  ghost predicate DescribeAll(nodes: seq<Node>, statements: seq<Statement>) {
    var ss := Filter(statements, HasTarget);
    |nodes| == |ss| && forall i | 0 <= i < |ss| :: Describes(nodes[i], ss[i])
  }

  /** Statement i is the last one with target t. */
  predicate IsLast(statements: seq<Statement>, i: nat, t: string) {
    && i < |statements| && statements[i].target == Some(t)
    && forall j | i < j < |statements| :: statements[j].target != Some(t)
  }

  predicate IsTarget(statements: seq<Statement>, t: string) { exists s | s in statements :: s.target == Some(t) }

  /** The last statement with target a reads b, another target. */
  ghost predicate LastReads(statements: seq<Statement>, a: string, b: string) {
    && a != b && IsTarget(statements, b)
    && exists i: nat | IsLast(statements, i, a) :: b in statements[i].sources
  }

  /** Some statement with target a reads b, another target. */
  ghost predicate Reads(statements: seq<Statement>, a: string, b: string) {
    && a != b && IsTarget(statements, b)
    && exists s | s in statements :: s.target == Some(a) && b in s.sources
  }

  /** A closed walk along what the last statements of their targets read. */
  ghost predicate IsLastCycle(statements: seq<Statement>, p: seq<string>) {
    |p| >= 2 && p[0] == p[|p| - 1] && forall i | 0 <= i < |p| - 1 :: LastReads(statements, p[i], p[i + 1])
  }

  /** A closed walk along what any statements read. */
  ghost predicate IsReadCycle(statements: seq<Statement>, p: seq<string>) {
    |p| >= 2 && p[0] == p[|p| - 1] && forall i | 0 <= i < |p| - 1 :: Reads(statements, p[i], p[i + 1])
  }

  /** No two statements have the same target. */
  predicate TargetOnce(statements: seq<Statement>) {
    forall i, j | 0 <= i < j < |statements| && HasTarget(statements[i]) :: statements[i].target != statements[j].target
  }

  lemma NodeDescribes(s: Statement)
    requires HasTarget(s)
    ensures Describes(NodeOf(s), s)
  {
    StrTotal();
    SortedSetSorted(StrLe, s.sources - {s.target.value});
  }

  lemma {:induction false} NodesDescribe(statements: seq<Statement>)
    ensures DescribeAll(NodesOf(statements), statements)
    decreases |statements|
  {
    if statements != [] {
      var n := |statements| - 1;
      var last := statements[n];
      NodesDescribe(statements[..n]);
      assert statements == statements[..n] + [last];
      FilterSnoc(statements[..n], last, HasTarget);
      if HasTarget(last) { NodeDescribes(last); }
    }
  }

  lemma TargetSnoc(statements: seq<Statement>, s: Statement, t: string)
    ensures IsTarget(statements + [s], t) <==> IsTarget(statements, t) || s.target == Some(t)
  {
    var all := statements + [s];
    assert s in all && forall x :: x in all <==> x in statements || x == s;
  }

  lemma GraphSnoc(statements: seq<Statement>, s: Statement)
    ensures var g := ByTarget(NodesOf(statements));
            ByTarget(NodesOf(statements + [s])) == if HasTarget(s) then g[s.target.value := NodeOf(s)] else g
  {
    var all, nodes := statements + [s], NodesOf(statements);
    assert all[..|all| - 1] == statements && all[|all| - 1] == s;
    if HasTarget(s) {
      assert NodesOf(all) == nodes + [NodeOf(s)];
      assert (nodes + [NodeOf(s)])[..|nodes|] == nodes;
    } else {
      assert NodesOf(all) == nodes + [] == nodes;
    }
  }

  lemma {:induction false} GraphTargets(statements: seq<Statement>, t: string)
    ensures t in ByTarget(NodesOf(statements)) <==> IsTarget(statements, t)
    decreases |statements|
  {
    if statements != [] {
      var front, last := statements[..|statements| - 1], statements[|statements| - 1];
      assert statements == front + [last];
      TargetSnoc(front, last, t);
      GraphTargets(front, t);
      GraphSnoc(front, last);
    }
  }

  /** The graph holds the node of each target's last statement. */
  lemma {:induction false} GraphOfLast(statements: seq<Statement>, i: nat, t: string)
    requires IsLast(statements, i, t)
    ensures t in ByTarget(NodesOf(statements)) && ByTarget(NodesOf(statements))[t] == NodeOf(statements[i])
    decreases |statements|
  {
    var front, last := statements[..|statements| - 1], statements[|statements| - 1];
    assert statements == front + [last];
    GraphSnoc(front, last);
    if i < |front| {
      assert forall j | i <= j < |front| :: front[j] == statements[j];
      GraphOfLast(front, i, t);
    }
  }

  lemma {:induction false} HasLast(statements: seq<Statement>, t: string) returns (i: nat)
    requires IsTarget(statements, t)
    ensures IsLast(statements, i, t)
    decreases |statements|
  {
    var n := |statements| - 1;
    var front, last := statements[..n], statements[n];
    assert statements == front + [last];
    if last.target == Some(t) {
      i := n;
    } else {
      TargetSnoc(front, last, t);
      i := HasLast(front, t);
      assert forall j | i < j < n :: front[j] == statements[j];
    }
  }

  /** The searched edges are what the last statements read. */
  lemma EdgesAreLastReads(statements: seq<Statement>, a: string, b: string)
    ensures Edge(ByTarget(NodesOf(statements)), a, b) <==> LastReads(statements, a, b)
  {
    GraphTargets(statements, a);
    GraphTargets(statements, b);
    if IsTarget(statements, a) {
      var i := HasLast(statements, a);
      GraphOfLast(statements, i, a);
      NodeDescribes(statements[i]);
      forall k: nat | IsLast(statements, k, a) ensures k == i {}
    }
  }

  lemma CyclesAreLastCycles(statements: seq<Statement>, p: seq<string>)
    ensures IsCycle(ByTarget(NodesOf(statements)), p) <==> IsLastCycle(statements, p)
  {
    forall i | 0 <= i < |p| - 1
      ensures Edge(ByTarget(NodesOf(statements)), p[i], p[i + 1]) <==> LastReads(statements, p[i], p[i + 1])
    {
      EdgesAreLastReads(statements, p[i], p[i + 1]);
    }
  }

  /** What last statements read is read; if each target has one statement, that is all. */
  lemma LastReadsAreReads(statements: seq<Statement>, a: string, b: string)
    ensures LastReads(statements, a, b) ==> Reads(statements, a, b)
    ensures TargetOnce(statements) ==> (Reads(statements, a, b) ==> LastReads(statements, a, b))
  {
    if TargetOnce(statements) && Reads(statements, a, b) {
      var s :| s in statements && s.target == Some(a) && b in s.sources;
      var i: nat :| i < |statements| && statements[i] == s;
      assert IsLast(statements, i, a);
    }
  }

  lemma LastCyclesAreCycles(statements: seq<Statement>, p: seq<string>)
    ensures IsLastCycle(statements, p) ==> IsReadCycle(statements, p)
    ensures TargetOnce(statements) ==> (IsReadCycle(statements, p) ==> IsLastCycle(statements, p))
  {
    forall i | 0 <= i < |p| - 1
      ensures LastReads(statements, p[i], p[i + 1]) ==> Reads(statements, p[i], p[i + 1])
      ensures TargetOnce(statements) ==> (Reads(statements, p[i], p[i + 1]) ==> LastReads(statements, p[i], p[i + 1]))
    {
      LastReadsAreReads(statements, p[i], p[i + 1]);
    }
  }

  /** Table a reads table b, and both are produced by the corpus. */
  predicate Edge(g: Graph, a: string, b: string) { a in g && b in g[a].sources && b in g }

  /** A walk along read edges. */
  ghost predicate IsWalk(g: Graph, p: seq<string>) {
    forall i | 0 <= i < |p| - 1 :: Edge(g, p[i], p[i + 1])
  }

  /** A closed walk: the first table again at the end. */
  ghost predicate IsCycle(g: Graph, p: seq<string>) {
    |p| >= 2 && p[0] == p[|p| - 1] && IsWalk(g, p)
  }

  ghost predicate Acyclic(g: Graph) { !exists p :: IsCycle(g, p) }

  // ---- an order in which every table comes after the tables it reads ----

  /** Distinct tables, each after everything it reads. */
  ghost predicate Finished(g: Graph, order: seq<string>) {
    && (forall i, j | 0 <= i < j < |order| :: order[i] != order[j])
    && forall i, b | 0 <= i < |order| && Edge(g, order[i], b) :: b in order[..i]
  }

  lemma FinishedIsAcyclic(g: Graph, order: seq<string>)
    requires Finished(g, order) && forall t | t in g :: t in order
    ensures Acyclic(g)
  {
    forall p | IsCycle(g, p) ensures false {
      assert Edge(g, p[0], p[1]);
      var k :| 0 <= k < |order| && order[k] == p[0];
      var j := WalkDescends(g, order, p, k, |p| - 1);
    }
  }

  /** Along a walk the position in the order only falls. */
  lemma {:induction false} WalkDescends(g: Graph, order: seq<string>, p: seq<string>, k: nat, i: nat) returns (j: nat)
    requires Finished(g, order) && IsWalk(g, p) && 0 <= i < |p| && k < |order| && order[k] == p[0]
    ensures j < |order| && order[j] == p[i] && j + i <= k
  {
    if i == 0 {
      j := k;
    } else {
      var j0 := WalkDescends(g, order, p, k, i - 1);
      assert Edge(g, p[i - 1], p[i]);
      j :| 0 <= j < j0 && order[j] == p[i];
    }
  }

  // ---- the search ----

  datatype Color = White | Gray | Black

  ghost function WhiteTables(color: map<string, Color>): set<string> {
    set t | t in color && color[t] == White
  }

  ghost predicate KeepsBlack(before: map<string, Color>, after: map<string, Color>) {
    forall u | u in before && before[u] == Black :: u in after && after[u] == Black
  }

  /** Those of the tables that are to be searched are finished. */
  ghost predicate Blackened(tables: seq<string>, color: map<string, Color>) {
    forall u | u in tables && u in color :: color[u] == Black
  }

  lemma BlackenedNext(tables: seq<string>, i: nat, before: map<string, Color>, after: map<string, Color>)
    requires i < |tables| && Blackened(tables[..i], before) && before.Keys == after.Keys
    requires before == after || KeepsBlack(before, after)
    requires tables[i] in after ==> after[tables[i]] == Black
    ensures Blackened(tables[..i + 1], after)
  {
    assert tables[..i + 1] == tables[..i] + [tables[i]];
  }

  lemma SourcesBlackened(g: Graph, t: string, color: map<string, Color>)
    requires t in g && color.Keys == g.Keys && Blackened(g[t].sources[..|g[t].sources|], color)
    ensures forall b | Edge(g, t, b) :: color[b] == Black
  {
    assert g[t].sources[..|g[t].sources|] == g[t].sources;
  }

  /** A path that comes back to one of its own tables closes a cycle. */
  lemma ClosedWalk(g: Graph, path: seq<string>, start: nat, t: string)
    requires IsWalk(g, path) && start < |path| && path[start] == t && Edge(g, path[|path| - 1], t)
    ensures IsCycle(g, path[start..] + [t])
  {
    var p := path[start..] + [t];
    forall i | 0 <= i < |p| - 1 ensures Edge(g, p[i], p[i + 1]) {
      assert p[i] == path[start + i];
      if i + 1 < |p| - 1 { assert p[i + 1] == path[start + i + 1]; }
    }
  }

  class CycleSearch {
    const graph: Graph
    var color: map<string, Color>
    var path: seq<string>
    ghost var order: seq<string>

    /** Gray tables are the path, black ones are finished, and the path is a walk. */
    ghost predicate Valid()
      reads this
    {
      && color.Keys == graph.Keys
      && (forall i, j | 0 <= i < j < |path| :: path[i] != path[j])
      && (forall t | t in color :: color[t] == Gray <==> t in path)
      && (forall t | t in path :: t in color)
      && (forall t | t in color :: color[t] == Black <==> t in order)
      && (forall t | t in order :: t in color)
      && IsWalk(graph, path)
      && Finished(graph, order)
    }

    constructor (g: Graph)
      ensures Valid() && graph == g && path == [] && color == map t | t in g :: White
    {
      graph := g;
      color := map t | t in g :: White;
      path := [];
      order := [];
    }

    /** May t be visited next? */
    ghost predicate Ready(t: string)
      reads this
    {
      Valid() && t in graph && (path != [] ==> Edge(graph, path[|path| - 1], t))
    }

    /** A gray table is on the path: the walk from it back to itself. */
    method PathBackTo(t: string) returns (cycle: seq<string>)
      requires Ready(t) && color[t] == Gray
      ensures IsCycle(graph, cycle)
    {
      var start := IndexOf(path, t);
      ClosedWalk(graph, path, start, t);
      return path[start..] + [t];
    }

    /** Visits t below the current path; the white tables run out, so this ends. */
    method Visit(t: string) returns (cycle: Option<seq<string>>)
      requires Ready(t)
      modifies this
      ensures cycle.Some? ==> IsCycle(graph, cycle.value)
      ensures cycle.None? ==> Valid() && path == old(path) && color[t] == Black
      ensures cycle.None? ==> KeepsBlack(old(color), color) && WhiteTables(color) <= old(WhiteTables(color))
      decreases WhiteTables(color)
    {
      if color[t] == Black { return None; }
      if color[t] == Gray {
        var closed := PathBackTo(t);
        return Some(closed);
      }
      ghost var below := path;
      Open(t);
      var sources := graph[t].sources;
      for i := 0 to |sources|
        invariant Valid() && path == below + [t]
        invariant WhiteTables(color) < old(WhiteTables(color)) && KeepsBlack(old(color), color)
        invariant Blackened(sources[..i], color)
      {
        ghost var before := color;
        if sources[i] in graph {
          assert Edge(graph, t, sources[i]);
          cycle := Visit(sources[i]);
          if cycle.Some? { return; }
        }
        BlackenedNext(sources, i, before, color);
      }
      SourcesBlackened(graph, t, color);
      Close(below, t);
      return None;
    }

    /** One turn of the outer loop: with an empty path nothing is gray. */
    method VisitIfWhite(t: string) returns (cycle: Option<seq<string>>)
      requires Valid() && path == [] && t in graph
      modifies this
      ensures cycle.Some? ==> IsCycle(graph, cycle.value)
      ensures cycle.None? ==> Valid() && path == [] && color[t] == Black && KeepsBlack(old(color), color)
    {
      cycle := None;
      if color[t] == White {
        cycle := Visit(t);
      } else {
        assert color[t] == Black;
      }
    }

    /** Puts t on the path. */
    method Open(t: string)
      requires Ready(t) && color[t] == White
      modifies this
      ensures Valid() && path == old(path) + [t] && color == old(color)[t := Gray]
      ensures WhiteTables(color) < old(WhiteTables(color))
    {
      assert t in WhiteTables(color);
      assert t !in path;
      color := color[t := Gray];
      path := path + [t];
      assert t !in WhiteTables(color);
      forall u | u in color ensures color[u] == Gray <==> u in path {
        assert u in path <==> u in old(path) || u == t;
      }
    }

    /** Takes t off the path and marks it finished. */
    method Close(ghost below: seq<string>, t: string)
      requires Valid() && path == below + [t] && t in graph
      requires forall b | Edge(graph, t, b) :: color[b] == Black
      modifies this
      ensures Valid() && path == below && color == old(color)[t := Black]
    {
      assert t in path && color[t] == Gray;
      assert path[|path| - 1] == t;
      assert t !in below by {
        forall k | 0 <= k < |below| ensures below[k] != t { assert path[k] == below[k]; }
      }
      ghost var walked := path;
      path := path[..|path| - 1];
      color := color[t := Black];
      assert path == below;
      forall i | 0 <= i < |path| - 1 ensures Edge(graph, path[i], path[i + 1]) {
        assert path[i] == walked[i] && path[i + 1] == walked[i + 1];
      }
      assert t !in order;
      FinishedSnoc(graph, order, t);
      order := order + [t];
      assert forall u | u in walked :: u in below || u == t;
      assert forall u | u in below :: u in walked;
    }
  }

  lemma FinishedSnoc(g: Graph, order: seq<string>, t: string)
    requires Finished(g, order) && t !in order && forall b | Edge(g, t, b) :: b in order
    ensures Finished(g, order + [t])
  {
    var o := order + [t];
    forall i, b | 0 <= i < |o| && Edge(g, o[i], b) ensures b in o[..i] {
      if i < |order| {
        assert o[..i] == order[..i];
      } else {
        assert o[..i] == order;
      }
    }
  }

  /** The first position of t, as list.index finds it. */
  method IndexOf(s: seq<string>, t: string) returns (i: nat)
    requires t in s
    ensures i < |s| && s[i] == t && t !in s[..i]
  {
    i := 0;
    assert s[..|s|] == s;
    while s[i] != t
      invariant i < |s| && t !in s[..i]
      decreases |s| - i
    {
      assert s[..i + 1] == s[..i] + [s[i]];
      i := i + 1;
    }
  }

  method CollectNodes(statements: seq<Statement>) returns (nodes: seq<Node>)
    ensures nodes == NodesOf(statements)
  {
    nodes := [];
    for i := 0 to |statements|
      invariant nodes == NodesOf(statements[..i])
    {
      assert statements[..i + 1][..i] == statements[..i];
      if statements[i].target.Some? {
        nodes := nodes + [NodeOf(statements[i])];
      }
    }
    assert statements[..|statements|] == statements;
  }

  /**
   * Accepts exactly the statements without a cycle of reads, where the last statement of a
   * target counts, and describes those with a target; otherwise names a closed walk. With
   * one statement for each target it accepts exactly those whose reads have no cycle.
   */
  method BuildDag(statements: seq<Statement>) returns (r: Result<seq<Node>, seq<string>>)
    ensures r.Ok? <==> !exists p :: IsLastCycle(statements, p)
    ensures r.Ok? ==> DescribeAll(r.value, statements)
    ensures r.Err? ==> IsLastCycle(statements, r.error) && IsReadCycle(statements, r.error)
    ensures TargetOnce(statements) ==> (r.Ok? <==> !exists p :: IsReadCycle(statements, p))
  {
    forall p ensures IsCycle(ByTarget(NodesOf(statements)), p) <==> IsLastCycle(statements, p) {
      CyclesAreLastCycles(statements, p);
    }
    forall p
      ensures IsLastCycle(statements, p) ==> IsReadCycle(statements, p)
      ensures TargetOnce(statements) ==> (IsReadCycle(statements, p) ==> IsLastCycle(statements, p))
    {
      LastCyclesAreCycles(statements, p);
    }
    NodesDescribe(statements);
    var nodes := CollectNodes(statements);
    var cycle := SearchAll(nodes);
    if cycle.Some? { return Err(cycle.value); }
    r := Ok(nodes);
  }

  /** The outer loop: a search from every table that is still white. */
  method SearchAll(nodes: seq<Node>) returns (cycle: Option<seq<string>>)
    ensures cycle.None? ==> Acyclic(ByTarget(nodes))
    ensures cycle.Some? ==> IsCycle(ByTarget(nodes), cycle.value)
  {
    var search := new CycleSearch(ByTarget(nodes));
    ByTargetKeys(nodes);
    for i := 0 to |nodes|
      invariant search.Valid() && search.path == [] && search.graph == ByTarget(nodes)
      invariant AllBlack(nodes[..i], search.color)
    {
      assert nodes[i] in nodes;
      ghost var before := search.color;
      cycle := search.VisitIfWhite(nodes[i].target);
      if cycle.Some? { return; }
      OneMoreBlack(nodes, i, before, search.color);
    }
    assert nodes[..|nodes|] == nodes;
    AllFinished(nodes, search);
    return None;
  }

  lemma OneMoreBlack(nodes: seq<Node>, i: nat, before: map<string, Color>, after: map<string, Color>)
    requires i < |nodes| && AllBlack(nodes[..i], before) && KeepsBlack(before, after)
    requires nodes[i].target in after && after[nodes[i].target] == Black
    ensures AllBlack(nodes[..i + 1], after)
  {
    assert nodes[..i + 1] == nodes[..i] + [nodes[i]];
  }

  ghost predicate AllBlack(nodes: seq<Node>, color: map<string, Color>) {
    forall n | n in nodes :: n.target in color && color[n.target] == Black
  }

  lemma AllFinished(nodes: seq<Node>, search: CycleSearch)
    requires search.Valid() && search.graph == ByTarget(nodes)
    requires AllBlack(nodes, search.color)
    ensures Acyclic(search.graph)
  {
    var g := search.graph;
    ByTargetKeys(nodes);
    forall t | t in g ensures t in search.order {
      assert g[t] in nodes && g[t].target == t;
    }
    FinishedIsAcyclic(g, search.order);
  }

  // ---- which target lists the check is right for ----

  function TargetOf(s: Statement): string { if s.target.Some? then s.target.value else "" }

  /** The targets that are materialized, in order. */
  function TargetsOf(statements: seq<Statement>): seq<string> { Map(Filter(statements, HasTarget), TargetOf) }

  predicate AllDistinct(targets: seq<string>) { forall i, j | 0 <= i < j < |targets| :: targets[i] != targets[j] }

  predicate AllEqual(targets: seq<string>) { forall i, j | 0 <= i < j < |targets| :: targets[i] == targets[j] }

  /** The check accepts these statements exactly when what they read has no cycle. */
  ghost predicate CheckAgrees(statements: seq<Statement>) {
    (exists p :: IsLastCycle(statements, p)) <==> exists p :: IsReadCycle(statements, p)
  }

  /** Whatever the statements of these targets read. */
  ghost predicate AlwaysAgrees(targets: seq<string>) {
    forall statements | TargetsOf(statements) == targets :: CheckAgrees(statements)
  }

  lemma TargetListed(statements: seq<Statement>, s: Statement) returns (k: nat)
    requires s in statements && HasTarget(s)
    ensures k < |TargetsOf(statements)| && TargetsOf(statements)[k] == s.target.value
  {
    var ss := Filter(statements, HasTarget);
    k :| k < |ss| && ss[k] == s;
  }

  lemma TargetsSnoc(statements: seq<Statement>, s: Statement)
    ensures TargetsOf(statements + [s]) == TargetsOf(statements) + if HasTarget(s) then [s.target.value] else []
  {
    FilterSnoc(statements, s, HasTarget);
  }

  lemma NewTarget(statements: seq<Statement>, s: Statement, t: string)
    requires AllDistinct(TargetsOf(statements) + [t]) && s in statements
    ensures s.target != Some(t)
  {
    if HasTarget(s) {
      var k := TargetListed(statements, s);
      var all := TargetsOf(statements) + [t];
      assert all[k] != all[|all| - 1];
    }
  }

  lemma DistinctFront(targets: seq<string>, more: seq<string>)
    requires AllDistinct(targets + more)
    ensures AllDistinct(targets)
  {
    var all := targets + more;
    forall i, j | 0 <= i < j < |targets| ensures targets[i] != targets[j] { assert all[i] != all[j]; }
  }

  lemma OnceSnoc(statements: seq<Statement>, s: Statement)
    requires TargetOnce(statements)
    requires HasTarget(s) ==> forall x | x in statements :: x.target != s.target
    ensures TargetOnce(statements + [s])
  {
  }

  lemma {:induction false} DistinctIsOnce(statements: seq<Statement>)
    requires AllDistinct(TargetsOf(statements))
    ensures TargetOnce(statements)
    decreases |statements|
  {
    if statements != [] {
      var n := |statements| - 1;
      var front, last := statements[..n], statements[n];
      assert statements == front + [last];
      TargetsSnoc(front, last);
      DistinctFront(TargetsOf(front), if HasTarget(last) then [last.target.value] else []);
      DistinctIsOnce(front);
      if HasTarget(last) {
        forall x | x in front ensures x.target != last.target { NewTarget(front, x, last.target.value); }
      }
      OnceSnoc(front, last);
    }
  }

  /** With only one target there is nothing else to read. */
  lemma OneTargetReadsNothing(statements: seq<Statement>, a: string, b: string)
    requires AllEqual(TargetsOf(statements))
    ensures !Reads(statements, a, b)
  {
    if Reads(statements, a, b) {
      var s :| s in statements && s.target == Some(a) && b in s.sources;
      var t :| t in statements && t.target == Some(b);
      var i := TargetListed(statements, s);
      var j := TargetListed(statements, t);
    }
  }

  lemma OneTargetAgrees(statements: seq<Statement>)
    requires AllEqual(TargetsOf(statements))
    ensures CheckAgrees(statements)
  {
    forall p ensures !IsLastCycle(statements, p) && !IsReadCycle(statements, p) {
      if |p| >= 2 {
        OneTargetReadsNothing(statements, p[0], p[1]);
        LastReadsAreReads(statements, p[0], p[1]);
      }
    }
  }

  lemma DistinctAgree(statements: seq<Statement>)
    requires AllDistinct(TargetsOf(statements))
    ensures CheckAgrees(statements)
  {
    DistinctIsOnce(statements);
    forall p ensures IsLastCycle(statements, p) <==> IsReadCycle(statements, p) { LastCyclesAreCycles(statements, p); }
  }

  /** Only statement i, for a, reads b; and every statement for b reads a. */
  function HidingStatements(targets: seq<string>, i: nat, b: string): (r: seq<Statement>)
    requires i < |targets|
    ensures |r| == |targets|
    ensures forall k | 0 <= k < |r| ::
              && r[k].target == Some(targets[k])
              && r[k].sources == if k == i then {b} else if targets[k] == b then {targets[i]} else {}
  {
    seq(|targets|, k requires 0 <= k < |targets| =>
      Statement(Some(targets[k]), "", if k == i then {b} else if targets[k] == b then {targets[i]} else {}, false))
  }

  lemma HidingTargets(targets: seq<string>, i: nat, b: string)
    requires i < |targets|
    ensures TargetsOf(HidingStatements(targets, i, b)) == targets
  {
    FilterAll(HidingStatements(targets, i, b), HasTarget);
  }

  lemma HidingReads(targets: seq<string>, i: nat, k: nat)
    requires i < |targets| && k < |targets| && targets[i] != targets[k]
    ensures IsReadCycle(HidingStatements(targets, i, targets[k]), [targets[i], targets[k], targets[i]])
  {
    var a, b := targets[i], targets[k];
    var ss := HidingStatements(targets, i, b);
    assert ss[i] in ss && ss[i].target == Some(a) && b in ss[i].sources;
    assert ss[k] in ss && ss[k].target == Some(b) && a in ss[k].sources;
    assert Reads(ss, a, b) && Reads(ss, b, a);
    var p := [a, b, a];
    forall x | 0 <= x < |p| - 1 ensures Reads(ss, p[x], p[x + 1]) { assert x == 0 || x == 1; }
  }

  /** Of the last statements only b's reads anything, and that is a. */
  lemma HiddenRead(targets: seq<string>, i: nat, j: nat, b: string, x: string, y: string)
    requires i < j < |targets| && targets[i] == targets[j] != b
    requires LastReads(HidingStatements(targets, i, b), x, y)
    ensures x == b && y == targets[i]
  {
    var ss := HidingStatements(targets, i, b);
    var k: nat :| IsLast(ss, k, x) && y in ss[k].sources;
    assert k == i ==> ss[j].target == Some(x);
  }

  /** A repeated target beside another one: what its first statement reads is hidden, and a cycle with it. */
  lemma RepeatedTargetHidesCycle(targets: seq<string>, i: nat, j: nat, k: nat)
    requires i < j < |targets| && k < |targets| && targets[i] == targets[j] != targets[k]
    ensures var ss := HidingStatements(targets, i, targets[k]);
            && TargetsOf(ss) == targets && (forall p :: !IsLastCycle(ss, p))
            && IsReadCycle(ss, [targets[i], targets[k], targets[i]])
  {
    var a, b := targets[i], targets[k];
    var ss := HidingStatements(targets, i, b);
    HidingTargets(targets, i, b);
    HidingReads(targets, i, k);
    forall p ensures !IsLastCycle(ss, p) {
      if IsLastCycle(ss, p) {
        assert LastReads(ss, p[0], p[1]);
        HiddenRead(targets, i, j, b, p[0], p[1]);
        if |p| > 2 {
          assert LastReads(ss, p[1], p[2]);
          HiddenRead(targets, i, j, b, p[1], p[2]);
        }
      }
    }
  }

  /**
   * The check is right about what the statements read, whatever that is, exactly when no
   * target is materialized twice, or there is only one target.
   */
  lemma CheckAgreesExactly(targets: seq<string>)
    ensures AlwaysAgrees(targets) <==> AllDistinct(targets) || AllEqual(targets)
  {
    if AllDistinct(targets) || AllEqual(targets) {
      forall statements | TargetsOf(statements) == targets ensures CheckAgrees(statements) {
        if AllEqual(targets) { OneTargetAgrees(statements); } else { DistinctAgree(statements); }
      }
    } else {
      var i, j :| 0 <= i < j < |targets| && targets[i] == targets[j];
      var k := OtherTarget(targets, i);
      RepeatedTargetHidesCycle(targets, i, j, k);
      assert !CheckAgrees(HidingStatements(targets, i, targets[k]));
    }
  }

  lemma OtherTarget(targets: seq<string>, i: nat) returns (k: nat)
    requires i < |targets| && !AllEqual(targets)
    ensures k < |targets| && targets[k] != targets[i]
  {
    var x, y :| 0 <= x < y < |targets| && targets[x] != targets[y];
    k := if targets[x] != targets[i] then x else y;
  }
}
