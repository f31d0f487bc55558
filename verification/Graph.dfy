/**
The mutable graph of internal/dag/graph.go: a node map and an edge list changed in place.

Map iteration order is arbitrary in the source, so every loop over a map picks its next key
nondeterministically and the contracts hold for every order.
*/
module Dag {
  import opened Digraph
  import opened Kahn
  import opened Levelling
  import opened Results

  datatype Node = Node(id: NodeId, name: string)

  /** A snapshot of a graph; the mutating methods are specified by functions on snapshots. */
  datatype GraphState = GraphState(nodes: map<NodeId, Node>, edges: seq<Edge>) {
    ghost predicate WellFormed() {
      && (forall id :: id in nodes ==> nodes[id].id == id)
      && (forall e :: e in edges ==> e.from in nodes && e.to in nodes)
    }

    ghost function E(): set<Edge> {
      EdgeSet(edges)
    }
  }

  function Ids(ns: seq<Node>): (r: seq<NodeId>)
    ensures |r| == |ns| && forall i :: 0 <= i < |ns| ==> r[i] == ns[i].id
  {
    seq(|ns|, i requires 0 <= i < |ns| => ns[i].id)
  }

  ghost predicate AreNodes(nodes: map<NodeId, Node>, ns: seq<Node>) {
    forall i :: 0 <= i < |ns| ==> ns[i].id in nodes && nodes[ns[i].id] == ns[i]
  }

  /** In a list of graph nodes membership is decided by the identifier. */
  lemma MembersByIds(nodes: map<NodeId, Node>, ns: seq<Node>)
    requires AreNodes(nodes, ns)
    ensures forall n :: n in ns <==> n.id in nodes && n == nodes[n.id] && n.id in Ids(ns)
  {
  }

  // ----- specification of the mutators -----

  function WithNode(s: GraphState, id: NodeId, name: string): GraphState {
    s.(nodes := s.nodes[id := Node(id, name)])
  }

  function WithEdge(s: GraphState, from: NodeId, to: NodeId): GraphState {
    s.(edges := s.edges + [Edge(from, to)])
  }

  predicate EdgeAddable(s: GraphState, from: NodeId, to: NodeId) {
    from in s.nodes && to in s.nodes && Edge(from, to) !in s.edges
  }

  function EdgesWithout(es: seq<Edge>, id: NodeId): (r: seq<Edge>)
    ensures forall e :: e in r <==> e in es && e.from != id && e.to != id
  {
    if es == [] then []
    else
      var last := es[|es| - 1];
      EdgesWithout(es[..|es| - 1], id) + (if last.from != id && last.to != id then [last] else [])
  }

  function WithoutNode(s: GraphState, id: NodeId): GraphState {
    GraphState(map k | k in s.nodes && k != id :: s.nodes[k], EdgesWithout(s.edges, id))
  }

  /** The targets of the edges out of `id`, one for each edge, in edge order. */
  function TargetsOf(es: seq<Edge>, id: NodeId): (r: seq<NodeId>)
    ensures forall v :: v in r <==> Edge(id, v) in es
  {
    if es == [] then []
    else TargetsOf(es[..|es| - 1], id) + (if es[|es| - 1].from == id then [es[|es| - 1].to] else [])
  }

  function SourcesOf(es: seq<Edge>, id: NodeId): (r: seq<NodeId>)
    ensures forall v :: v in r <==> Edge(v, id) in es
  {
    if es == [] then []
    else SourcesOf(es[..|es| - 1], id) + (if es[|es| - 1].to == id then [es[|es| - 1].from] else [])
  }

  /** `es` with its first occurrence of `e` removed. */
  function WithoutFirst(es: seq<Edge>, e: Edge): (r: seq<Edge>)
    ensures forall x :: x in r ==> x in es
    ensures |r| == if e in es then |es| - 1 else |es|
  {
    if es == [] then []
    else if es[0] == e then es[1..]
    else [es[0]] + WithoutFirst(es[1..], e)
  }

  lemma {:induction false} WithoutFirstAt(es: seq<Edge>, i: nat)
    requires i < |es| && es[i] !in es[..i]
    ensures WithoutFirst(es, es[i]) == es[..i] + es[i + 1..]
  {
    if i > 0 {
      assert es[0] in es[..i];
      assert es[1..][..i - 1] == es[1..i];
      assert forall x :: x in es[1..i] ==> x in es[..i];
      WithoutFirstAt(es[1..], i - 1);
      assert es[1..][i - 1] == es[i];
      assert es[..i] + es[i + 1..] == [es[0]] + (es[1..][..i - 1] + es[1..][i..]);
    }
  }

  function WithoutEdge(s: GraphState, from: NodeId, to: NodeId): GraphState {
    s.(edges := WithoutFirst(s.edges, Edge(from, to)))
  }

  // ----- specification of the two sorts -----

  /** What a topological sort returns: the nodes no cycle leads to, each once, predecessors first. */
  ghost predicate IsSort(s: GraphState, sorted: seq<Node>) {
    && Distinct(Ids(sorted))
    && (forall n :: n in sorted ==> n.id in s.nodes && s.nodes[n.id] == n)
    && (forall v :: v in s.nodes ==> (v in Ids(sorted) <==> !DownstreamOfCycle(s.E(), v)))
    && PredecessorsFirst(s.E(), Ids(sorted))
  }

  /** What the level computation returns: each node once, at the length of the longest walk ending at it. */
  ghost predicate IsLevelling(s: GraphState, levels: seq<seq<Node>>) {
    && (forall l, n :: 0 <= l < |levels| && n in levels[l] ==>
          n.id in s.nodes && s.nodes[n.id] == n && LongestTo(s.E(), n.id, l))
    && (forall v :: v in s.nodes ==> exists l :: 0 <= l < |levels| && s.nodes[v] in levels[l])
    && (forall l :: 0 <= l < |levels| ==> Distinct(Ids(levels[l])))
    && (s.nodes == map[] ==> levels == [[]])
    && (s.nodes != map[] ==> levels != [] && forall l :: 0 <= l < |levels| ==> levels[l] != [])
  }

  /** `sorted` holds the nodes with the identifiers in `order`. */
  ghost predicate NodesOf(nodes: map<NodeId, Node>, order: seq<NodeId>, sorted: seq<Node>) {
    |order| == |sorted| && forall i :: 0 <= i < |order| ==> order[i] in nodes && sorted[i] == nodes[order[i]]
  }

  lemma AppendNode(nodes: map<NodeId, Node>, order: seq<NodeId>, sorted: seq<Node>, v: NodeId)
    requires NodesOf(nodes, order, sorted) && v in nodes
    ensures NodesOf(nodes, order + [v], sorted + [nodes[v]])
  {
  }

  lemma OrderIsSort(s: GraphState, order: seq<NodeId>, sorted: seq<Node>)
    requires s.WellFormed() && NodesOf(s.nodes, order, sorted) && Distinct(order) && PredecessorsFirst(s.E(), order)
    requires forall v :: v in s.nodes ==> (v in order <==> !DownstreamOfCycle(s.E(), v))
    ensures IsSort(s, sorted)
  {
  }

  class Graph {
    var nodes: map<NodeId, Node>
    var edges: seq<Edge>

    function State(): GraphState
      reads this
    {
      GraphState(nodes, edges)
    }

    ghost predicate Valid()
      reads this
    {
      State().WellFormed()
    }

    constructor ()
      ensures Valid() && State() == GraphState(map[], [])
    {
      nodes, edges := map[], [];
    }

    /** `id` stands for the identifier drawn at random by the source. */
    method AddNode(id: NodeId, name: string) returns (n: Node)
      requires Valid()
      modifies this
      ensures Valid() && State() == WithNode(old(State()), id, name) && n == Node(id, name)
    {
      n := Node(id, name);
      nodes := nodes[id := n];
    }

    method AddNodeWithID(id: NodeId, name: string) returns (r: Result<Node>)
      requires Valid()
      modifies this
      ensures Valid()
      ensures r.Err? <==> id in old(nodes)
      ensures State() == if r.Ok? then WithNode(old(State()), id, name) else old(State())
      ensures r.Ok? ==> r.value == Node(id, name)
    {
      if id in nodes {
        return Err("node already exists");
      }
      var n := Node(id, name);
      nodes := nodes[id := n];
      return Ok(n);
    }

    method AddEdge(from: NodeId, to: NodeId) returns (ok: bool)
      requires Valid()
      modifies this
      ensures Valid()
      ensures ok <==> EdgeAddable(old(State()), from, to)
      ensures State() == if ok then WithEdge(old(State()), from, to) else old(State())
    {
      if from !in nodes || to !in nodes {
        return false;
      }
      for i := 0 to |edges|
        invariant Edge(from, to) !in edges[..i]
      {
        if edges[i].from == from && edges[i].to == to {
          return false;
        }
      }
      edges := edges + [Edge(from, to)];
      return true;
    }

    method RemoveNode(id: NodeId) returns (found: bool)
      requires Valid()
      modifies this
      ensures Valid()
      ensures found <==> id in old(nodes)
      ensures State() == if found then WithoutNode(old(State()), id) else old(State())
    {
      if id !in nodes {
        return false;
      }
      nodes := map k | k in nodes && k != id :: nodes[k];
      var filtered: seq<Edge> := [];
      for i := 0 to |edges|
        invariant edges == old(edges) && filtered == EdgesWithout(edges[..i], id)
      {
        assert edges[..i + 1][..i] == edges[..i];
        if edges[i].from != id && edges[i].to != id {
          filtered := filtered + [edges[i]];
        }
      }
      assert edges[..|edges|] == edges;
      edges := filtered;
      return true;
    }

    method RemoveEdge(from: NodeId, to: NodeId) returns (found: bool)
      requires Valid()
      modifies this
      ensures Valid()
      ensures found <==> Edge(from, to) in old(edges)
      ensures State() == if found then WithoutEdge(old(State()), from, to) else old(State())
    {
      for i := 0 to |edges|
        invariant State() == old(State()) && Edge(from, to) !in edges[..i]
      {
        if edges[i].from == from && edges[i].to == to {
          WithoutFirstAt(edges, i);
          edges := edges[..i] + edges[i + 1..];
          return true;
        }
      }
      return false;
    }

    method Clear()
      modifies this
      ensures Valid() && State() == GraphState(map[], [])
    {
      nodes, edges := map[], [];
    }

    method Children(id: NodeId) returns (children: seq<Node>)
      requires Valid()
      ensures Ids(children) == TargetsOf(edges, id)
      ensures forall n :: n in children <==> n.id in nodes && n == nodes[n.id] && Edge(id, n.id) in edges
    {
      children := [];
      for i := 0 to |edges|
        invariant Ids(children) == TargetsOf(edges[..i], id) && AreNodes(nodes, children)
      {
        assert edges[..i + 1][..i] == edges[..i];
        if edges[i].from == id {
          if edges[i].to in nodes {
            children := children + [nodes[edges[i].to]];
          }
        }
      }
      assert edges[..|edges|] == edges;
      MembersByIds(nodes, children);
    }

    method Parents(id: NodeId) returns (parents: seq<Node>)
      requires Valid()
      ensures Ids(parents) == SourcesOf(edges, id)
      ensures forall n :: n in parents <==> n.id in nodes && n == nodes[n.id] && Edge(n.id, id) in edges
    {
      parents := [];
      for i := 0 to |edges|
        invariant Ids(parents) == SourcesOf(edges[..i], id) && AreNodes(nodes, parents)
      {
        assert edges[..i + 1][..i] == edges[..i];
        if edges[i].to == id {
          if edges[i].from in nodes {
            parents := parents + [nodes[edges[i].from]];
          }
        }
      }
      assert edges[..|edges|] == edges;
      MembersByIds(nodes, parents);
    }

    /** The in-degree table both sorts start from. */
    static method InDegrees(ns: set<NodeId>, es: seq<Edge>) returns (inDegree: map<NodeId, int>)
      requires forall e :: e in es ==> e.to in ns
      ensures inDegree.Keys == ns
      ensures forall v :: v in ns ==> inDegree[v] == Waiting(es, v, {})
    {
      inDegree := map v | v in ns :: 0;
      for i := 0 to |es|
        invariant inDegree.Keys == ns
        invariant forall v :: v in ns ==> inDegree[v] == Waiting(es[..i], v, {})
      {
        forall v | v in ns
          ensures Waiting(es[..i + 1], v, {}) == Waiting(es[..i], v, {}) + (if es[i].to == v then 1 else 0)
        {
          WaitingStep(es, i, v, {}, {});
        }
        inDegree := inDegree[es[i].to := inDegree[es[i].to] + 1];
      }
      assert es[..|es|] == es;
    }

    /** The initial queue: all nodes of in-degree zero, in an arbitrary order. */
    static method Roots(inDegree: map<NodeId, int>) returns (queue: seq<NodeId>)
      ensures Distinct(queue)
      ensures forall v :: v in queue <==> v in inDegree && inDegree[v] == 0
    {
      queue := [];
      var rest := inDegree.Keys;
      while rest != {}
        invariant rest <= inDegree.Keys && Distinct(queue)
        invariant forall v :: v in queue <==> v in inDegree && v !in rest && inDegree[v] == 0
      {
        var id :| id in rest;
        rest := rest - {id};
        if inDegree[id] == 0 {
          queue := queue + [id];
        }
      }
    }

    /** The inner loop of the sort: lower the counters of `current`'s children and queue those that reach zero. */
    static method Relax(es: seq<Edge>, ghost ns: set<NodeId>, ghost order: seq<NodeId>, current: NodeId,
                        start: map<NodeId, int>, waiting: seq<NodeId>)
      returns (inDegree: map<NodeId, int>, queue: seq<NodeId>)
      requires (forall e :: e in es ==> e.to in ns) && RelaxInv(ns, es, order, current, 0, start, waiting)
      ensures KahnInv(ns, es, order + [current], inDegree, queue)
    {
      inDegree, queue := start, waiting;
      for i := 0 to |es|
        invariant RelaxInv(ns, es, order, current, i, inDegree, queue)
      {
        if es[i].from == current {
          RelaxTake(ns, es, order, current, i, inDegree, queue);
          queue := Queued(inDegree, es[i].to, queue);
          inDegree := Lowered(inDegree, es[i].to);
        } else {
          RelaxSkip(ns, es, order, current, i, inDegree, queue);
        }
      }
      RelaxEnd(ns, es, order, current, inDegree, queue);
    }

    /** The outer loop of the sort: take the head of the queue until it runs dry. */
    static method Sorted(ns: map<NodeId, Node>, es: seq<Edge>) returns (sorted: seq<Node>)
      requires GraphState(ns, es).WellFormed()
      ensures IsSort(GraphState(ns, es), sorted)
      ensures |sorted| == |ns| <==> !Cyclic(EdgeSet(es))
    {
      var inDegree: map<NodeId, int> := InDegrees(ns.Keys, es);
      var queue := Roots(inDegree);
      KahnStart(ns.Keys, es, inDegree, queue);
      sorted := [];
      ghost var order: seq<NodeId> := [];
      while queue != []
        invariant KahnInv(ns.Keys, es, order, inDegree, queue)
        invariant NodesOf(ns, order, sorted)
        decreases |ns.Keys| - |order|
      {
        var current := queue[0];
        TakeHead(ns.Keys, es, order, inDegree, queue);
        AppendNode(ns, order, sorted, current);
        sorted := sorted + [ns[current]];
        inDegree, queue := Relax(es, ns.Keys, order, current, inDegree, queue[1..]);
        order := order + [current];
      }
      KahnEnd(ns.Keys, es, order, inDegree);
      OrderIsSort(GraphState(ns, es), order, sorted);
    }

    method TopologicalSort() returns (sorted: seq<Node>, hasCycle: bool)
      requires Valid()
      ensures hasCycle <==> Cyclic(State().E())
      ensures IsSort(State(), sorted)
    {
      sorted := Sorted(nodes, edges);
      hasCycle := |sorted| != |nodes|;
    }

    method HasCycle() returns (b: bool)
      requires Valid()
      ensures b <==> Cyclic(State().E())
    {
      var _, c := TopologicalSort();
      b := c;
    }

    /** The inner loop of the level computation: as `Relax`, and every child's label rises above `current`'s. */
    static method RelaxLevels(es: seq<Edge>, ghost ns: set<NodeId>, ghost order: seq<NodeId>, current: NodeId,
                              start: map<NodeId, int>, waiting: seq<NodeId>, labels: map<NodeId, nat>)
      returns (inDegree: map<NodeId, int>, queue: seq<NodeId>, levelMap: map<NodeId, nat>)
      requires (forall e :: e in es ==> e.to in ns) &&
               LabelledRelaxInv(ns, es, order, current, 0, start, waiting, labels)
      ensures KahnInv(ns, es, order + [current], inDegree, queue)
      ensures LevelInv(ns, es, order + [current], queue, levelMap)
    {
      inDegree, queue, levelMap := start, waiting, labels;
      for i := 0 to |es|
        invariant LabelledRelaxInv(ns, es, order, current, i, inDegree, queue, levelMap)
      {
        if es[i].from == current {
          LabelledTake(ns, es, order, current, i, inDegree, queue, levelMap);
          levelMap := Raised(levelMap, es[i].to, levelMap[current] + 1);
          queue := Queued(inDegree, es[i].to, queue);
          inDegree := Lowered(inDegree, es[i].to);
        } else {
          LabelledSkip(ns, es, order, current, i, inDegree, queue, levelMap);
        }
      }
      RelaxEnd(ns, es, order, current, inDegree, queue);
      LevelEnd(ns, es, order, current, queue, levelMap);
    }

    /** Kahn's algorithm once more, now raising the label of every child it passes. */
    static method LevelMap(ns: set<NodeId>, es: seq<Edge>) returns (levelMap: map<NodeId, nat>)
      requires forall e :: e in es ==> e.from in ns && e.to in ns
      requires !Cyclic(EdgeSet(es))
      ensures levelMap.Keys == ns
      ensures forall v :: v in ns ==> LongestTo(EdgeSet(es), v, levelMap[v])
    {
      var inDegree: map<NodeId, int> := InDegrees(ns, es);
      var queue := Roots(inDegree);
      KahnStart(ns, es, inDegree, queue);
      levelMap := map v | v in queue :: 0;
      LevelStart(ns, es, queue, levelMap);
      ghost var order: seq<NodeId> := [];
      while queue != []
        invariant KahnInv(ns, es, order, inDegree, queue)
        invariant LevelInv(ns, es, order, queue, levelMap)
        decreases |ns| - |order|
      {
        var current := queue[0];
        LabelledStart(ns, es, order, inDegree, queue, levelMap);
        inDegree, queue, levelMap := RelaxLevels(es, ns, order, current, inDegree, queue[1..], levelMap);
        order := order + [current];
      }
      KahnEnd(ns, es, order, inDegree);
      DistinctFits(order, ns);
      LabelsAreLongest(ns, es, order, levelMap);
    }

    static method MaxLevel(levelMap: map<NodeId, nat>) returns (maxLevel: nat)
      ensures forall v :: v in levelMap ==> levelMap[v] <= maxLevel
      ensures levelMap == map[] ==> maxLevel == 0
      ensures levelMap != map[] ==> exists v :: v in levelMap && levelMap[v] == maxLevel
    {
      maxLevel := 0;
      var rest := levelMap.Keys;
      while rest != {}
        invariant rest <= levelMap.Keys
        invariant forall v :: v in levelMap && v !in rest ==> levelMap[v] <= maxLevel
        invariant maxLevel == 0 || exists v :: v in levelMap && levelMap[v] == maxLevel
      {
        var id :| id in rest;
        rest := rest - {id};
        if levelMap[id] > maxLevel {
          maxLevel := levelMap[id];
        }
      }
    }

    /** Deals the sorted nodes out to their levels. */
    static method Bucketed(sorted: seq<Node>, levelMap: map<NodeId, nat>, maxLevel: nat)
      returns (levels: seq<seq<Node>>)
      requires Distinct(Ids(sorted))
      requires forall n :: n in sorted ==> n.id in levelMap && levelMap[n.id] <= maxLevel
      ensures |levels| == maxLevel + 1 && Dealt(sorted, levelMap, levels)
    {
      levels := seq(maxLevel + 1, _ => []);
      for i := 0 to |sorted|
        invariant |levels| == maxLevel + 1
        invariant forall l, n :: 0 <= l < |levels| ==> (n in levels[l] <==> n in sorted[..i] && levelMap[n.id] == l)
        invariant forall l :: 0 <= l < |levels| ==> Distinct(Ids(levels[l]))
      {
        var n := sorted[i];
        var lvl := levelMap[n.id];
        assert sorted[..i + 1] == sorted[..i] + [n];
        assert forall m :: m in levels[lvl] ==> m.id != n.id by {
          forall m | m in levels[lvl]
            ensures m.id != n.id
          {
            var k :| 0 <= k < i && sorted[k] == m;
            assert Ids(sorted)[k] == m.id;
          }
        }
        assert forall k :: 0 <= k < |levels[lvl]| ==> levels[lvl][k] in levels[lvl];
        levels := levels[lvl := levels[lvl] + [n]];
      }
      assert sorted[..|sorted|] == sorted;
    }

    method Levels() returns (r: Result<seq<seq<Node>>>)
      requires Valid()
      ensures r.Err? <==> Cyclic(State().E())
      ensures r.Ok? ==> IsLevelling(State(), r.value)
    {
      var sorted, hasCycle := TopologicalSort();
      if hasCycle {
        return Err("graph contains a cycle, cannot compute levels");
      }
      var levelMap := LevelMap(nodes.Keys, edges);
      var maxLevel := MaxLevel(levelMap);
      var levels := Bucketed(sorted, levelMap, maxLevel);
      LevellingFromMap(State(), sorted, levelMap, maxLevel, levels);
      return Ok(levels);
    }
  }

  /** `levels` deals the sorted nodes out by their labels. */
  ghost predicate Dealt(sorted: seq<Node>, levelMap: map<NodeId, nat>, levels: seq<seq<Node>>) {
    && (forall n :: n in sorted ==> n.id in levelMap)
    && (forall l, n :: 0 <= l < |levels| ==> (n in levels[l] <==> n in sorted && levelMap[n.id] == l))
    && (forall l :: 0 <= l < |levels| ==> Distinct(Ids(levels[l])))
  }

  /** In an acyclic graph every node is sorted, so every node is on its level. */
  lemma NodeOnItsLevel(s: GraphState, sorted: seq<Node>, levelMap: map<NodeId, nat>, levels: seq<seq<Node>>, v: NodeId)
    requires s.WellFormed() && !Cyclic(s.E()) && IsSort(s, sorted) && Dealt(sorted, levelMap, levels)
    requires v in s.nodes && v in levelMap && levelMap[v] < |levels|
    ensures s.nodes[v] in levels[levelMap[v]]
  {
  }

  lemma NoLevelEmpty(s: GraphState, sorted: seq<Node>, levelMap: map<NodeId, nat>, levels: seq<seq<Node>>,
                     top: NodeId, l: nat)
    requires s.WellFormed() && !Cyclic(s.E()) && IsSort(s, sorted) && Dealt(sorted, levelMap, levels)
    requires levelMap.Keys == s.nodes.Keys && forall v :: v in s.nodes ==> LongestTo(s.E(), v, levelMap[v])
    requires top in s.nodes && levelMap[top] == |levels| - 1 && l < |levels|
    ensures levels[l] != []
  {
    var u := LongestWalkVisitsEveryLevel(s.E(), top, |levels| - 1, l);
    NodeOfWalk(s, u, top);
    LongestUnique(s.E(), u, l, levelMap[u]);
    NodeOnItsLevel(s, sorted, levelMap, levels, u);
  }

  lemma LevellingFromMap(s: GraphState, sorted: seq<Node>, levelMap: map<NodeId, nat>, maxLevel: nat,
                         levels: seq<seq<Node>>)
    requires s.WellFormed() && !Cyclic(s.E()) && IsSort(s, sorted) && Dealt(sorted, levelMap, levels)
    requires levelMap.Keys == s.nodes.Keys && forall v :: v in s.nodes ==> LongestTo(s.E(), v, levelMap[v])
    requires |levels| == maxLevel + 1 && forall v :: v in levelMap ==> levelMap[v] <= maxLevel
    requires levelMap == map[] ==> maxLevel == 0
    requires levelMap != map[] ==> exists v :: v in levelMap && levelMap[v] == maxLevel
    ensures IsLevelling(s, levels)
  {
    forall v | v in s.nodes
      ensures exists l :: 0 <= l < |levels| && s.nodes[v] in levels[l]
    {
      NodeOnItsLevel(s, sorted, levelMap, levels, v);
    }
    if s.nodes == map[] {
      assert levelMap == map[];
      assert forall n :: n !in sorted;
      assert forall n :: n !in levels[0];
      assert |levels[0]| > 0 ==> levels[0][0] in levels[0];
    } else {
      var id :| id in s.nodes;
      assert id in levelMap;
      var top :| top in levelMap && levelMap[top] == maxLevel;
      forall l | 0 <= l < |levels|
        ensures levels[l] != []
      {
        NoLevelEmpty(s, sorted, levelMap, levels, top, l);
      }
    }
  }

  lemma NodeOfWalk(s: GraphState, u: NodeId, v: NodeId)
    requires s.WellFormed() && v in s.nodes && Reaches(s.E(), u, v)
    ensures u in s.nodes
  {
    var p :| WalkFromTo(s.E(), p, u, v);
    if |p| >= 2 {
      assert Edge(p[0], p[0 + 1]) in s.E();
    }
  }

  // ----- consequences of a levelling -----

  /** A node sits on exactly one level, so the levels partition the nodes. */
  lemma LevelsPartition(s: GraphState, levels: seq<seq<Node>>, l: nat, m: nat, v: NodeId)
    requires IsLevelling(s, levels) && v in s.nodes
    requires l < |levels| && m < |levels| && s.nodes[v] in levels[l] && s.nodes[v] in levels[m]
    requires s.WellFormed()
    ensures l == m
  {
    LongestUnique(s.E(), v, l, m);
  }

  /** Every edge leads to a strictly higher level. */
  lemma EdgesRise(s: GraphState, levels: seq<seq<Node>>, e: Edge, l: nat, m: nat)
    requires s.WellFormed() && IsLevelling(s, levels) && e in s.edges
    requires l < |levels| && m < |levels| && s.nodes[e.from] in levels[l] && s.nodes[e.to] in levels[m]
    ensures l < m
  {
    assert e == Edge(e.from, e.to);
    LongestRisesAlongEdge(s.E(), e.from, e.to, l, m);
  }

  /** The number of levels is the node count of a longest walk. */
  lemma DepthIsLongestWalk(s: GraphState, levels: seq<seq<Node>>)
    requires s.WellFormed() && IsLevelling(s, levels)
    ensures forall p :: IsWalk(s.E(), p) ==> |p| <= |levels|
    ensures s.nodes != map[] ==> exists p :: IsWalk(s.E(), p) && |p| == |levels| && Elems(p) <= s.nodes.Keys
  {
    forall p | IsWalk(s.E(), p)
      ensures |p| <= |levels|
    {
      if |p| >= 2 {
        var v := p[|p| - 1];
        assert Edge(p[|p| - 2], p[|p| - 2 + 1]) in s.E();
        var l :| 0 <= l < |levels| && s.nodes[v] in levels[l];
        assert LongestTo(s.E(), v, l);
        assert WalkTo(s.E(), p, v);
      }
    }
    if s.nodes != map[] {
      var top := |levels| - 1;
      var n := levels[top][0];
      assert n in levels[top];
      var p :| WalkTo(s.E(), p, n.id) && |p| == top + 1;
      forall v | v in p
        ensures v in s.nodes
      {
        var i :| 0 <= i < |p| && p[i] == v;
        if i < |p| - 1 {
          assert Edge(p[i], p[i + 1]) in s.E();
        }
      }
      assert Elems(p) <= s.nodes.Keys;
    }
  }
}
