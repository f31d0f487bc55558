/**
The graph validator of internal/dag/validator.go, and what guarding edge additions with it guarantees.
*/
module DagValidator {
  import opened Digraph
  import opened Dag
  import opened Results

  datatype ValidationError =
    | CycleDetected(nodeIds: seq<NodeId>)
    | OrphanNode(nodeId: NodeId)
    | MissingDependency(nodeId: NodeId)
    | DepthValidationFailed
    | MaxDepthExceeded(depth: nat)
    | SourceNotFound(nodeId: NodeId)
    | TargetNotFound(nodeId: NodeId)
    | EdgeCreatesCycle

  ghost predicate Orphan(s: GraphState, id: NodeId) {
    id in s.nodes && forall e :: e in s.edges ==> e.from != id && e.to != id
  }

  ghost predicate Dangling(s: GraphState, es: seq<Edge>, id: NodeId) {
    id !in s.nodes && exists e :: e in es && (e.from == id || e.to == id)
  }

  ghost predicate WalksWithin(s: GraphState, bound: int) {
    forall p :: IsWalk(s.E(), p) ==> |p| <= bound
  }

  /** A cyclic graph has walks of every length, so a bound on walks already excludes cycles. */
  lemma BoundedWalksAcyclic(s: GraphState, bound: int)
    requires WalksWithin(s, bound)
    ensures !Cyclic(s.E())
  {
    if Cyclic(s.E()) {
      var c :| OnCycle(s.E(), c);
      var p := CyclicWalksUnbounded(s.E(), c, if bound < 0 then 0 else bound);
      assert false;
    }
  }

  datatype Validator = Validator(maxDepth: int) {

    /** The nodes a sort left over. */
    static method Unsorted(ids: set<NodeId>, sorted: seq<Node>) returns (inCycle: set<NodeId>)
      ensures forall v :: v in inCycle <==> v in ids && v !in Ids(sorted)
    {
      inCycle := ids;
      for i := 0 to |sorted|
        invariant forall v :: v in inCycle <==> v in ids && v !in Ids(sorted)[..i]
      {
        assert Ids(sorted)[..i + 1] == Ids(sorted)[..i] + [sorted[i].id];
        inCycle := inCycle - {sorted[i].id};
      }
      assert Ids(sorted)[..|sorted|] == Ids(sorted);
    }

    /** The members of a set in an arbitrary order. */
    static method Listed(ids: set<NodeId>) returns (list: seq<NodeId>)
      ensures Distinct(list) && forall v :: v in list <==> v in ids
    {
      list := [];
      var rest := ids;
      while rest != {}
        invariant rest <= ids && Distinct(list)
        invariant forall v :: v in list <==> v in ids && v !in rest
      {
        var id :| id in rest;
        rest := rest - {id};
        list := list + [id];
      }
    }

    /** One error naming exactly the nodes that lie on a cycle or downstream of one. */
    method ValidateCycles(g: Graph) returns (errors: seq<ValidationError>)
      requires g.Valid()
      ensures errors == [] <==> !Cyclic(g.State().E())
      ensures errors != [] ==>
                |errors| == 1 && errors[0].CycleDetected? && Distinct(errors[0].nodeIds) &&
                forall v :: v in errors[0].nodeIds <==> v in g.nodes && DownstreamOfCycle(g.State().E(), v)
    {
      var sorted, hasCycle := g.TopologicalSort();
      if !hasCycle {
        return [];
      }
      var inCycle := Unsorted(g.nodes.Keys, sorted);
      var nodeIds := Listed(inCycle);
      return [CycleDetected(nodeIds)];
    }

    method ValidateOrphanNodes(g: Graph) returns (errors: seq<ValidationError>)
      requires g.Valid()
      ensures forall x :: x in errors <==> x.OrphanNode? && Orphan(g.State(), x.nodeId)
    {
      errors := [];
      var rest := g.nodes.Keys;
      while rest != {}
        invariant rest <= g.nodes.Keys
        invariant forall x :: x in errors <==> x.OrphanNode? && x.nodeId !in rest && Orphan(g.State(), x.nodeId)
      {
        var id :| id in rest;
        var parents := g.Parents(id);
        var children := g.Children(id);
        NoNeighbours(g, id, parents, children);
        rest := rest - {id};
        if |parents| == 0 && |children| == 0 {
          errors := errors + [OrphanNode(id)];
        }
      }
    }

    static lemma NoNeighbours(g: Graph, id: NodeId, parents: seq<Node>, children: seq<Node>)
      requires g.Valid() && id in g.nodes
      requires forall n :: n in parents <==> n.id in g.nodes && n == g.nodes[n.id] && Edge(n.id, id) in g.edges
      requires forall n :: n in children <==> n.id in g.nodes && n == g.nodes[n.id] && Edge(id, n.id) in g.edges
      ensures |parents| == 0 && |children| == 0 <==> Orphan(g.State(), id)
    {
      if parents != [] {
        assert parents[0] in parents && Edge(parents[0].id, id) in g.edges;
      }
      if children != [] {
        assert children[0] in children && Edge(id, children[0].id) in g.edges;
      }
      if !Orphan(g.State(), id) {
        var e :| e in g.edges && (e.from == id || e.to == id);
        assert e == Edge(e.from, e.to);
        if e.from == id {
          assert g.nodes[e.to] in children;
        } else {
          assert g.nodes[e.from] in parents;
        }
      }
    }

    /** Reports every edge end that is not a node; a graph built through its own operations has none. */
    method ValidateDependencies(g: Graph) returns (errors: seq<ValidationError>)
      ensures forall x :: x in errors <==> x.MissingDependency? && Dangling(g.State(), g.edges, x.nodeId)
      ensures g.Valid() ==> errors == []
    {
      errors := [];
      for i := 0 to |g.edges|
        invariant forall x :: x in errors <==> x.MissingDependency? && Dangling(g.State(), g.edges[..i], x.nodeId)
      {
        assert g.edges[..i + 1] == g.edges[..i] + [g.edges[i]];
        if g.edges[i].from !in g.nodes {
          errors := errors + [MissingDependency(g.edges[i].from)];
        }
        if g.edges[i].to !in g.nodes {
          errors := errors + [MissingDependency(g.edges[i].to)];
        }
      }
      assert g.edges[..|g.edges|] == g.edges;
      assert |errors| > 0 ==> errors[0] in errors;
    }

    /** Accepts exactly the graphs none of whose walks has more than `maxDepth` nodes. */
    method ValidateMaxDepth(g: Graph) returns (errors: seq<ValidationError>)
      requires g.Valid() && maxDepth >= 1
      ensures errors == [] <==> WalksWithin(g.State(), maxDepth)
      ensures Cyclic(g.State().E()) ==> errors == [DepthValidationFailed]
      ensures errors != [] && !Cyclic(g.State().E()) ==>
                |errors| == 1 && errors[0].MaxDepthExceeded? && WalksWithin(g.State(), errors[0].depth) &&
                exists p :: IsWalk(g.State().E(), p) && |p| == errors[0].depth
    {
      var r := g.Levels();
      if r.Err? {
        if WalksWithin(g.State(), maxDepth) {
          BoundedWalksAcyclic(g.State(), maxDepth);
        }
        return [DepthValidationFailed];
      }
      DepthIsLongestWalk(g.State(), r.value);
      if |r.value| > maxDepth {
        return [MaxDepthExceeded(|r.value|)];
      }
      return [];
    }

    /** The gate in front of a schedule: no orphan node and no walk longer than the depth limit. */
    method ValidateDAG(g: Graph) returns (valid: bool, errors: seq<ValidationError>)
      requires g.Valid() && maxDepth >= 1
      ensures valid <==> errors == []
      ensures valid <==> WalksWithin(g.State(), maxDepth) && forall id :: id in g.nodes ==> !Orphan(g.State(), id)
    {
      var cycleErrors := ValidateCycles(g);
      var orphanErrors := ValidateOrphanNodes(g);
      var depErrors := ValidateDependencies(g);
      var depthErrors := ValidateMaxDepth(g);
      errors := cycleErrors + orphanErrors + depErrors + depthErrors;
      valid := |errors| == 0;
      if depthErrors == [] {
        BoundedWalksAcyclic(g.State(), maxDepth);
      }
      assert orphanErrors != [] ==> orphanErrors[0] in orphanErrors;
      assert forall id :: Orphan(g.State(), id) ==> OrphanNode(id) in orphanErrors;
    }

    /** Accepts an edge exactly when the graph is acyclic, both ends exist and the target does not reach the source. */
    method ValidateEdgeAddition(g: Graph, from: NodeId, to: NodeId) returns (valid: bool, errors: seq<ValidationError>)
      requires g.Valid()
      ensures valid <==> errors == []
      ensures valid <==> from in g.nodes && to in g.nodes && !Cyclic(g.State().E()) && !Reaches(g.State().E(), to, from)
      ensures SourceNotFound(from) in errors <==> from !in g.nodes
      ensures TargetNotFound(to) in errors <==> to !in g.nodes
      ensures EdgeCreatesCycle in errors <==> !valid && from in g.nodes && to in g.nodes
    {
      errors := [];
      if from !in g.nodes {
        errors := errors + [SourceNotFound(from)];
      }
      if to !in g.nodes {
        errors := errors + [TargetNotFound(to)];
      }
      if |errors| > 0 {
        return false, errors;
      }
      var testGraph := new Graph();
      testGraph.nodes := g.nodes;
      testGraph.edges := testGraph.edges + g.edges;
      testGraph.edges := testGraph.edges + [Edge(from, to)];
      assert testGraph.edges == g.edges + [Edge(from, to)];
      assert testGraph.State().E() == g.State().E() + {Edge(from, to)};
      CyclicWithNewEdge(g.State().E(), Edge(from, to));
      var c := testGraph.HasCycle();
      if c {
        errors := errors + [EdgeCreatesCycle];
      }
      return |errors| == 0, errors;
    }
  }

  // ----- guarded runs -----

  datatype Op =
    | OpAddNode(id: NodeId, name: string)
    | OpAddNodeWithID(id: NodeId, name: string)
    | OpAddEdge(from: NodeId, to: NodeId)
    | OpRemoveNode(id: NodeId)
    | OpRemoveEdge(from: NodeId, to: NodeId)
    | OpClear

  /** The validator's verdict on an edge, as a property of the graph alone. */
  ghost predicate Accepted(s: GraphState, from: NodeId, to: NodeId) {
    from in s.nodes && to in s.nodes && !Cyclic(s.E()) && !Reaches(s.E(), to, from)
  }

  /** One operation; an edge is only offered to the graph after the validator accepted it. */
  ghost function Step(s: GraphState, op: Op): GraphState {
    match op
    case OpAddNode(id, name) => WithNode(s, id, name)
    case OpAddNodeWithID(id, name) => if id in s.nodes then s else WithNode(s, id, name)
    case OpAddEdge(from, to) => if Accepted(s, from, to) && EdgeAddable(s, from, to) then WithEdge(s, from, to) else s
    case OpRemoveNode(id) => if id in s.nodes then WithoutNode(s, id) else s
    case OpRemoveEdge(from, to) => if Edge(from, to) in s.edges then WithoutEdge(s, from, to) else s
    case OpClear => GraphState(map[], [])
  }

  ghost function Run(s: GraphState, ops: seq<Op>): GraphState {
    if ops == [] then s else Step(Run(s, ops[..|ops| - 1]), ops[|ops| - 1])
  }

  lemma StepKeepsAcyclic(s: GraphState, op: Op)
    requires s.WellFormed() && !Cyclic(s.E())
    ensures Step(s, op).WellFormed() && !Cyclic(Step(s, op).E())
  {
    var t := Step(s, op);
    if op.OpAddEdge? && t != s {
      assert t.E() == s.E() + {Edge(op.from, op.to)};
      CyclicWithNewEdge(s.E(), Edge(op.from, op.to));
    } else {
      assert t.E() <= s.E();
      if Cyclic(t.E()) {
        CyclicMonotone(t.E(), s.E());
      }
    }
  }

  /** However node and edge additions and removals are mixed, a guarded run never closes a cycle. */
  lemma {:induction false} GuardedRunAcyclic(s: GraphState, ops: seq<Op>)
    requires s.WellFormed() && !Cyclic(s.E())
    ensures Run(s, ops).WellFormed() && !Cyclic(Run(s, ops).E())
  {
    if ops != [] {
      GuardedRunAcyclic(s, ops[..|ops| - 1]);
      StepKeepsAcyclic(Run(s, ops[..|ops| - 1]), ops[|ops| - 1]);
    }
  }

  /** The graph's own methods, guarded by the validator, carry out `Step`. */
  method Apply(g: Graph, v: Validator, op: Op)
    requires g.Valid()
    modifies g
    ensures g.Valid() && g.State() == Step(old(g.State()), op)
  {
    match op
    case OpAddNode(id, name) =>
      var _ := g.AddNode(id, name);
    case OpAddNodeWithID(id, name) =>
      var _ := g.AddNodeWithID(id, name);
    case OpAddEdge(from, to) =>
      var ok, _ := v.ValidateEdgeAddition(g, from, to);
      if ok {
        var _ := g.AddEdge(from, to);
      }
    case OpRemoveNode(id) =>
      var _ := g.RemoveNode(id);
    case OpRemoveEdge(from, to) =>
      var _ := g.RemoveEdge(from, to);
    case OpClear =>
      g.Clear();
  }

  /** After any guarded run from an acyclic graph the level computation succeeds. */
  method RunGuarded(g: Graph, v: Validator, ops: seq<Op>) returns (r: Result<seq<seq<Node>>>)
    requires g.Valid() && !Cyclic(g.State().E())
    modifies g
    ensures g.Valid() && g.State() == Run(old(g.State()), ops)
    ensures r.Ok? && IsLevelling(g.State(), r.value)
  {
    for i := 0 to |ops|
      invariant g.Valid() && g.State() == Run(old(g.State()), ops[..i])
    {
      assert ops[..i + 1][..i] == ops[..i];
      Apply(g, v, ops[i]);
    }
    assert ops[..|ops|] == ops;
    GuardedRunAcyclic(old(g.State()), ops);
    r := g.Levels();
  }
}
