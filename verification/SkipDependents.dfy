/**
Marking the dependents of failed nodes (skipDependents in internal/dag/executor.go).

`Execute` never reaches this code, but it is correct on its own, on cyclic graphs too.
*/
module SkipDependents {
  import opened Digraph
  import opened Dag
  import opened DagExecutor

  ghost predicate FromRoot(E: set<Edge>, roots: set<NodeId>, v: NodeId) {
    exists r :: r in roots && Reaches(E, r, v)
  }

  ghost predicate BelowRoot(E: set<Edge>, roots: set<NodeId>, v: NodeId) {
    exists r :: r in roots && ReachesPlus(E, r, v)
  }

  /** The walk's captured variables: nodes already expanded and nodes marked as skipped. */
  datatype Marks = Marks(visited: set<NodeId>, skipped: map<NodeId, NodeResult>)

  /** Nothing is visited or marked without cause. */
  ghost predicate Sound(s: GraphState, roots: set<NodeId>, results: map<NodeId, NodeResult>, m: Marks) {
    && (forall v :: v in m.visited ==> FromRoot(s.E(), roots, v))
    && (forall v :: v in m.skipped ==> v !in results && v in s.nodes && BelowRoot(s.E(), roots, v))
    && (forall v :: v in m.skipped ==> m.skipped[v] == NodeResult(v, s.nodes[v].name, Skipped))
  }

  /** The edge `u -> c` has been dealt with. */
  ghost predicate Handled(results: map<NodeId, NodeResult>, m: Marks, c: NodeId) {
    c in m.visited && (c in results || c in m.skipped)
  }

  /** Visited nodes that are no longer being expanded have all their children dealt with. */
  ghost predicate Complete(s: GraphState, results: map<NodeId, NodeResult>, m: Marks, open: set<NodeId>) {
    forall e :: e in s.edges && e.from in m.visited && e.from !in open ==> Handled(results, m, e.to)
  }

  ghost predicate Grows(m: Marks, n: Marks) {
    m.visited <= n.visited && m.skipped.Keys <= n.skipped.Keys
  }

  lemma ChildFromRoot(E: set<Edge>, roots: set<NodeId>, u: NodeId, c: NodeId)
    requires FromRoot(E, roots, u) && Edge(u, c) in E
    ensures FromRoot(E, roots, c) && BelowRoot(E, roots, c)
  {
    var r :| r in roots && Reaches(E, r, u);
    EdgeReaches(E, u, c);
    ReachesThenPlus(E, r, u, c);
    PlusReaches(E, r, c);
  }

  ghost predicate Inv(s: GraphState, roots: set<NodeId>, results: map<NodeId, NodeResult>, m: Marks,
                      open: set<NodeId>) {
    Sound(s, roots, results, m) && Complete(s, results, m, open)
  }

  function Visit(m: Marks, id: NodeId): Marks {
    m.(visited := m.visited + {id})
  }

  /** A child without a result is marked. */
  function MarkChild(m: Marks, results: map<NodeId, NodeResult>, child: Node): Marks {
    if child.id in results then m
    else m.(skipped := m.skipped[child.id := NodeResult(child.id, child.name, Skipped)])
  }

  lemma VisitKeeps(s: GraphState, roots: set<NodeId>, results: map<NodeId, NodeResult>, m: Marks, open: set<NodeId>,
                   id: NodeId)
    requires Inv(s, roots, results, m, open) && FromRoot(s.E(), roots, id)
    ensures Inv(s, roots, results, Visit(m, id), open + {id})
  {
  }

  lemma MarkChildKeeps(s: GraphState, roots: set<NodeId>, results: map<NodeId, NodeResult>, m: Marks,
                       open: set<NodeId>, id: NodeId, child: Node)
    requires Inv(s, roots, results, m, open) && id in m.visited
    requires child.id in s.nodes && child == s.nodes[child.id] && Edge(id, child.id) in s.E()
    ensures Inv(s, roots, results, MarkChild(m, results, child), open)
    ensures FromRoot(s.E(), roots, child.id)
  {
    ChildFromRoot(s.E(), roots, id, child.id);
  }

  lemma CloseNode(s: GraphState, roots: set<NodeId>, results: map<NodeId, NodeResult>, m: Marks, open: set<NodeId>,
                  id: NodeId)
    requires Inv(s, roots, results, m, open + {id})
    requires forall e :: e in s.edges && e.from == id ==> Handled(results, m, e.to)
    ensures Inv(s, roots, results, m, open)
  {
  }

  /** The first `i` children have been dealt with. */
  ghost predicate AllHandled(results: map<NodeId, NodeResult>, m: Marks, children: seq<Node>, i: nat) {
    i <= |children| && forall j :: 0 <= j < i ==> Handled(results, m, children[j].id)
  }

  lemma ChildHandled(results: map<NodeId, NodeResult>, m: Marks, next: Marks, children: seq<Node>, i: nat)
    requires i < |children| && AllHandled(results, m, children, i)
    requires Grows(MarkChild(m, results, children[i]), next) && children[i].id in next.visited
    ensures Grows(m, next) && AllHandled(results, next, children, i + 1)
  {
  }

  method MarkSkipped(g: Graph, ghost s: GraphState, results: map<NodeId, NodeResult>, start: Marks, id: NodeId,
                     ghost roots: set<NodeId>, ghost open: set<NodeId>, ghost all: set<NodeId>)
    returns (m: Marks)
    requires g.Valid() && g.State() == s && s.nodes.Keys <= all && id in all
    requires Inv(s, roots, results, start, open) && FromRoot(s.E(), roots, id)
    ensures Inv(s, roots, results, m, open)
    ensures Grows(start, m) && id in m.visited
    decreases all - start.visited
  {
    if id in start.visited {
      return start;
    }
    VisitKeeps(s, roots, results, start, open, id);
    m := Visit(start, id);
    var children := g.Children(id);
    for i := 0 to |children|
      invariant Inv(s, roots, results, m, open + {id})
      invariant Grows(Visit(start, id), m)
      invariant AllHandled(results, m, children, i)
    {
      var child := children[i];
      assert child in children && id in m.visited;
      MarkChildKeeps(s, roots, results, m, open + {id}, id, child);
      var next := MarkSkipped(g, s, results, MarkChild(m, results, child), child.id, roots, open + {id}, all);
      ChildHandled(results, m, next, children, i);
      m := next;
    }
    AllChildrenHandled(s, results, m, id, children);
    CloseNode(s, roots, results, m, open, id);
  }

  lemma AllChildrenHandled(s: GraphState, results: map<NodeId, NodeResult>, m: Marks, id: NodeId, children: seq<Node>)
    requires s.WellFormed()
    requires forall n :: n in children <==> n.id in s.nodes && n == s.nodes[n.id] && Edge(id, n.id) in s.edges
    requires AllHandled(results, m, children, |children|)
    ensures forall e :: e in s.edges && e.from == id ==> Handled(results, m, e.to)
  {
  }

  /** A complete, sound marking holds exactly the result-free nodes below a root. */
  lemma CompleteMarking(s: GraphState, roots: set<NodeId>, results: map<NodeId, NodeResult>, m: Marks)
    requires s.WellFormed() && Sound(s, roots, results, m) && Complete(s, results, m, {}) && roots <= m.visited
    ensures forall v :: v in m.skipped <==> v !in results && BelowRoot(s.E(), roots, v)
  {
    forall v | v !in results && BelowRoot(s.E(), roots, v)
      ensures v in m.skipped
    {
      var r :| r in roots && ReachesPlus(s.E(), r, v);
      var u := PlusLastEdge(s.E(), r, v);
      assert forall e :: e in s.E() && e.from in m.visited ==> Handled(results, m, e.to);
      ClosedUnderReach(s.E(), m.visited, r, u);
      assert Edge(u, v) in s.edges;
      assert Handled(results, m, v);
    }
  }

  ghost predicate FailedRoot(failedLevel: seq<Node>, results: map<NodeId, NodeResult>, r: NodeId) {
    r in results && results[r].status == Failed && exists n :: n in failedLevel && n.id == r
  }

  /** Terminates on every graph and marks exactly the result-free nodes one or more edges below a failed node. */
  method Skip(g: Graph, failedLevel: seq<Node>, results: map<NodeId, NodeResult>)
    returns (skipped: map<NodeId, NodeResult>)
    requires g.Valid()
    ensures forall v :: v in skipped <==>
              v !in results && exists r :: FailedRoot(failedLevel, results, r) && ReachesPlus(g.State().E(), r, v)
    ensures forall v :: v in skipped ==> v in g.nodes && skipped[v] == NodeResult(v, g.nodes[v].name, Skipped)
  {
    ghost var roots := set r | r in results && FailedRoot(failedLevel, results, r);
    ghost var all := g.nodes.Keys + LevelIds(failedLevel);
    var m := Marks({}, map[]);
    for i := 0 to |failedLevel|
      invariant Inv(g.State(), roots, results, m, {})
      invariant forall j :: 0 <= j < i && failedLevel[j].id in roots ==> failedLevel[j].id in m.visited
    {
      var n := failedLevel[i];
      if n.id in results && results[n.id].status == Failed {
        assert FailedRoot(failedLevel, results, n.id);
        ReachesSelf(g.State().E(), n.id);
        assert FromRoot(g.State().E(), roots, n.id);
        m := MarkSkipped(g, g.State(), results, m, n.id, roots, {}, all);
      }
    }
    assert roots <= m.visited;
    CompleteMarking(g.State(), roots, results, m);
    skipped := m.skipped;
    assert forall r :: FailedRoot(failedLevel, results, r) <==> r in roots;
  }
}
