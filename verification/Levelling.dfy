/**
The level labels computed beside Kahn's algorithm, and why they are longest-walk lengths.
*/
module Levelling {
  import opened Digraph
  import opened Kahn

  ghost predicate WalkOfLength(E: set<Edge>, v: NodeId, l: nat) {
    exists p :: WalkTo(E, p, v) && |p| == l + 1
  }

  /** Edges out of taken nodes rise; every label is witnessed by a walk of that length. */
  ghost predicate LevelInv(nodes: set<NodeId>, es: seq<Edge>, order: seq<NodeId>, queue: seq<NodeId>,
                           level: map<NodeId, nat>) {
    && level.Keys <= nodes
    && (forall v :: v in level ==> WalkOfLength(EdgeSet(es), v, level[v]))
    && (forall v :: v in order + queue ==> v in level)
    && (forall e :: e in es && e.from in order ==>
          e.from in level && e.to in level && level[e.from] + 1 <= level[e.to])
  }

  ghost predicate LevelRelaxInv(nodes: set<NodeId>, es: seq<Edge>, order: seq<NodeId>, cur: NodeId, j: nat,
                                queue: seq<NodeId>, level: map<NodeId, nat>)
    requires j <= |es|
  {
    && LevelInv(nodes, es, order, [cur] + queue, level)
    && cur in level
    && (forall e :: e in es[..j] && e.from == cur ==> e.to in level && level[cur] + 1 <= level[e.to])
  }

  lemma LevelStart(nodes: set<NodeId>, es: seq<Edge>, queue: seq<NodeId>, level: map<NodeId, nat>)
    requires Elems(queue) <= nodes && level == map v | v in queue :: 0
    ensures LevelInv(nodes, es, [], queue, level)
  {
    assert [] + queue == queue;
    forall v | v in level
      ensures WalkOfLength(EdgeSet(es), v, 0)
    {
      assert WalkTo(EdgeSet(es), [v], v);
    }
  }

  function Raised(level: map<NodeId, nat>, v: NodeId, l: nat): (r: map<NodeId, nat>)
    ensures r.Keys == level.Keys + {v} && l <= r[v]
    ensures forall w :: w in level ==> level[w] <= r[w] && (w != v ==> r[w] == level[w])
    ensures r[v] == l || (v in level && r[v] == level[v])
  {
    if v !in level || l > level[v] then level[v := l] else level
  }

  lemma LevelSkip(nodes: set<NodeId>, es: seq<Edge>, order: seq<NodeId>, cur: NodeId, j: nat,
                  queue: seq<NodeId>, level: map<NodeId, nat>)
    requires j < |es| && LevelRelaxInv(nodes, es, order, cur, j, queue, level)
    requires es[j].from != cur
    ensures LevelRelaxInv(nodes, es, order, cur, j + 1, queue, level)
  {
  }

  lemma RaisedHasWalk(E: set<Edge>, level: map<NodeId, nat>, cur: NodeId, v: NodeId, up: map<NodeId, nat>)
    requires cur in level && Edge(cur, v) in E
    requires forall w :: w in level ==> WalkOfLength(E, w, level[w])
    requires up == Raised(level, v, level[cur] + 1)
    ensures forall w :: w in up ==> WalkOfLength(E, w, up[w])
  {
    var p :| WalkTo(E, p, cur) && |p| == level[cur] + 1;
    ExtendWalkRight(E, p, v);
    assert WalkOfLength(E, v, level[cur] + 1);
  }

  lemma LevelTake(nodes: set<NodeId>, es: seq<Edge>, order: seq<NodeId>, cur: NodeId, j: nat,
                  queue: seq<NodeId>, level: map<NodeId, nat>, longer: seq<NodeId>)
    requires j < |es| && LevelRelaxInv(nodes, es, order, cur, j, queue, level)
    requires es[j].from == cur && es[j].to in nodes
    requires es[j].to !in order && es[j].to != cur
    requires longer == queue || longer == queue + [es[j].to]
    ensures LevelRelaxInv(nodes, es, order, cur, j + 1, longer, Raised(level, es[j].to, level[cur] + 1))
  {
    assert es[j] == Edge(cur, es[j].to) && es[j] in EdgeSet(es);
    var up := Raised(level, es[j].to, level[cur] + 1);
    RaisedHasWalk(EdgeSet(es), level, cur, es[j].to, up);
    assert es[..j + 1] == es[..j] + [es[j]];
    forall v | v in order + ([cur] + longer)
      ensures v in up
    {
      assert v == es[j].to || v in order + ([cur] + queue);
    }
  }

  ghost predicate LabelledRelaxInv(nodes: set<NodeId>, es: seq<Edge>, order: seq<NodeId>, cur: NodeId, j: nat,
                                   inDegree: map<NodeId, int>, queue: seq<NodeId>, level: map<NodeId, nat>)
    requires j <= |es|
  {
    RelaxInv(nodes, es, order, cur, j, inDegree, queue) && LevelRelaxInv(nodes, es, order, cur, j, queue, level)
  }

  lemma LabelledStart(nodes: set<NodeId>, es: seq<Edge>, order: seq<NodeId>,
                      inDegree: map<NodeId, int>, queue: seq<NodeId>, level: map<NodeId, nat>)
    requires KahnInv(nodes, es, order, inDegree, queue) && LevelInv(nodes, es, order, queue, level) && queue != []
    ensures LabelledRelaxInv(nodes, es, order, queue[0], 0, inDegree, queue[1..], level)
    ensures |order| < |nodes|
  {
    RelaxStart(nodes, es, order, inDegree, queue);
    TakenFits(nodes, order, queue);
    assert queue == [queue[0]] + queue[1..];
    assert (order + queue)[|order|] == queue[0];
  }

  lemma LabelledSkip(nodes: set<NodeId>, es: seq<Edge>, order: seq<NodeId>, cur: NodeId, j: nat,
                     inDegree: map<NodeId, int>, queue: seq<NodeId>, level: map<NodeId, nat>)
    requires j < |es| && LabelledRelaxInv(nodes, es, order, cur, j, inDegree, queue, level)
    requires es[j].from != cur
    ensures LabelledRelaxInv(nodes, es, order, cur, j + 1, inDegree, queue, level)
  {
    RelaxSkip(nodes, es, order, cur, j, inDegree, queue);
    LevelSkip(nodes, es, order, cur, j, queue, level);
  }

  lemma LabelledTake(nodes: set<NodeId>, es: seq<Edge>, order: seq<NodeId>, cur: NodeId, j: nat,
                     inDegree: map<NodeId, int>, queue: seq<NodeId>, level: map<NodeId, nat>)
    requires j < |es| && LabelledRelaxInv(nodes, es, order, cur, j, inDegree, queue, level)
    requires es[j].from == cur && es[j].to in nodes
    ensures LabelledRelaxInv(nodes, es, order, cur, j + 1, Lowered(inDegree, es[j].to),
                             Queued(inDegree, es[j].to, queue), Raised(level, es[j].to, level[cur] + 1))
  {
    RelaxTargetOpen(nodes, es, order, cur, j, inDegree, queue);
    RelaxTake(nodes, es, order, cur, j, inDegree, queue);
    LevelTake(nodes, es, order, cur, j, queue, level, Queued(inDegree, es[j].to, queue));
  }

  lemma LevelEnd(nodes: set<NodeId>, es: seq<Edge>, order: seq<NodeId>, cur: NodeId, queue: seq<NodeId>,
                 level: map<NodeId, nat>)
    requires LevelRelaxInv(nodes, es, order, cur, |es|, queue, level)
    ensures LevelInv(nodes, es, order + [cur], queue, level)
  {
  }

  /** Once every node has been taken, the label of a node is the length of a longest walk ending there. */
  lemma LabelsAreLongest(nodes: set<NodeId>, es: seq<Edge>, order: seq<NodeId>, level: map<NodeId, nat>)
    requires LevelInv(nodes, es, order, [], level) && Elems(order) == nodes
    requires forall e :: e in es ==> e.from in nodes && e.to in nodes
    ensures level.Keys == nodes
    ensures forall v :: v in nodes ==> LongestTo(EdgeSet(es), v, level[v])
  {
    var E := EdgeSet(es);
    assert order + [] == order;
    assert forall v :: v in nodes ==> v in Elems(order) && v in order && v in level;
    forall v, p | v in nodes && WalkTo(E, p, v)
      ensures |p| <= level[v] + 1
    {
      assert forall e :: e in E ==> e.from in Elems(order) && e.from in order;
      RisingLabelBoundsWalks(E, level, p);
    }
  }
}
