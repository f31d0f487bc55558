/**
The invariant of Kahn's algorithm, shared by the two loops of the graph that run it.

`order` lists the nodes taken off the queue so far.  A node's in-degree counter always equals
the number of edges that enter it from nodes not yet taken, and it is zero exactly for the
nodes that are taken or queued.
*/
module Kahn {
  import opened Digraph

  /** How many edges of `es` enter `v` from outside `taken`; parallel edges count separately. */
  ghost function Waiting(es: seq<Edge>, v: NodeId, taken: set<NodeId>): nat {
    if es == [] then 0
    else (if es[0].to == v && es[0].from !in taken then 1 else 0) + Waiting(es[1..], v, taken)
  }

  lemma {:induction false} WaitingConcat(a: seq<Edge>, b: seq<Edge>, v: NodeId, taken: set<NodeId>)
    ensures Waiting(a + b, v, taken) == Waiting(a, v, taken) + Waiting(b, v, taken)
  {
    if a == [] {
      assert a + b == b;
    } else {
      assert (a + b)[1..] == a[1..] + b;
      WaitingConcat(a[1..], b, v, taken);
    }
  }

  lemma {:induction false} WaitingZero(es: seq<Edge>, v: NodeId, taken: set<NodeId>)
    ensures Waiting(es, v, taken) == 0 <==> forall e :: e in es && e.to == v ==> e.from in taken
  {
    if es != [] {
      WaitingZero(es[1..], v, taken);
      assert forall e :: e in es <==> e == es[0] || e in es[1..];
    }
  }

  ghost predicate KahnInv(nodes: set<NodeId>, es: seq<Edge>, order: seq<NodeId>,
                          inDegree: map<NodeId, int>, queue: seq<NodeId>)
  {
    && inDegree.Keys == nodes
    && Distinct(order + queue) && Elems(order + queue) <= nodes
    && (forall v :: v in nodes ==> inDegree[v] == Waiting(es, v, Elems(order)))
    && (forall v :: v in nodes ==> (inDegree[v] == 0 <==> v in order + queue))
    && PredecessorsFirst(EdgeSet(es), order)
  }

  /** The state inside the inner loop: `cur` has left the queue and the first `j` edges have been scanned. */
  ghost predicate RelaxInv(nodes: set<NodeId>, es: seq<Edge>, order: seq<NodeId>, cur: NodeId, j: nat,
                           inDegree: map<NodeId, int>, queue: seq<NodeId>)
    requires j <= |es|
  {
    && inDegree.Keys == nodes
    && Distinct(order + [cur] + queue) && Elems(order + [cur] + queue) <= nodes
    && (forall v :: v in nodes ==>
          inDegree[v] == Waiting(es[..j], v, Elems(order + [cur])) + Waiting(es[j..], v, Elems(order)))
    && (forall v :: v in nodes ==> (inDegree[v] == 0 <==> v in order + [cur] + queue))
    && PredecessorsFirst(EdgeSet(es), order + [cur])
  }

  lemma KahnStart(nodes: set<NodeId>, es: seq<Edge>, inDegree: map<NodeId, int>, queue: seq<NodeId>)
    requires inDegree.Keys == nodes
    requires forall v :: v in nodes ==> inDegree[v] == Waiting(es, v, {})
    requires Distinct(queue) && forall v :: v in queue <==> v in nodes && inDegree[v] == 0
    ensures KahnInv(nodes, es, [], inDegree, queue)
  {
    assert [] + queue == queue;
    assert Elems([]) == {};
  }

  lemma QueueHeadReady(nodes: set<NodeId>, es: seq<Edge>, order: seq<NodeId>, inDegree: map<NodeId, int>,
                       queue: seq<NodeId>)
    requires KahnInv(nodes, es, order, inDegree, queue) && queue != []
    ensures PredecessorsFirst(EdgeSet(es), order + [queue[0]])
  {
    var cur := queue[0];
    assert (order + queue)[|order|] == cur;
    assert cur in order + queue;
    WaitingZero(es, cur, Elems(order));
    var next := order + [cur];
    forall k, e | 0 <= k < |next| && e in EdgeSet(es) && e.to == next[k]
      ensures e.from in next[..k]
    {
      if k < |order| {
        assert e.from in order[..k];
        assert next[..k] == order[..k];
      } else {
        assert next[..k] == order;
      }
    }
  }

  lemma TakenFits(nodes: set<NodeId>, order: seq<NodeId>, queue: seq<NodeId>)
    requires Distinct(order + queue) && Elems(order + queue) <= nodes && queue != []
    ensures |order| < |nodes| && queue[0] in nodes
  {
    var all := order + queue;
    assert all[|order|] == queue[0] && queue[0] in Elems(all);
    DistinctFits(all, nodes);
  }

  lemma RelaxStart(nodes: set<NodeId>, es: seq<Edge>, order: seq<NodeId>, inDegree: map<NodeId, int>,
                   queue: seq<NodeId>)
    requires KahnInv(nodes, es, order, inDegree, queue) && queue != []
    ensures RelaxInv(nodes, es, order, queue[0], 0, inDegree, queue[1..])
  {
    assert order + [queue[0]] + queue[1..] == order + queue;
    QueueHeadReady(nodes, es, order, inDegree, queue);
    assert es[..0] == [] && es[0..] == es;
  }

  lemma TakeHead(nodes: set<NodeId>, es: seq<Edge>, order: seq<NodeId>, inDegree: map<NodeId, int>, queue: seq<NodeId>)
    requires KahnInv(nodes, es, order, inDegree, queue) && queue != []
    ensures RelaxInv(nodes, es, order, queue[0], 0, inDegree, queue[1..])
    ensures |order| < |nodes| && queue[0] in nodes
  {
    RelaxStart(nodes, es, order, inDegree, queue);
    TakenFits(nodes, order, queue);
  }

  /** Scanning one edge moves it from the unscanned to the scanned part of every counter. */
  lemma WaitingStep(es: seq<Edge>, j: nat, v: NodeId, before: set<NodeId>, after: set<NodeId>)
    requires j < |es|
    ensures Waiting(es[..j + 1], v, after) ==
            Waiting(es[..j], v, after) + (if es[j].to == v && es[j].from !in after then 1 else 0)
    ensures Waiting(es[j..], v, before) ==
            Waiting(es[j + 1..], v, before) + (if es[j].to == v && es[j].from !in before then 1 else 0)
  {
    assert es[..j + 1] == es[..j] + [es[j]];
    WaitingConcat(es[..j], [es[j]], v, after);
    assert Waiting([es[j]], v, after) == (if es[j].to == v && es[j].from !in after then 1 else 0) by {
      assert [es[j]][1..] == [];
    }
    assert es[j..][1..] == es[j + 1..];
  }

  lemma RelaxSkip(nodes: set<NodeId>, es: seq<Edge>, order: seq<NodeId>, cur: NodeId, j: nat,
                  inDegree: map<NodeId, int>, queue: seq<NodeId>)
    requires j < |es| && RelaxInv(nodes, es, order, cur, j, inDegree, queue)
    requires es[j].from != cur
    ensures RelaxInv(nodes, es, order, cur, j + 1, inDegree, queue)
  {
    assert Elems(order + [cur]) == Elems(order) + {cur};
    forall v | v in nodes
      ensures inDegree[v] == Waiting(es[..j + 1], v, Elems(order + [cur])) + Waiting(es[j + 1..], v, Elems(order))
    {
      WaitingStep(es, j, v, Elems(order), Elems(order + [cur]));
    }
  }

  /** An unscanned edge out of `cur` leads to a node that is neither taken nor queued. */
  lemma RelaxTargetOpen(nodes: set<NodeId>, es: seq<Edge>, order: seq<NodeId>, cur: NodeId, j: nat,
                        inDegree: map<NodeId, int>, queue: seq<NodeId>)
    requires j < |es| && RelaxInv(nodes, es, order, cur, j, inDegree, queue)
    requires es[j].from == cur && es[j].to in nodes
    ensures inDegree[es[j].to] >= 1
    ensures es[j].to !in order + [cur] + queue
  {
    var all := order + [cur] + queue;
    assert cur !in order by {
      assert all[|order|] == cur;
      assert forall i :: 0 <= i < |order| ==> all[i] == order[i];
    }
    WaitingStep(es, j, es[j].to, Elems(order), Elems(order + [cur]));
  }

  /** The counter table after one edge into `v` has been scanned. */
  function Lowered(inDegree: map<NodeId, int>, v: NodeId): map<NodeId, int>
    requires v in inDegree
  {
    inDegree[v := inDegree[v] - 1]
  }

  /** The queue after that scan: `v` joins it when its counter drops to zero. */
  function Queued(inDegree: map<NodeId, int>, v: NodeId, queue: seq<NodeId>): seq<NodeId>
    requires v in inDegree
  {
    if inDegree[v] - 1 == 0 then queue + [v] else queue
  }

  lemma RelaxTake(nodes: set<NodeId>, es: seq<Edge>, order: seq<NodeId>, cur: NodeId, j: nat,
                  inDegree: map<NodeId, int>, queue: seq<NodeId>)
    requires j < |es| && RelaxInv(nodes, es, order, cur, j, inDegree, queue)
    requires es[j].from == cur && es[j].to in nodes
    ensures RelaxInv(nodes, es, order, cur, j + 1, Lowered(inDegree, es[j].to), Queued(inDegree, es[j].to, queue))
  {
    RelaxTargetOpen(nodes, es, order, cur, j, inDegree, queue);
    var lower := Lowered(inDegree, es[j].to);
    var all := order + [cur] + queue;
    assert cur !in order by {
      assert all[|order|] == cur;
      assert forall i :: 0 <= i < |order| ==> all[i] == order[i];
    }
    assert Elems(order + [cur]) == Elems(order) + {cur};
    forall v | v in nodes
      ensures lower[v] == Waiting(es[..j + 1], v, Elems(order + [cur])) + Waiting(es[j + 1..], v, Elems(order))
    {
      WaitingStep(es, j, v, Elems(order), Elems(order + [cur]));
    }
    if lower[es[j].to] == 0 {
      assert order + [cur] + Queued(inDegree, es[j].to, queue) == all + [es[j].to];
    }
  }

  lemma RelaxEnd(nodes: set<NodeId>, es: seq<Edge>, order: seq<NodeId>, cur: NodeId,
                 inDegree: map<NodeId, int>, queue: seq<NodeId>)
    requires RelaxInv(nodes, es, order, cur, |es|, inDegree, queue)
    ensures KahnInv(nodes, es, order + [cur], inDegree, queue)
  {
    assert es[..|es|] == es && es[|es|..] == [];
  }

  /** When the queue runs dry, the nodes taken are exactly those no cycle leads to. */
  lemma KahnEnd(nodes: set<NodeId>, es: seq<Edge>, order: seq<NodeId>, inDegree: map<NodeId, int>)
    requires KahnInv(nodes, es, order, inDegree, [])
    requires forall e :: e in es ==> e.from in nodes && e.to in nodes
    ensures Distinct(order) && Elems(order) <= nodes
    ensures forall v :: v in nodes ==> (v in order <==> !DownstreamOfCycle(EdgeSet(es), v))
    ensures |order| == |nodes| <==> !Cyclic(EdgeSet(es))
  {
    assert order + [] == order;
    var E := EdgeSet(es);
    var left := nodes - Elems(order);
    forall v | v in left
      ensures HasPredecessorIn(E, left, v)
    {
      WaitingZero(es, v, Elems(order));
      var e :| e in es && e.to == v && e.from !in Elems(order);
      assert e == Edge(e.from, v) && e in E;
      assert e.from in left;
    }
    forall v | v in nodes
      ensures v in order <==> !DownstreamOfCycle(E, v)
    {
      if v in order {
        OrderedNotDownstream(E, order, v);
      } else {
        LeftoverDownstream(E, left, [v]);
      }
    }
    DistinctFits(order, nodes);
    DistinctCardinality(order);
    CyclicIffSomeDownstream(E);
    if Cyclic(E) {
      var c :| OnCycle(E, c);
      var u := PlusLastEdge(E, c, c);
      ReachesSelf(E, c);
      assert DownstreamOfCycle(E, c);
      assert Edge(u, c) in es;
      assert c in nodes && c !in Elems(order);
    } else {
      assert forall v :: v in nodes ==> !DownstreamOfCycle(E, v);
      assert Elems(order) == nodes;
    }
  }
}
