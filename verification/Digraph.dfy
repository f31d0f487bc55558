/**
Finite directed graphs as sets of edges: walks, reachability, cycles and longest walks.

Nothing here mentions an algorithm.  These are the reference notions that Kahn's sort,
the level computation, the three-colour search and the dependency skipper are proved against.
*/
module Digraph {

  type NodeId = nat

  datatype Edge = Edge(from: NodeId, to: NodeId)

  ghost function EdgeSet(es: seq<Edge>): set<Edge> {
    set e | e in es
  }

  /** A non-empty sequence of nodes, each joined to the next by an edge. */
  ghost predicate IsWalk(E: set<Edge>, p: seq<NodeId>) {
    p != [] && forall i :: 0 <= i < |p| - 1 ==> Edge(p[i], p[i + 1]) in E
  }

  ghost predicate WalkFromTo(E: set<Edge>, p: seq<NodeId>, a: NodeId, b: NodeId) {
    IsWalk(E, p) && p[0] == a && p[|p| - 1] == b
  }

  /** `b` can be reached from `a` by zero or more edges. */
  ghost predicate Reaches(E: set<Edge>, a: NodeId, b: NodeId) {
    exists p :: WalkFromTo(E, p, a, b)
  }

  /** `b` can be reached from `a` by one or more edges. */
  ghost predicate ReachesPlus(E: set<Edge>, a: NodeId, b: NodeId) {
    exists p :: WalkFromTo(E, p, a, b) && |p| >= 2
  }

  ghost predicate OnCycle(E: set<Edge>, v: NodeId) {
    ReachesPlus(E, v, v)
  }

  ghost predicate Cyclic(E: set<Edge>) {
    exists v :: OnCycle(E, v)
  }

  /** `v` lies on a cycle or can be reached from one. */
  ghost predicate DownstreamOfCycle(E: set<Edge>, v: NodeId) {
    exists c :: OnCycle(E, c) && Reaches(E, c, v)
  }

  ghost predicate WalkTo(E: set<Edge>, p: seq<NodeId>, v: NodeId) {
    IsWalk(E, p) && p[|p| - 1] == v
  }

  /** The longest walk ending at `v` has exactly `l` edges. */
  ghost predicate LongestTo(E: set<Edge>, v: NodeId, l: nat) {
    && (exists p :: WalkTo(E, p, v) && |p| == l + 1)
    && (forall p :: WalkTo(E, p, v) ==> |p| <= l + 1)
  }

  // ----- reachability -----

  lemma ReachesSelf(E: set<Edge>, a: NodeId)
    ensures Reaches(E, a, a)
  {
    assert WalkFromTo(E, [a], a, a);
  }

  lemma EdgeReaches(E: set<Edge>, a: NodeId, b: NodeId)
    requires Edge(a, b) in E
    ensures ReachesPlus(E, a, b)
  {
    assert WalkFromTo(E, [a, b], a, b);
  }

  lemma PlusReaches(E: set<Edge>, a: NodeId, b: NodeId)
    requires ReachesPlus(E, a, b)
    ensures Reaches(E, a, b)
  {
  }

  lemma JoinWalks(E: set<Edge>, p: seq<NodeId>, q: seq<NodeId>, a: NodeId, b: NodeId, c: NodeId)
    requires WalkFromTo(E, p, a, b) && WalkFromTo(E, q, b, c)
    ensures WalkFromTo(E, p + q[1..], a, c)
  {
  }

  lemma ReachesTrans(E: set<Edge>, a: NodeId, b: NodeId, c: NodeId)
    requires Reaches(E, a, b) && Reaches(E, b, c)
    ensures Reaches(E, a, c)
  {
    var p :| WalkFromTo(E, p, a, b);
    var q :| WalkFromTo(E, q, b, c);
    JoinWalks(E, p, q, a, b, c);
  }

  lemma PlusThenReaches(E: set<Edge>, a: NodeId, b: NodeId, c: NodeId)
    requires ReachesPlus(E, a, b) && Reaches(E, b, c)
    ensures ReachesPlus(E, a, c)
  {
    var p :| WalkFromTo(E, p, a, b) && |p| >= 2;
    var q :| WalkFromTo(E, q, b, c);
    JoinWalks(E, p, q, a, b, c);
  }

  lemma ReachesThenPlus(E: set<Edge>, a: NodeId, b: NodeId, c: NodeId)
    requires Reaches(E, a, b) && ReachesPlus(E, b, c)
    ensures ReachesPlus(E, a, c)
  {
    var p :| WalkFromTo(E, p, a, b);
    var q :| WalkFromTo(E, q, b, c) && |q| >= 2;
    JoinWalks(E, p, q, a, b, c);
  }

  /** Reaching `b` by one or more edges means reaching some predecessor of `b`. */
  lemma PlusLastEdge(E: set<Edge>, a: NodeId, b: NodeId) returns (u: NodeId)
    requires ReachesPlus(E, a, b)
    ensures Reaches(E, a, u) && Edge(u, b) in E
  {
    var p :| WalkFromTo(E, p, a, b) && |p| >= 2;
    u := p[|p| - 2];
    assert WalkFromTo(E, p[..|p| - 1], a, u);
    assert Edge(p[|p| - 2], p[|p| - 2 + 1]) in E;
  }

  lemma PlusFirstEdge(E: set<Edge>, a: NodeId, b: NodeId) returns (u: NodeId)
    requires ReachesPlus(E, a, b)
    ensures Edge(a, u) in E && Reaches(E, u, b)
  {
    var p :| WalkFromTo(E, p, a, b) && |p| >= 2;
    u := p[1];
    assert Edge(p[0], p[0 + 1]) in E;
    var q := p[1..];
    forall i | 0 <= i < |q| - 1
      ensures Edge(q[i], q[i + 1]) in E
    {
      assert Edge(p[i + 1], p[i + 1 + 1]) in E;
    }
    assert WalkFromTo(E, q, u, b);
  }

  /** A set of nodes closed under successors holds everything reachable from it. */
  lemma ClosedUnderReach(E: set<Edge>, S: set<NodeId>, a: NodeId, b: NodeId)
    requires forall e :: e in E && e.from in S ==> e.to in S
    requires a in S && Reaches(E, a, b)
    ensures b in S
  {
    var p :| WalkFromTo(E, p, a, b);
    var i := 0;
    while i < |p| - 1
      invariant 0 <= i < |p| && p[i] in S
    {
      assert Edge(p[i], p[i + 1]) in E;
      i := i + 1;
    }
  }

  lemma WalkMonotone(E: set<Edge>, F: set<Edge>, p: seq<NodeId>)
    requires E <= F && IsWalk(E, p)
    ensures IsWalk(F, p)
  {
  }

  lemma CyclicMonotone(E: set<Edge>, F: set<Edge>)
    requires E <= F && Cyclic(E)
    ensures Cyclic(F)
  {
    var v :| OnCycle(E, v);
    var p :| WalkFromTo(E, p, v, v) && |p| >= 2;
    WalkMonotone(E, F, p);
    assert WalkFromTo(F, p, v, v);
    assert OnCycle(F, v);
  }

  // ----- reversal -----

  ghost function Reversed(E: set<Edge>): set<Edge> {
    set e | e in E :: Edge(e.to, e.from)
  }

  ghost function ReversedWalk(p: seq<NodeId>): (r: seq<NodeId>)
    ensures |r| == |p|
    ensures forall i :: 0 <= i < |p| ==> r[i] == p[|p| - 1 - i]
  {
    seq(|p|, i requires 0 <= i < |p| => p[|p| - 1 - i])
  }

  lemma ReversedInvolution(E: set<Edge>)
    ensures Reversed(Reversed(E)) == E
  {
  }

  lemma CyclicIfReversedCyclic(E: set<Edge>)
    requires Cyclic(Reversed(E))
    ensures Cyclic(E)
  {
    var v :| OnCycle(Reversed(E), v);
    var p :| WalkFromTo(Reversed(E), p, v, v) && |p| >= 2;
    var r := ReversedWalk(p);
    forall i | 0 <= i < |r| - 1
      ensures Edge(r[i], r[i + 1]) in E
    {
      var j := |p| - 2 - i;
      assert Edge(p[j], p[j + 1]) in Reversed(E);
    }
    assert WalkFromTo(E, r, v, v);
    assert OnCycle(E, v);
  }

  /** Turning every edge round neither creates nor removes a cycle. */
  lemma CyclicReversed(E: set<Edge>)
    ensures Cyclic(Reversed(E)) <==> Cyclic(E)
  {
    if Cyclic(E) {
      ReversedInvolution(E);
      CyclicIfReversedCyclic(Reversed(E));
    }
    if Cyclic(Reversed(E)) {
      CyclicIfReversedCyclic(E);
    }
  }

  // ----- one more edge -----

  /** A walk that may use the extra edge either avoids it, or reaches its source and leaves its target. */
  lemma {:induction false} WalkThroughNewEdge(E: set<Edge>, n: Edge, p: seq<NodeId>, x: NodeId, y: NodeId)
    requires WalkFromTo(E + {n}, p, x, y)
    ensures WalkFromTo(E, p, x, y) || (Reaches(E, x, n.from) && Reaches(E, n.to, y))
    decreases |p|
  {
    if |p| == 1 {
    } else {
      var q := p[..|p| - 1];
      var u := q[|q| - 1];
      assert WalkFromTo(E + {n}, q, x, u);
      WalkThroughNewEdge(E, n, q, x, u);
      assert Edge(p[|p| - 2], p[|p| - 2 + 1]) in E + {n};
      if Edge(u, y) == n {
        ReachesSelf(E, y);
      } else if !WalkFromTo(E, q, x, u) {
        EdgeReaches(E, u, y);
        PlusReaches(E, u, y);
        ReachesTrans(E, n.to, u, y);
      } else {
        assert IsWalk(E, p) by {
          forall i | 0 <= i < |p| - 1
            ensures Edge(p[i], p[i + 1]) in E
          {
            if i < |q| - 1 {
              assert Edge(q[i], q[i + 1]) in E;
            }
          }
        }
      }
    }
  }

  /** An edge closes a cycle exactly when its target already reached its source. */
  lemma CyclicWithNewEdge(E: set<Edge>, n: Edge)
    ensures Cyclic(E + {n}) <==> Cyclic(E) || Reaches(E, n.to, n.from)
  {
    if Cyclic(E + {n}) {
      var v :| OnCycle(E + {n}, v);
      var p :| WalkFromTo(E + {n}, p, v, v) && |p| >= 2;
      WalkThroughNewEdge(E, n, p, v, v);
      if WalkFromTo(E, p, v, v) {
        assert OnCycle(E, v);
      } else {
        ReachesTrans(E, n.to, v, n.from);
      }
    }
    if Cyclic(E) {
      CyclicMonotone(E, E + {n});
    }
    if Reaches(E, n.to, n.from) {
      var p :| WalkFromTo(E, p, n.to, n.from);
      WalkMonotone(E, E + {n}, p);
      assert Reaches(E + {n}, n.to, n.from) by { assert WalkFromTo(E + {n}, p, n.to, n.from); }
      EdgeReaches(E + {n}, n.from, n.to);
      PlusThenReaches(E + {n}, n.from, n.to, n.from);
      assert OnCycle(E + {n}, n.from);
    }
  }

  // ----- orders and leftovers -----

  ghost predicate Distinct(s: seq<NodeId>) {
    forall i, j :: 0 <= i < j < |s| ==> s[i] != s[j]
  }

  ghost function Elems(s: seq<NodeId>): set<NodeId> {
    set x | x in s
  }

  /** Every edge into a listed node starts at a node listed strictly earlier. */
  ghost predicate PredecessorsFirst(E: set<Edge>, s: seq<NodeId>) {
    forall k, e :: 0 <= k < |s| && e in E && e.to == s[k] ==> e.from in s[..k]
  }

  lemma {:induction false} DistinctCardinality(s: seq<NodeId>)
    requires Distinct(s)
    ensures |Elems(s)| == |s|
  {
    if s != [] {
      var t := s[..|s| - 1];
      DistinctCardinality(t);
      assert Elems(s) == Elems(t) + {s[|s| - 1]};
    }
  }

  lemma DistinctFits(s: seq<NodeId>, L: set<NodeId>)
    requires Distinct(s) && Elems(s) <= L
    ensures |s| <= |L|
    ensures |s| == |L| ==> Elems(s) == L
  {
    DistinctCardinality(s);
    SubsetCardinality(Elems(s), L);
  }

  lemma SubsetCardinality(A: set<NodeId>, B: set<NodeId>)
    requires A <= B
    ensures |A| <= |B|
    ensures |A| == |B| ==> A == B
  {
    assert B == A + (B - A);
    assert |B| == |A| + |B - A|;
  }

  /** Walking backwards from a listed node stays in the list and moves strictly left. */
  lemma {:induction false} WalkMovesLeft(E: set<Edge>, s: seq<NodeId>, p: seq<NodeId>, k: nat) returns (j: nat)
    requires PredecessorsFirst(E, s)
    requires k < |s| && WalkTo(E, p, s[k])
    ensures j <= k && p[0] == s[j]
    ensures |p| >= 2 ==> j < k
    decreases |p|
  {
    if |p| == 1 {
      j := k;
    } else {
      assert Edge(p[|p| - 2], p[|p| - 2 + 1]) in E;
      assert p[|p| - 2] in s[..k];
      var i :| 0 <= i < k && s[i] == p[|p| - 2];
      j := WalkMovesLeft(E, s, p[..|p| - 1], i);
    }
  }

  /** No node of a predecessors-first list is on, or downstream of, a cycle. */
  lemma OrderedNotDownstream(E: set<Edge>, s: seq<NodeId>, v: NodeId)
    requires PredecessorsFirst(E, s) && Distinct(s) && v in s
    ensures !DownstreamOfCycle(E, v)
  {
    if DownstreamOfCycle(E, v) {
      var c :| OnCycle(E, c) && Reaches(E, c, v);
      var k :| 0 <= k < |s| && s[k] == v;
      var p :| WalkFromTo(E, p, c, v);
      var j := WalkMovesLeft(E, s, p, k);
      var q :| WalkFromTo(E, q, c, c) && |q| >= 2;
      var i := WalkMovesLeft(E, s, q, j);
      assert false;
    }
  }

  ghost predicate HasPredecessorIn(E: set<Edge>, L: set<NodeId>, x: NodeId) {
    exists u :: u in L && Edge(u, x) in E
  }

  lemma ExtendWalkLeft(E: set<Edge>, u: NodeId, p: seq<NodeId>)
    requires IsWalk(E, p) && Edge(u, p[0]) in E
    ensures IsWalk(E, [u] + p)
  {
  }

  lemma ExtendWalkRight(E: set<Edge>, p: seq<NodeId>, u: NodeId)
    requires IsWalk(E, p) && Edge(p[|p| - 1], u) in E
    ensures WalkTo(E, p + [u], u)
  {
  }

  lemma RepeatedNodeDownstream(E: set<Edge>, p: seq<NodeId>, k: nat)
    requires IsWalk(E, p) && 0 < k < |p| && p[k] == p[0]
    ensures DownstreamOfCycle(E, p[|p| - 1])
  {
    var u, v := p[0], p[|p| - 1];
    assert WalkFromTo(E, p[..k + 1], u, u);
    assert OnCycle(E, u);
    assert WalkFromTo(E, p, u, v);
    assert Reaches(E, u, v);
  }

  /** A list of distinct members grows by a member it lacks, so it was shorter than the set. */
  lemma DistinctGrows(p: seq<NodeId>, u: NodeId, L: set<NodeId>)
    requires Distinct(p) && Elems(p) <= L && u in L && u !in p
    ensures Distinct([u] + p) && Elems([u] + p) <= L && |p| < |L|
  {
    var q := [u] + p;
    assert forall x :: x in q ==> x == u || x in p;
    assert forall x :: x in p ==> x in Elems(p);
    DistinctFits(q, L);
  }

  /** Pigeonhole: where every node has a predecessor inside the set, walking back must repeat a node. */
  lemma {:induction false} LeftoverDownstream(E: set<Edge>, L: set<NodeId>, p: seq<NodeId>)
    requires forall x :: x in L ==> HasPredecessorIn(E, L, x)
    requires IsWalk(E, p) && Distinct(p) && Elems(p) <= L
    ensures DownstreamOfCycle(E, p[|p| - 1])
    decreases |L| - |p|
  {
    assert p[0] in Elems(p);
    assert HasPredecessorIn(E, L, p[0]);
    var u :| u in L && Edge(u, p[0]) in E;
    var q := [u] + p;
    ExtendWalkLeft(E, u, p);
    if u in p {
      var k :| 0 <= k < |p| && p[k] == u;
      RepeatedNodeDownstream(E, q, k + 1);
    } else {
      DistinctGrows(p, u, L);
      LeftoverDownstream(E, L, q);
    }
  }

  lemma CyclicIffSomeDownstream(E: set<Edge>)
    ensures Cyclic(E) <==> exists v :: DownstreamOfCycle(E, v)
  {
    if Cyclic(E) {
      var c :| OnCycle(E, c);
      ReachesSelf(E, c);
      assert DownstreamOfCycle(E, c);
    }
  }

  // ----- longest walks -----

  lemma LongestUnique(E: set<Edge>, v: NodeId, l: nat, m: nat)
    requires LongestTo(E, v, l) && LongestTo(E, v, m)
    ensures l == m
  {
  }

  lemma LongestRisesAlongEdge(E: set<Edge>, a: NodeId, b: NodeId, l: nat, m: nat)
    requires Edge(a, b) in E && LongestTo(E, a, l) && LongestTo(E, b, m)
    ensures l < m
  {
    var p :| WalkTo(E, p, a) && |p| == l + 1;
    ExtendWalkRight(E, p, b);
    assert WalkTo(E, p + [b], b);
  }

  /** A labelling that rises along every edge is at least as large as any walk is long. */
  lemma {:induction false} RisingLabelBoundsWalks(E: set<Edge>, level: map<NodeId, nat>, p: seq<NodeId>)
    requires forall e :: e in E ==> e.from in level && e.to in level && level[e.from] + 1 <= level[e.to]
    requires IsWalk(E, p) && p[|p| - 1] in level
    ensures |p| <= level[p[|p| - 1]] + 1
    decreases |p|
  {
    if |p| >= 2 {
      assert Edge(p[|p| - 2], p[|p| - 2 + 1]) in E;
      RisingLabelBoundsWalks(E, level, p[..|p| - 1]);
    }
  }

  /** Round a cycle there are walks of every length. */
  lemma {:induction false} CyclicWalksUnbounded(E: set<Edge>, c: NodeId, n: nat) returns (p: seq<NodeId>)
    requires OnCycle(E, c)
    ensures WalkFromTo(E, p, c, c) && |p| > n
  {
    var q :| WalkFromTo(E, q, c, c) && |q| >= 2;
    if n == 0 {
      p := q;
    } else {
      var r := CyclicWalksUnbounded(E, c, n - 1);
      JoinWalks(E, r, q, c, c, c);
      p := r + q[1..];
    }
  }

  /** Every node of a longest walk sits at the level of its position, so no level below the top is empty. */
  lemma LongestWalkVisitsEveryLevel(E: set<Edge>, v: NodeId, l: nat, i: nat) returns (u: NodeId)
    requires LongestTo(E, v, l) && i <= l
    ensures LongestTo(E, u, i)
    ensures Reaches(E, u, v)
  {
    var p :| WalkTo(E, p, v) && |p| == l + 1;
    u := p[i];
    assert WalkTo(E, p[..i + 1], u);
    var rest := p[i..];
    forall k | 0 <= k < |rest| - 1
      ensures Edge(rest[k], rest[k + 1]) in E
    {
      assert Edge(p[i + k], p[i + k + 1]) in E;
    }
    assert WalkFromTo(E, rest, u, v);
    forall q | WalkTo(E, q, u)
      ensures |q| <= i + 1
    {
      JoinWalks(E, q, rest, q[0], u, v);
      assert WalkTo(E, q + rest[1..], v);
    }
  }
}
