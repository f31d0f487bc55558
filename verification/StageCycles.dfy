/**
The second cycle detector: the three-colour depth-first search over pipeline stages
of internal/pipeline/validator.go, which writes a colour array in place.

A frame that leaves early stays grey and its callers carry on, so "grey" only means
"on the current search path" while no cycle has been reported.
*/
module StageCycles {
  import opened Digraph
  import Dag

  datatype Stage = Stage(name: string, dependsOn: seq<string>)

  const WHITE := 0
  const GREY := 1
  const BLACK := 2

  // ----- the stage graph -----

  /** `j` is the last stage called `name`: later stages overwrite earlier ones in the name index. */
  ghost predicate LastNamed(stages: seq<Stage>, name: string, j: nat) {
    j < |stages| && stages[j].name == name && forall k :: j < k < |stages| ==> stages[k].name != name
  }

  /** Stage `i` names stage `j` as a dependency; names of no stage are ignored. */
  ghost predicate Depends(stages: seq<Stage>, i: nat, j: nat) {
    i < |stages| && NamesStage(stages, stages[i].dependsOn, j)
  }

  ghost predicate NamesStage(stages: seq<Stage>, deps: seq<string>, j: nat) {
    exists dep :: dep in deps && LastNamed(stages, dep, j)
  }

  ghost function DependencyEdges(stages: seq<Stage>): set<Edge> {
    set i: nat, j: nat | i < |stages| && j < |stages| && Depends(stages, i, j) :: Edge(i, j)
  }

  ghost predicate IsAdjacency(stages: seq<Stage>, adj: seq<seq<nat>>) {
    && |adj| == |stages|
    && forall i, j :: 0 <= i < |adj| ==> (j in adj[i] <==> Depends(stages, i, j))
  }

  /** What the name index holds: every stage name, mapped to the last stage that bears it. */
  ghost predicate IsIndex(stages: seq<Stage>, index: map<string, nat>) {
    && (forall name :: name in index ==> LastNamed(stages, name, index[name]))
    && (forall k :: 0 <= k < |stages| ==> stages[k].name in index)
  }

  method IndexStages(stages: seq<Stage>) returns (index: map<string, nat>)
    ensures IsIndex(stages, index)
  {
    index := map[];
    for i := 0 to |stages|
      invariant IsIndex(stages[..i], index)
    {
      index := index[stages[i].name := i];
    }
    assert stages[..|stages|] == stages;
  }

  lemma IndexFinds(stages: seq<Stage>, index: map<string, nat>, dep: string)
    requires IsIndex(stages, index)
    ensures forall j: nat :: LastNamed(stages, dep, j) <==> dep in index && index[dep] == j
  {
  }

  method BuildAdjacency(stages: seq<Stage>) returns (adj: seq<seq<nat>>)
    ensures IsAdjacency(stages, adj)
  {
    var index := IndexStages(stages);
    adj := [];
    for i := 0 to |stages|
      invariant |adj| == i
      invariant forall k, j :: 0 <= k < i ==> (j in adj[k] <==> Depends(stages, k, j))
    {
      var row: seq<nat> := [];
      var deps := stages[i].dependsOn;
      for d := 0 to |deps|
        invariant forall j: nat :: j in row <==> NamesStage(stages, deps[..d], j)
      {
        assert deps[..d + 1] == deps[..d] + [deps[d]];
        IndexFinds(stages, index, deps[d]);
        if deps[d] in index {
          row := row + [index[deps[d]]];
        }
      }
      assert deps[..|deps|] == deps;
      adj := adj + [row];
    }
  }

  // ----- the search -----

  ghost function AdjacencyEdges(adj: seq<seq<nat>>): set<Edge> {
    set i: nat, k: nat | i < |adj| && k < |adj[i]| :: Edge(i, adj[i][k])
  }

  ghost predicate WellScoped(adj: seq<seq<nat>>) {
    forall i, k :: 0 <= i < |adj| && 0 <= k < |adj[i]| ==> adj[i][k] < |adj|
  }

  ghost function Whites(c: seq<int>): set<nat> {
    set v: nat | v < |c| && c[v] == WHITE
  }

  /** Black nodes are finished: their successors are black and none of them lies on a cycle. */
  ghost predicate Finished(E: set<Edge>, c: seq<int>) {
    && (forall e :: e in E && e.from < |c| && c[e.from] == BLACK ==> e.to < |c| && c[e.to] == BLACK)
    && (forall v: nat :: v < |c| && c[v] == BLACK ==> !OnCycle(E, v))
  }

  /** Everything grey lies on the search path leading to `u`. */
  ghost predicate GreyAbove(E: set<Edge>, c: seq<int>, u: nat) {
    forall w: nat :: w < |c| && c[w] == GREY ==> Reaches(E, w, u)
  }

  /** While no cycle is reported, grey stays grey and black stays black. */
  ghost predicate SameGrey(c: seq<int>, d: seq<int>) {
    && |d| == |c|
    && (forall v :: 0 <= v < |c| ==> (c[v] == GREY <==> d[v] == GREY))
    && (forall v :: 0 <= v < |c| && c[v] == BLACK ==> d[v] == BLACK)
  }

  ghost predicate NoNewWhite(c: seq<int>, d: seq<int>) {
    |d| == |c| && forall v :: 0 <= v < |c| && c[v] != WHITE ==> d[v] != WHITE
  }

  ghost predicate Colours(c: seq<int>) {
    forall v :: 0 <= v < |c| ==> c[v] == WHITE || c[v] == GREY || c[v] == BLACK
  }

  lemma GreyAboveChild(E: set<Edge>, c: seq<int>, u: nat, v: nat)
    requires GreyAbove(E, c, u) && Edge(u, v) in E
    ensures GreyAbove(E, c, v)
  {
    EdgeReaches(E, u, v);
    PlusReaches(E, u, v);
    forall w: nat | w < |c| && c[w] == GREY
      ensures Reaches(E, w, v)
    {
      ReachesTrans(E, w, u, v);
    }
  }

  /** A grey child closes a cycle. */
  lemma GreyChildCloses(E: set<Edge>, c: seq<int>, u: nat, v: nat)
    requires GreyAbove(E, c, u) && Edge(u, v) in E && v < |c| && c[v] == GREY
    ensures Cyclic(E)
  {
    EdgeReaches(E, u, v);
    PlusThenReaches(E, u, v, u);
    assert OnCycle(E, u);
  }

  /** With all its successors black, a grey node can be finished. */
  lemma BlackenKeepsFinished(E: set<Edge>, c: seq<int>, u: nat)
    requires Finished(E, c) && u < |c| && c[u] == GREY
    requires forall e :: e in E && e.from == u ==> e.to < |c| && c[e.to] == BLACK
    ensures Finished(E, c[u := BLACK])
  {
    if OnCycle(E, u) {
      var v := PlusFirstEdge(E, u, u);
      var black := set w: nat | w < |c| && c[w] == BLACK;
      assert Edge(u, v) in E && v in black;
      ClosedUnderReach(E, black, v, u);
      assert false;
    }
  }

  /** What a stretch of the search does to the colours and to the cycle flag. */
  ghost predicate Searched(E: set<Edge>, c: seq<int>, d: seq<int>, flag: bool, found: bool) {
    && Colours(d) && NoNewWhite(c, d)
    && (flag ==> found)
    && (found ==> Cyclic(E))
    && (!found ==> Finished(E, d) && SameGrey(c, d))
  }

  lemma SearchedTwice(E: set<Edge>, a: seq<int>, b: seq<int>, c: seq<int>, flag: bool, mid: bool, found: bool)
    requires Searched(E, a, b, flag, mid) && Searched(E, b, c, mid, found)
    ensures Searched(E, a, c, flag, found)
  {
  }

  /** Leaving a frame normally: the node entered in grey is blackened. */
  lemma FrameDone(E: set<Edge>, start: seq<int>, c: seq<int>, u: nat, flag: bool, found: bool)
    requires u < |start| && start[u] == WHITE
    requires Searched(E, start[u := GREY], c, flag, found)
    requires !found ==> forall e :: e in E && e.from == u ==> e.to < |c| && c[e.to] == BLACK
    ensures Searched(E, start, c[u := BLACK], flag, found)
  {
    if !found {
      assert start[u := GREY][u] == GREY;
      BlackenKeepsFinished(E, c, u);
    }
  }

  lemma GreyAboveEntered(E: set<Edge>, start: seq<int>, c: seq<int>, u: nat, v: nat)
    requires u < |start| && GreyAbove(E, start, u) && SameGrey(start[u := GREY], c) && Edge(u, v) in E
    ensures GreyAbove(E, c, u) && GreyAbove(E, c, v)
  {
    ReachesSelf(E, u);
    GreyAboveChild(E, c, u, v);
  }

  method Dfs(adj: seq<seq<nat>>, color: array<int>, u: nat, hasCycle: bool) returns (found: bool)
    requires WellScoped(adj) && color.Length == |adj| && u < |adj| && color[u] == WHITE && Colours(color[..])
    requires hasCycle ==> Cyclic(AdjacencyEdges(adj))
    requires !hasCycle ==> Finished(AdjacencyEdges(adj), color[..]) && GreyAbove(AdjacencyEdges(adj), color[..], u)
    modifies color
    ensures Searched(AdjacencyEdges(adj), old(color[..]), color[..], hasCycle, found)
    ensures !found ==> color[u] == BLACK
    decreases |Whites(color[..])|
  {
    ghost var E := AdjacencyEdges(adj);
    ghost var start := color[..];
    color[u] := GREY;
    found := hasCycle;
    assert color[..] == start[u := GREY];
    for k := 0 to |adj[u]|
      invariant Searched(E, start[u := GREY], color[..], hasCycle, found)
      invariant !found ==> forall m :: 0 <= m < k ==> color[adj[u][m]] == BLACK
    {
      ghost var here, flag := color[..], found;
      var v := adj[u][k];
      assert Edge(u, v) in E;
      if !found {
        GreyAboveEntered(E, start, here, u, v);
      }
      if color[v] == GREY {
        if !found {
          GreyChildCloses(E, here, u, v);
        }
        return true;
      }
      if color[v] == WHITE {
        FewerWhites(start, here, u);
        found := Dfs(adj, color, v, found);
        SearchedTwice(E, start[u := GREY], here, color[..], hasCycle, flag, found);
      }
    }
    ghost var last := color[..];
    assert !found ==> forall e :: e in E && e.from == u ==> e.to < |last| && last[e.to] == BLACK;
    FrameDone(E, start, last, u, hasCycle, found);
    color[u] := BLACK;
    assert color[..] == last[u := BLACK];
  }

  lemma FewerWhites(c: seq<int>, d: seq<int>, u: nat)
    requires u < |c| && c[u] == WHITE && |d| == |c| && d[u] != WHITE
    requires forall v :: 0 <= v < |c| && c[v] != WHITE ==> d[v] != WHITE
    ensures |Whites(d)| < |Whites(c)|
  {
    assert Whites(d) <= Whites(c) - {u};
    SubsetCardinality(Whites(d), Whites(c) - {u});
  }

  lemma AllBlackAcyclic(adj: seq<seq<nat>>, c: seq<int>)
    requires Finished(AdjacencyEdges(adj), c) && |c| == |adj| && forall v :: 0 <= v < |c| ==> c[v] == BLACK
    ensures !Cyclic(AdjacencyEdges(adj))
  {
    var E := AdjacencyEdges(adj);
    if Cyclic(E) {
      var v: NodeId :| OnCycle(E, v);
      var w := PlusFirstEdge(E, v, v);
      assert false;
    }
  }

  lemma AdjacencyIsDependency(stages: seq<Stage>, adj: seq<seq<nat>>)
    requires IsAdjacency(stages, adj)
    ensures WellScoped(adj) && AdjacencyEdges(adj) == DependencyEdges(stages)
  {
    forall i, k | 0 <= i < |adj| && 0 <= k < |adj[i]|
      ensures adj[i][k] < |adj| && Edge(i, adj[i][k]) in DependencyEdges(stages)
    {
      assert adj[i][k] in adj[i];
      assert Depends(stages, i, adj[i][k]);
    }
    forall e | e in DependencyEdges(stages)
      ensures e in AdjacencyEdges(adj)
    {
      assert Depends(stages, e.from, e.to);
      var k :| 0 <= k < |adj[e.from]| && adj[e.from][k] == e.to;
    }
  }

  /** Between searches nothing is grey and the first `i` nodes are finished. */
  ghost predicate BetweenRoots(E: set<Edge>, c: seq<int>, i: nat) {
    && i <= |c| && Colours(c) && Finished(E, c)
    && (forall v :: 0 <= v < |c| ==> c[v] != GREY)
    && (forall v :: 0 <= v < i ==> c[v] == BLACK)
  }

  lemma RootDone(E: set<Edge>, c: seq<int>, d: seq<int>, i: nat)
    requires i < |c| && BetweenRoots(E, c, i) && Searched(E, c, d, false, false) && d[i] == BLACK
    ensures BetweenRoots(E, d, i + 1)
  {
  }

  /** Reports an error exactly when the stage dependencies form a cycle; it always terminates. */
  method DetectCycles(stages: seq<Stage>) returns (circular: bool)
    ensures circular <==> Cyclic(DependencyEdges(stages))
  {
    var adj := BuildAdjacency(stages);
    AdjacencyIsDependency(stages, adj);
    ghost var E := AdjacencyEdges(adj);
    var color := new int[|stages|](_ => WHITE);
    for i := 0 to |stages|
      invariant BetweenRoots(E, color[..], i)
    {
      if color[i] == WHITE {
        ghost var before := color[..];
        var found := Dfs(adj, color, i, false);
        if found {
          return true;
        }
        RootDone(E, before, color[..], i);
      }
    }
    AllBlackAcyclic(adj, color[..]);
    return false;
  }

  // ----- agreement with Kahn's algorithm -----

  /** The reversed edges of the first `i` rows and of the first `d` entries of row `i`. */
  ghost predicate HasDagEdge(adj: seq<seq<nat>>, i: nat, d: nat, e: Edge) {
    && e.to < |adj|
    && (if e.to < i then e.from in adj[e.to] else e.to == i && d <= |adj[i]| && e.from in adj[i][..d])
  }

  /** The stages as an executable graph: each dependency points to the stage that needs it. */
  method BuildDag(adj: seq<seq<nat>>) returns (g: Dag.Graph)
    requires WellScoped(adj)
    ensures fresh(g) && g.Valid() && g.State().E() == Reversed(AdjacencyEdges(adj))
  {
    g := new Dag.Graph();
    for i := 0 to |adj|
      invariant fresh(g) && g.Valid() && g.edges == [] && forall v: nat :: v in g.nodes <==> v < i
    {
      var _ := g.AddNodeWithID(i, "stage");
    }
    for i := 0 to |adj|
      invariant fresh(g) && g.Valid() && forall v: nat :: v in g.nodes <==> v < |adj|
      invariant forall e :: e in g.edges <==> HasDagEdge(adj, i, 0, e)
    {
      for d := 0 to |adj[i]|
        invariant fresh(g) && g.Valid() && forall v: nat :: v in g.nodes <==> v < |adj|
        invariant forall e :: e in g.edges <==> HasDagEdge(adj, i, d, e)
      {
        assert adj[i][..d + 1] == adj[i][..d] + [adj[i][d]];
        var _ := g.AddEdge(adj[i][d], i);
      }
      assert adj[i][..|adj[i]|] == adj[i];
    }
    forall e
      ensures e in g.State().E() <==> e in Reversed(AdjacencyEdges(adj))
    {
      assert e in g.edges <==> e.to < |adj| && e.from in adj[e.to];
      if e in g.edges {
        var k :| 0 <= k < |adj[e.to]| && adj[e.to][k] == e.from;
        assert Edge(e.to, e.from) in AdjacencyEdges(adj);
        assert e == Edge(Edge(e.to, e.from).to, Edge(e.to, e.from).from);
      }
    }
  }

  /** The depth-first search and Kahn's algorithm give the same verdict on every stage list. */
  method DetectorsAgree(stages: seq<Stage>) returns (dfs: bool, kahn: bool)
    ensures dfs == kahn
    ensures dfs <==> Cyclic(DependencyEdges(stages))
  {
    dfs := DetectCycles(stages);
    var adj := BuildAdjacency(stages);
    AdjacencyIsDependency(stages, adj);
    var g := BuildDag(adj);
    kahn := g.HasCycle();
    CyclicReversed(DependencyEdges(stages));
  }
}
