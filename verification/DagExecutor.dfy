/**
Level-by-level execution of a graph (internal/dag/executor.go).

Handlers, cancellation and policy changes are arbitrary: they come from an environment the
contracts quantify over.  The goroutines of one level are interleaved in every possible way,
and a log records each handler start and each result in the order they happen.
*/
module DagExecutor {
  import opened Digraph
  import opened Dag
  import opened Results

  datatype Status = Completed | Failed | Skipped

  datatype NodeResult = NodeResult(nodeId: NodeId, nodeName: string, status: Status)

  datatype Policy = FailFast | ContinueOnFailure

  /** Everything the executor does not decide itself. */
  datatype Env = Env(
    handlers: set<string>,              // names with a registered handler
    fails: NodeId -> bool,              // whether the node's handler returns an error
    seesCancel: NodeId -> bool,         // whether the node's goroutine finds the context done
    cancelledBefore: nat -> bool,       // whether the context is done when a level is about to start
    policy: nat -> Policy)              // the policy in force after a level, which may change during a run
  {
    /** The node's goroutine gets past its cancellation check and finds a handler. */
    predicate RunsHandler(n: Node) {
      !seesCancel(n.id) && n.name in handlers
    }

    function Outcome(n: Node): Status {
      if seesCancel(n.id) then Skipped
      else if n.name in handlers && fails(n.id) then Failed
      else Completed
    }
  }

  /** The node's handler runs and returns an error. */
  predicate HandlerErrs(env: Env, n: Node) {
    !env.seesCancel(n.id) && n.name in env.handlers && env.fails(n.id)
  }

  datatype Event = Started(id: NodeId) | Finished(id: NodeId)

  datatype Exit = Done | StoppedOnFailure | Cancelled

  datatype ExecutionResult = ExecutionResult(results: map<NodeId, NodeResult>, success: bool)

  // ----- the log -----

  ghost predicate HasFinished(log: seq<Event>, id: NodeId) {
    Finished(id) in log
  }

  /** No handler starts twice and no node gets two results. */
  ghost predicate Once(log: seq<Event>) {
    forall i, j :: 0 <= i < j < |log| ==> log[i] != log[j]
  }

  /** A handler starts only after every parent of its node has a result, and before its own node has one. */
  ghost predicate InSequence(E: set<Edge>, log: seq<Event>) {
    && (forall k, u :: 0 <= k < |log| && log[k].Started? && Edge(u, log[k].id) in E ==> HasFinished(log[..k], u))
    && (forall k :: 0 <= k < |log| && log[k].Started? ==> !HasFinished(log[..k], log[k].id))
  }

  lemma ExtendSequence(E: set<Edge>, log: seq<Event>, ev: Event)
    requires InSequence(E, log)
    requires ev.Started? ==> !HasFinished(log, ev.id) && forall u :: Edge(u, ev.id) in E ==> HasFinished(log, u)
    ensures InSequence(E, log + [ev])
  {
    var next := log + [ev];
    forall k | 0 <= k < |next|
      ensures next[..k] == if k < |log| then log[..k] else log
    {
    }
    forall k, u | 0 <= k < |next| && next[k].Started? && Edge(u, next[k].id) in E
      ensures HasFinished(next[..k], u)
    {
      assert next[..k] == if k < |log| then log[..k] else log;
    }
  }

  // ----- one level -----

  /** What running one level adds: a result for each of its nodes and events for nothing else. */
  ghost predicate LevelRan(nodes: map<NodeId, Node>, ids: set<NodeId>, env: Env, before: seq<Event>,
                           results: map<NodeId, NodeResult>, log: seq<Event>)
    requires ids <= nodes.Keys
  {
    && results.Keys == ids
    && (forall id :: id in ids ==> results[id] == NodeResult(id, nodes[id].name, env.Outcome(nodes[id])))
    && before <= log && Once(log)
    && (forall id :: HasFinished(log, id) <==> HasFinished(before, id) || id in ids)
    && (forall id :: Started(id) in log <==> Started(id) in before || (id in ids && env.RunsHandler(nodes[id])))
  }

  /** A level in progress: nodes not yet begun, handlers running, results so far and the log. */
  datatype Progress = Progress(pending: set<NodeId>, running: set<NodeId>, results: map<NodeId, NodeResult>,
                               log: seq<Event>)

  ghost predicate InLevel(nodes: map<NodeId, Node>, ids: set<NodeId>, env: Env, before: seq<Event>, p: Progress)
    requires ids <= nodes.Keys
  {
    && p.pending + p.running + p.results.Keys == ids
    && p.pending !! p.running && p.pending !! p.results.Keys && p.running !! p.results.Keys
    && (forall id :: id in p.results ==> p.results[id] == NodeResult(id, nodes[id].name, env.Outcome(nodes[id])))
    && (forall id :: id in p.running ==> env.RunsHandler(nodes[id]))
    && before <= p.log && Once(p.log)
    && (forall id :: HasFinished(p.log, id) <==> HasFinished(before, id) || id in p.results)
    && (forall id :: Started(id) in p.log <==>
          Started(id) in before || (id in p.running + p.results.Keys && env.RunsHandler(nodes[id])))
  }

  function Record(p: Progress, id: NodeId, name: string, status: Status): Progress {
    Progress(p.pending - {id}, p.running - {id}, p.results[id := NodeResult(id, name, status)], p.log + [Finished(id)])
  }

  function Begin(p: Progress, id: NodeId): Progress {
    Progress(p.pending - {id}, p.running + {id}, p.results, p.log + [Started(id)])
  }

  lemma RecordKeeps(nodes: map<NodeId, Node>, ids: set<NodeId>, env: Env, before: seq<Event>, p: Progress, id: NodeId)
    requires ids <= nodes.Keys && InLevel(nodes, ids, env, before, p)
    requires id in p.pending + p.running && Finished(id) !in before
    requires id in p.pending ==> !env.RunsHandler(nodes[id])
    ensures InLevel(nodes, ids, env, before, Record(p, id, nodes[id].name, env.Outcome(nodes[id])))
  {
  }

  lemma BeginKeeps(nodes: map<NodeId, Node>, ids: set<NodeId>, env: Env, before: seq<Event>, p: Progress, id: NodeId)
    requires ids <= nodes.Keys && InLevel(nodes, ids, env, before, p)
    requires id in p.pending && Started(id) !in before
    requires env.RunsHandler(nodes[id])
    ensures InLevel(nodes, ids, env, before, Begin(p, id))
  {
  }

  ghost predicate LevelReady(nodes: map<NodeId, Node>, ids: set<NodeId>, before: seq<Event>, E: set<Edge>) {
    && ids <= nodes.Keys && (forall id :: id in nodes ==> nodes[id].id == id)
    && (forall id :: id in ids ==> Started(id) !in before && Finished(id) !in before)
    && (forall id, u :: id in ids && Edge(u, id) in E ==> HasFinished(before, u))
  }

  /** A goroutine passes its cancellation check: it is skipped, completes without a handler, or starts its handler. */
  method BeginNode(nodes: map<NodeId, Node>, ids: set<NodeId>, env: Env, ghost before: seq<Event>, ghost E: set<Edge>,
                   p: Progress, id: NodeId)
    returns (q: Progress)
    requires LevelReady(nodes, ids, before, E) && InLevel(nodes, ids, env, before, p) && InSequence(E, p.log)
    requires id in p.pending
    ensures InLevel(nodes, ids, env, before, q) && InSequence(E, q.log) && q.pending == p.pending - {id}
  {
    if env.seesCancel(id) {
      RecordKeeps(nodes, ids, env, before, p, id);
      ExtendSequence(E, p.log, Finished(id));
      q := Record(p, id, nodes[id].name, Skipped);
    } else if nodes[id].name !in env.handlers {
      RecordKeeps(nodes, ids, env, before, p, id);
      ExtendSequence(E, p.log, Finished(id));
      q := Record(p, id, nodes[id].name, Completed);
    } else {
      BeginKeeps(nodes, ids, env, before, p, id);
      ExtendSequence(E, p.log, Started(id));
      q := Begin(p, id);
    }
  }

  /** A running handler returns. */
  method FinishNode(nodes: map<NodeId, Node>, ids: set<NodeId>, env: Env, ghost before: seq<Event>,
                    ghost E: set<Edge>, p: Progress, id: NodeId)
    returns (q: Progress)
    requires LevelReady(nodes, ids, before, E) && InLevel(nodes, ids, env, before, p) && InSequence(E, p.log)
    requires id in p.running
    ensures InLevel(nodes, ids, env, before, q) && InSequence(E, q.log)
    ensures q.pending == p.pending && q.running == p.running - {id}
  {
    RecordKeeps(nodes, ids, env, before, p, id);
    ExtendSequence(E, p.log, Finished(id));
    q := Record(p, id, nodes[id].name, if env.fails(id) then Failed else Completed);
  }

  method ExecuteLevel(nodes: map<NodeId, Node>, ids: set<NodeId>, env: Env, before: seq<Event>, ghost E: set<Edge>)
    returns (results: map<NodeId, NodeResult>, log: seq<Event>)
    requires LevelReady(nodes, ids, before, E)
    requires Once(before) && InSequence(E, before)
    ensures LevelRan(nodes, ids, env, before, results, log)
    ensures InSequence(E, log)
    ensures forall id :: id in ids ==>
              && (results[id].status == Skipped <==> env.seesCancel(id))
              && (results[id].status == Failed <==>
                    !env.seesCancel(id) && nodes[id].name in env.handlers && env.fails(id))
              && (Started(id) in log <==> !env.seesCancel(id) && nodes[id].name in env.handlers)
  {
    var p := Progress(ids, {}, map[], before);
    while p.pending != {} || p.running != {}
      invariant InLevel(nodes, ids, env, before, p) && InSequence(E, p.log)
      decreases p.pending, p.running
    {
      if
      case p.pending != {} =>
        var id :| id in p.pending;
        p := BeginNode(nodes, ids, env, before, E, p, id);
      case p.running != {} =>
        var id :| id in p.running;
        p := FinishNode(nodes, ids, env, before, E, p, id);
    }
    results, log := p.results, p.log;
  }

  predicate AnyFailed(results: map<NodeId, NodeResult>) {
    exists id :: id in results && results[id].status == Failed
  }

  method BuildResult(results: map<NodeId, NodeResult>) returns (r: ExecutionResult)
    ensures r.results == results && (r.success <==> !AnyFailed(results))
  {
    var rest := results.Keys;
    while rest != {}
      invariant rest <= results.Keys
      invariant forall id :: id in results && id !in rest ==> results[id].status != Failed
    {
      var id :| id in rest;
      rest := rest - {id};
      if results[id].status == Failed {
        return ExecutionResult(results, false);
      }
    }
    return ExecutionResult(results, true);
  }

  // ----- the whole run -----

  type Labels = map<NodeId, nat>

  function LevelIds(level: seq<Node>): set<NodeId> {
    set n | n in level :: n.id
  }

  /** `level` gives each node its place in `levels`: the length of the longest walk ending at it. */
  ghost predicate Places(s: GraphState, levels: seq<seq<Node>>, level: Labels) {
    && level.Keys == s.nodes.Keys
    && (forall v :: v in level ==> level[v] < |levels|)
    && (forall l, v :: 0 <= l < |levels| ==> (v in LevelIds(levels[l]) <==> v in level && level[v] == l))
    && (forall e :: e in s.edges ==> e.from in level && e.to in level && level[e.from] < level[e.to])
  }

  ghost predicate LongestLabels(s: GraphState, level: Labels) {
    level.Keys == s.nodes.Keys && forall v :: v in level ==> LongestTo(s.E(), v, level[v])
  }

  lemma LevelOfNode(s: GraphState, levels: seq<seq<Node>>, v: NodeId) returns (l: nat)
    requires s.WellFormed() && IsLevelling(s, levels) && v in s.nodes
    ensures l < |levels| && v in LevelIds(levels[l]) && LongestTo(s.E(), v, l)
  {
    var m :| 0 <= m < |levels| && s.nodes[v] in levels[m];
    l := m;
    assert s.nodes[v].id == v;
  }

  lemma MemberIsNode(s: GraphState, levels: seq<seq<Node>>, l: nat, v: NodeId)
    requires IsLevelling(s, levels) && l < |levels| && v in LevelIds(levels[l])
    ensures v in s.nodes && LongestTo(s.E(), v, l)
  {
    var n :| n in levels[l] && n.id == v;
  }

  lemma PlacesFromLongest(s: GraphState, levels: seq<seq<Node>>, level: Labels)
    requires s.WellFormed() && IsLevelling(s, levels) && LongestLabels(s, level)
    ensures Places(s, levels, level)
  {
    forall v | v in level
      ensures level[v] < |levels| && v in LevelIds(levels[level[v]])
    {
      var l := LevelOfNode(s, levels, v);
      LongestUnique(s.E(), v, l, level[v]);
    }
    forall l, v | 0 <= l < |levels| && v in LevelIds(levels[l])
      ensures v in level && level[v] == l
    {
      MemberIsNode(s, levels, l, v);
      LongestUnique(s.E(), v, l, level[v]);
    }
    forall e | e in s.edges
      ensures level[e.from] < level[e.to]
    {
      assert e == Edge(e.from, e.to);
      LongestRisesAlongEdge(s.E(), e.from, e.to, level[e.from], level[e.to]);
    }
  }

  ghost function LongestLength(E: set<Edge>, v: NodeId): nat
    requires exists l: nat :: LongestTo(E, v, l)
  {
    var l: nat :| LongestTo(E, v, l); l
  }

  lemma LevelsHavePlaces(s: GraphState, levels: seq<seq<Node>>) returns (level: Labels)
    requires s.WellFormed() && IsLevelling(s, levels)
    ensures LongestLabels(s, level) && Places(s, levels, level)
  {
    forall v | v in s.nodes
      ensures exists l: nat :: LongestTo(s.E(), v, l)
    {
      var l := LevelOfNode(s, levels, v);
    }
    level := map v | v in s.nodes :: LongestLength(s.E(), v);
    PlacesFromLongest(s, levels, level);
  }

  /** The run so far: exactly the nodes of the first `k` levels have results, and the log is in order. */
  ghost predicate Ran(s: GraphState, env: Env, level: Labels, k: nat, results: map<NodeId, NodeResult>, log: seq<Event>)
    requires level.Keys == s.nodes.Keys
  {
    && (forall v :: v in results <==> v in level && level[v] < k)
    && (forall v :: v in results ==> results[v] == NodeResult(v, s.nodes[v].name, env.Outcome(s.nodes[v])))
    && Once(log) && InSequence(s.E(), log)
    && (forall v :: HasFinished(log, v) <==> v in results)
    && (forall v :: Started(v) in log <==> v in results && env.RunsHandler(s.nodes[v]))
  }

  predicate FailedAt(level: Labels, results: map<NodeId, NodeResult>, l: nat) {
    exists v :: v in results && v in level && level[v] == l && results[v].status == Failed
  }

  ghost predicate HaltsAfter(env: Env, level: Labels, results: map<NodeId, NodeResult>, l: nat) {
    env.policy(l) == FailFast && FailedAt(level, results, l)
  }

  /** Why the run went through exactly the first `k` levels. */
  ghost predicate StopRule(s: GraphState, env: Env, level: Labels, k: nat, results: map<NodeId, NodeResult>,
                           exit: Exit) {
    && (forall l: nat :: l < k ==> !env.cancelledBefore(l))
    && (forall l: nat :: l < k - 1 ==> !HaltsAfter(env, level, results, l))
    && (exit == StoppedOnFailure <==> k > 0 && HaltsAfter(env, level, results, k - 1))
    && (exit == Done ==> results.Keys == s.nodes.Keys)
    && (exit == Cancelled ==> env.cancelledBefore(k) && (s.nodes != map[] ==> results.Keys != s.nodes.Keys))
  }

  lemma ReadyForLevel(s: GraphState, levels: seq<seq<Node>>, level: Labels, env: Env, l: nat,
                      results: map<NodeId, NodeResult>, log: seq<Event>)
    requires s.WellFormed() && Places(s, levels, level) && l < |levels| && Ran(s, env, level, l, results, log)
    ensures LevelReady(s.nodes, LevelIds(levels[l]), log, s.E())
  {
  }

  lemma LevelExtendsRun(s: GraphState, ids: set<NodeId>, level: Labels, env: Env, l: nat,
                        results: map<NodeId, NodeResult>, log: seq<Event>,
                        levelResults: map<NodeId, NodeResult>, longer: seq<Event>)
    requires level.Keys == s.nodes.Keys && Ran(s, env, level, l, results, log)
    requires forall v :: v in ids <==> v in level && level[v] == l
    requires LevelRan(s.nodes, ids, env, log, levelResults, longer) && InSequence(s.E(), longer)
    ensures Ran(s, env, level, l + 1, results + levelResults, longer)
    ensures FailedAt(level, results + levelResults, l) <==> AnyFailed(levelResults)
    ensures forall m: nat :: m < l ==> (FailedAt(level, results + levelResults, m) <==> FailedAt(level, results, m))
  {
  }

  /** Scans one level's results; a failure of a node that is still in the graph counts as critical. */
  method Failures(nodes: map<NodeId, Node>, results: map<NodeId, NodeResult>)
    returns (hasFailure: bool, hasCriticalFailure: bool)
    ensures hasFailure <==> AnyFailed(results)
    ensures hasCriticalFailure <==>
            exists id :: id in results && results[id].status == Failed && results[id].nodeId in nodes
  {
    hasFailure, hasCriticalFailure := false, false;
    var rest := results.Keys;
    while rest != {}
      invariant rest <= results.Keys
      invariant hasFailure <==> exists id :: id in results && id !in rest && results[id].status == Failed
      invariant hasCriticalFailure <==>
                exists id :: id in results && id !in rest && results[id].status == Failed && results[id].nodeId in nodes
    {
      var id :| id in rest;
      rest := rest - {id};
      if results[id].status == Failed {
        hasFailure := true;
        if results[id].nodeId in nodes {
          hasCriticalFailure := true;
        }
      }
    }
  }

  ghost predicate Quiet(env: Env, level: Labels, k: nat, results: map<NodeId, NodeResult>) {
    && (forall l: nat :: l < k ==> !env.cancelledBefore(l))
    && (forall l: nat :: l < k ==> !HaltsAfter(env, level, results, l))
  }

  /** One pass of the level loop, up to the policy decision. */
  method RunLevel(s: GraphState, levels: seq<seq<Node>>, ghost level: Labels, env: Env, i: nat,
                  results: map<NodeId, NodeResult>, log: seq<Event>)
    returns (all: map<NodeId, NodeResult>, longer: seq<Event>, halt: bool)
    requires s.WellFormed() && Places(s, levels, level) && i < |levels|
    requires Ran(s, env, level, i, results, log) && Quiet(env, level, i, results) && !env.cancelledBefore(i)
    ensures Ran(s, env, level, i + 1, all, longer)
    ensures halt ==> StopRule(s, env, level, i + 1, all, StoppedOnFailure)
    ensures !halt ==> Quiet(env, level, i + 1, all)
    ensures halt <==>
            env.policy(i) == FailFast && exists v :: v in s.nodes && level[v] == i && HandlerErrs(env, s.nodes[v])
  {
    ReadyForLevel(s, levels, level, env, i, results, log);
    var levelResults;
    levelResults, longer := ExecuteLevel(s.nodes, LevelIds(levels[i]), env, log, s.E());
    LevelExtendsRun(s, LevelIds(levels[i]), level, env, i, results, log, levelResults, longer);
    all := results + levelResults;
    var hasFailure, hasCriticalFailure := Failures(s.nodes, levelResults);
    halt := hasCriticalFailure && env.policy(i) == FailFast;
    // The source's second test, for a failure that is not critical, can never succeed.
    assert !(hasFailure && !hasCriticalFailure);
    AfterLevel(s, env, level, i, results, all, halt);
  }

  lemma AfterLevel(s: GraphState, env: Env, level: Labels, i: nat, results: map<NodeId, NodeResult>,
                   all: map<NodeId, NodeResult>, halt: bool)
    requires Quiet(env, level, i, results) && !env.cancelledBefore(i)
    requires forall m: nat :: m < i ==> (FailedAt(level, all, m) <==> FailedAt(level, results, m))
    requires halt <==> env.policy(i) == FailFast && FailedAt(level, all, i)
    ensures halt ==> StopRule(s, env, level, i + 1, all, StoppedOnFailure)
    ensures !halt ==> Quiet(env, level, i + 1, all)
  {
    forall l: nat | l < i
      ensures !HaltsAfter(env, level, all, l)
    {
      assert !HaltsAfter(env, level, results, l);
    }
  }

  lemma CancelStops(s: GraphState, levels: seq<seq<Node>>, level: Labels, env: Env, i: nat,
                    results: map<NodeId, NodeResult>)
    requires Places(s, levels, level) && i < |levels| && (forall v :: v in results <==> v in level && level[v] < i)
    requires s.nodes != map[] ==> levels[i] != []
    requires Quiet(env, level, i, results) && env.cancelledBefore(i)
    ensures StopRule(s, env, level, i, results, Cancelled)
  {
    if s.nodes != map[] {
      var id := levels[i][0].id;
      assert levels[i][0] in levels[i] && id in LevelIds(levels[i]);
      assert id in level && level[id] == i;
      assert id !in results.Keys && id in s.nodes.Keys;
    }
  }

  method RunLevels(s: GraphState, levels: seq<seq<Node>>, ghost level: Labels, env: Env)
    returns (results: map<NodeId, NodeResult>, exit: Exit, log: seq<Event>, k: nat)
    requires s.WellFormed() && Places(s, levels, level)
    requires s.nodes != map[] ==> forall l :: 0 <= l < |levels| ==> levels[l] != []
    ensures Ran(s, env, level, k, results, log)
    ensures StopRule(s, env, level, k, results, exit)
  {
    results, log, k := map[], [], 0;
    for i := 0 to |levels|
      invariant k == i && Ran(s, env, level, i, results, log) && Quiet(env, level, i, results)
    {
      if env.cancelledBefore(i) {
        CancelStops(s, levels, level, env, i, results);
        return results, Cancelled, log, k;
      }
      var halt;
      results, log, halt := RunLevel(s, levels, level, env, i, results, log);
      k := i + 1;
      if halt {
        return results, StoppedOnFailure, log, k;
      }
    }
    exit := Done;
  }

  /** What a run means for each node, in terms of cancellation, registered handlers and their errors alone. */
  lemma StatusesSpelledOut(s: GraphState, env: Env, level: Labels, k: nat, results: map<NodeId, NodeResult>,
                           log: seq<Event>)
    requires s.WellFormed() && level.Keys == s.nodes.Keys && Ran(s, env, level, k, results, log)
    ensures forall v :: v in results ==>
              && (results[v].status == Skipped <==> env.seesCancel(v))
              && (results[v].status == Failed <==>
                    !env.seesCancel(v) && s.nodes[v].name in env.handlers && env.fails(v))
              && (Started(v) in log <==> !env.seesCancel(v) && s.nodes[v].name in env.handlers)
  {
  }

  /** A node of the first `k` levels whose handler errs. */
  ghost predicate ErringNode(nodes: map<NodeId, Node>, env: Env, level: Labels, k: nat, v: NodeId) {
    v in nodes && v in level && level[v] < k && HandlerErrs(env, nodes[v])
  }

  /** The failures of a run are its erring nodes. */
  ghost predicate FailuresErr(s: GraphState, env: Env, level: Labels, k: nat, results: map<NodeId, NodeResult>) {
    forall v :: v in results && results[v].status == Failed <==> ErringNode(s.nodes, env, level, k, v)
  }

  lemma FailuresAreErrors(s: GraphState, env: Env, level: Labels, k: nat, results: map<NodeId, NodeResult>,
                          log: seq<Event>)
    requires s.WellFormed() && level.Keys == s.nodes.Keys && Ran(s, env, level, k, results, log)
    ensures FailuresErr(s, env, level, k, results)
    ensures AnyFailed(results) <==> exists v :: ErringNode(s.nodes, env, level, k, v)
  {
    assert FailuresErr(s, env, level, k, results);
  }

  /** Under FailFast the level of an erring node is the last one, and nothing else stops a run that way. */
  lemma StopSpelledOut(s: GraphState, env: Env, level: Labels, k: nat, results: map<NodeId, NodeResult>, exit: Exit)
    requires level.Keys == s.nodes.Keys && FailuresErr(s, env, level, k, results)
    requires StopRule(s, env, level, k, results, exit)
    ensures exit == StoppedOnFailure <==>
            exists v :: ErringNode(s.nodes, env, level, k, v) && env.policy(level[v]) == FailFast
    ensures forall v :: ErringNode(s.nodes, env, level, k, v) && env.policy(level[v]) == FailFast ==> level[v] == k - 1
  {
    forall v | ErringNode(s.nodes, env, level, k, v) && env.policy(level[v]) == FailFast
      ensures level[v] == k - 1 && exit == StoppedOnFailure
    {
      assert v in results && results[v].status == Failed;
      assert HaltsAfter(env, level, results, level[v]);
    }
    if exit == StoppedOnFailure {
      var v :| v in results && v in level && level[v] == k - 1 && results[v].status == Failed;
      assert ErringNode(s.nodes, env, level, k, v);
    }
  }

  /**
  Runs the graph.  `k` counts the levels that ran; `level` labels each node with its longest-walk
  length, and the nodes with results are exactly those labelled below `k`.
  */
  method Execute(g: Graph, env: Env)
    returns (r: Result<ExecutionResult>, exit: Exit, log: seq<Event>, k: nat, ghost level: Labels)
    requires g.Valid()
    ensures r.Err? <==> Cyclic(g.State().E())
    ensures r.Err? ==> log == []
    ensures r.Ok? ==> LongestLabels(g.State(), level)
    ensures r.Ok? ==> Ran(g.State(), env, level, k, r.value.results, log)
    ensures r.Ok? ==> StopRule(g.State(), env, level, k, r.value.results, exit)
    ensures r.Ok? ==> forall e :: e in g.edges && e.to in r.value.results ==> e.from in r.value.results
    ensures r.Ok? ==> forall v :: v in r.value.results ==>
              && (r.value.results[v].status == Skipped <==> env.seesCancel(v))
              && (r.value.results[v].status == Failed <==>
                    !env.seesCancel(v) && g.nodes[v].name in env.handlers && env.fails(v))
              && (Started(v) in log <==> !env.seesCancel(v) && g.nodes[v].name in env.handlers)
    ensures r.Ok? ==> (!r.value.success <==> exists v :: ErringNode(g.nodes, env, level, k, v))
    ensures r.Ok? ==> (exit == StoppedOnFailure <==>
                         exists v :: ErringNode(g.nodes, env, level, k, v) && env.policy(level[v]) == FailFast)
    ensures r.Ok? ==> forall v :: ErringNode(g.nodes, env, level, k, v) && env.policy(level[v]) == FailFast ==>
                        level[v] == k - 1
  {
    log, k, exit, level := [], 0, Done, map[];
    var ls := g.Levels();
    if ls.Err? {
      return Err("failed to compute execution levels"), exit, log, k, level;
    }
    level := LevelsHavePlaces(g.State(), ls.value);
    var results: map<NodeId, NodeResult>;
    results, exit, log, k := RunLevels(g.State(), ls.value, level, env);
    var res := BuildResult(results);
    StatusesSpelledOut(g.State(), env, level, k, results, log);
    FailuresAreErrors(g.State(), env, level, k, results, log);
    StopSpelledOut(g.State(), env, level, k, results, exit);
    r := Ok(res);
  }

  /** Under FailFast no node deeper than a failing level has a result. */
  lemma FailFastCutsOff(s: GraphState, env: Env, level: Labels, k: nat, results: map<NodeId, NodeResult>,
                        log: seq<Event>, exit: Exit, l: nat)
    requires level.Keys == s.nodes.Keys
    requires Ran(s, env, level, k, results, log) && StopRule(s, env, level, k, results, exit)
    requires env.policy(l) == FailFast && FailedAt(level, results, l)
    ensures forall v :: v in results ==> level[v] <= l
  {
    assert HaltsAfter(env, level, results, l);
  }
}
