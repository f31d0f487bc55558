/**
The webhook notifier of internal/webhook/notifier.go: a bounded queue, tasks held by workers or
the batcher, retry timers, and a bounded dead-letter list.

One failed delivery schedules the whole task again, so one pass over a task with several webhooks
can spawn several copies.  Deliveries succeed or fail arbitrarily and timers fire in any order.
A burial that slices an empty list panics, and then the process is gone.
*/
module Notifier {

  const NOTIFY_MAX_RETRIES: nat := 3

  datatype Task = Task(id: nat, webhooks: seq<nat>, retries: nat, maxRetries: nat) {
    predicate Valid() {
      retries <= maxRetries
    }
  }

  /** A dead-letter entry; `retryCount` is the task's counter when it was buried. */
  datatype Entry = Entry(id: nat, task: Task, retryCount: nat)

  /** The sizes as configured; neither is checked, so both may be zero. */
  datatype Config = Config(queueSize: nat, deadLetterLimit: nat)

  datatype Metrics = Metrics(sent: nat, failed: nat, dropped: nat, deadLettered: nat)

  datatype State = State(
    queue: seq<Task>,          // the channel
    held: seq<Task>,           // received by a worker or the batcher, not yet processed
    timers: seq<Task>,         // retries waiting for their backoff
    dead: seq<Entry>,
    nextEntry: nat,            // stands for the random identifiers of entries
    metrics: Metrics,
    crashed: bool)             // a burial has panicked
  {
    /** Every copy of a task that will still be processed unless a queue overflows. */
    function Pending(): seq<Task> {
      queue + held + timers
    }

    ghost predicate Valid(c: Config) {
      && (c.queueSize > 0 ==> |queue| <= c.queueSize)
      && |dead| <= c.deadLetterLimit
      && (c.deadLetterLimit > 0 ==> !crashed)
      && (forall t :: t in queue ==> t.Valid())
      && (forall t :: t in held ==> t.Valid())
      && (forall t :: t in timers ==> t.Valid())
      && (forall e :: e in dead ==> e.task.Valid() && e.retryCount == e.task.retries && e.id < nextEntry)
      && (forall i, j :: 0 <= i < j < |dead| ==> dead[i].id < dead[j].id)
    }
  }

  /** A new notifier. */
  function Initial(): State {
    State([], [], [], [], 0, Metrics(0, 0, 0, 0), false)
  }

  // ----- the steps -----

  /** Appends an entry, dropping the oldest one when the list is full; dropping from an empty list panics. */
  function Bury(c: Config, s: State, t: Task): State {
    if |s.dead| >= c.deadLetterLimit && s.dead == [] then s.(crashed := true)
    else
      var kept := if |s.dead| >= c.deadLetterLimit then s.dead[1..] else s.dead;
      s.(dead := kept + [Entry(s.nextEntry, t, t.retries)],
         nextEntry := s.nextEntry + 1,
         metrics := s.metrics.(deadLettered := s.metrics.deadLettered + 1))
  }

  /**
  Whether a send goes through at once.  A channel of size zero has no buffer: the task is handed to a
  receiver if one is waiting, which is what `ready` tells, and `queue` then holds tasks handed over.
  */
  predicate HasRoom(c: Config, s: State, ready: bool) {
    if c.queueSize == 0 then ready else |s.queue| < c.queueSize
  }

  function Notified(c: Config, s: State, id: nat, webhooks: seq<nat>, ready: bool): State {
    if webhooks == [] then s
    else if HasRoom(c, s, ready) then
      s.(queue := s.queue + [Task(id, webhooks, 0, NOTIFY_MAX_RETRIES)],
         metrics := s.metrics.(sent := s.metrics.sent + 1))
    else s.(metrics := s.metrics.(dropped := s.metrics.dropped + 1))
  }

  function Received(s: State): State
    requires s.queue != []
  {
    s.(queue := s.queue[1..], held := s.held + [s.queue[0]])
  }

  /** Delivers the remaining webhooks; `ok[0]` is the outcome of the next one and `t` carries the counter so far. */
  function Delivered(c: Config, s: State, t: Task, ok: seq<bool>): State
    decreases |ok|
  {
    if ok == [] || s.crashed then s
    else if ok[0] then Delivered(c, s, t, ok[1..])
    else
      var f := s.(metrics := s.metrics.(failed := s.metrics.failed + 1));
      if t.retries < t.maxRetries then
        var again := t.(retries := t.retries + 1);
        Delivered(c, f.(timers := f.timers + [again]), again, ok[1..])
      else Delivered(c, Bury(c, f, t), t, ok[1..])
  }

  function RemoveAt<T>(s: seq<T>, i: nat): seq<T>
    requires i < |s|
  {
    s[..i] + s[i + 1..]
  }

  function Processed(c: Config, s: State, i: nat, ok: seq<bool>): State
    requires i < |s.held|
  {
    Delivered(c, s.(held := RemoveAt(s.held, i)), s.held[i], ok)
  }

  /** Offers a task to the channel; when that is full the task goes to the dead letters. */
  function Offered(c: Config, s: State, t: Task, ready: bool): State {
    if HasRoom(c, s, ready) then s.(queue := s.queue + [t]) else Bury(c, s, t)
  }

  function Fired(c: Config, s: State, i: nat, ready: bool): State
    requires i < |s.timers|
  {
    Offered(c, s.(timers := RemoveAt(s.timers, i)), s.timers[i], ready)
  }

  function Replayed(c: Config, s: State, i: nat, ready: bool): State
    requires i < |s.dead|
  {
    Offered(c, s.(dead := RemoveAt(s.dead, i)), s.dead[i].task.(retries := 0), ready)
  }

  function OfferedAll(c: Config, s: State, entries: seq<Entry>, ready: seq<bool>): State
    requires |entries| == |ready|
    decreases |entries|
  {
    if entries == [] || s.crashed then s
    else OfferedAll(c, Offered(c, s, entries[0].task.(retries := 0), ready[0]), entries[1..], ready[1..])
  }

  function ReplayedAll(c: Config, s: State, ready: seq<bool>): State
    requires |s.dead| == |ready|
  {
    OfferedAll(c, s.(dead := []), s.dead, ready)
  }

  // ----- what one pass spawns -----

  /** The copies one pass schedules: each failure below the limit spawns one with a higher counter. */
  ghost function Spawned(t: Task, ok: seq<bool>): seq<Task>
    decreases |ok|
  {
    if ok == [] then []
    else if ok[0] || t.retries >= t.maxRetries then Spawned(t, ok[1..])
    else
      var again := t.(retries := t.retries + 1);
      [again] + Spawned(again, ok[1..])
  }

  lemma {:induction false} NothingSpawned(t: Task, ok: seq<bool>)
    requires t.retries >= t.maxRetries
    ensures Spawned(t, ok) == []
    decreases |ok|
  {
    if ok != [] {
      NothingSpawned(t, ok[1..]);
    }
  }

  /** A pass adds what it spawns to the timers, even if a burial ends it early, and moves no other task. */
  lemma {:induction false} DeliveredParts(c: Config, s: State, t: Task, ok: seq<bool>)
    requires !s.crashed
    ensures Delivered(c, s, t, ok).timers == s.timers + Spawned(t, ok)
    ensures Delivered(c, s, t, ok).queue == s.queue && Delivered(c, s, t, ok).held == s.held
    decreases |ok|
  {
    if ok != [] {
      var f := s.(metrics := s.metrics.(failed := s.metrics.failed + 1));
      if ok[0] {
        DeliveredParts(c, s, t, ok[1..]);
      } else if t.retries < t.maxRetries {
        var again := t.(retries := t.retries + 1);
        DeliveredParts(c, f.(timers := f.timers + [again]), again, ok[1..]);
      } else if Bury(c, f, t).crashed {
        NothingSpawned(t, ok[1..]);
      } else {
        DeliveredParts(c, Bury(c, f, t), t, ok[1..]);
      }
    }
  }

  function Failures(ok: seq<bool>): nat {
    if ok == [] then 0 else (if ok[0] then 0 else 1) + Failures(ok[1..])
  }

  /** A pass panics exactly when it must bury, nothing may be kept and nothing is there to drop. */
  lemma {:induction false} PassCrashesIff(c: Config, s: State, t: Task, ok: seq<bool>)
    requires !s.crashed && t.Valid()
    ensures Delivered(c, s, t, ok).crashed <==>
            c.deadLetterLimit == 0 && s.dead == [] && Failures(ok) > t.maxRetries - t.retries
    decreases |ok|
  {
    if ok != [] {
      var f := s.(metrics := s.metrics.(failed := s.metrics.failed + 1));
      if ok[0] {
        PassCrashesIff(c, s, t, ok[1..]);
      } else if t.retries < t.maxRetries {
        var again := t.(retries := t.retries + 1);
        PassCrashesIff(c, f.(timers := f.timers + [again]), again, ok[1..]);
      } else if !Bury(c, f, t).crashed {
        PassCrashesIff(c, Bury(c, f, t), t, ok[1..]);
      }
    }
  }

  /** Every failed delivery of a pass is accounted for: it scheduled a retry or buried the task. */
  lemma {:induction false} FailuresAccounted(c: Config, s: State, t: Task, ok: seq<bool>)
    requires !s.crashed
    ensures var after := Delivered(c, s, t, ok);
            !after.crashed ==>
              && after.metrics.failed == s.metrics.failed + Failures(ok)
              && Failures(ok) == |Spawned(t, ok)| + (after.metrics.deadLettered - s.metrics.deadLettered)
    ensures t.Valid() ==>
              |Spawned(t, ok)| == if Failures(ok) <= t.maxRetries - t.retries
                                  then Failures(ok) else t.maxRetries - t.retries
    decreases |ok|
  {
    if ok != [] {
      var f := s.(metrics := s.metrics.(failed := s.metrics.failed + 1));
      if ok[0] {
        FailuresAccounted(c, s, t, ok[1..]);
      } else if t.retries < t.maxRetries {
        var again := t.(retries := t.retries + 1);
        FailuresAccounted(c, f.(timers := f.timers + [again]), again, ok[1..]);
      } else {
        NothingSpawned(t, ok);
        if !Bury(c, f, t).crashed {
          FailuresAccounted(c, Bury(c, f, t), t, ok[1..]);
        }
      }
    }
  }

  /** A pass schedules one copy for each failure while retries are left, with the counters in a row. */
  lemma {:induction false} SpawnedExactly(t: Task, ok: seq<bool>)
    requires t.Valid()
    ensures var left := t.maxRetries - t.retries;
            |Spawned(t, ok)| == (if Failures(ok) < left then Failures(ok) else left)
    ensures forall j :: 0 <= j < |Spawned(t, ok)| ==> Spawned(t, ok)[j] == t.(retries := t.retries + 1 + j)
    decreases |ok|
  {
    if ok != [] {
      if ok[0] || t.retries >= t.maxRetries {
        SpawnedExactly(t, ok[1..]);
      } else {
        SpawnedExactly(t.(retries := t.retries + 1), ok[1..]);
      }
    }
  }

  lemma {:induction false} SpawnedValid(t: Task, ok: seq<bool>)
    requires t.Valid()
    ensures forall x :: x in Spawned(t, ok) ==> x.Valid() && x.retries > t.retries
    ensures forall x :: x in Spawned(t, ok) ==> x == t.(retries := x.retries)
    decreases |ok|
  {
    if ok != [] {
      if ok[0] || t.retries >= t.maxRetries {
        SpawnedValid(t, ok[1..]);
      } else {
        SpawnedValid(t.(retries := t.retries + 1), ok[1..]);
      }
    }
  }

  // ----- the potential -----

  function Pow2(n: nat): nat {
    if n == 0 then 1 else 2 * Pow2(n - 1)
  }

  lemma {:induction false} Pow2Positive(n: nat)
    ensures Pow2(n) >= 1
  {
    if n > 0 {
      Pow2Positive(n - 1);
    }
  }

  /** A copy with `k` retries left can cost at most 2^k passes. */
  function Weight(t: Task): nat {
    if t.retries <= t.maxRetries then Pow2(t.maxRetries - t.retries) else 0
  }

  /** The summed weight of some tasks. */
  ghost function Total(ts: seq<Task>, w: Task -> nat): nat {
    if ts == [] then 0 else w(ts[0]) + Total(ts[1..], w)
  }

  lemma {:induction false} TotalConcat(a: seq<Task>, b: seq<Task>, w: Task -> nat)
    ensures Total(a + b, w) == Total(a, w) + Total(b, w)
  {
    if a == [] {
      assert a + b == b;
    } else {
      assert (a + b)[1..] == a[1..] + b;
      TotalConcat(a[1..], b, w);
    }
  }

  lemma TotalOne(t: Task, w: Task -> nat)
    ensures Total([t], w) == w(t)
  {
  }

  lemma TotalRemove(ts: seq<Task>, i: nat, w: Task -> nat)
    requires i < |ts|
    ensures Total(ts, w) == Total(RemoveAt(ts, i), w) + w(ts[i])
  {
    assert ts == ts[..i] + ts[i..];
    TotalConcat(ts[..i], ts[i..], w);
    assert ts[i..][1..] == ts[i + 1..];
    TotalConcat(ts[..i], ts[i + 1..], w);
  }

  /** Weights under which every pass over a selected notification costs at least one unit. */
  ghost predicate Pays(w: Task -> nat, sel: nat -> bool) {
    forall t: Task, ok: seq<bool> :: t.Valid() && |ok| == |t.webhooks| ==>
      Total(Spawned(t, ok), w) + (if sel(t.id) then 1 else 0) <= w(t)
  }

  function All(): nat -> bool {
    (_: nat) => true
  }

  function ExponentialWeight(sel: nat -> bool, t: Task): nat {
    if sel(t.id) then Weight(t) else 0
  }

  function Exponential(sel: nat -> bool): Task -> nat {
    (t: Task) => ExponentialWeight(sel, t)
  }

  /** However many webhooks fail, the copies spawned weigh strictly less than the task itself. */
  lemma {:induction false} SpawnedWeighsLess(t: Task, ok: seq<bool>, sel: nat -> bool)
    requires t.Valid()
    ensures Total(Spawned(t, ok), Exponential(sel)) + (if sel(t.id) then 1 else 0) <= Exponential(sel)(t)
    decreases |ok|
  {
    Pow2Positive(t.maxRetries - t.retries);
    if ok != [] {
      if ok[0] || t.retries >= t.maxRetries {
        SpawnedWeighsLess(t, ok[1..], sel);
      } else {
        var again := t.(retries := t.retries + 1);
        SpawnedWeighsLess(again, ok[1..], sel);
        var rest := Spawned(again, ok[1..]);
        assert ([again] + rest)[1..] == rest;
      }
    }
  }

  lemma ExponentialPays(sel: nat -> bool)
    ensures Pays(Exponential(sel), sel)
  {
    forall t: Task, ok: seq<bool> | t.Valid() && |ok| == |t.webhooks|
      ensures Total(Spawned(t, ok), Exponential(sel)) + (if sel(t.id) then 1 else 0) <= Exponential(sel)(t)
    {
      SpawnedWeighsLess(t, ok, sel);
    }
  }

  // ----- the worst case -----

  /** Passes that one copy with `left` retries left and `width` webhooks can cause, itself included. */
  function TreeSize(left: nat, width: nat): nat
    decreases left, 1, 0
  {
    1 + ForestSize(left, width, width)
  }

  /** Passes below the copies spawned by up to `n` failures, one after another. */
  function ForestSize(left: nat, n: nat, width: nat): nat
    decreases left, 0, n
  {
    if n == 0 || left == 0 then 0 else TreeSize(left - 1, width) + ForestSize(left - 1, n - 1, width)
  }

  lemma {:induction false} TreeGrows(left: nat, width: nat, more: nat, wider: nat)
    requires left <= more && width <= wider
    ensures TreeSize(left, width) <= TreeSize(more, wider)
    decreases left, 1, 0
  {
    ForestGrows(left, width, width, more, wider, wider);
  }

  lemma {:induction false} ForestGrows(left: nat, n: nat, width: nat, more: nat, m: nat, wider: nat)
    requires left <= more && n <= m && width <= wider
    ensures ForestSize(left, n, width) <= ForestSize(more, m, wider)
    decreases left, 0, n
  {
    if n > 0 && left > 0 {
      TreeGrows(left - 1, width, more - 1, wider);
      ForestGrows(left - 1, n - 1, width, more - 1, m - 1, wider);
    }
  }

  lemma {:induction false} ForestWithinPow2(left: nat, n: nat, width: nat)
    ensures ForestSize(left, n, width) < Pow2(left)
    ensures n >= left && width >= left ==> ForestSize(left, n, width) == Pow2(left) - 1
    decreases left
  {
    Pow2Positive(left);
    if n > 0 && left > 0 {
      ForestWithinPow2(left - 1, width, width);
      ForestWithinPow2(left - 1, n - 1, width);
    }
  }

  lemma {:induction false} ChainSize(left: nat)
    ensures TreeSize(left, 1) == left + 1
  {
    if left > 0 {
      ChainSize(left - 1);
      assert ForestSize(left, 1, 1) == TreeSize(left - 1, 1) + ForestSize(left - 1, 0, 1);
    }
  }

  lemma {:induction false} ForestOneShort(left: nat, width: nat)
    requires 1 <= left <= width + 1
    ensures ForestSize(left, left - 1, width) == Pow2(left) - 2
    decreases left
  {
    if left > 1 {
      ForestWithinPow2(left - 1, width, width);
      ForestOneShort(left - 1, width);
    }
  }

  /**
  At most 2^left passes, exactly that many with at least `left` webhooks, one less with one webhook
  fewer, and left + 1 with a single webhook.  With three retries: 8, 7 and 4.
  */
  lemma TreeWithinBounds(left: nat, width: nat)
    ensures TreeSize(left, width) <= Pow2(left)
    ensures width >= left ==> TreeSize(left, width) == Pow2(left)
    ensures width + 1 == left ==> TreeSize(left, width) == Pow2(left) - 1
    ensures width == 1 ==> TreeSize(left, width) == left + 1
  {
    ForestWithinPow2(left, width, width);
    if width + 1 == left {
      ForestOneShort(left, width);
    }
    if width == 1 {
      ChainSize(left);
    }
  }

  /** The retry tree of a task, if it is selected. */
  function TreeWeight(sel: nat -> bool, t: Task): nat {
    if sel(t.id) && t.Valid() then TreeSize(t.maxRetries - t.retries, |t.webhooks|) else 0
  }

  function Trees(sel: nat -> bool): Task -> nat {
    (t: Task) => TreeWeight(sel, t)
  }

  /** Whatever the outcomes, the trees of the copies spawned fit below the task in its own tree. */
  lemma {:induction false} SpawnedWithinForest(t: Task, ok: seq<bool>, sel: nat -> bool)
    requires t.Valid()
    ensures Total(Spawned(t, ok), Trees(sel)) <=
            if sel(t.id) then ForestSize(t.maxRetries - t.retries, |ok|, |t.webhooks|) else 0
    decreases |ok|
  {
    if ok != [] {
      var left, width := t.maxRetries - t.retries, |t.webhooks|;
      if ok[0] || left == 0 {
        SpawnedWithinForest(t, ok[1..], sel);
        ForestGrows(left, |ok| - 1, width, left, |ok|, width);
      } else {
        var again := t.(retries := t.retries + 1);
        SpawnedWithinForest(again, ok[1..], sel);
        assert ([again] + Spawned(again, ok[1..]))[1..] == Spawned(again, ok[1..]);
      }
    }
  }

  lemma TreesPay(sel: nat -> bool)
    ensures Pays(Trees(sel), sel)
  {
    forall t: Task, ok: seq<bool> | t.Valid() && |ok| == |t.webhooks|
      ensures Total(Spawned(t, ok), Trees(sel)) + (if sel(t.id) then 1 else 0) <= Trees(sel)(t)
    {
      SpawnedWithinForest(t, ok, sel);
    }
  }

  // ----- runs -----

  datatype Step =
    | DoNotify(id: nat, webhooks: seq<nat>, ready: bool)
    | DoReceive
    | DoProcess(index: nat, ok: seq<bool>)
    | DoFire(index: nat, ready: bool)
    | DoReplay(index: nat, ready: bool)
    | DoReplayAll(readies: seq<bool>)
    | DoClearDead

  predicate Enabled(s: State, step: Step) {
    !s.crashed &&
    match step
    case DoReceive => s.queue != []
    case DoProcess(i, ok) => i < |s.held| && |ok| == |s.held[i].webhooks|
    case DoFire(i, _) => i < |s.timers|
    case DoReplay(i, _) => i < |s.dead|
    case DoReplayAll(readies) => |readies| == |s.dead|
    case _ => true
  }

  function Do(c: Config, s: State, step: Step): State
    requires Enabled(s, step)
  {
    match step
    case DoNotify(id, webhooks, ready) => Notified(c, s, id, webhooks, ready)
    case DoReceive => Received(s)
    case DoProcess(i, ok) => Processed(c, s, i, ok)
    case DoFire(i, ready) => Fired(c, s, i, ready)
    case DoReplay(i, ready) => Replayed(c, s, i, ready)
    case DoReplayAll(readies) => ReplayedAll(c, s, readies)
    case DoClearDead => s.(dead := [])
  }

  /** Steps that put new work into the queue. */
  predicate Injects(step: Step) {
    step.DoNotify? || step.DoReplay? || step.DoReplayAll?
  }

  ghost predicate IsRun(c: Config, s: State, steps: seq<Step>)
    decreases |steps|
  {
    steps == [] || (Enabled(s, steps[0]) && IsRun(c, Do(c, s, steps[0]), steps[1..]))
  }

  ghost function Final(c: Config, s: State, steps: seq<Step>): State
    requires IsRun(c, s, steps)
    decreases |steps|
  {
    if steps == [] then s else Final(c, Do(c, s, steps[0]), steps[1..])
  }

  /** One if the step is a pass over a selected notification. */
  ghost function PassOver(s: State, step: Step, sel: nat -> bool): nat
    requires Enabled(s, step)
  {
    if step.DoProcess? && sel(s.held[step.index].id) then 1 else 0
  }

  /** How many passes over the selected notifications a run makes. */
  ghost function Passes(c: Config, s: State, steps: seq<Step>, sel: nat -> bool): nat
    requires IsRun(c, s, steps)
    decreases |steps|
  {
    if steps == [] then 0
    else PassOver(s, steps[0], sel) + Passes(c, Do(c, s, steps[0]), steps[1..], sel)
  }

  /** The weight a notifying or replaying step puts into the queue. */
  ghost function InjectedBy(c: Config, s: State, step: Step, w: Task -> nat): nat
    requires Enabled(s, step)
  {
    var next := Do(c, s, step);
    if Injects(step) && |s.queue| <= |next.queue| then Total(next.queue[|s.queue|..], w) else 0
  }

  /** The weight a run's notifications and replays put into the queue. */
  ghost function Injected(c: Config, s: State, steps: seq<Step>, w: Task -> nat): nat
    requires IsRun(c, s, steps)
    decreases |steps|
  {
    if steps == [] then 0
    else InjectedBy(c, s, steps[0], w) + Injected(c, Do(c, s, steps[0]), steps[1..], w)
  }

  /** A run with one more step in front. */
  lemma Prefixed(c: Config, s: State, step: Step, rest: seq<Step>, sel: nat -> bool) returns (steps: seq<Step>)
    requires Enabled(s, step) && IsRun(c, Do(c, s, step), rest)
    ensures steps == [step] + rest && IsRun(c, s, steps)
    ensures Final(c, s, steps) == Final(c, Do(c, s, step), rest)
    ensures Passes(c, s, steps, sel) == PassOver(s, step, sel) + Passes(c, Do(c, s, step), rest, sel)
  {
    steps := [step] + rest;
    assert steps[1..] == rest;
  }

  ghost function Outstanding(s: State, w: Task -> nat): nat {
    Total(s.queue, w) + Total(s.held, w) + Total(s.timers, w)
  }

  // ----- the invariant -----

  lemma BuryKeepsValid(c: Config, s: State, t: Task)
    requires s.Valid(c) && t.Valid()
    ensures Bury(c, s, t).Valid(c)
  {
  }

  lemma {:induction false} DeliveredValid(c: Config, s: State, t: Task, ok: seq<bool>)
    requires s.Valid(c) && t.Valid()
    ensures Delivered(c, s, t, ok).Valid(c)
    decreases |ok|
  {
    if ok != [] && !s.crashed {
      var f := s.(metrics := s.metrics.(failed := s.metrics.failed + 1));
      if ok[0] {
        DeliveredValid(c, s, t, ok[1..]);
      } else if t.retries < t.maxRetries {
        var again := t.(retries := t.retries + 1);
        DeliveredValid(c, f.(timers := f.timers + [again]), again, ok[1..]);
      } else {
        BuryKeepsValid(c, f, t);
        DeliveredValid(c, Bury(c, f, t), t, ok[1..]);
      }
    }
  }

  lemma OfferedValid(c: Config, s: State, t: Task, ready: bool)
    requires s.Valid(c) && t.Valid()
    ensures Offered(c, s, t, ready).Valid(c)
  {
    if !HasRoom(c, s, ready) {
      BuryKeepsValid(c, s, t);
    }
  }

  lemma {:induction false} OfferedAllValid(c: Config, s: State, entries: seq<Entry>, ready: seq<bool>)
    requires s.Valid(c) && |entries| == |ready|
    ensures OfferedAll(c, s, entries, ready).Valid(c)
    decreases |entries|
  {
    if entries != [] && !s.crashed {
      OfferedValid(c, s, entries[0].task.(retries := 0), ready[0]);
      OfferedAllValid(c, Offered(c, s, entries[0].task.(retries := 0), ready[0]), entries[1..], ready[1..]);
    }
  }

  /** Replaying only appends to the queue, always with a fresh counter. */
  lemma {:induction false} OfferedAllAppends(c: Config, s: State, entries: seq<Entry>, ready: seq<bool>)
    requires |entries| == |ready|
    ensures var after := OfferedAll(c, s, entries, ready);
            s.queue <= after.queue && after.held == s.held && after.timers == s.timers &&
            forall i :: |s.queue| <= i < |after.queue| ==> after.queue[i].retries == 0
    decreases |entries|
  {
    if entries != [] && !s.crashed {
      OfferedAllAppends(c, Offered(c, s, entries[0].task.(retries := 0), ready[0]), entries[1..], ready[1..]);
    }
  }

  /**
  Bounded queue, bounded and ordered dead letters, counters within their limits, and no panic where
  at least one dead letter may be kept: every step keeps it.
  */
  lemma StepKeepsValid(c: Config, s: State, step: Step)
    requires s.Valid(c) && Enabled(s, step)
    ensures Do(c, s, step).Valid(c)
  {
    match step
    case DoProcess(i, ok) => DeliveredValid(c, s.(held := RemoveAt(s.held, i)), s.held[i], ok);
    case DoFire(i, ready) => OfferedValid(c, s.(timers := RemoveAt(s.timers, i)), s.timers[i], ready);
    case DoReplay(i, ready) =>
      OfferedValid(c, s.(dead := RemoveAt(s.dead, i)), s.dead[i].task.(retries := 0), ready);
    case DoReplayAll(readies) => OfferedAllValid(c, s.(dead := []), s.dead, readies);
    case _ =>
  }

  lemma {:induction false} RunKeepsValid(c: Config, s: State, steps: seq<Step>)
    requires s.Valid(c) && IsRun(c, s, steps)
    ensures Final(c, s, steps).Valid(c)
    decreases |steps|
  {
    if steps != [] {
      StepKeepsValid(c, s, steps[0]);
      RunKeepsValid(c, Do(c, s, steps[0]), steps[1..]);
    }
  }

  // ----- when burying is safe -----

  ghost predicate NeverCrashes(c: Config) {
    forall steps :: IsRun(c, Initial(), steps) ==> !Final(c, Initial(), steps).crashed
  }

  /** With nothing kept, one notification to four failing webhooks panics in its first pass. */
  lemma FirstBurialPanics(c: Config, id: nat) returns (steps: seq<Step>)
    requires c.deadLetterLimit == 0
    ensures IsRun(c, Initial(), steps) && Final(c, Initial(), steps).crashed
  {
    var webhooks, ok := [1, 2, 3, 4], AllFail(4);
    var queued := Do(c, Initial(), DoNotify(id, webhooks, true));
    var received := Do(c, queued, DoReceive);
    var task := Task(id, webhooks, 0, NOTIFY_MAX_RETRIES);
    assert received.held == [task];
    AllFailFailures(4);
    PassCrashesIff(c, received.(held := RemoveAt(received.held, 0)), task, ok);
    steps := [];
    steps := Prefixed(c, received, DoProcess(0, ok), steps, Is(id));
    steps := Prefixed(c, queued, DoReceive, steps, Is(id));
    steps := Prefixed(c, Initial(), DoNotify(id, webhooks, true), steps, Is(id));
  }

  /** Every run of a new notifier buries safely exactly when at least one dead letter may be kept. */
  lemma BuriesSafelyIff(c: Config)
    ensures NeverCrashes(c) <==> c.deadLetterLimit >= 1
  {
    if c.deadLetterLimit >= 1 {
      forall steps | IsRun(c, Initial(), steps)
        ensures !Final(c, Initial(), steps).crashed
      {
        RunKeepsValid(c, Initial(), steps);
      }
    } else {
      var steps := FirstBurialPanics(c, 0);
    }
  }

  // ----- which burials are kept -----

  function TasksOf(entries: seq<Entry>): (ts: seq<Task>)
    ensures |ts| == |entries| && forall i :: 0 <= i < |entries| ==> ts[i] == entries[i].task
  {
    seq(|entries|, i requires 0 <= i < |entries| => entries[i].task)
  }

  function Latest(n: nat, ts: seq<Task>): seq<Task> {
    if |ts| <= n then ts else ts[|ts| - n..]
  }

  function Repeated(t: Task, n: nat): (ts: seq<Task>)
    ensures |ts| == n && forall i :: 0 <= i < n ==> ts[i] == t
  {
    seq(n, _ => t)
  }

  /** The failures of a pass for which no retry was left. */
  function Excess(t: Task, ok: seq<bool>): nat {
    var left := t.maxRetries - t.retries;
    if Failures(ok) > left && left >= 0 then Failures(ok) - left else 0
  }

  /** What a step buries: a task once for each failure beyond its retries, or a timer's task that finds no room. */
  function BuriedBy(c: Config, s: State, step: Step): seq<Task>
    requires Enabled(s, step)
  {
    match step
    case DoProcess(i, ok) => Repeated(s.held[i].(retries := s.held[i].maxRetries), Excess(s.held[i], ok))
    case DoFire(i, ready) => if (if c.queueSize == 0 then ready else |s.queue| < c.queueSize) then [] else [s.timers[i]]
    case _ => []
  }

  ghost function Burials(c: Config, s: State, steps: seq<Step>): seq<Task>
    requires IsRun(c, s, steps)
    decreases |steps|
  {
    if steps == [] then [] else BuriedBy(c, s, steps[0]) + Burials(c, Do(c, s, steps[0]), steps[1..])
  }

  lemma LatestOfLatest(n: nat, a: seq<Task>, b: seq<Task>)
    ensures Latest(n, Latest(n, a) + b) == Latest(n, a + b)
  {
  }

  lemma LatestChain(n: nat, start: seq<Task>, b: seq<Task>, mid: seq<Task>, d: seq<Task>, end: seq<Task>)
    requires mid == Latest(n, start + b) && end == Latest(n, mid + d)
    ensures end == Latest(n, start + (b + d))
  {
    LatestOfLatest(n, start + b, d);
    assert start + b + d == start + (b + d);
  }

  lemma RepeatedOnceMore(t: Task, n: nat)
    ensures [t] + Repeated(t, n) == Repeated(t, n + 1)
  {
  }

  lemma BuryKeepsLatest(c: Config, s: State, t: Task)
    requires 1 <= c.deadLetterLimit && |s.dead| <= c.deadLetterLimit
    ensures !Bury(c, s, t).crashed || s.crashed
    ensures TasksOf(Bury(c, s, t).dead) == Latest(c.deadLetterLimit, TasksOf(s.dead) + [t])
    ensures |Bury(c, s, t).dead| <= c.deadLetterLimit
  {
  }

  lemma LatestOfAll(c: Config, s: State)
    requires |s.dead| <= c.deadLetterLimit
    ensures TasksOf(s.dead) == Latest(c.deadLetterLimit, TasksOf(s.dead) + [])
  {
    assert TasksOf(s.dead) + [] == TasksOf(s.dead);
  }

  /** The tasks a pass buries, one after another. */
  ghost function PassBurials(t: Task, ok: seq<bool>): seq<Task>
    decreases |ok|
  {
    if ok == [] then []
    else if ok[0] then PassBurials(t, ok[1..])
    else if t.retries < t.maxRetries then PassBurials(t.(retries := t.retries + 1), ok[1..])
    else [t] + PassBurials(t, ok[1..])
  }

  lemma {:induction false} PassBurialsAreExcess(t: Task, ok: seq<bool>)
    requires t.Valid()
    ensures PassBurials(t, ok) == Repeated(t.(retries := t.maxRetries), Excess(t, ok))
    decreases |ok|
  {
    if ok != [] {
      if ok[0] {
        PassBurialsAreExcess(t, ok[1..]);
      } else if t.retries < t.maxRetries {
        PassBurialsAreExcess(t.(retries := t.retries + 1), ok[1..]);
      } else {
        PassBurialsAreExcess(t, ok[1..]);
        RepeatedOnceMore(t, Excess(t, ok[1..]));
      }
    }
  }

  lemma {:induction false} PassKeepsLatest(c: Config, s: State, t: Task, ok: seq<bool>)
    requires 1 <= c.deadLetterLimit && |s.dead| <= c.deadLetterLimit && !s.crashed
    ensures TasksOf(Delivered(c, s, t, ok).dead) == Latest(c.deadLetterLimit, TasksOf(s.dead) + PassBurials(t, ok))
    decreases |ok|
  {
    if ok == [] {
      LatestOfAll(c, s);
    } else {
      var f := s.(metrics := s.metrics.(failed := s.metrics.failed + 1));
      if ok[0] {
        PassKeepsLatest(c, s, t, ok[1..]);
      } else if t.retries < t.maxRetries {
        var again := t.(retries := t.retries + 1);
        PassKeepsLatest(c, f.(timers := f.timers + [again]), again, ok[1..]);
      } else {
        var buried := Bury(c, f, t);
        BuryKeepsLatest(c, f, t);
        PassKeepsLatest(c, buried, t, ok[1..]);
        LatestChain(c.deadLetterLimit, TasksOf(s.dead), [t], TasksOf(buried.dead), PassBurials(t, ok[1..]),
                    TasksOf(Delivered(c, buried, t, ok[1..]).dead));
      }
    }
  }

  /** Steps that do not take dead letters away. */
  predicate KeepsDead(step: Step) {
    !step.DoReplay? && !step.DoReplayAll? && !step.DoClearDead?
  }

  lemma StepKeepsLatest(c: Config, s: State, step: Step)
    requires 1 <= c.deadLetterLimit && s.Valid(c) && Enabled(s, step) && KeepsDead(step)
    ensures TasksOf(Do(c, s, step).dead) == Latest(c.deadLetterLimit, TasksOf(s.dead) + BuriedBy(c, s, step))
  {
    LatestOfAll(c, s);
    match step
    case DoProcess(i, ok) =>
      assert s.held[i] in s.held;
      PassKeepsLatest(c, s.(held := RemoveAt(s.held, i)), s.held[i], ok);
      PassBurialsAreExcess(s.held[i], ok);
    case DoFire(i, ready) =>
      BuryKeepsLatest(c, s.(timers := RemoveAt(s.timers, i)), s.timers[i]);
    case _ =>
  }

  /** In every run without replays and clears the dead letters are the latest burials, in order, up to the limit. */
  lemma {:induction false} DeadLettersAreLatest(c: Config, s: State, steps: seq<Step>)
    requires 1 <= c.deadLetterLimit && s.Valid(c) && IsRun(c, s, steps)
    requires forall step :: step in steps ==> KeepsDead(step)
    ensures TasksOf(Final(c, s, steps).dead) == Latest(c.deadLetterLimit, TasksOf(s.dead) + Burials(c, s, steps))
    decreases |steps|
  {
    if steps == [] {
      LatestOfAll(c, s);
    } else {
      var next := Do(c, s, steps[0]);
      var now, later := BuriedBy(c, s, steps[0]), Burials(c, next, steps[1..]);
      assert KeepsDead(steps[0]);
      StepKeepsValid(c, s, steps[0]);
      StepKeepsLatest(c, s, steps[0]);
      DeadLettersAreLatest(c, next, steps[1..]);
      LatestChain(c.deadLetterLimit, TasksOf(s.dead), now, TasksOf(next.dead), later,
                  TasksOf(Final(c, s, steps).dead));
    }
  }

  // ----- what a replay offers -----

  /** Which of the replayed tasks are sent, in order: those that find a receiver, or as many as fit. */
  function Sent(c: Config, queued: nat, ready: seq<bool>): (sent: seq<bool>)
    ensures |sent| == |ready|
  {
    seq(|ready|, i requires 0 <= i < |ready| => if c.queueSize == 0 then ready[i] else queued + i < c.queueSize)
  }

  /** The tasks of the chosen entries with their counters at zero. */
  function Chosen(entries: seq<Entry>, choice: seq<bool>, want: bool): seq<Task>
    requires |entries| == |choice|
    decreases |entries|
  {
    if entries == [] then []
    else if choice[0] == want then [entries[0].task.(retries := 0)] + Chosen(entries[1..], choice[1..], want)
    else Chosen(entries[1..], choice[1..], want)
  }

  lemma SentRest(c: Config, queued: nat, ready: seq<bool>)
    requires ready != []
    ensures var sends := Sent(c, queued, ready)[0];
            Sent(c, queued, ready)[1..] == Sent(c, if sends then queued + 1 else queued, ready[1..])
  {
  }

  lemma OfferSplits(c: Config, s: State, t: Task, ready: bool)
    requires !s.crashed && |s.dead| < c.deadLetterLimit
    ensures var after := Offered(c, s, t, ready);
            && !after.crashed && |after.dead| <= |s.dead| + 1
            && if (if c.queueSize == 0 then ready else |s.queue| < c.queueSize)
               then after.queue == s.queue + [t] && after.dead == s.dead
               else after.queue == s.queue && TasksOf(after.dead) == TasksOf(s.dead) + [t]
  {
  }

  lemma AppendChain(a: seq<Task>, t: Task, b: seq<Task>)
    ensures (a + [t]) + b == a + ([t] + b)
  {
  }

  /** Replaying all entries queues those that are sent and buries the others again, both in order. */
  lemma {:induction false} ReplayAllSplits(c: Config, s: State, entries: seq<Entry>, ready: seq<bool>, sent: seq<bool>)
    requires !s.crashed && |entries| == |ready| && |s.dead| + |entries| <= c.deadLetterLimit
    requires sent == Sent(c, |s.queue|, ready)
    ensures var after := OfferedAll(c, s, entries, ready);
            && !after.crashed && after.queue == s.queue + Chosen(entries, sent, true)
            && TasksOf(after.dead) == TasksOf(s.dead) + Chosen(entries, sent, false)
    decreases |entries|
  {
    if entries == [] {
      assert TasksOf(s.dead) + [] == TasksOf(s.dead) && s.queue + [] == s.queue;
    } else {
      var t := entries[0].task.(retries := 0);
      var next := Offered(c, s, t, ready[0]);
      OfferSplits(c, s, t, ready[0]);
      SentRest(c, |s.queue|, ready);
      ReplayAllSplits(c, next, entries[1..], ready[1..], sent[1..]);
      AppendChain(s.queue, t, Chosen(entries[1..], sent[1..], true));
      AppendChain(TasksOf(s.dead), t, Chosen(entries[1..], sent[1..], false));
    }
  }

  /** `after` is `before` with `t` appended, and without its oldest entry if it was full. */
  predicate Appended(limit: nat, before: seq<Entry>, after: seq<Entry>, t: Task) {
    && |after| > 0 && after[|after| - 1].task == t && after[|after| - 1].retryCount == t.retries
    && (|before| < limit ==> after[..|after| - 1] == before)
    && (|before| >= limit && before != [] ==> after[..|after| - 1] == before[1..])
  }

  // ----- passes are paid for -----

  /** Notifying and replaying only append fresh copies to the queue. */
  lemma InjectionAppends(c: Config, s: State, step: Step)
    requires Enabled(s, step) && Injects(step)
    ensures var next := Do(c, s, step);
            s.queue <= next.queue && next.held == s.held && next.timers == s.timers &&
            forall i :: |s.queue| <= i < |next.queue| ==> next.queue[i].retries == 0
  {
    if step.DoReplayAll? {
      OfferedAllAppends(c, s.(dead := []), s.dead, step.readies);
    }
  }

  lemma ProcessPays(c: Config, s: State, i: nat, ok: seq<bool>, w: Task -> nat, sel: nat -> bool)
    requires s.Valid(c) && Enabled(s, DoProcess(i, ok)) && Pays(w, sel)
    ensures Outstanding(Processed(c, s, i, ok), w) + (if sel(s.held[i].id) then 1 else 0) <= Outstanding(s, w)
  {
    var t := s.held[i];
    assert t in s.held;
    DeliveredParts(c, s.(held := RemoveAt(s.held, i)), t, ok);
    TotalRemove(s.held, i, w);
    TotalConcat(s.timers, Spawned(t, ok), w);
    assert Total(Spawned(t, ok), w) + (if sel(t.id) then 1 else 0) <= w(t);
  }

  /** One step: new work raises the outstanding weight by what it injects, a pass lowers it, nothing else raises it. */
  lemma StepPays(c: Config, s: State, step: Step, w: Task -> nat, sel: nat -> bool)
    requires s.Valid(c) && Enabled(s, step) && Pays(w, sel)
    ensures Injects(step) ==> Outstanding(Do(c, s, step), w) == Outstanding(s, w) + InjectedBy(c, s, step, w)
    ensures !Injects(step) ==> Outstanding(Do(c, s, step), w) + PassOver(s, step, sel) <= Outstanding(s, w)
  {
    match step
    case DoReceive =>
      TotalConcat(s.held, [s.queue[0]], w);
      TotalOne(s.queue[0], w);
    case DoProcess(i, ok) =>
      ProcessPays(c, s, i, ok, w, sel);
    case DoFire(i, _) =>
      TotalRemove(s.timers, i, w);
      TotalConcat(s.queue, [s.timers[i]], w);
      TotalOne(s.timers[i], w);
    case DoClearDead =>
    case _ =>
      InjectionAppends(c, s, step);
      AppendedTotal(s.queue, Do(c, s, step).queue, w);
  }

  lemma AppendedTotal(a: seq<Task>, b: seq<Task>, w: Task -> nat)
    requires a <= b
    ensures Total(b, w) == Total(a, w) + Total(b[|a|..], w)
  {
    assert b == a + b[|a|..];
    TotalConcat(a, b[|a|..], w);
  }

  /** Whatever the run, passes and outstanding weight never exceed what was there plus what was injected. */
  lemma {:induction false} WorkIsPaidFor(c: Config, s: State, steps: seq<Step>, w: Task -> nat, sel: nat -> bool)
    requires s.Valid(c) && IsRun(c, s, steps) && Pays(w, sel)
    ensures Passes(c, s, steps, sel) + Outstanding(Final(c, s, steps), w) <=
            Outstanding(s, w) + Injected(c, s, steps, w)
    decreases |steps|
  {
    if steps != [] {
      StepKeepsValid(c, s, steps[0]);
      StepPays(c, s, steps[0], w, sel);
      WorkIsPaidFor(c, Do(c, s, steps[0]), steps[1..], w, sel);
    }
  }

  /** The summed powers of two of the retries left fall at every pass and never rise without new work. */
  lemma PotentialFalls(c: Config, s: State, step: Step)
    requires s.Valid(c) && Enabled(s, step) && !Injects(step)
    ensures var w := Exponential(All());
            && Outstanding(Do(c, s, step), w) <= Outstanding(s, w)
            && (step.DoProcess? ==> Outstanding(Do(c, s, step), w) < Outstanding(s, w))
  {
    ExponentialPays(All());
    StepPays(c, s, step, Exponential(All()), All());
  }

  // ----- one notification -----

  function Is(id: nat): nat -> bool {
    (x: nat) => x == id
  }

  /** Weighs one unit a copy, so that `Injected` counts how often a notification enters the queue. */
  function Copies(sel: nat -> bool): Task -> nat {
    (t: Task) => if sel(t.id) then 1 else 0
  }

  /** How often a run puts notification `id` into the queue, by notifying or by replaying it. */
  ghost function Entered(c: Config, s: State, steps: seq<Step>, id: nat): nat
    requires IsRun(c, s, steps)
  {
    Injected(c, s, steps, Copies(Is(id)))
  }

  /** If `t` belongs to `id`, its retry limit is at most `limit` and it has at most `width` webhooks. */
  predicate Fits(t: Task, id: nat, limit: nat, width: nat) {
    t.id == id ==> t.maxRetries <= limit && |t.webhooks| <= width
  }

  ghost predicate AllFit(s: State, id: nat, limit: nat, width: nat) {
    && (forall t :: t in s.queue ==> Fits(t, id, limit, width))
    && (forall t :: t in s.held ==> Fits(t, id, limit, width))
    && (forall t :: t in s.timers ==> Fits(t, id, limit, width))
    && (forall e :: e in s.dead ==> Fits(e.task, id, limit, width))
  }

  /** A notification of `id` respects the limits too. */
  predicate NotifyFits(step: Step, id: nat, limit: nat, width: nat) {
    step.DoNotify? ==> Fits(Task(step.id, step.webhooks, 0, NOTIFY_MAX_RETRIES), id, limit, width)
  }

  lemma {:induction false} DeliveredFits(c: Config, s: State, t: Task, ok: seq<bool>, id: nat, limit: nat, width: nat)
    requires AllFit(s, id, limit, width) && Fits(t, id, limit, width)
    ensures AllFit(Delivered(c, s, t, ok), id, limit, width)
    decreases |ok|
  {
    if ok != [] && !s.crashed {
      var f := s.(metrics := s.metrics.(failed := s.metrics.failed + 1));
      if ok[0] {
        DeliveredFits(c, s, t, ok[1..], id, limit, width);
      } else if t.retries < t.maxRetries {
        var again := t.(retries := t.retries + 1);
        DeliveredFits(c, f.(timers := f.timers + [again]), again, ok[1..], id, limit, width);
      } else {
        DeliveredFits(c, Bury(c, f, t), t, ok[1..], id, limit, width);
      }
    }
  }

  lemma OfferedFits(c: Config, s: State, t: Task, ready: bool, id: nat, limit: nat, width: nat)
    requires AllFit(s, id, limit, width) && Fits(t, id, limit, width)
    ensures AllFit(Offered(c, s, t, ready), id, limit, width)
  {
  }

  lemma {:induction false} OfferedAllFits(c: Config, s: State, entries: seq<Entry>, ready: seq<bool>,
                                          id: nat, limit: nat, width: nat)
    requires AllFit(s, id, limit, width) && |entries| == |ready|
    requires forall e :: e in entries ==> Fits(e.task, id, limit, width)
    ensures AllFit(OfferedAll(c, s, entries, ready), id, limit, width)
    decreases |entries|
  {
    if entries != [] && !s.crashed {
      var next := Offered(c, s, entries[0].task.(retries := 0), ready[0]);
      OfferedFits(c, s, entries[0].task.(retries := 0), ready[0], id, limit, width);
      OfferedAllFits(c, next, entries[1..], ready[1..], id, limit, width);
    }
  }

  lemma StepFits(c: Config, s: State, step: Step, id: nat, limit: nat, width: nat)
    requires AllFit(s, id, limit, width) && Enabled(s, step) && NotifyFits(step, id, limit, width)
    ensures AllFit(Do(c, s, step), id, limit, width)
  {
    match step
    case DoProcess(i, ok) =>
      DeliveredFits(c, s.(held := RemoveAt(s.held, i)), s.held[i], ok, id, limit, width);
    case DoFire(i, ready) =>
      OfferedFits(c, s.(timers := RemoveAt(s.timers, i)), s.timers[i], ready, id, limit, width);
    case DoReplay(i, ready) =>
      OfferedFits(c, s.(dead := RemoveAt(s.dead, i)), s.dead[i].task.(retries := 0), ready, id, limit, width);
    case DoReplayAll(readies) =>
      OfferedAllFits(c, s.(dead := []), s.dead, readies, id, limit, width);
    case _ =>
  }

  lemma Distributes(price: nat, a: nat, b: nat)
    ensures price * (a + b) == price * a + price * b
  {
  }

  lemma {:induction false} TotalScaled(ts: seq<Task>, w: Task -> nat, u: Task -> nat, price: nat)
    requires forall t :: t in ts ==> w(t) <= price * u(t)
    ensures Total(ts, w) <= price * Total(ts, u)
  {
    if ts != [] {
      TotalScaled(ts[1..], w, u, price);
      Distributes(price, u(ts[0]), Total(ts[1..], u));
    }
  }

  lemma FreshCopyCost(t: Task, id: nat, limit: nat, width: nat)
    requires Fits(t, id, limit, width) && t.retries == 0
    ensures Trees(Is(id))(t) <= TreeSize(limit, width) * Copies(Is(id))(t)
  {
    if t.id == id {
      TreeGrows(t.maxRetries, |t.webhooks|, limit, width);
    }
  }

  lemma FreshCost(ts: seq<Task>, id: nat, limit: nat, width: nat)
    requires forall t :: t in ts ==> Fits(t, id, limit, width) && t.retries == 0
    ensures Total(ts, Trees(Is(id))) <= TreeSize(limit, width) * Total(ts, Copies(Is(id)))
  {
    forall t | t in ts
      ensures Trees(Is(id))(t) <= TreeSize(limit, width) * Copies(Is(id))(t)
    {
      FreshCopyCost(t, id, limit, width);
    }
    TotalScaled(ts, Trees(Is(id)), Copies(Is(id)), TreeSize(limit, width));
  }

  /** What one step puts into the queue. */
  lemma StepCost(c: Config, s: State, step: Step, id: nat, limit: nat, width: nat)
    requires Enabled(s, step) && AllFit(s, id, limit, width) && NotifyFits(step, id, limit, width)
    ensures AllFit(Do(c, s, step), id, limit, width)
    ensures InjectedBy(c, s, step, Trees(Is(id))) <= TreeSize(limit, width) * InjectedBy(c, s, step, Copies(Is(id)))
  {
    StepFits(c, s, step, id, limit, width);
    if Injects(step) {
      InjectionAppends(c, s, step);
      var next := Do(c, s, step);
      assert forall t :: t in next.queue[|s.queue|..] ==> t in next.queue;
      FreshCost(next.queue[|s.queue|..], id, limit, width);
    }
  }

  /** Whatever enters the queue has a fresh counter, so it costs no more than a full set of retries. */
  lemma {:induction false} InjectedCost(c: Config, s: State, steps: seq<Step>, id: nat, limit: nat, width: nat)
    requires IsRun(c, s, steps) && AllFit(s, id, limit, width)
    requires forall step :: step in steps ==> NotifyFits(step, id, limit, width)
    ensures Injected(c, s, steps, Trees(Is(id))) <= TreeSize(limit, width) * Entered(c, s, steps, id)
    decreases |steps|
  {
    if steps != [] {
      var step, next := steps[0], Do(c, s, steps[0]);
      assert step in steps;
      StepCost(c, s, step, id, limit, width);
      InjectedCost(c, next, steps[1..], id, limit, width);
      Distributes(TreeSize(limit, width), InjectedBy(c, s, step, Copies(Is(id))), Entered(c, next, steps[1..], id));
    }
  }

  /**
  In every run, the passes over a notification are at most the weight of the copies there were plus,
  for each time it entered the queue, the cost of one fresh copy.
  */
  lemma NotificationBound(c: Config, s: State, steps: seq<Step>, id: nat, limit: nat, width: nat)
    requires s.Valid(c) && IsRun(c, s, steps) && AllFit(s, id, limit, width)
    requires forall step :: step in steps ==> NotifyFits(step, id, limit, width)
    ensures Passes(c, s, steps, Is(id)) <=
            Outstanding(s, Trees(Is(id))) + TreeSize(limit, width) * Entered(c, s, steps, id)
  {
    TreesPay(Is(id));
    WorkIsPaidFor(c, s, steps, Trees(Is(id)), Is(id));
    InjectedCost(c, s, steps, id, limit, width);
  }

  ghost predicate Unmentioned(s: State, id: nat) {
    forall t :: t in s.Pending() ==> t.id != id
  }

  /** Nothing pending and nothing buried belongs to `id`; so it is in a new notifier for every `id`. */
  ghost predicate Unknown(s: State, id: nat) {
    Unmentioned(s, id) && forall e :: e in s.dead ==> e.task.id != id
  }

  lemma {:induction false} TotalUnmentioned(ts: seq<Task>, id: nat)
    requires forall t :: t in ts ==> t.id != id
    ensures Total(ts, Trees(Is(id))) == 0
  {
    if ts != [] {
      TotalUnmentioned(ts[1..], id);
    }
  }

  lemma OutstandingUnmentioned(s: State, id: nat)
    requires Unmentioned(s, id)
    ensures Outstanding(s, Trees(Is(id))) == 0
  {
    assert forall x :: x in s.queue || x in s.held || x in s.timers ==> x in s.Pending();
    TotalUnmentioned(s.queue, id);
    TotalUnmentioned(s.held, id);
    TotalUnmentioned(s.timers, id);
  }

  lemma UnknownFits(s: State, id: nat, limit: nat, width: nat)
    requires Unknown(s, id)
    ensures AllFit(s, id, limit, width)
  {
    assert forall x :: x in s.queue || x in s.held || x in s.timers ==> x in s.Pending();
  }

  /** If the step notifies `id`, at most `width` webhooks matched. */
  predicate NotifyWithin(step: Step, id: nat, width: nat) {
    step.DoNotify? && step.id == id ==> |step.webhooks| <= width
  }

  lemma {:induction false} SomeWidth(steps: seq<Step>, id: nat) returns (width: nat)
    ensures forall step :: step in steps ==> NotifyWithin(step, id, width)
  {
    if steps == [] {
      width := 0;
    } else {
      var rest := SomeWidth(steps[1..], id);
      width := if steps[0].DoNotify? && |steps[0].webhooks| > rest then |steps[0].webhooks| else rest;
      assert forall step :: step in steps ==> step == steps[0] || step in steps[1..];
    }
  }

  /**
  In every run, from any state that does not know it yet, a notification costs at most one worst-case
  tree for each time it enters the queue, whatever the outcomes and the order of events.
  */
  lemma OneNotificationBound(c: Config, s: State, steps: seq<Step>, id: nat, width: nat)
    requires s.Valid(c) && Unknown(s, id) && IsRun(c, s, steps)
    requires forall step :: step in steps ==> NotifyWithin(step, id, width)
    ensures Passes(c, s, steps, Is(id)) <= TreeSize(NOTIFY_MAX_RETRIES, width) * Entered(c, s, steps, id)
  {
    forall step | step in steps
      ensures NotifyFits(step, id, NOTIFY_MAX_RETRIES, width)
    {
      assert NotifyWithin(step, id, width);
    }
    UnknownFits(s, id, NOTIFY_MAX_RETRIES, width);
    OutstandingUnmentioned(s, id);
    NotificationBound(c, s, steps, id, NOTIFY_MAX_RETRIES, width);
  }

  lemma TimesMonotone(a: nat, b: nat, n: nat)
    requires a <= b
    ensures a * n <= b * n
  {
  }

  /** However many webhooks match, a notification costs at most 2^3 passes for each time it enters the queue. */
  lemma AnyNotificationBound(c: Config, s: State, steps: seq<Step>, id: nat)
    requires s.Valid(c) && Unknown(s, id) && IsRun(c, s, steps)
    ensures Passes(c, s, steps, Is(id)) <= Pow2(NOTIFY_MAX_RETRIES) * Entered(c, s, steps, id)
  {
    var width := SomeWidth(steps, id);
    OneNotificationBound(c, s, steps, id, width);
    TreeWithinBounds(NOTIFY_MAX_RETRIES, width);
    TimesMonotone(TreeSize(NOTIFY_MAX_RETRIES, width), Pow2(NOTIFY_MAX_RETRIES), Entered(c, s, steps, id));
  }

  lemma OutstandingCopy(s: State, t: Task)
    requires Unmentioned(s, t.id)
    ensures Outstanding(s.(queue := s.queue + [t]), Trees(Is(t.id))) == Trees(Is(t.id))(t)
  {
    OutstandingUnmentioned(s, t.id);
    TotalConcat(s.queue, [t], Trees(Is(t.id)));
    TotalOne(t, Trees(Is(t.id)));
  }

  /**
  For any retry limit: one queued copy costs at most its worst-case tree, hence at most 2^k passes with
  `k` retries left, in every run that does not put its notification into the queue again.
  */
  lemma OneCopyBound(c: Config, s: State, steps: seq<Step>, t: Task)
    requires s.Valid(c) && HasRoom(c, s, true) && t.Valid() && Unmentioned(s, t.id)
    requires var begun := s.(queue := s.queue + [t]);
             IsRun(c, begun, steps) && Entered(c, begun, steps, t.id) == 0
    ensures var passes, left := Passes(c, s.(queue := s.queue + [t]), steps, Is(t.id)), t.maxRetries - t.retries;
            passes <= TreeSize(left, |t.webhooks|) <= Pow2(left)
  {
    CopyPaysFor(c, s, steps, t);
    TreeWithinBounds(t.maxRetries - t.retries, |t.webhooks|);
  }

  lemma CopyPaysFor(c: Config, s: State, steps: seq<Step>, t: Task)
    requires s.Valid(c) && HasRoom(c, s, true) && t.Valid() && Unmentioned(s, t.id)
    requires var begun := s.(queue := s.queue + [t]);
             IsRun(c, begun, steps) && Entered(c, begun, steps, t.id) == 0
    ensures Passes(c, s.(queue := s.queue + [t]), steps, Is(t.id)) <= TreeWeight(Is(t.id), t)
  {
    var begun, w := s.(queue := s.queue + [t]), Trees(Is(t.id));
    assert begun.Valid(c);
    TreesPay(Is(t.id));
    WorkIsPaidFor(c, begun, steps, w, Is(t.id));
    NotEntered(c, begun, steps, t.id);
    OutstandingCopy(s, t);
  }

  lemma {:induction false} NoCopies(ts: seq<Task>, id: nat)
    requires Total(ts, Copies(Is(id))) == 0
    ensures Total(ts, Trees(Is(id))) == 0
  {
    if ts != [] {
      NoCopies(ts[1..], id);
    }
  }

  lemma {:induction false} NotEntered(c: Config, s: State, steps: seq<Step>, id: nat)
    requires IsRun(c, s, steps) && Entered(c, s, steps, id) == 0
    ensures Injected(c, s, steps, Trees(Is(id))) == 0
    decreases |steps|
  {
    if steps != [] {
      var next := Do(c, s, steps[0]);
      if Injects(steps[0]) && |s.queue| <= |next.queue| {
        NoCopies(next.queue[|s.queue|..], id);
      }
      assert InjectedBy(c, s, steps[0], Trees(Is(id))) == 0;
      NotEntered(c, next, steps[1..], id);
    }
  }

  // ----- the bound is attained -----

  function AllFail(n: nat): (r: seq<bool>)
    ensures |r| == n && forall i :: 0 <= i < n ==> !r[i]
  {
    seq(n, _ => false)
  }

  lemma {:induction false} AllFailFailures(n: nat)
    ensures Failures(AllFail(n)) == n
  {
    if n > 0 {
      AllFailFailures(n - 1);
      assert AllFail(n)[1..] == AllFail(n - 1);
    }
  }

  /** Deliveries fail as long as there are retries left and succeed afterwards. */
  predicate FailsWhileRetrying(t: Task, ok: seq<bool>) {
    forall i :: 0 <= i < |ok| ==> (ok[i] <==> i >= t.maxRetries - t.retries)
  }

  /** The outcomes of a pass that spawns most and buries nothing. */
  function Worst(t: Task): (r: seq<bool>)
    ensures |r| == |t.webhooks| && FailsWhileRetrying(t, r)
  {
    seq(|t.webhooks|, i => i >= t.maxRetries - t.retries)
  }

  /** With the worst outcomes the trees of the copies really make up the whole forest. */
  lemma {:induction false} WorstFillsForest(t: Task, ok: seq<bool>, sel: nat -> bool)
    requires t.Valid() && sel(t.id) && FailsWhileRetrying(t, ok)
    ensures Total(Spawned(t, ok), Trees(sel)) == ForestSize(t.maxRetries - t.retries, |ok|, |t.webhooks|)
    decreases |ok|
  {
    if t.retries >= t.maxRetries {
      NothingSpawned(t, ok);
    } else if ok != [] {
      var again := t.(retries := t.retries + 1);
      WorstFillsForest(again, ok[1..], sel);
      assert ([again] + Spawned(again, ok[1..]))[1..] == Spawned(again, ok[1..]);
    }
  }

  lemma {:induction false} WorstBuriesNothing(c: Config, s: State, t: Task, ok: seq<bool>)
    requires FailsWhileRetrying(t, ok) && !s.crashed
    ensures !Delivered(c, s, t, ok).crashed
    decreases |ok|
  {
    if ok != [] {
      var f := s.(metrics := s.metrics.(failed := s.metrics.failed + 1));
      if ok[0] {
        WorstBuriesNothing(c, s, t, ok[1..]);
      } else {
        var again := t.(retries := t.retries + 1);
        WorstBuriesNothing(c, f.(timers := f.timers + [again]), again, ok[1..]);
      }
    }
  }

  /** Nothing is pending but timers, whose tasks are selected. */
  ghost predicate OnlyTimers(s: State, sel: nat -> bool) {
    && !s.crashed && s.queue == [] && s.held == []
    && forall t :: t in s.timers ==> t.Valid() && sel(t.id)
  }

  /** Fire the first timer, receive its task and process it with the worst outcomes. */
  ghost function Round(t: Task): seq<Step> {
    [DoFire(0, true), DoReceive, DoProcess(0, Worst(t))]
  }

  /** The first timer's tree is its own pass and the trees of the copies that pass schedules. */
  lemma RoundCost(timers: seq<Task>, sel: nat -> bool)
    requires timers != [] && timers[0].Valid() && sel(timers[0].id)
    ensures Total(timers, Trees(sel)) == Total(timers[1..] + Spawned(timers[0], Worst(timers[0])), Trees(sel)) + 1
  {
    var t := timers[0];
    TotalConcat(timers[1..], Spawned(t, Worst(t)), Trees(sel));
    WorstFillsForest(t, Worst(t), sel);
  }

  lemma RoundRuns(c: Config, s: State, sel: nat -> bool) returns (next: State)
    requires OnlyTimers(s, sel) && s.timers != []
    ensures OnlyTimers(next, sel)
    ensures Total(s.timers, Trees(sel)) == Total(next.timers, Trees(sel)) + 1
    ensures forall rest :: IsRun(c, next, rest) ==>
              && IsRun(c, s, Round(s.timers[0]) + rest)
              && Passes(c, s, Round(s.timers[0]) + rest, sel) == 1 + Passes(c, next, rest, sel)
  {
    var t := s.timers[0];
    var queued := Do(c, s, DoFire(0, true));
    assert t in s.timers && queued.queue == [t] && queued.timers == s.timers[1..];
    next := ReceivedAndProcessed(c, queued, t, sel);
    RoundCost(s.timers, sel);
    forall rest | IsRun(c, next, rest)
      ensures IsRun(c, s, Round(t) + rest)
      ensures Passes(c, s, Round(t) + rest, sel) == 1 + Passes(c, next, rest, sel)
    {
      var tail := [DoReceive, DoProcess(0, Worst(t))] + rest;
      var steps := Prefixed(c, s, DoFire(0, true), tail, sel);
      assert steps == Round(t) + rest;
    }
  }

  lemma ReceivedAndProcessed(c: Config, s: State, t: Task, sel: nat -> bool) returns (next: State)
    requires !s.crashed && s.queue == [t] && s.held == [] && t.Valid() && sel(t.id)
    requires forall x :: x in s.timers ==> x.Valid() && sel(x.id)
    ensures OnlyTimers(next, sel) && next.timers == s.timers + Spawned(t, Worst(t))
    ensures forall rest :: IsRun(c, next, rest) ==>
              && IsRun(c, s, [DoReceive, DoProcess(0, Worst(t))] + rest)
              && Passes(c, s, [DoReceive, DoProcess(0, Worst(t))] + rest, sel) == 1 + Passes(c, next, rest, sel)
  {
    var received := Do(c, s, DoReceive);
    assert received.held == [t];
    var process := DoProcess(0, Worst(t));
    next := Do(c, received, process);
    var emptied := received.(held := RemoveAt(received.held, 0));
    DeliveredParts(c, emptied, t, Worst(t));
    WorstBuriesNothing(c, emptied, t, Worst(t));
    SpawnedValid(t, Worst(t));
    forall rest | IsRun(c, next, rest)
      ensures IsRun(c, s, [DoReceive, process] + rest)
      ensures Passes(c, s, [DoReceive, process] + rest, sel) == 1 + Passes(c, next, rest, sel)
    {
      var last := Prefixed(c, received, process, rest, sel);
      var steps := Prefixed(c, s, DoReceive, last, sel);
      assert steps == [DoReceive, process] + rest;
    }
  }

  /** From waiting timers there is a run that makes every pass of their retry trees. */
  lemma {:induction false} WorstRun(c: Config, s: State, sel: nat -> bool) returns (steps: seq<Step>)
    requires OnlyTimers(s, sel)
    ensures IsRun(c, s, steps) && Passes(c, s, steps, sel) == Total(s.timers, Trees(sel))
    ensures forall step :: step in steps ==> IsWork(step)
    decreases Total(s.timers, Trees(sel))
  {
    if s.timers == [] {
      steps := [];
    } else {
      var next := RoundRuns(c, s, sel);
      var rest := WorstRun(c, next, sel);
      steps := Round(s.timers[0]) + rest;
    }
  }

  /** A single queued task has a run of working steps that makes every pass of its retry tree. */
  lemma TaskAttainsTree(c: Config, s: State, t: Task, sel: nat -> bool) returns (work: seq<Step>)
    requires !s.crashed && s.queue == [t] && s.held == [] && s.timers == [] && t.Valid() && sel(t.id)
    ensures IsRun(c, s, work) && forall step :: step in work ==> IsWork(step)
    ensures Passes(c, s, work, sel) == TreeSize(t.maxRetries - t.retries, |t.webhooks|)
  {
    var next := ReceivedAndProcessed(c, s, t, sel);
    assert next.timers == Spawned(t, Worst(t));
    var rest := WorstRun(c, next, sel);
    work := [DoReceive, DoProcess(0, Worst(t))] + rest;
    WorstFillsForest(t, Worst(t), sel);
  }

  lemma {:induction false} WorkInjectsNothing(c: Config, s: State, steps: seq<Step>, w: Task -> nat)
    requires IsRun(c, s, steps) && forall step :: step in steps ==> IsWork(step)
    ensures Injected(c, s, steps, w) == 0
    decreases |steps|
  {
    if steps != [] {
      assert IsWork(steps[0]);
      WorkInjectsNothing(c, Do(c, s, steps[0]), steps[1..], w);
    }
  }

  lemma NotifyEntersOnce(c: Config, s: State, id: nat, webhooks: seq<nat>)
    requires !s.crashed && s.queue == [] && webhooks != []
    ensures InjectedBy(c, s, DoNotify(id, webhooks, true), Copies(Is(id))) == 1
  {
    var task := Task(id, webhooks, 0, NOTIFY_MAX_RETRIES);
    assert Do(c, s, DoNotify(id, webhooks, true)).queue[0..] == [task];
    TotalOne(task, Copies(Is(id)));
  }

  /**
  The bound is attained for every number of webhooks: in every configuration, an idle notifier has a run
  that notifies once, then only works, and makes exactly the passes of one worst-case tree.
  */
  lemma NotificationAttainsBound(c: Config, s: State, id: nat, webhooks: seq<nat>) returns (steps: seq<Step>)
    requires !s.crashed && s.Pending() == [] && webhooks != []
    ensures IsRun(c, s, steps) && steps != [] && steps[0] == DoNotify(id, webhooks, true)
    ensures forall step :: step in steps[1..] ==> IsWork(step)
    ensures Entered(c, s, steps, id) == 1
    ensures Passes(c, s, steps, Is(id)) == TreeSize(NOTIFY_MAX_RETRIES, |webhooks|)
  {
    var notify, t := DoNotify(id, webhooks, true), Task(id, webhooks, 0, NOTIFY_MAX_RETRIES);
    assert s.queue == [] && s.held == [] && s.timers == [];
    var notified := Do(c, s, notify);
    var work := TaskAttainsTree(c, notified, t, Is(id));
    steps := Prefixed(c, s, notify, work, Is(id));
    assert steps[1..] == work;
    NotifyEntersOnce(c, s, id, webhooks);
    WorkInjectsNothing(c, notified, work, Copies(Is(id)));
  }

  // ----- going quiet -----

  function InTimer(): Task -> nat { (t: Task) => 3 * Weight(t) }
  function InQueue(): Task -> nat { (t: Task) => if Weight(t) == 0 then 0 else 3 * Weight(t) - 1 }
  function InHand(): Task -> nat { (t: Task) => if Weight(t) == 0 then 0 else 3 * Weight(t) - 2 }

  /** A bound on the work left: a copy passes from timer to queue to hand before it is processed. */
  ghost function WorkLeft(s: State): nat {
    Total(s.timers, InTimer()) + Total(s.queue, InQueue()) + Total(s.held, InHand())
  }

  predicate IsWork(step: Step) {
    step.DoReceive? || step.DoProcess? || step.DoFire?
  }

  lemma {:induction false} TripleTotal(ts: seq<Task>)
    ensures Total(ts, InTimer()) == 3 * Total(ts, Exponential(All()))
  {
    if ts != [] {
      TripleTotal(ts[1..]);
    }
  }

  lemma ReceiveProgress(c: Config, s: State)
    requires s.Valid(c) && s.queue != []
    ensures WorkLeft(Received(s)) < WorkLeft(s)
  {
    var t := s.queue[0];
    assert t in s.queue;
    Pow2Positive(t.maxRetries - t.retries);
    TotalConcat(s.held, [t], InHand());
    TotalOne(t, InHand());
  }

  lemma FireProgress(c: Config, s: State, i: nat, ready: bool)
    requires s.Valid(c) && i < |s.timers|
    ensures WorkLeft(Fired(c, s, i, ready)) < WorkLeft(s)
  {
    var t, next := s.timers[i], Fired(c, s, i, ready);
    assert t in s.timers;
    Pow2Positive(t.maxRetries - t.retries);
    TotalRemove(s.timers, i, InTimer());
    assert next.timers == RemoveAt(s.timers, i) && next.held == s.held;
    if HasRoom(c, s, ready) {
      assert next.queue == s.queue + [t];
      TotalConcat(s.queue, [t], InQueue());
      TotalOne(t, InQueue());
    } else {
      assert next.queue == s.queue;
    }
  }

  lemma ProcessProgress(c: Config, s: State, i: nat, ok: seq<bool>)
    requires s.Valid(c) && !s.crashed && i < |s.held|
    ensures WorkLeft(Processed(c, s, i, ok)) < WorkLeft(s)
  {
    var t := s.held[i];
    assert t in s.held;
    Pow2Positive(t.maxRetries - t.retries);
    DeliveredParts(c, s.(held := RemoveAt(s.held, i)), t, ok);
    TotalRemove(s.held, i, InHand());
    TotalConcat(s.timers, Spawned(t, ok), InTimer());
    TripleTotal(Spawned(t, ok));
    SpawnedWeighsLess(t, ok, All());
  }

  lemma WorkStepProgress(c: Config, s: State, step: Step)
    requires s.Valid(c) && Enabled(s, step) && IsWork(step)
    ensures WorkLeft(Do(c, s, step)) < WorkLeft(s)
  {
    match step
    case DoReceive => ReceiveProgress(c, s);
    case DoProcess(i, ok) => ProcessProgress(c, s, i, ok);
    case DoFire(i, ready) => FireProgress(c, s, i, ready);
  }

  /** Once notifications and replays stop, only boundedly many steps remain before nothing is pending. */
  lemma {:induction false} GoesQuiet(c: Config, s: State, steps: seq<Step>)
    requires s.Valid(c) && IsRun(c, s, steps) && forall step :: step in steps ==> IsWork(step)
    ensures |steps| <= WorkLeft(s)
    decreases |steps|
  {
    if steps != [] {
      WorkStepProgress(c, s, steps[0]);
      StepKeepsValid(c, s, steps[0]);
      GoesQuiet(c, Do(c, s, steps[0]), steps[1..]);
    }
  }

  /** As long as something is pending and no burial has panicked some working step is possible. */
  lemma NeverStuck(s: State)
    ensures !s.crashed && s.Pending() != [] <==> exists step :: IsWork(step) && Enabled(s, step)
  {
    if !s.crashed {
      if s.queue != [] {
        assert Enabled(s, DoReceive);
      } else if s.held != [] {
        assert Enabled(s, DoProcess(0, AllFail(|s.held[0].webhooks|)));
      } else if s.timers != [] {
        assert Enabled(s, DoFire(0, true));
      }
    }
  }

  /** The first entry with that identifier goes: its task is queued with its counter at zero, or buried like that. */
  predicate OfferedAgain(c: Config, s: State, after: State, i: nat, accepted: bool)
    requires i < |s.dead|
  {
    var t, rest := s.dead[i].task.(retries := 0), s.dead[..i] + s.dead[i + 1..];
    && after.held == s.held && after.timers == s.timers
    && (forall j :: 0 <= j < i ==> s.dead[j].id != s.dead[i].id)
    && (accepted ==> after.queue == s.queue + [t] && after.dead == rest && !after.crashed)
    && (!accepted ==> after.queue == s.queue &&
                      (!after.crashed ==> Appended(c.deadLetterLimit, rest, after.dead, t)))
  }

  /** One pass in terms of the number of failures and of the retries left. */
  lemma PassSpelledOut(c: Config, s: State, i: nat, ok: seq<bool>)
    requires !s.crashed && i < |s.held|
    ensures var after := Processed(c, s, i, ok);
            && after.queue == s.queue && after.held == RemoveAt(s.held, i)
            && after.timers == s.timers + Spawned(s.held[i], ok)
            && after.metrics.sent == s.metrics.sent && after.metrics.dropped == s.metrics.dropped
            && (!after.crashed ==> after.metrics.failed == s.metrics.failed + Failures(ok))
    ensures s.held[i].Valid() ==>
              var t := s.held[i];
              var left := t.maxRetries - t.retries;
              && |Spawned(t, ok)| == (if Failures(ok) < left then Failures(ok) else left)
              && (forall j :: 0 <= j < |Spawned(t, ok)| ==> Spawned(t, ok)[j] == t.(retries := t.retries + 1 + j))
              && (Processed(c, s, i, ok).crashed <==>
                    c.deadLetterLimit == 0 && s.dead == [] && Failures(ok) > left)
  {
    var t, begun := s.held[i], s.(held := RemoveAt(s.held, i));
    DeliveredParts(c, begun, t, ok);
    FailuresAccounted(c, begun, t, ok);
    SendsUntouched(c, begun, t, ok);
    if t.Valid() {
      SpawnedExactly(t, ok);
      PassCrashesIff(c, begun, t, ok);
    }
  }

  lemma {:induction false} SendsUntouched(c: Config, s: State, t: Task, ok: seq<bool>)
    ensures Delivered(c, s, t, ok).metrics.sent == s.metrics.sent
    ensures Delivered(c, s, t, ok).metrics.dropped == s.metrics.dropped
    decreases |ok|
  {
    if ok != [] && !s.crashed {
      var f := s.(metrics := s.metrics.(failed := s.metrics.failed + 1));
      if ok[0] {
        SendsUntouched(c, s, t, ok[1..]);
      } else if t.retries < t.maxRetries {
        var again := t.(retries := t.retries + 1);
        SendsUntouched(c, f.(timers := f.timers + [again]), again, ok[1..]);
      } else {
        SendsUntouched(c, Bury(c, f, t), t, ok[1..]);
      }
    }
  }

  // ----- the notifier object -----

  /** Once `crashed` is set the process is gone, so every method asks that it is not. */
  class EventNotifier {
    const config: Config
    var taskCh: seq<Task>
    var held: seq<Task>
    var timers: seq<Task>
    var deadLetter: seq<Entry>
    var nextEntry: nat
    var metrics: Metrics
    var crashed: bool

    function View(): State
      reads this
    {
      State(taskCh, held, timers, deadLetter, nextEntry, metrics, crashed)
    }

    constructor (c: Config)
      ensures config == c && View() == Initial() && View().Valid(c)
    {
      config, taskCh, held, timers, deadLetter, nextEntry, crashed := c, [], [], [], [], 0, false;
      metrics := Metrics(0, 0, 0, 0);
    }

    /** Sends without waiting; `ready` tells whether a receiver waits on an unbuffered channel. */
    method TrySend(task: Task, ready: bool) returns (sent: bool)
      modifies this
      ensures sent <==> if config.queueSize == 0 then ready else |old(taskCh)| < config.queueSize
      ensures View() == if sent then old(View()).(queue := old(taskCh) + [task]) else old(View())
    {
      sent := if config.queueSize == 0 then ready else |taskCh| < config.queueSize;
      if sent {
        taskCh := taskCh + [task];
      }
    }

    /** `webhooks` are the ones the manager matched for the event; `ok` tells whether the event was accepted. */
    method Notify(id: nat, webhooks: seq<nat>, ready: bool) returns (ok: bool)
      requires !crashed
      modifies this
      ensures View() == Do(config, old(View()), DoNotify(id, webhooks, ready))
      ensures ok <==> webhooks == [] || (if config.queueSize == 0 then ready else |old(taskCh)| < config.queueSize)
      ensures webhooks == [] ==> View() == old(View())
      ensures webhooks != [] && ok ==>
                && taskCh == old(taskCh) + [Task(id, webhooks, 0, 3)]
                && metrics == old(metrics).(sent := old(metrics).sent + 1)
      ensures !ok ==> taskCh == old(taskCh) && metrics == old(metrics).(dropped := old(metrics).dropped + 1)
      ensures held == old(held) && timers == old(timers) && deadLetter == old(deadLetter)
    {
      if |webhooks| == 0 {
        return true;
      }
      ok := TrySend(Task(id, webhooks, 0, NOTIFY_MAX_RETRIES), ready);
      if ok {
        metrics := metrics.(sent := metrics.sent + 1);
      } else {
        metrics := metrics.(dropped := metrics.dropped + 1);
      }
    }

    method Receive()
      requires !crashed && taskCh != []
      modifies this
      ensures View() == Do(config, old(View()), DoReceive)
      ensures held == old(held) + [old(taskCh)[0]] && taskCh == old(taskCh)[1..]
      ensures timers == old(timers) && deadLetter == old(deadLetter) && metrics == old(metrics)
    {
      held := held + [taskCh[0]];
      taskCh := taskCh[1..];
    }

    method MoveToDeadLetter(task: Task)
      requires !crashed
      modifies this
      ensures View() == Bury(config, old(View()), task)
      ensures crashed <==> config.deadLetterLimit == 0 && old(deadLetter) == []
      ensures crashed ==> deadLetter == old(deadLetter) && metrics == old(metrics)
      ensures !crashed ==>
                && |deadLetter| > 0
                && deadLetter[|deadLetter| - 1].task == task && deadLetter[|deadLetter| - 1].retryCount == task.retries
                && deadLetter[..|deadLetter| - 1] ==
                   (if |old(deadLetter)| < config.deadLetterLimit then old(deadLetter) else old(deadLetter)[1..])
                && metrics == old(metrics).(deadLettered := old(metrics).deadLettered + 1)
      ensures taskCh == old(taskCh) && held == old(held) && timers == old(timers)
    {
      var entry := Entry(nextEntry, task, task.retries);
      if |deadLetter| >= config.deadLetterLimit {
        if |deadLetter| == 0 {
          crashed := true;
          return;
        }
        deadLetter := deadLetter[1..];
      }
      deadLetter := deadLetter + [entry];
      nextEntry := nextEntry + 1;
      metrics := metrics.(deadLettered := metrics.deadLettered + 1);
    }

    method RetryTask(task: Task)
      modifies this
      ensures View() == old(View()).(timers := old(timers) + [task])
    {
      timers := timers + [task];
    }

    method ProcessTask(i: nat, ok: seq<bool>)
      requires !crashed && i < |held| && |ok| == |held[i].webhooks|
      modifies this
      ensures View() == Do(config, old(View()), DoProcess(i, ok))
      ensures taskCh == old(taskCh) && held == old(held)[..i] + old(held)[i + 1..]
      ensures old(held)[i].Valid() ==>
                var t := old(held)[i];
                var left := t.maxRetries - t.retries;
                var n := if Failures(ok) < left then Failures(ok) else left;
                && |timers| == |old(timers)| + n && timers[..|old(timers)|] == old(timers)
                && (forall k :: |old(timers)| <= k < |timers| ==>
                      timers[k] == t.(retries := t.retries + 1 + (k - |old(timers)|)))
                && (crashed <==> config.deadLetterLimit == 0 && old(deadLetter) == [] && Failures(ok) > left)
      ensures !crashed ==>
                && metrics.failed == old(metrics).failed + Failures(ok)
                && metrics.sent == old(metrics).sent && metrics.dropped == old(metrics).dropped
    {
      PassSpelledOut(config, View(), i, ok);
      var task := held[i];
      held := RemoveAt(held, i);
      ghost var begun := View();
      for j := 0 to |task.webhooks|
        invariant |ok| == |task.webhooks| == |old(held[i]).webhooks| && !crashed
        invariant Delivered(config, View(), task, ok[j..]) == Delivered(config, begun, old(held[i]), ok)
      {
        assert ok[j..][0] == ok[j] && ok[j..][1..] == ok[j + 1..];
        if !ok[j] {
          metrics := metrics.(failed := metrics.failed + 1);
          if task.retries < task.maxRetries {
            task := task.(retries := task.retries + 1);
            RetryTask(task);
          } else {
            MoveToDeadLetter(task);
            if crashed {
              return;
            }
          }
        }
      }
      assert ok[|ok|..] == [];
    }

    /** Hands a task to the channel, or to the dead letters when that is full. */
    method Offer(task: Task, ready: bool) returns (accepted: bool)
      requires !crashed
      modifies this
      ensures View() == Offered(config, old(View()), task, ready)
      ensures accepted <==> if config.queueSize == 0 then ready else |old(taskCh)| < config.queueSize
      ensures accepted ==> View() == old(View()).(queue := old(taskCh) + [task])
      ensures !accepted ==> taskCh == old(taskCh) && held == old(held) && timers == old(timers)
      ensures !accepted && !crashed ==> Appended(config.deadLetterLimit, old(deadLetter), deadLetter, task)
    {
      accepted := TrySend(task, ready);
      if !accepted {
        MoveToDeadLetter(task);
      }
    }

    method FireTimer(i: nat, ready: bool)
      requires !crashed && i < |timers|
      modifies this
      ensures View() == Do(config, old(View()), DoFire(i, ready))
      ensures timers == old(timers)[..i] + old(timers)[i + 1..] && held == old(held)
      ensures if (if config.queueSize == 0 then ready else |old(taskCh)| < config.queueSize)
              then taskCh == old(taskCh) + [old(timers)[i]] && deadLetter == old(deadLetter) && !crashed
              else taskCh == old(taskCh) &&
                   (!crashed ==> Appended(config.deadLetterLimit, old(deadLetter), deadLetter, old(timers)[i]))
    {
      var task := timers[i];
      timers := RemoveAt(timers, i);
      var _ := Offer(task, ready);
    }

    method ReplayDeadLetter(entryID: nat, ready: bool) returns (found: bool, accepted: bool)
      requires !crashed
      modifies this
      ensures found <==> exists i :: 0 <= i < |old(deadLetter)| && old(deadLetter)[i].id == entryID
      ensures !found ==> View() == old(View()) && !accepted
      ensures found ==> exists i :: 0 <= i < |old(deadLetter)| && old(deadLetter)[i].id == entryID &&
                                    View() == Do(config, old(View()), DoReplay(i, ready)) &&
                                    OfferedAgain(config, old(View()), View(), i, accepted)
      ensures accepted <==> found && (if config.queueSize == 0 then ready else |old(taskCh)| < config.queueSize)
    {
      for i := 0 to |deadLetter|
        invariant View() == old(View())
        invariant forall j :: 0 <= j < i ==> deadLetter[j].id != entryID
      {
        if deadLetter[i].id == entryID {
          var task := deadLetter[i].task.(retries := 0);
          deadLetter := RemoveAt(deadLetter, i);
          accepted := Offer(task, ready);
          assert View() == Do(config, old(View()), DoReplay(i, ready));
          return true, accepted;
        }
      }
      return false, false;
    }

    method ReplayAllDeadLetter(readies: seq<bool>) returns (replayed: nat)
      requires !crashed && |readies| == |deadLetter|
      modifies this
      ensures View() == Do(config, old(View()), DoReplayAll(readies))
      ensures |taskCh| == |old(taskCh)| + replayed
      ensures held == old(held) && timers == old(timers)
      ensures |old(deadLetter)| <= config.deadLetterLimit ==>
                var sent := Sent(config, |old(taskCh)|, readies);
                && !crashed && taskCh == old(taskCh) + Chosen(old(deadLetter), sent, true)
                && TasksOf(deadLetter) == Chosen(old(deadLetter), sent, false)
    {
      OfferedAllAppends(config, View().(dead := []), deadLetter, readies);
      if |deadLetter| <= config.deadLetterLimit {
        ReplayAllSplits(config, View().(dead := []), deadLetter, readies, Sent(config, |taskCh|, readies));
      }
      var entries := deadLetter;
      deadLetter := [];
      ghost var begun := View();
      replayed := 0;
      for i := 0 to |entries|
        invariant !crashed && |taskCh| == |old(taskCh)| + replayed
        invariant OfferedAll(config, View(), entries[i..], readies[i..]) == OfferedAll(config, begun, entries, readies)
      {
        assert entries[i..][0] == entries[i] && entries[i..][1..] == entries[i + 1..];
        assert readies[i..][0] == readies[i] && readies[i..][1..] == readies[i + 1..];
        var accepted := Offer(entries[i].task.(retries := 0), readies[i]);
        if crashed {
          return;
        }
        if accepted {
          replayed := replayed + 1;
        }
      }
      assert entries[|entries|..] == [];
    }

    method ClearDeadLetter() returns (count: nat)
      requires !crashed
      modifies this
      ensures View() == Do(config, old(View()), DoClearDead) && count == |old(deadLetter)|
      ensures View() == old(View()).(dead := [])
    {
      count := |deadLetter|;
      deadLetter := [];
    }
  }
}
