/**
The circuit breaker of internal/circuit/breaker.go as a state machine.

Each of the pieces a call goes through (admission, failure, success) and each probe tick is one
atomic step; any number of calls may be in flight between them.  The log records admissions,
rejections and the state changes reported to the callback.
*/
module Breaker {
  import opened Durations

  datatype Mode = Closed | Open | HalfOpen

  /** Times and durations are integers (nanoseconds). */
  datatype Config = Config(failureThreshold: nat, successThreshold: nat, timeout: int, halfOpenMaxCalls: nat) {
    /** The constructor replaces zeros by defaults, so thresholds are positive; they are 32-bit values. */
    predicate Valid() {
      && 1 <= failureThreshold < UINT32_LIMIT
      && 1 <= successThreshold < UINT32_LIMIT
      && 1 <= halfOpenMaxCalls < UINT32_LIMIT
      && timeout != 0
    }
  }

  const UINT32_LIMIT := 0x1_0000_0000

  const DEFAULT_CONFIG := Config(5, 3, 30 * NANOS_PER_SECOND, 1)

  function WithDefaults(c: Config): Config {
    Config(if c.failureThreshold == 0 then DEFAULT_CONFIG.failureThreshold else c.failureThreshold,
           if c.successThreshold == 0 then DEFAULT_CONFIG.successThreshold else c.successThreshold,
           if c.timeout == 0 then DEFAULT_CONFIG.timeout else c.timeout,
           if c.halfOpenMaxCalls == 0 then DEFAULT_CONFIG.halfOpenMaxCalls else c.halfOpenMaxCalls)
  }

  datatype Event = Changed(from: Mode, to: Mode, at: int) | Admitted(at: int) | Rejected(at: int)

  datatype State = State(
    mode: Mode,
    failures: nat,
    successes: nat,
    totalCalls: nat,
    failedCalls: nat,
    successCalls: nat,
    openCount: nat,
    lastStateChange: int,
    inFlight: nat,
    log: seq<Event>)

  function Initial(now: int): State {
    State(Closed, 0, 0, 0, 0, 0, 0, now, 0, [])
  }

  // ----- the pieces -----

  function SetState(s: State, m: Mode, now: int): State {
    if s.mode == m then s
    else s.(mode := m, lastStateChange := now, failures := 0, successes := 0,
            openCount := s.openCount + (if m == Open then 1 else 0),
            log := s.log + [Changed(s.mode, m, now)])
  }

  /** Closes the breaker; the callback is told it was half-open. */
  function Reset(s: State, now: int): State {
    s.(mode := Closed, failures := 0, successes := 0, lastStateChange := now,
       log := s.log + [Changed(HalfOpen, Closed, now)])
  }

  predicate TimedOut(c: Config, s: State, now: int) {
    c.timeout > 0 && now - s.lastStateChange > c.timeout
  }

  /** 32-bit addition, as the admission test performs it. */
  function Add32(x: nat, y: nat): nat {
    (x + y) % UINT32_LIMIT
  }

  function Ready(c: Config, s: State, now: int): (State, bool) {
    match s.mode
    case Closed => (s, true)
    case Open => if TimedOut(c, s, now) then (SetState(s, HalfOpen, now), true) else (s, false)
    case HalfOpen => (s, Add32(s.failures, s.successes) < c.halfOpenMaxCalls)
  }

  function Begin(c: Config, s: State, now: int): State {
    var r := Ready(c, s.(totalCalls := s.totalCalls + 1), now);
    if r.1 then r.0.(inFlight := r.0.inFlight + 1, log := r.0.log + [Admitted(now)])
    else r.0.(failedCalls := r.0.failedCalls + 1, log := r.0.log + [Rejected(now)])
  }

  function Fail(c: Config, s: State, now: int): State
    requires s.inFlight > 0
  {
    var f := s.(failedCalls := s.failedCalls + 1, inFlight := s.inFlight - 1);
    match s.mode
    case HalfOpen => SetState(f.(failures := Add32(f.failures, 1)), Open, now)
    case Closed =>
      var n := Add32(f.failures, 1);
      var g := f.(failures := n);
      if n >= c.failureThreshold then SetState(g, Open, now) else g
    case Open => f
  }

  function Succeed(c: Config, s: State, now: int): State
    requires s.inFlight > 0
  {
    var f := s.(successCalls := s.successCalls + 1, inFlight := s.inFlight - 1);
    match s.mode
    case HalfOpen =>
      var n := Add32(f.successes, 1);
      var g := f.(successes := n);
      if n >= c.successThreshold then Reset(g, now) else g
    case Closed => f.(failures := 0)
    case Open => f
  }

  function Probe(c: Config, s: State, now: int): State {
    if s.mode == Open && TimedOut(c, s, now) then SetState(s, HalfOpen, now) else s
  }

  // ----- runs -----

  datatype Op = OpBegin(at: int) | OpFail(at: int) | OpSucceed(at: int) | OpProbe(at: int)

  predicate Enabled(s: State, op: Op) {
    op.OpFail? || op.OpSucceed? ==> s.inFlight > 0
  }

  function Step(c: Config, s: State, op: Op): State
    requires Enabled(s, op)
  {
    match op
    case OpBegin(now) => Begin(c, s, now)
    case OpFail(now) => Fail(c, s, now)
    case OpSucceed(now) => Succeed(c, s, now)
    case OpProbe(now) => Probe(c, s, now)
  }

  /** A run: every step possible when it happens, on a clock that never goes back. */
  ghost predicate IsRun(c: Config, s: State, clock: int, ops: seq<Op>)
    decreases |ops|
  {
    ops == [] || (clock <= ops[0].at && Enabled(s, ops[0]) && IsRun(c, Step(c, s, ops[0]), ops[0].at, ops[1..]))
  }

  ghost function Final(c: Config, s: State, clock: int, ops: seq<Op>): State
    requires IsRun(c, s, clock, ops)
    decreases |ops|
  {
    if ops == [] then s else Final(c, Step(c, s, ops[0]), ops[0].at, ops[1..])
  }

  // ----- the invariant -----

  predicate IsOpening(e: Event) {
    e.Changed? && e.to == Open
  }

  function Openings(log: seq<Event>): nat {
    if log == [] then 0 else Openings(log[..|log| - 1]) + (if IsOpening(log[|log| - 1]) then 1 else 0)
  }

  /** The four edges of the breaker's state diagram. */
  predicate LegalEdge(from: Mode, to: Mode) {
    || (from == Closed && to == Open)
    || (from == Open && to == HalfOpen)
    || (from == HalfOpen && to == Open)
    || (from == HalfOpen && to == Closed)
  }

  /** The mode a log leads to from Closed, if every recorded change starts where the previous one ended. */
  predicate LeadsTo(log: seq<Event>, m: Mode)
    decreases |log|
  {
    if log == [] then m == Closed
    else
      var e := log[|log| - 1];
      if e.Changed? then e.to == m && LegalEdge(e.from, e.to) && LeadsTo(log[..|log| - 1], e.from)
      else LeadsTo(log[..|log| - 1], m)
  }

  /** Books that balance, and counters in the range their mode allows. */
  ghost predicate Balanced(c: Config, s: State) {
    && s.totalCalls == s.failedCalls + s.successCalls + s.inFlight
    && (s.mode == Closed ==> s.failures < c.failureThreshold && s.successes == 0)
    && (s.mode == Open ==> s.failures == 0 && s.successes == 0)
    && (s.mode == HalfOpen ==> s.failures == 0 && s.successes < c.successThreshold)
    && s.openCount == Openings(s.log)
    && LeadsTo(s.log, s.mode)
  }

  /** Whatever opened the breaker lies a full timeout before anything admitted later. */
  ghost predicate Spaced(c: Config, log: seq<Event>) {
    forall i, j :: 0 <= i < j < |log| && IsOpening(log[i]) && log[j].Admitted? ==>
      c.timeout > 0 && log[j].at > log[i].at + c.timeout
  }

  ghost predicate NothingAfter(log: seq<Event>, t: int) {
    forall i :: 0 <= i < |log| ==> log[i].at <= t
  }

  ghost predicate NoOpeningAfter(log: seq<Event>, t: int) {
    forall i :: 0 <= i < |log| && IsOpening(log[i]) ==> log[i].at <= t
  }

  /** Every opening is more than a timeout before `t`. */
  ghost predicate OpeningsExpired(c: Config, log: seq<Event>, t: int) {
    forall i :: 0 <= i < |log| && IsOpening(log[i]) ==> c.timeout > 0 && log[i].at + c.timeout < t
  }

  /** What must be known of past openings for the spacing to survive the next step. */
  ghost predicate Timed(c: Config, s: State, clock: int) {
    && NothingAfter(s.log, clock)
    && (s.mode == Open ==> NoOpeningAfter(s.log, s.lastStateChange))
    && (s.mode != Open ==> OpeningsExpired(c, s.log, clock))
  }

  ghost predicate Inv(c: Config, s: State, clock: int) {
    Balanced(c, s) && Spaced(c, s.log) && Timed(c, s, clock)
  }

  lemma AppendSpaced(c: Config, log: seq<Event>, e: Event)
    requires Spaced(c, log) && (e.Admitted? ==> OpeningsExpired(c, log, e.at))
    ensures Spaced(c, log + [e])
  {
  }

  lemma TimePasses(c: Config, s: State, clock: int, now: int)
    requires Timed(c, s, clock) && clock <= now
    ensures Timed(c, s, now)
  {
  }

  lemma SetStateKeeps(c: Config, s: State, m: Mode, now: int)
    requires Spaced(c, s.log) && Timed(c, s, now) && s.mode != m
    requires m != Open ==> s.mode == Open && TimedOut(c, s, now)
    ensures Spaced(c, SetState(s, m, now).log) && Timed(c, SetState(s, m, now), now)
  {
    AppendSpaced(c, s.log, Changed(s.mode, m, now));
  }

  lemma ResetKeeps(c: Config, s: State, now: int)
    requires Spaced(c, s.log) && Timed(c, s, now) && s.mode == HalfOpen
    ensures Spaced(c, Reset(s, now).log) && Timed(c, Reset(s, now), now)
  {
    AppendSpaced(c, s.log, Changed(HalfOpen, Closed, now));
  }

  /** Noting an admission or a rejection keeps the spacing; an admission needs a mode other than Open. */
  lemma NoteKeeps(c: Config, s: State, t: State, e: Event)
    requires Spaced(c, s.log) && Timed(c, s, e.at) && !e.Changed? && (e.Admitted? ==> s.mode != Open)
    requires t.mode == s.mode && t.lastStateChange == s.lastStateChange && t.log == s.log + [e]
    ensures Spaced(c, t.log) && Timed(c, t, e.at)
  {
    AppendSpaced(c, s.log, e);
  }

  lemma ReadyKeeps(c: Config, s: State, now: int)
    requires Spaced(c, s.log) && Timed(c, s, now)
    ensures Spaced(c, Ready(c, s, now).0.log) && Timed(c, Ready(c, s, now).0, now)
    ensures Ready(c, s, now).1 ==> Ready(c, s, now).0.mode != Open
  {
    if s.mode == Open && TimedOut(c, s, now) {
      SetStateKeeps(c, s, HalfOpen, now);
    }
  }

  lemma BeginTimed(c: Config, s: State, now: int)
    requires Spaced(c, s.log) && Timed(c, s, now)
    ensures Spaced(c, Begin(c, s, now).log) && Timed(c, Begin(c, s, now), now)
  {
    var counted := s.(totalCalls := s.totalCalls + 1);
    ReadyKeeps(c, counted, now);
    var r := Ready(c, counted, now);
    NoteKeeps(c, r.0, Begin(c, s, now), if r.1 then Admitted(now) else Rejected(now));
  }

  lemma FailTimed(c: Config, s: State, now: int)
    requires Spaced(c, s.log) && Timed(c, s, now) && s.inFlight > 0
    ensures Spaced(c, Fail(c, s, now).log) && Timed(c, Fail(c, s, now), now)
  {
    var f := s.(failedCalls := s.failedCalls + 1, inFlight := s.inFlight - 1);
    if s.mode != Open {
      SetStateKeeps(c, f.(failures := Add32(f.failures, 1)), Open, now);
    }
  }

  lemma SucceedTimed(c: Config, s: State, now: int)
    requires Spaced(c, s.log) && Timed(c, s, now) && s.inFlight > 0
    ensures Spaced(c, Succeed(c, s, now).log) && Timed(c, Succeed(c, s, now), now)
  {
    var f := s.(successCalls := s.successCalls + 1, inFlight := s.inFlight - 1);
    if s.mode == HalfOpen {
      ResetKeeps(c, f.(successes := Add32(f.successes, 1)), now);
    }
  }

  lemma StepTimed(c: Config, s: State, op: Op, clock: int)
    requires Spaced(c, s.log) && Timed(c, s, clock) && clock <= op.at && Enabled(s, op)
    ensures Spaced(c, Step(c, s, op).log) && Timed(c, Step(c, s, op), op.at)
  {
    TimePasses(c, s, clock, op.at);
    match op
    case OpBegin(now) => BeginTimed(c, s, now);
    case OpFail(now) => FailTimed(c, s, now);
    case OpSucceed(now) => SucceedTimed(c, s, now);
    case OpProbe(now) =>
      if s.mode == Open && TimedOut(c, s, now) {
        SetStateKeeps(c, s, HalfOpen, now);
      }
  }

  /** The log grows by a recorded change of mode. */
  lemma ChangeBalanced(log: seq<Event>, from: Mode, to: Mode, now: int)
    requires LeadsTo(log, from) && LegalEdge(from, to)
    ensures LeadsTo(log + [Changed(from, to, now)], to)
    ensures Openings(log + [Changed(from, to, now)]) == Openings(log) + (if to == Open then 1 else 0)
  {
  }

  lemma NoteBalanced(log: seq<Event>, m: Mode, e: Event)
    requires LeadsTo(log, m) && !e.Changed?
    ensures LeadsTo(log + [e], m) && Openings(log + [e]) == Openings(log)
  {
  }

  lemma BeginBalanced(c: Config, s: State, now: int)
    requires c.Valid() && Balanced(c, s)
    ensures Balanced(c, Begin(c, s, now))
  {
    if s.mode == Open {
      ChangeBalanced(s.log, Open, HalfOpen, now);
    }
    var r := Ready(c, s.(totalCalls := s.totalCalls + 1), now);
    NoteBalanced(r.0.log, r.0.mode, if r.1 then Admitted(now) else Rejected(now));
  }

  lemma FailBalanced(c: Config, s: State, now: int)
    requires c.Valid() && Balanced(c, s) && s.inFlight > 0
    ensures Balanced(c, Fail(c, s, now))
  {
    if s.mode != Open {
      ChangeBalanced(s.log, s.mode, Open, now);
    }
  }

  lemma SucceedBalanced(c: Config, s: State, now: int)
    requires c.Valid() && Balanced(c, s) && s.inFlight > 0
    ensures Balanced(c, Succeed(c, s, now))
  {
    if s.mode == HalfOpen {
      ChangeBalanced(s.log, HalfOpen, Closed, now);
    }
  }

  lemma StepBalanced(c: Config, s: State, op: Op)
    requires c.Valid() && Balanced(c, s) && Enabled(s, op)
    ensures Balanced(c, Step(c, s, op))
  {
    match op
    case OpBegin(now) => BeginBalanced(c, s, now);
    case OpFail(now) => FailBalanced(c, s, now);
    case OpSucceed(now) => SucceedBalanced(c, s, now);
    case OpProbe(now) =>
      if s.mode == Open {
        ChangeBalanced(s.log, Open, HalfOpen, now);
      }
  }

  lemma StepKeepsInvariant(c: Config, s: State, clock: int, op: Op)
    requires c.Valid() && Inv(c, s, clock) && clock <= op.at && Enabled(s, op)
    ensures Inv(c, Step(c, s, op), op.at)
  {
    StepBalanced(c, s, op);
    StepTimed(c, s, op, clock);
  }

  /** The instant of the last step. */
  function LastTime(clock: int, ops: seq<Op>): int
    decreases |ops|
  {
    if ops == [] then clock else LastTime(ops[0].at, ops[1..])
  }

  /**
  For every interleaving of steps: calls are all accounted for, counters stay below their
  thresholds, every opening is counted, only legal changes occur, and nothing is admitted
  within the timeout of an opening.
  */
  lemma {:induction false} RunKeepsInvariant(c: Config, s: State, clock: int, ops: seq<Op>)
    requires c.Valid() && Inv(c, s, clock) && IsRun(c, s, clock, ops)
    ensures Inv(c, Final(c, s, clock, ops), LastTime(clock, ops))
    decreases |ops|
  {
    if ops != [] {
      StepKeepsInvariant(c, s, clock, ops[0]);
      RunKeepsInvariant(c, Step(c, s, ops[0]), ops[0].at, ops[1..]);
    }
  }

  /** In particular for every run of a new breaker. */
  lemma RunFromStart(c: Config, now: int, ops: seq<Op>)
    requires c.Valid() && IsRun(c, Initial(now), now, ops)
    ensures Inv(c, Final(c, Initial(now), now, ops), LastTime(now, ops))
  {
    RunKeepsInvariant(c, Initial(now), now, ops);
  }

  /** The 32-bit counters never wrap, so the admission test really compares the sum. */
  lemma CountersNeverWrap(c: Config, s: State)
    requires c.Valid() && Balanced(c, s)
    ensures s.failures + s.successes < UINT32_LIMIT - 1
    ensures Add32(s.failures, s.successes) == s.failures + s.successes
    ensures Add32(s.failures, 1) == s.failures + 1 && Add32(s.successes, 1) == s.successes + 1
  {
  }

  // ----- every decision, from what can be observed -----

  /** What an observer counts who sees the operations and the mode: both kinds of outcome and the last change. */
  datatype Tally = Tally(failures: nat, successes: nat, since: int)

  /** A change of mode starts a new count; a success while closed forgives the failures before it. */
  function Observe(t: Tally, from: Mode, to: Mode, op: Op): Tally {
    if from != to then Tally(0, 0, op.at)
    else if from == Closed && op.OpFail? then t.(failures := t.failures + 1)
    else if from == Closed && op.OpSucceed? then t.(failures := 0)
    else if from == HalfOpen && op.OpSucceed? then t.(successes := t.successes + 1)
    else t
  }

  ghost function Observed(c: Config, s: State, clock: int, ops: seq<Op>, t: Tally): Tally
    requires IsRun(c, s, clock, ops)
    decreases |ops|
  {
    if ops == [] then t
    else
      var next := Step(c, s, ops[0]);
      Observed(c, next, ops[0].at, ops[1..], Observe(t, s.mode, next.mode, ops[0]))
  }

  ghost predicate Matches(c: Config, s: State, t: Tally) {
    Balanced(c, s) && s.failures == t.failures && s.successes == t.successes && s.lastStateChange == t.since
  }

  lemma StepMatches(c: Config, s: State, t: Tally, op: Op)
    requires c.Valid() && Matches(c, s, t) && Enabled(s, op)
    ensures Matches(c, Step(c, s, op), Observe(t, s.mode, Step(c, s, op).mode, op))
  {
    StepBalanced(c, s, op);
  }

  lemma {:induction false} RunMatches(c: Config, s: State, clock: int, ops: seq<Op>, t: Tally)
    requires c.Valid() && Matches(c, s, t) && IsRun(c, s, clock, ops)
    ensures Matches(c, Final(c, s, clock, ops), Observed(c, s, clock, ops, t))
    decreases |ops|
  {
    if ops != [] {
      var next := Step(c, s, ops[0]);
      StepMatches(c, s, t, ops[0]);
      RunMatches(c, next, ops[0].at, ops[1..], Observe(t, s.mode, next.mode, ops[0]));
    }
  }

  /** The mode that must follow: the thresholds are met exactly, and an opening lasts exactly the timeout. */
  function NextMode(c: Config, m: Mode, t: Tally, op: Op): Mode {
    match m
    case Closed => if op.OpFail? && t.failures + 1 == c.failureThreshold then Open else Closed
    case Open =>
      if (op.OpBegin? || op.OpProbe?) && c.timeout > 0 && op.at > t.since + c.timeout then HalfOpen else Open
    case HalfOpen =>
      if op.OpFail? then Open
      else if op.OpSucceed? && t.successes + 1 == c.successThreshold then Closed
      else HalfOpen
  }

  /** The calls that must be admitted: all while closed, the first after the timeout, and while slots are left. */
  predicate MustAdmit(c: Config, m: Mode, t: Tally, at: int) {
    match m
    case Closed => true
    case Open => c.timeout > 0 && at > t.since + c.timeout
    case HalfOpen => t.successes < c.halfOpenMaxCalls
  }

  /**
  In every interleaving of a new breaker each step is decided by the observed counts alone: a closed breaker
  opens exactly at the failure that completes the threshold with no success in between, a half-open one
  closes exactly at the success that completes the other, a tick or call half-opens exactly after the
  timeout, and a call is admitted exactly when it must be.
  */
  lemma DecisionsExact(c: Config, now: int, ops: seq<Op>, op: Op)
    requires c.Valid() && IsRun(c, Initial(now), now, ops) && Enabled(Final(c, Initial(now), now, ops), op)
    ensures var s, t := Final(c, Initial(now), now, ops), Observed(c, Initial(now), now, ops, Tally(0, 0, now));
            && Step(c, s, op).mode == NextMode(c, s.mode, t, op)
            && (op.OpBegin? ==>
                  var admitted := if MustAdmit(c, s.mode, t, op.at) then 1 else 0;
                  && Step(c, s, op).inFlight == s.inFlight + admitted
                  && Step(c, s, op).failedCalls == s.failedCalls + 1 - admitted)
  {
    RunMatches(c, Initial(now), now, ops, Tally(0, 0, now));
  }

  // ----- sequential use: can an opened breaker close again? -----

  datatype SeqOp = Call(at: int, done: int, ok: bool) | Tick(at: int)

  function EndTime(op: SeqOp): int {
    match op case Call(_, done, _) => done case Tick(t) => t
  }

  predicate Timely(clock: int, op: SeqOp) {
    clock <= op.at && (op.Call? ==> op.at <= op.done)
  }

  /** One call from admission to outcome, with nothing in between; or one probe tick. */
  function SeqStep(c: Config, s: State, op: SeqOp): State {
    match op
    case Tick(now) => Probe(c, s, now)
    case Call(now, done, ok) =>
      var b := Begin(c, s, now);
      if b.inFlight > s.inFlight then (if ok then Succeed(c, b, done) else Fail(c, b, done)) else b
  }

  predicate SeqTimely(clock: int, ops: seq<SeqOp>)
    decreases |ops|
  {
    ops == [] || (Timely(clock, ops[0]) && SeqTimely(EndTime(ops[0]), ops[1..]))
  }

  function SeqFinal(c: Config, s: State, ops: seq<SeqOp>): State
    decreases |ops|
  {
    if ops == [] then s else SeqFinal(c, SeqStep(c, s, ops[0]), ops[1..])
  }

  /** Some sequential use on a forward clock closes the breaker. */
  ghost predicate CanClose(c: Config, s: State, clock: int) {
    exists ops :: SeqTimely(clock, ops) && SeqFinal(c, s, ops).mode == Closed
  }

  /** Not closed, nothing in flight, and too few probe slots to reach the success threshold. */
  ghost predicate Trapped(c: Config, s: State) {
    && s.inFlight == 0 && s.failures == 0
    && (s.mode == Open ||
        (s.mode == HalfOpen && c.timeout > 0 && s.successes <= c.halfOpenMaxCalls < c.successThreshold))
    && (c.timeout <= 0 || c.halfOpenMaxCalls < c.successThreshold)
    && (s.mode == Open ==> s.successes == 0)
  }

  lemma TrappedStep(c: Config, s: State, op: SeqOp)
    requires c.Valid() && Trapped(c, s)
    ensures Trapped(c, SeqStep(c, s, op))
  {
  }

  lemma {:induction false} TrappedForever(c: Config, s: State, ops: seq<SeqOp>)
    requires c.Valid() && Trapped(c, s)
    ensures Trapped(c, SeqFinal(c, s, ops))
    decreases |ops|
  {
    if ops != [] {
      TrappedStep(c, s, ops[0]);
      TrappedForever(c, SeqStep(c, s, ops[0]), ops[1..]);
    }
  }

  /** `n` successful calls, all at one instant. */
  function Successes(n: nat, at: int): (ops: seq<SeqOp>)
    ensures |ops| == n && AllSucceed(ops)
  {
    if n == 0 then [] else [Call(at, at, true)] + Successes(n - 1, at)
  }

  lemma {:induction false} SuccessesTimely(n: nat, clock: int, at: int)
    requires clock <= at
    ensures SeqTimely(clock, Successes(n, at))
    decreases n
  {
    if n > 0 {
      SuccessesTimely(n - 1, at, at);
      assert Successes(n, at)[1..] == Successes(n - 1, at);
    }
  }

  /** A half-open breaker with room for `n` more probes takes them all; reaching the threshold closes it. */
  lemma {:induction false} ProbesCount(c: Config, s: State, n: nat, at: int)
    requires c.Valid() && s.mode == HalfOpen && s.inFlight == 0 && s.failures == 0
    requires s.successes + n <= c.halfOpenMaxCalls && s.successes < c.successThreshold &&
             s.successes + n <= c.successThreshold
    ensures s.successes + n < c.successThreshold ==>
              SeqFinal(c, s, Successes(n, at)).mode == HalfOpen && SeqFinal(c, s, Successes(n, at)).inFlight == 0 &&
              SeqFinal(c, s, Successes(n, at)).failures == 0 &&
              SeqFinal(c, s, Successes(n, at)).successes == s.successes + n
    ensures s.successes + n == c.successThreshold ==> SeqFinal(c, s, Successes(n, at)).mode == Closed
    decreases n
  {
    if n > 0 {
      var ops, next := Successes(n, at), SeqStep(c, s, Call(at, at, true));
      assert ops[0] == Call(at, at, true) && ops[1..] == Successes(n - 1, at);
      if s.successes + 1 < c.successThreshold {
        assert next.mode == HalfOpen && next.successes == s.successes + 1;
        ProbesCount(c, next, n - 1, at);
      } else {
        assert n == 1 && Successes(0, at) == [];
      }
    }
  }

  /** The first call after the timeout is itself the first probe. */
  lemma FirstProbe(c: Config, s: State, at: int)
    requires c.Valid() && s.mode == Open && s.inFlight == 0 && TimedOut(c, s, at)
    ensures SeqStep(c, s, Call(at, at, true)).mode == if c.successThreshold == 1 then Closed else HalfOpen
    ensures c.successThreshold > 1 ==>
              SeqStep(c, s, Call(at, at, true)).successes == 1 && SeqStep(c, s, Call(at, at, true)).failures == 0 &&
              SeqStep(c, s, Call(at, at, true)).inFlight == 0
  {
  }

  function PastTimeout(c: Config, s: State, clock: int): int {
    var due := s.lastStateChange + c.timeout + 1;
    if clock < due then due else clock
  }

  /**
  In sequential use an opened breaker can close again exactly when its probe slots suffice for its
  success threshold.
  */
  lemma ClosesIff(c: Config, s: State, clock: int)
    requires c.Valid() && Balanced(c, s) && s.mode == Open && s.inFlight == 0
    ensures CanClose(c, s, clock) <==> c.timeout > 0 && c.successThreshold <= c.halfOpenMaxCalls
  {
    if c.timeout > 0 && c.successThreshold <= c.halfOpenMaxCalls {
      var at, n := PastTimeout(c, s, clock), c.successThreshold;
      var ops := Successes(n, at);
      FirstProbe(c, s, at);
      assert ops[0] == Call(at, at, true) && ops[1..] == Successes(n - 1, at);
      if n == 1 {
        assert Successes(0, at) == [];
      } else {
        ProbesCount(c, SeqStep(c, s, ops[0]), n - 1, at);
      }
      SuccessesTimely(n, clock, at);
      assert SeqFinal(c, s, ops).mode == Closed;
    } else {
      forall ops | SeqTimely(clock, ops)
        ensures SeqFinal(c, s, ops).mode != Closed
      {
        TrappedForever(c, s, ops);
      }
    }
  }

  /**
  All probe slots used up without reaching the threshold and nothing in flight.  Overlapping calls can
  even use more slots than there are, because only finished calls are counted.
  */
  ghost predicate Exhausted(c: Config, s: State) {
    s.mode == HalfOpen && s.inFlight == 0 && s.failures == 0 && c.halfOpenMaxCalls <= s.successes < c.successThreshold
  }

  predicate AllSucceed(ops: seq<SeqOp>) {
    forall i :: 0 <= i < |ops| && ops[i].Call? ==> ops[i].ok
  }

  /** While every call succeeds, the successes since the opening are exactly the filled probe slots. */
  ghost predicate Filling(c: Config, s: State, base: nat) {
    && s.inFlight == 0 && s.failures == 0 && c.halfOpenMaxCalls < c.successThreshold
    && s.mode != Closed && s.successes <= c.halfOpenMaxCalls && (s.mode == Open ==> s.successes == 0)
    && s.successCalls == base + s.successes
  }

  lemma FillingStep(c: Config, s: State, base: nat, op: SeqOp)
    requires c.Valid() && Filling(c, s, base) && (op.Call? ==> op.ok)
    ensures Filling(c, SeqStep(c, s, op), base)
  {
  }

  lemma {:induction false} FillingForever(c: Config, s: State, base: nat, ops: seq<SeqOp>)
    requires c.Valid() && Filling(c, s, base) && AllSucceed(ops)
    ensures Filling(c, SeqFinal(c, s, ops), base)
    decreases |ops|
  {
    if ops != [] {
      FillingStep(c, s, base, ops[0]);
      FillingForever(c, SeqStep(c, s, ops[0]), base, ops[1..]);
    }
  }

  /**
  On every sequential trace of succeeding calls, with ticks and rejections anywhere, an opened
  breaker whose threshold exceeds its slots lets at most as many calls succeed as it has slots,
  and is exhausted exactly when that many have.
  */
  lemma SuccessfulProbesExhaust(c: Config, s: State, ops: seq<SeqOp>)
    requires c.Valid() && Balanced(c, s) && s.mode == Open && s.inFlight == 0
    requires c.halfOpenMaxCalls < c.successThreshold && AllSucceed(ops)
    ensures var f := SeqFinal(c, s, ops);
            && f.successCalls - s.successCalls <= c.halfOpenMaxCalls
            && (f.successCalls - s.successCalls == c.halfOpenMaxCalls <==> Exhausted(c, f))
  {
    FillingForever(c, s, s.successCalls, ops);
  }

  /** With a positive timeout some such trace does fill every slot. */
  lemma ProbesCanExhaust(c: Config, s: State, clock: int)
    requires c.Valid() && Balanced(c, s) && s.mode == Open && s.inFlight == 0
    requires c.timeout > 0 && c.halfOpenMaxCalls < c.successThreshold
    ensures exists ops :: SeqTimely(clock, ops) && AllSucceed(ops) && Exhausted(c, SeqFinal(c, s, ops))
  {
    var at, n := PastTimeout(c, s, clock), c.halfOpenMaxCalls;
    var ops := Successes(n, at);
    assert ops[0] == Call(at, at, true) && ops[1..] == Successes(n - 1, at);
    FirstProbe(c, s, at);
    ProbesCount(c, SeqStep(c, s, ops[0]), n - 1, at);
    SuccessesTimely(n, clock, at);
  }

  /** From then on every call is rejected, in every interleaving of whatever comes. */
  lemma {:induction false} ExhaustedRejectsForever(c: Config, s: State, clock: int, ops: seq<Op>)
    requires c.Valid() && Exhausted(c, s) && IsRun(c, s, clock, ops)
    ensures var f := Final(c, s, clock, ops);
            && Exhausted(c, f) && f.successCalls == s.successCalls
            && f.failedCalls - s.failedCalls == f.totalCalls - s.totalCalls
    decreases |ops|
  {
    if ops != [] {
      ExhaustedRejectsForever(c, Step(c, s, ops[0]), ops[0].at, ops[1..]);
    }
  }

  /** No run at all, however calls overlap, takes the breaker out of half-open. */
  ghost predicate StuckHalfOpen(c: Config, s: State, clock: int) {
    forall ops :: IsRun(c, s, clock, ops) ==> Final(c, s, clock, ops).mode == HalfOpen
  }

  lemma FailureOpens(c: Config, s: State, at: int)
    requires s.mode == HalfOpen && s.inFlight > 0
    ensures IsRun(c, s, at, [OpFail(at)]) && Final(c, s, at, [OpFail(at)]).mode == Open
  {
    var failed := Step(c, s, OpFail(at));
    assert [OpFail(at)][1..] == [];
    assert IsRun(c, failed, at, []) && Final(c, failed, at, []) == failed;
  }

  /** With a call in flight or a slot left one failure opens the breaker again. */
  lemma SlotLeftEscapes(c: Config, s: State, clock: int)
    requires c.Valid() && Balanced(c, s) && s.mode == HalfOpen
    requires s.inFlight > 0 || s.successes < c.halfOpenMaxCalls
    ensures !StuckHalfOpen(c, s, clock)
  {
    if s.inFlight > 0 {
      FailureOpens(c, s, clock);
    } else {
      var begun := Step(c, s, OpBegin(clock));
      FailureOpens(c, begun, clock);
      var ops := [OpBegin(clock)] + [OpFail(clock)];
      assert ops[1..] == [OpFail(clock)];
      assert IsRun(c, s, clock, ops) && Final(c, s, clock, ops).mode == Open;
    }
  }

  /** A half-open breaker is stuck for good exactly when nothing is in flight and no slot is left. */
  lemma StuckHalfOpenIff(c: Config, s: State, clock: int)
    requires c.Valid() && Balanced(c, s) && s.mode == HalfOpen
    ensures StuckHalfOpen(c, s, clock) <==> s.inFlight == 0 && s.successes >= c.halfOpenMaxCalls
  {
    if s.inFlight == 0 && s.successes >= c.halfOpenMaxCalls {
      forall ops | IsRun(c, s, clock, ops)
        ensures Final(c, s, clock, ops).mode == HalfOpen
      {
        ExhaustedRejectsForever(c, s, clock, ops);
      }
    } else {
      SlotLeftEscapes(c, s, clock);
    }
  }

  /** With the default settings an opened breaker never closes again in sequential use. */
  lemma DefaultNeverCloses(s: State, clock: int)
    requires Balanced(DEFAULT_CONFIG, s) && s.mode == Open && s.inFlight == 0
    ensures !CanClose(DEFAULT_CONFIG, s, clock)
  {
    ClosesIff(DEFAULT_CONFIG, s, clock);
  }

  // ----- overlapping calls escape the trap -----

  function Begins(n: nat, at: int): (ops: seq<Op>)
    ensures |ops| == n
  {
    if n == 0 then [] else [OpBegin(at)] + Begins(n - 1, at)
  }

  function Finishes(n: nat, at: int): (ops: seq<Op>)
    ensures |ops| == n
  {
    if n == 0 then [] else [OpSucceed(at)] + Finishes(n - 1, at)
  }

  /** `k` overlapping successes on a half-open breaker close it when they make up the missing threshold. */
  lemma {:induction false} FinishesClose(c: Config, s: State, k: nat, at: int)
    requires c.Valid() && s.mode == HalfOpen && s.inFlight >= k >= 1 && s.successes + k == c.successThreshold
    ensures IsRun(c, s, at, Finishes(k, at)) && Final(c, s, at, Finishes(k, at)).mode == Closed
    decreases k
  {
    var ops := Finishes(k, at);
    assert ops[0] == OpSucceed(at) && ops[1..] == Finishes(k - 1, at);
    if k > 1 {
      FinishesClose(c, Step(c, s, ops[0]), k - 1, at);
    } else {
      assert Finishes(0, at) == [];
    }
  }

  /** Calls admitted while none has finished all pass, because only finished calls fill the probe slots. */
  lemma {:induction false} BeginsThenFinishesClose(c: Config, s: State, n: nat, at: int)
    requires c.Valid() && s.mode == HalfOpen && s.failures == 0 && s.successes == 0
    requires s.inFlight + n == c.successThreshold
    ensures IsRun(c, s, at, Begins(n, at) + Finishes(c.successThreshold, at))
    ensures Final(c, s, at, Begins(n, at) + Finishes(c.successThreshold, at)).mode == Closed
    decreases n
  {
    var ops := Begins(n, at) + Finishes(c.successThreshold, at);
    if n == 0 {
      assert ops == Finishes(c.successThreshold, at);
      FinishesClose(c, s, c.successThreshold, at);
    } else {
      assert ops[0] == OpBegin(at) && ops[1..] == Begins(n - 1, at) + Finishes(c.successThreshold, at);
      BeginsThenFinishesClose(c, Step(c, s, ops[0]), n - 1, at);
    }
  }

  /** With overlapping calls any opened breaker with a positive timeout can close, the default one included. */
  lemma OverlappingCallsCanClose(c: Config, s: State, clock: int)
    requires c.Valid() && Balanced(c, s) && s.mode == Open && s.inFlight == 0 && c.timeout > 0
    ensures exists ops :: IsRun(c, s, clock, ops) && Final(c, s, clock, ops).mode == Closed
  {
    var at, n := PastTimeout(c, s, clock), c.successThreshold;
    var rest := Begins(n - 1, at) + Finishes(n, at);
    var ops := [OpBegin(at)] + rest;
    assert ops[1..] == rest;
    BeginsThenFinishesClose(c, Step(c, s, ops[0]), n - 1, at);
    assert IsRun(c, s, clock, ops) && Final(c, s, clock, ops).mode == Closed;
  }

  // ----- the breaker object -----

  class CircuitBreaker {
    const config: Config
    var state: Mode
    var failures: nat
    var successes: nat
    var totalCalls: nat
    var failedCalls: nat
    var successCalls: nat
    var openCount: nat
    var lastStateChange: int
    ghost var inFlight: nat
    ghost var log: seq<Event>

    ghost function View(): State
      reads this
    {
      State(state, failures, successes, totalCalls, failedCalls, successCalls, openCount, lastStateChange,
            inFlight, log)
    }

    /** Zero settings are replaced by the defaults; the settings are 32-bit values. */
    constructor (c: Config, now: int)
      requires c.failureThreshold < UINT32_LIMIT && c.successThreshold < UINT32_LIMIT
      requires c.halfOpenMaxCalls < UINT32_LIMIT
      ensures View() == Initial(now)
      ensures config == WithDefaults(c) && config.Valid() && Inv(config, View(), now)
      ensures config.failureThreshold == (if c.failureThreshold == 0 then 5 else c.failureThreshold)
      ensures config.successThreshold == (if c.successThreshold == 0 then 3 else c.successThreshold)
      ensures config.halfOpenMaxCalls == (if c.halfOpenMaxCalls == 0 then 1 else c.halfOpenMaxCalls)
      ensures config.timeout == (if c.timeout == 0 then 30 * NANOS_PER_SECOND else c.timeout)
    {
      config := WithDefaults(c);
      state, failures, successes, openCount := Closed, 0, 0, 0;
      totalCalls, failedCalls, successCalls := 0, 0, 0;
      lastStateChange := now;
      inFlight, log := 0, [];
    }

    method ChangeState(newState: Mode, now: int)
      modifies this
      ensures View() == SetState(old(View()), newState, now)
      ensures state == newState && (old(state) == newState ==> View() == old(View()))
      ensures old(state) != newState ==>
                && failures == 0 && successes == 0 && lastStateChange == now
                && openCount == old(openCount) + (if newState == Open then 1 else 0)
                && log == old(log) + [Changed(old(state), newState, now)]
    {
      if state == newState {
        return;
      }
      log := log + [Changed(state, newState, now)];
      state := newState;
      lastStateChange := now;
      failures, successes := 0, 0;
      if newState == Open {
        openCount := openCount + 1;
      }
    }

    method ResetToClosed(now: int)
      modifies this
      ensures View() == Reset(old(View()), now)
      ensures state == Closed && failures == 0 && successes == 0 && lastStateChange == now
      ensures openCount == old(openCount) && log == old(log) + [Changed(HalfOpen, Closed, now)]
    {
      state := Closed;
      failures, successes := 0, 0;
      lastStateChange := now;
      log := log + [Changed(HalfOpen, Closed, now)];
    }

    method CheckReady(now: int) returns (ok: bool)
      modifies this
      ensures (View(), ok) == Ready(config, old(View()), now)
      ensures ok <==>
              || old(state) == Closed
              || (old(state) == Open && config.timeout > 0 && now - old(lastStateChange) > config.timeout)
              || (old(state) == HalfOpen && (old(failures) + old(successes)) % 0x1_0000_0000 < config.halfOpenMaxCalls)
      ensures state == if ok && old(state) == Open then HalfOpen else old(state)
    {
      match state
      case Closed =>
        return true;
      case Open =>
        if config.timeout > 0 && now - lastStateChange > config.timeout {
          ChangeState(HalfOpen, now);
          return true;
        }
        return false;
      case HalfOpen =>
        var total := Add32(failures, successes);
        if total >= config.halfOpenMaxCalls {
          return false;
        }
        return true;
    }

    /** The first half of a call: it is counted and either admitted or rejected. */
    method BeginCall(now: int) returns (admitted: bool)
      modifies this
      ensures View() == Step(config, old(View()), OpBegin(now))
      ensures admitted <==>
              || old(state) == Closed
              || (old(state) == Open && config.timeout > 0 && now - old(lastStateChange) > config.timeout)
              || (old(state) == HalfOpen && (old(failures) + old(successes)) % 0x1_0000_0000 < config.halfOpenMaxCalls)
      ensures totalCalls == old(totalCalls) + 1 && successCalls == old(successCalls)
      ensures failedCalls == old(failedCalls) + (if admitted then 0 else 1)
      ensures inFlight == old(inFlight) + (if admitted then 1 else 0)
    {
      totalCalls := totalCalls + 1;
      admitted := CheckReady(now);
      if !admitted {
        failedCalls := failedCalls + 1;
        log := log + [Rejected(now)];
        return;
      }
      inFlight := inFlight + 1;
      log := log + [Admitted(now)];
    }

    method RecordFailure(now: int)
      requires inFlight > 0
      modifies this
      ensures View() == Step(config, old(View()), OpFail(now))
      ensures failedCalls == old(failedCalls) + 1 && inFlight == old(inFlight) - 1
      ensures totalCalls == old(totalCalls) && successCalls == old(successCalls)
      ensures state == Closed <==>
              old(state) == Closed && (old(failures) + 1) % 0x1_0000_0000 < config.failureThreshold
      ensures state == Closed ==> failures == (old(failures) + 1) % 0x1_0000_0000
      ensures state != Closed ==> state == Open
    {
      failedCalls := failedCalls + 1;
      inFlight := inFlight - 1;
      if state == HalfOpen {
        failures := Add32(failures, 1);
        ChangeState(Open, now);
        return;
      }
      if state == Closed {
        failures := Add32(failures, 1);
        if failures >= config.failureThreshold {
          ChangeState(Open, now);
        }
      }
    }

    method RecordSuccess(now: int)
      requires inFlight > 0
      modifies this
      ensures View() == Step(config, old(View()), OpSucceed(now))
      ensures successCalls == old(successCalls) + 1 && inFlight == old(inFlight) - 1
      ensures totalCalls == old(totalCalls) && failedCalls == old(failedCalls)
      ensures old(state) == Closed ==> state == Closed && failures == 0
      ensures old(state) == Open ==> state == Open
      ensures old(state) == HalfOpen ==>
                if (old(successes) + 1) % 0x1_0000_0000 >= config.successThreshold then state == Closed
                else state == HalfOpen && successes == (old(successes) + 1) % 0x1_0000_0000
    {
      successCalls := successCalls + 1;
      inFlight := inFlight - 1;
      if state == HalfOpen {
        successes := Add32(successes, 1);
        if successes >= config.successThreshold {
          ResetToClosed(now);
        }
        return;
      }
      if state == Closed {
        failures := 0;
      }
    }

    method ProbeTick(now: int)
      modifies this
      ensures View() == Step(config, old(View()), OpProbe(now))
      ensures if old(state) == Open && config.timeout > 0 && now - old(lastStateChange) > config.timeout
              then state == HalfOpen && lastStateChange == now && openCount == old(openCount)
              else View() == old(View())
    {
      if state == Open {
        if config.timeout > 0 && now - lastStateChange > config.timeout {
          ChangeState(HalfOpen, now);
        }
      }
    }
  }
}
