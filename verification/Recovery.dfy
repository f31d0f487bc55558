/**
Missed-run recovery: the cron helpers of internal/scheduler/cron.go and the recovery engine of
internal/scheduler/recovery.go.

Times are integers.  A parsed cron expression is known only by its `Next`: the least fire time
strictly after its argument.
*/
module Recovery {
  import opened Results

  // ----- schedules -----

  /** The instants at which a schedule fires. */
  predicate Fires(next: int -> int, t: int) {
    next(t - 1) == t
  }

  /** `next` answers the least fire time strictly after its argument. */
  ghost predicate IsNext(next: int -> int) {
    forall t :: LeastAfter(next, t)
  }

  ghost predicate LeastAfter(next: int -> int, t: int) {
    next(t) > t && Fires(next, next(t)) && forall u :: t < u < next(t) ==> !Fires(next, u)
  }

  /** The fire times in the interval (lo, hi]. */
  ghost function FireTimes(next: int -> int, lo: int, hi: int): set<int> {
    set t | lo < t <= hi && Fires(next, t)
  }

  /** Moving from one instant to the next fire time adds exactly that fire time. */
  lemma FireTimesStep(next: int -> int, lo: int, cur: int)
    requires IsNext(next) && lo <= cur
    ensures FireTimes(next, lo, next(cur)) == FireTimes(next, lo, cur) + {next(cur)}
    ensures |FireTimes(next, lo, next(cur))| == |FireTimes(next, lo, cur)| + 1
    ensures next(cur) > cur && Fires(next, next(cur))
  {
    assert LeastAfter(next, cur);
    assert next(cur) !in FireTimes(next, lo, cur);
  }

  /** No fire time lies between an instant and its successor. */
  lemma FireTimesGap(next: int -> int, lo: int, cur: int, hi: int)
    requires IsNext(next) && lo <= cur <= hi < next(cur)
    ensures FireTimes(next, lo, hi) == FireTimes(next, lo, cur)
    ensures next(hi) == next(cur)
  {
    assert LeastAfter(next, cur) && LeastAfter(next, hi);
    assert Fires(next, next(hi)) && Fires(next, next(cur));
  }

  /** What parsing an expression yields; the parser itself is not modelled. */
  type Parsed = Option<int -> int>

  ghost predicate ParsedWell(p: Parsed) {
    p.Some? ==> IsNext(p.value)
  }

  method CountMissedRuns(p: Parsed, since: int, until: int) returns (r: Result<(nat, int)>)
    requires ParsedWell(p)
    ensures r.Err? <==> since > until || p.None?
    ensures r.Ok? ==> r.value.0 == |FireTimes(p.value, since, until)|
    ensures r.Ok? ==> r.value.1 > until && Fires(p.value, r.value.1)
    ensures r.Ok? ==> FireTimes(p.value, until, r.value.1) == {r.value.1}
    ensures r.Ok? ==> r.value.1 == p.value(until)
  {
    if since > until {
      return Err("since must be before until");
    }
    if p.None? {
      return Err("invalid cron expression");
    }
    var schedule := p.value;
    var count: nat := 0;
    ghost var seen := since;
    assert FireTimes(schedule, since, since) == {};
    var next := schedule(since);
    while next <= until
      invariant since <= seen <= until && next == schedule(seen)
      invariant count == |FireTimes(schedule, since, seen)|
      decreases until - seen
    {
      FireTimesStep(schedule, since, seen);
      count := count + 1;
      seen := next;
      next := schedule(next);
    }
    FireTimesGap(schedule, since, seen, until);
    FireTimesStep(schedule, until, until);
    assert FireTimes(schedule, until, until) == {};
    return Ok((count, next));
  }

  /** `times` are the first fire times after `now`, in order. */
  ghost predicate FirstRuns(next: int -> int, now: int, times: seq<int>) {
    forall i :: 0 <= i < |times| ==>
      times[i] > now && Fires(next, times[i]) && |FireTimes(next, now, times[i])| == i + 1
  }

  method NextNRunTimes(p: Parsed, n: int, now: int) returns (r: Result<seq<int>>)
    requires ParsedWell(p)
    ensures r.Err? <==> n <= 0 || p.None?
    ensures r.Ok? ==> |r.value| == n
    ensures r.Ok? ==> FirstRuns(p.value, now, r.value)
  {
    if n <= 0 {
      return Err("n must be positive");
    }
    if p.None? {
      return Err("invalid cron expression");
    }
    var schedule := p.value;
    var times: seq<int> := [];
    var next := now;
    assert FireTimes(schedule, now, now) == {};
    for i := 0 to n
      invariant |times| == i && now <= next && |FireTimes(schedule, now, next)| == i
      invariant FirstRuns(schedule, now, times)
    {
      FireTimesStep(schedule, now, next);
      next := schedule(next);
      times := times + [next];
    }
    return Ok(times);
  }

  method IsCronDue(p: Parsed, since: int, now: int) returns (r: Result<bool>)
    requires ParsedWell(p)
    ensures r.Err? <==> p.None?
    ensures r.Ok? ==> (r.value <==> FireTimes(p.value, since, now) != {})
  {
    if p.None? {
      return Err("invalid cron expression");
    }
    var next := p.value(since);
    assert LeastAfter(p.value, since);
    if next <= now {
      assert next in FireTimes(p.value, since, now);
    }
    return Ok(next <= now);
  }

  // ----- recovering one schedule -----

  datatype Policy = PolicyNone | ExecuteLatest | SkipAll | ExecuteAll | UnknownPolicy

  datatype Config = Config(policy: Policy, maxLookback: int, dryRun: bool) {
    /** The policies that write the next run time back to the store. */
    predicate Persists() {
      policy == SkipAll || policy == ExecuteLatest || (policy == ExecuteAll && !dryRun)
    }
  }

  datatype Schedule = Schedule(id: string, enabled: bool, active: bool, zoneLoads: bool, cron: Parsed,
                               nextRun: int, lastRun: Option<int>)

  /** Outcomes the engine does not decide: the i-th recovery job, and the store's update. */
  datatype Env = Env(jobOk: nat -> bool, updateOk: bool)

  datatype RecoveryResult = RecoveryResult(missed: nat, executed: nat, skipped: nat, nextAt: Option<int>)

  datatype Outcome = Outcome(result: RecoveryResult, failed: bool, stored: Option<int>)

  const NOTHING := RecoveryResult(0, 0, 0, None)

  /** Where the search for missed runs begins: the last run, but not before the lookback limit. */
  function Since(c: Config, sch: Schedule, now: int): int {
    var lookbackStart := now - c.maxLookback;
    if sch.lastRun.Some? && sch.lastRun.value > lookbackStart then sch.lastRun.value else lookbackStart
  }

  /** The number of the first `n` recovery jobs that succeed. */
  function JobsOk(jobOk: nat -> bool, n: nat): nat {
    if n == 0 then 0 else JobsOk(jobOk, n - 1) + (if jobOk(n - 1) then 1 else 0)
  }

  lemma {:induction false} JobsOkBound(jobOk: nat -> bool, n: nat)
    ensures JobsOk(jobOk, n) <= n
    ensures JobsOk(jobOk, n) == n <==> forall i: nat :: i < n ==> jobOk(i)
  {
    if n > 0 {
      JobsOkBound(jobOk, n - 1);
    }
  }

  /** The runs a schedule has missed, when they can be counted at all. */
  ghost function Missed(c: Config, sch: Schedule, now: int): nat
    requires sch.cron.Some?
  {
    |FireTimes(sch.cron.value, Since(c, sch, now), now)|
  }

  /** The schedule is due and its missed runs can be counted. */
  predicate Countable(c: Config, sch: Schedule, now: int) {
    sch.enabled && sch.active && sch.zoneLoads && sch.nextRun <= now && Since(c, sch, now) <= now && sch.cron.Some?
  }

  /** How a policy splits the missed runs into executed and skipped ones. */
  function Split(c: Config, env: Env, missed: nat): (nat, nat)
    requires missed > 0
  {
    match c.policy
    case SkipAll => (0, missed)
    case ExecuteLatest => (1, missed - 1)
    case ExecuteAll => (if c.dryRun then missed else JobsOk(env.jobOk, missed), 0)
    case PolicyNone => (missed, 0)
    case UnknownPolicy => (0, missed)
  }

  predicate LatestJobFails(c: Config, env: Env) {
    c.policy == ExecuteLatest && !c.dryRun && !env.jobOk(0)
  }

  /** What recovering one schedule amounts to. */
  ghost function Recovered(c: Config, sch: Schedule, now: int, env: Env): Outcome {
    if !sch.enabled || !sch.active then Outcome(NOTHING, false, None)
    else if !sch.zoneLoads then Outcome(NOTHING, true, None)
    else if sch.nextRun > now then Outcome(NOTHING.(nextAt := Some(sch.nextRun)), false, None)
    else if !Countable(c, sch, now) then Outcome(NOTHING, true, None)
    else
      var missed := Missed(c, sch, now);
      if missed == 0 then Outcome(NOTHING, false, None)
      else
        var parts := Split(c, env, missed);
        var after := sch.cron.value(now);
        if LatestJobFails(c, env) then Outcome(RecoveryResult(missed, parts.0, parts.1, None), true, None)
        else
          Outcome(RecoveryResult(missed, parts.0, parts.1, Some(after)),
                  c.Persists() && !env.updateOk,
                  if c.Persists() && env.updateOk then Some(after) else None)
  }

  /** The table's update: a next run that moves forward leaves its old value as the last run. */
  function Advanced(row: Schedule, nextRun: int): Schedule {
    row.(nextRun := nextRun, lastRun := if row.nextRun < nextRun then Some(row.nextRun) else row.lastRun)
  }

  /** The schedule as its row reads afterwards, when recovery started from that row. */
  function AfterStore(sch: Schedule, o: Outcome): Schedule {
    if o.stored.Some? then Advanced(sch, o.stored.value) else sch
  }

  // ----- what each policy must do -----

  /** The fire times a recovery has to deal with: after the last run, within the lookback, up to now. */
  ghost function MissedTimes(c: Config, sch: Schedule, now: int): set<int>
    requires sch.cron.Some?
  {
    set t | now - c.maxLookback < t <= now && (sch.lastRun.Some? ==> sch.lastRun.value < t) && Fires(sch.cron.value, t)
  }

  /** Due, with a readable expression and an interval that does not run backwards. */
  ghost predicate MustCount(c: Config, sch: Schedule, now: int) {
    && sch.enabled && sch.active && sch.zoneLoads && sch.nextRun <= now
    && sch.cron.Some? && c.maxLookback >= 0 && (sch.lastRun.Some? ==> sch.lastRun.value <= now)
  }

  ghost function JobsThatSucceed(jobOk: nat -> bool, n: nat): set<int> {
    set i | 0 <= i < n && jobOk(i)
  }

  /** How many of `missed` runs each policy executes; it skips the others, but failed jobs are in neither count. */
  ghost predicate SplitAsRequired(c: Config, jobOk: nat -> bool, missed: nat, r: RecoveryResult) {
    && r.missed == missed
    && (c.policy == SkipAll || c.policy == UnknownPolicy ==> r.executed == 0 && r.skipped == missed)
    && (c.policy == ExecuteLatest ==> r.executed == 1 && r.skipped == missed - 1)
    && (c.policy == PolicyNone ==> r.executed == missed && r.skipped == 0)
    && (c.policy == ExecuteAll ==> r.skipped == 0)
    && (c.policy == ExecuteAll && c.dryRun ==> r.executed == missed)
    && (c.policy == ExecuteAll && !c.dryRun ==> r.executed == |JobsThatSucceed(jobOk, missed)|)
  }

  lemma OneMoreJob(jobOk: nat -> bool, n: nat)
    ensures JobsThatSucceed(jobOk, n + 1) == JobsThatSucceed(jobOk, n) + (if jobOk(n) then {n} else {})
  {
  }

  lemma {:induction false} JobsOkCounts(jobOk: nat -> bool, n: nat)
    ensures JobsOk(jobOk, n) == |JobsThatSucceed(jobOk, n)|
  {
    if n == 0 {
      assert JobsThatSucceed(jobOk, 0) == {};
    } else {
      JobsOkCounts(jobOk, n - 1);
      OneMoreJob(jobOk, n - 1);
      assert n - 1 !in JobsThatSucceed(jobOk, n - 1);
    }
  }

  lemma MissedTimesSinceLastRun(c: Config, sch: Schedule, now: int)
    requires sch.cron.Some?
    ensures MissedTimes(c, sch, now) == FireTimes(sch.cron.value, Since(c, sch, now), now)
    ensures MustCount(c, sch, now) <==> Countable(c, sch, now)
  {
  }

  /** The modelled recovery splits the missed runs as its policy requires. */
  lemma RecoveredSplits(c: Config, sch: Schedule, now: int, env: Env)
    ensures var r := Recovered(c, sch, now, env).result;
            if MustCount(c, sch, now) && MissedTimes(c, sch, now) != {}
            then SplitAsRequired(c, env.jobOk, |MissedTimes(c, sch, now)|, r)
            else r.missed == 0 && r.executed == 0 && r.skipped == 0
  {
    if sch.cron.Some? {
      MissedTimesSinceLastRun(c, sch, now);
      JobsOkCounts(env.jobOk, |MissedTimes(c, sch, now)|);
    }
  }

  class Engine {
    const config: Config
    var rows: map<string, Schedule>     // the schedule table

    constructor (c: Config, table: map<string, Schedule>)
      ensures config == c && rows == table
    {
      config, rows := c, table;
    }

    /** The table's update fails when the database does or when there is no such row. */
    method UpdateNextRunTime(id: string, nextRun: int, dbOk: bool) returns (ok: bool)
      modifies this
      ensures ok <==> dbOk && id in old(rows)
      ensures !ok ==> rows == old(rows)
      ensures ok ==>
                && rows.Keys == old(rows).Keys && (forall k :: k in rows && k != id ==> rows[k] == old(rows)[k])
                && rows[id].nextRun == nextRun
                && rows[id].lastRun ==
                   (if old(rows)[id].nextRun < nextRun then Some(old(rows)[id].nextRun) else old(rows)[id].lastRun)
                && rows[id] == old(rows)[id].(nextRun := rows[id].nextRun, lastRun := rows[id].lastRun)
      ensures rows == if ok then old(rows)[id := Advanced(old(rows)[id], nextRun)] else old(rows)
    {
      if !dbOk || id !in rows {
        return false;
      }
      var row := rows[id];
      if row.nextRun < nextRun {
        row := row.(lastRun := Some(row.nextRun));
      }
      rows := rows[id := row.(nextRun := nextRun)];
      return true;
    }

    /** Runs the missed jobs one by one; failed ones are logged and passed over. */
    method ExecuteAllMissed(env: Env, schedule: int -> int, since: int, missed: nat) returns (executed: nat)
      ensures executed == if config.dryRun then missed else JobsOk(env.jobOk, missed)
      ensures executed == if config.dryRun then missed else |JobsThatSucceed(env.jobOk, missed)|
    {
      JobsOkCounts(env.jobOk, missed);
      executed := 0;
      var intermediate := since;
      for i := 0 to missed
        invariant executed == if config.dryRun then i else JobsOk(env.jobOk, i)
      {
        intermediate := schedule(intermediate);
        if config.dryRun {
          executed := executed + 1;
        } else if env.jobOk(i) {
          executed := executed + 1;
        }
      }
    }

    method RecoverSingleSchedule(sch: Schedule, now: int, env: Env) returns (result: RecoveryResult, failed: bool)
      requires ParsedWell(sch.cron)
      modifies this
      ensures var o := Recovered(config, sch, now, env.(updateOk := env.updateOk && sch.id in old(rows)));
              && result == o.result && failed == o.failed
              && rows == (if o.stored.Some?
                          then old(rows)[sch.id := Advanced(old(rows)[sch.id], o.stored.value)] else old(rows))
      ensures sch.id in old(rows) && old(rows)[sch.id] == sch ==>
                sch.id in rows && rows[sch.id] == AfterStore(sch, Recovered(config, sch, now, env))
      ensures MustCount(config, sch, now) && MissedTimes(config, sch, now) != {} ==>
                SplitAsRequired(config, env.jobOk, |MissedTimes(config, sch, now)|, result)
      ensures !(MustCount(config, sch, now) && MissedTimes(config, sch, now) != {}) ==>
                result.missed == 0 && result.executed == 0 && result.skipped == 0 && rows == old(rows)
      ensures sch.enabled && sch.active && sch.zoneLoads && sch.nextRun > now ==>
                !failed && result.nextAt == Some(sch.nextRun)
      ensures failed ==> rows == old(rows) && sch.enabled && sch.active
      ensures sch.enabled && sch.active && !sch.zoneLoads ==> failed
      ensures sch.enabled && sch.active && sch.zoneLoads && sch.nextRun <= now && !MustCount(config, sch, now) ==>
                failed
      ensures MustCount(config, sch, now) && MissedTimes(config, sch, now) == {} ==> !failed && result.nextAt == None
      ensures MustCount(config, sch, now) && MissedTimes(config, sch, now) != {} ==>
                var jobFails := config.policy == ExecuteLatest && !config.dryRun && !env.jobOk(0);
                var writes := config.policy == SkipAll || config.policy == ExecuteLatest ||
                              (config.policy == ExecuteAll && !config.dryRun);
                && (failed <==> jobFails || (writes && !(env.updateOk && sch.id in old(rows))))
                && result.nextAt == (if jobFails then None else Some(sch.cron.value(now)))
                && (writes && !failed ==> sch.id in rows && rows[sch.id].nextRun == sch.cron.value(now))
                && (!writes ==> rows == old(rows))
    {
      ghost var entered := env.(updateOk := env.updateOk && sch.id in rows);
      RecoveredSplits(config, sch, now, entered);
      if sch.cron.Some? {
        MissedTimesSinceLastRun(config, sch, now);
      }
      result := NOTHING;
      if !sch.enabled || !sch.active {
        return result, false;
      }
      if !sch.zoneLoads {
        return result, true;
      }
      var lookbackStart := now - config.maxLookback;
      var since := lookbackStart;
      if sch.lastRun.Some? && sch.lastRun.value > lookbackStart {
        since := sch.lastRun.value;
      }
      if sch.nextRun > now {
        result := result.(nextAt := Some(sch.nextRun));
        return result, false;
      }
      var counted := CountMissedRuns(sch.cron, since, now);
      if counted.Err? {
        return result, true;
      }
      var (missedCount, nextRun) := counted.value;
      result := result.(missed := missedCount);
      if missedCount == 0 {
        return result, false;
      }
      failed := false;
      match config.policy
      case SkipAll =>
        result := result.(skipped := missedCount, nextAt := Some(nextRun));
        var ok := UpdateNextRunTime(sch.id, nextRun, env.updateOk);
        failed := !ok;
      case ExecuteLatest =>
        result := result.(skipped := missedCount - 1, executed := 1);
        if !config.dryRun && !env.jobOk(0) {
          return result, true;
        }
        result := result.(nextAt := Some(nextRun));
        var ok := UpdateNextRunTime(sch.id, nextRun, env.updateOk);
        failed := !ok;
      case ExecuteAll =>
        var executeCount := ExecuteAllMissed(env, sch.cron.value, since, missedCount);
        result := result.(executed := executeCount, nextAt := Some(nextRun));
        if !config.dryRun {
          var ok := UpdateNextRunTime(sch.id, nextRun, env.updateOk);
          failed := !ok;
        }
      case PolicyNone =>
        result := result.(executed := missedCount, nextAt := Some(nextRun));
      case UnknownPolicy =>
        result := result.(skipped := missedCount, nextAt := Some(nextRun));
    }
  }

  // ----- what recovery guarantees -----

  /** Every policy accounts for each missed run, except that ExecuteAll drops the jobs that fail. */
  lemma MissedRunsAccounted(c: Config, sch: Schedule, now: int, env: Env)
    ensures var r := Recovered(c, sch, now, env).result;
            && r.executed + r.skipped <= r.missed
            && (r.executed + r.skipped == r.missed <==>
                  c.policy != ExecuteAll || c.dryRun || forall i: nat :: i < r.missed ==> env.jobOk(i))
  {
    if Countable(c, sch, now) {
      JobsOkBound(env.jobOk, Missed(c, sch, now));
    }
  }

  /**
  Whatever is counted as missed is a fire time after the last run and not after `now`, and the new next
  run is the first one after `now`.
  */
  lemma NextRunIsFuture(c: Config, sch: Schedule, now: int, env: Env)
    requires ParsedWell(sch.cron)
    ensures var o := Recovered(c, sch, now, env);
            && (o.stored.Some? ==>
                  && o.result.nextAt == o.stored && o.stored.value > now
                  && FireTimes(sch.cron.value, now, o.stored.value) == {o.stored.value})
            && (o.result.missed > 0 ==> o.result.missed == |FireTimes(sch.cron.value, Since(c, sch, now), now)|)
  {
    if sch.cron.Some? {
      FireTimesStep(sch.cron.value, now, now);
      assert FireTimes(sch.cron.value, now, now) == {};
    }
  }

  /**
  Recovering again at the same instant after a first recovery that found missed runs and reported
  no error finds nothing exactly when the policy writes its result back.
  */
  lemma RerunFindsNothingIff(c: Config, sch: Schedule, now: int, first: Env, second: Env)
    requires ParsedWell(sch.cron)
    requires !Recovered(c, sch, now, first).failed && Recovered(c, sch, now, first).result.missed > 0
    ensures Recovered(c, AfterStore(sch, Recovered(c, sch, now, first)), now, second).result.missed == 0
            <==> c.Persists()
  {
    assert LeastAfter(sch.cron.value, now);
  }

  /** Under this configuration no recovery ever writes to the table. */
  ghost predicate WritesNothing(c: Config) {
    forall sch: Schedule, now: int, env: Env :: ParsedWell(sch.cron) ==> Recovered(c, sch, now, env).stored == None
  }

  /**
  A recovery can write unless its policy keeps the result to itself or there is no lookback.  A dry run
  makes a difference for ExecuteAll only: under SkipAll and ExecuteLatest it writes all the same.
  */
  lemma WritesNothingIff(c: Config)
    ensures WritesNothing(c) <==> c.maxLookback <= 0 || !c.Persists()
    ensures c.dryRun ==>
              (WritesNothing(c) <==> c.maxLookback <= 0 || (c.policy != SkipAll && c.policy != ExecuteLatest))
  {
    if c.maxLookback > 0 && c.Persists() {
      var sch := Schedule("s", true, true, true, Some((t: int) => t + 1), 0, None);
      assert 0 in FireTimes(sch.cron.value, Since(c, sch, 0), 0);
      assert Recovered(c, sch, 0, Env(_ => true, true)).stored.Some?;
    } else if c.maxLookback <= 0 {
      forall sch: Schedule, now: int, env: Env | ParsedWell(sch.cron)
        ensures Recovered(c, sch, now, env).stored == None
      {
        if Countable(c, sch, now) {
          NothingLooksBack(c, sch, now);
        }
      }
    }
  }

  lemma NothingLooksBack(c: Config, sch: Schedule, now: int)
    requires c.maxLookback <= 0 && Countable(c, sch, now)
    ensures Missed(c, sch, now) == 0
  {
    assert FireTimes(sch.cron.value, Since(c, sch, now), now) == {};
  }

  // ----- two recoveries in a row -----

  /** The runs a recovery counts as missed; it counts none when the schedule is not due. */
  ghost function CountedRuns(c: Config, sch: Schedule, now: int): set<int> {
    if Countable(c, sch, now) then FireTimes(sch.cron.value, Since(c, sch, now), now) else {}
  }

  function Max(x: int, y: int): int {
    if x < y then y else x
  }

  /** The next recovery starts from the old next run, which the update made the last run. */
  lemma SinceAfterStore(c: Config, sch: Schedule, now: int, later: int, first: Env)
    requires ParsedWell(sch.cron) && now <= later && Recovered(c, sch, now, first).stored.Some?
    ensures var again := AfterStore(sch, Recovered(c, sch, now, first));
            && Since(c, again, later) == Max(later - c.maxLookback, sch.nextRun)
            && (Countable(c, again, later) <==> sch.cron.value(now) <= later)
  {
    assert LeastAfter(sch.cron.value, now);
  }

  /** No fire time lies in an interval exactly when it is empty or the next fire time lies beyond it. */
  lemma NoFireTimesIff(next: int -> int, lo: int, hi: int)
    requires IsNext(next)
    ensures FireTimes(next, lo, hi) == {} <==> lo >= hi || next(lo) > hi
  {
    assert LeastAfter(next, lo);
    if next(lo) <= hi {
      assert next(lo) in FireTimes(next, lo, hi);
    }
  }

  /**
  After a recovery that was written back, a later one counts again exactly the runs that lie after
  the old next run and inside its own lookback.  So no run is counted twice exactly when the
  schedule is not due again, or no fire time lies between that point and the first recovery.
  */
  lemma CountedTwiceIff(c: Config, sch: Schedule, now: int, later: int, first: Env)
    requires ParsedWell(sch.cron) && now <= later && Recovered(c, sch, now, first).stored.Some?
    ensures var again := AfterStore(sch, Recovered(c, sch, now, first));
            var from := Max(later - c.maxLookback, sch.nextRun);
            var twice := CountedRuns(c, sch, now) * CountedRuns(c, again, later);
            var next := sch.cron.value;
            && (next(now) <= later ==> twice == FireTimes(next, Max(from, Since(c, sch, now)), now))
            && (twice == {} <==> later < next(now) || from >= now || next(Max(from, Since(c, sch, now))) > now)
  {
    var from, next := Max(later - c.maxLookback, sch.nextRun), sch.cron.value;
    SinceAfterStore(c, sch, now, later, first);
    NoFireTimesIff(next, Max(from, Since(c, sch, now)), now);
    assert Since(c, sch, now) < now by {
      assert Since(c, sch, now) >= now ==> FireTimes(next, Since(c, sch, now), now) == {};
    }
  }

  /** A schedule firing at every instant, due at 0, recovered at 5 and again at 6: its run at 3 is recovered twice. */
  lemma DoubleRecoveryExample()
    ensures var c, sch := Config(SkipAll, 10, false), Schedule("s", true, true, true, Some((t: int) => t + 1), 0, None);
            var first := Recovered(c, sch, 5, Env(_ => true, true));
            && ParsedWell(sch.cron) && first.stored.Some?
            && 3 in CountedRuns(c, sch, 5) * CountedRuns(c, AfterStore(sch, first), 6)
  {
    var c, sch := Config(SkipAll, 10, false), Schedule("s", true, true, true, Some((t: int) => t + 1), 0, None);
    assert 3 in FireTimes(sch.cron.value, Since(c, sch, 5), 5);
  }
}
