/**
The two counting limiters: `allow` of internal/api/middleware.go, whose window restarts at every
request, and `CheckRateLimit` of internal/auth/apikey.go, whose window is fixed once opened.

Times and durations are integers (nanoseconds); one request is one atomic step.
*/
module WindowLimiters {

  import opened Durations

  datatype Config = Config(rate: int, window: int) {
    /** A fresh window always admits its first request, so a rate below one acts as one. */
    function Quota(): nat {
      if rate < 1 then 1 else rate
    }
  }

  datatype Visitor = Visitor(count: int, lastSeen: int)
  datatype Entry = Entry(count: int, windowStart: int)
  datatype Req = Req(key: string, at: int)

  type Visitors = map<string, Visitor>
  type Entries = map<string, Entry>

  /** The answer of `allow`: verdict, remaining requests, and the reset time in whole seconds. */
  datatype Answer = Answer(allowed: bool, remaining: int, resetAt: int)

  // ----- one step of each -----

  function Allow(c: Config, m: Visitors, r: Req): (Visitors, Answer) {
    var reset := (r.at + c.window) / NANOS_PER_SECOND;
    if r.key !in m || r.at - m[r.key].lastSeen > c.window then
      (m[r.key := Visitor(1, r.at)], Answer(true, c.rate - 1, reset))
    else
      var n := m[r.key].count + 1;
      (m[r.key := Visitor(n, r.at)], if n > c.rate then Answer(false, 0, reset) else Answer(true, c.rate - n, reset))
  }

  function Sweep(c: Config, m: Visitors, now: int): Visitors {
    map k | k in m && !(now - m[k].lastSeen > c.window * 2) :: m[k]
  }

  function Check(c: Config, m: Entries, r: Req): (Entries, bool) {
    if r.key !in m || r.at - m[r.key].windowStart > c.window then
      (m[r.key := Entry(1, r.at)], true)
    else
      var n := m[r.key].count + 1;
      (m[r.key := m[r.key].(count := n)], n <= c.rate)
  }

  predicate InOrder(start: int, trace: seq<Req>)
    decreases |trace|
  {
    trace == [] || (start <= trace[0].at && InOrder(trace[0].at, trace[1..]))
  }

  // ----- sweeping visitors cannot be noticed -----

  datatype Event = Request(req: Req) | Tick(at: int)

  function EventTime(e: Event): int {
    match e case Request(r) => r.at case Tick(t) => t
  }

  predicate EventsInOrder(start: int, events: seq<Event>)
    decreases |events|
  {
    events == [] || (start <= EventTime(events[0]) && EventsInOrder(EventTime(events[0]), events[1..]))
  }

  /** The answers given during a mix of requests and cleanup ticks. */
  function Answers(c: Config, m: Visitors, events: seq<Event>): seq<Answer>
    decreases |events|
  {
    if events == [] then []
    else match events[0]
      case Request(r) => [Allow(c, m, r).1] + Answers(c, Allow(c, m, r).0, events[1..])
      case Tick(t) => Answers(c, Sweep(c, m, t), events[1..])
  }

  function WithoutTicks(events: seq<Event>): seq<Event> {
    if events == [] then []
    else (if events[0].Tick? then [] else [events[0]]) + WithoutTicks(events[1..])
  }

  ghost predicate SeenBy(m: Visitors, now: int) {
    forall k :: k in m ==> m[k].lastSeen <= now
  }

  /** Whatever the swept map lacks has been idle for longer than the window. */
  ghost predicate SimilarVisitors(c: Config, swept: Visitors, full: Visitors, now: int) {
    && SeenBy(full, now)
    && (forall k :: k in swept ==> k in full && full[k] == swept[k])
    && (forall k :: k in full && k !in swept ==> now - full[k].lastSeen > c.window)
  }

  lemma {:induction false} SimilarAnswers(c: Config, swept: Visitors, full: Visitors, start: int, events: seq<Event>)
    requires SimilarVisitors(c, swept, full, start) && EventsInOrder(start, events)
    ensures Answers(c, swept, events) == Answers(c, full, WithoutTicks(events))
    decreases |events|
  {
    if events != [] {
      var now, rest := EventTime(events[0]), events[1..];
      match events[0]
      case Request(r) =>
        SimilarAnswers(c, Allow(c, swept, r).0, Allow(c, full, r).0, now, rest);
        assert WithoutTicks(events)[0] == events[0] && WithoutTicks(events)[1..] == WithoutTicks(rest);
      case Tick(t) =>
        SimilarAnswers(c, Sweep(c, swept, t), full, now, rest);
        assert WithoutTicks(events) == WithoutTicks(rest);
    }
  }

  /** Whatever the rate and the window, cleanup ticks never change an answer. */
  lemma CleanupUnobservable(c: Config, m: Visitors, start: int, events: seq<Event>)
    requires SeenBy(m, start) && EventsInOrder(start, events)
    ensures Answers(c, m, events) == Answers(c, m, WithoutTicks(events))
  {
    SimilarAnswers(c, m, m, start, events);
  }

  // ----- every answer, from the trace alone -----

  /**
  The position of `r` in the busy stretch of its key, given the requests before it: the stretch begins
  after the last gap longer than the window.
  */
  function Position(c: Config, trace: seq<Req>, r: Req): nat
    decreases |trace|
  {
    if trace == [] then 1
    else
      var before, q := trace[..|trace| - 1], trace[|trace| - 1];
      if q.key != r.key then Position(c, before, r)
      else if r.at - q.at > c.window then 1
      else Position(c, before, q) + 1
  }

  /** The visitors after a trace, from an empty limiter. */
  ghost function VisitorsAfter(c: Config, trace: seq<Req>): Visitors
    decreases |trace|
  {
    if trace == [] then map[] else Allow(c, VisitorsAfter(c, trace[..|trace| - 1]), trace[|trace| - 1]).0
  }

  lemma {:induction false} PositionIsCounted(c: Config, trace: seq<Req>, r: Req)
    ensures var m := VisitorsAfter(c, trace);
            Position(c, trace, r) ==
            if r.key !in m || r.at - m[r.key].lastSeen > c.window then 1 else m[r.key].count + 1
    ensures CountedVisitors(VisitorsAfter(c, trace))
    decreases |trace|
  {
    if trace != [] {
      var before, q := trace[..|trace| - 1], trace[|trace| - 1];
      PositionIsCounted(c, before, if q.key == r.key then q else r);
    }
  }

  /**
  What `allow` must answer to a request at position `n`: yes exactly within the quota, with what is left of
  the rate, and with the second in which the window that now restarts will end.
  */
  predicate AnswerFor(c: Config, n: nat, at: int, a: Answer) {
    && (a.allowed <==> n <= c.Quota())
    && a.remaining == (if a.allowed then c.rate - n else 0)
    && a.resetAt * NANOS_PER_SECOND <= at + c.window < (a.resetAt + 1) * NANOS_PER_SECOND
  }

  /** Every answer of `allow` is fixed by the position of its request in the trace. */
  lemma AllowExact(c: Config, trace: seq<Req>, r: Req)
    ensures AnswerFor(c, Position(c, trace, r), r.at, Allow(c, VisitorsAfter(c, trace), r).1)
  {
    PositionIsCounted(c, trace, r);
  }

  function Requests(events: seq<Event>): seq<Req>
    decreases |events|
  {
    if events == [] then []
    else
      var before, e := events[..|events| - 1], events[|events| - 1];
      Requests(before) + (if e.Request? then [e.req] else [])
  }

  /** The visitors after a mix of requests and cleanup ticks, from an empty limiter. */
  ghost function SweptAfter(c: Config, events: seq<Event>): Visitors
    decreases |events|
  {
    if events == [] then map[]
    else
      var before, e := events[..|events| - 1], events[|events| - 1];
      match e
      case Request(r) => Allow(c, SweptAfter(c, before), r).0
      case Tick(t) => Sweep(c, SweptAfter(c, before), t)
  }

  /** `now` is no earlier than any of the events, which are in order. */
  predicate OrderedUpTo(events: seq<Event>, now: int)
    decreases |events|
  {
    events == [] ||
    (EventTime(events[|events| - 1]) <= now && OrderedUpTo(events[..|events| - 1], EventTime(events[|events| - 1])))
  }

  lemma SimilarLater(c: Config, swept: Visitors, full: Visitors, t: int, now: int)
    requires SimilarVisitors(c, swept, full, t) && t <= now
    ensures SimilarVisitors(c, swept, full, now)
  {
  }

  lemma SimilarAfterRequest(c: Config, swept: Visitors, full: Visitors, r: Req)
    requires SimilarVisitors(c, swept, full, r.at)
    ensures SimilarVisitors(c, Allow(c, swept, r).0, Allow(c, full, r).0, r.at)
    ensures Allow(c, swept, r).1 == Allow(c, full, r).1
  {
  }

  lemma SimilarAfterTick(c: Config, swept: Visitors, full: Visitors, t: int)
    requires SimilarVisitors(c, swept, full, t)
    ensures SimilarVisitors(c, Sweep(c, swept, t), full, t)
  {
  }

  lemma {:induction false} SweptIsSimilar(c: Config, events: seq<Event>, now: int)
    requires OrderedUpTo(events, now)
    ensures SimilarVisitors(c, SweptAfter(c, events), VisitorsAfter(c, Requests(events)), now)
    decreases |events|
  {
    if events != [] {
      var before, e := events[..|events| - 1], events[|events| - 1];
      var swept, full := SweptAfter(c, before), VisitorsAfter(c, Requests(before));
      SweptIsSimilar(c, before, EventTime(e));
      match e
      case Request(r) =>
        SimilarAfterRequest(c, swept, full, r);
        assert (Requests(before) + [r])[..|Requests(before)|] == Requests(before);
        SimilarLater(c, Allow(c, swept, r).0, Allow(c, full, r).0, r.at, now);
      case Tick(t) =>
        SimilarAfterTick(c, swept, full, t);
        assert Requests(events) == Requests(before);
        SimilarLater(c, Sweep(c, swept, t), full, t, now);
    }
  }

  /** The same with cleanup ticks anywhere: only the requests before it decide the answer to a request. */
  lemma AllowExactWithCleanup(c: Config, events: seq<Event>, r: Req)
    requires OrderedUpTo(events, r.at)
    ensures AnswerFor(c, Position(c, Requests(events), r), r.at, Allow(c, SweptAfter(c, events), r).1)
  {
    SweptIsSimilar(c, events, r.at);
    SimilarAfterRequest(c, SweptAfter(c, events), VisitorsAfter(c, Requests(events)), r);
    AllowExact(c, Requests(events), r);
  }

  /** The start of the fixed window that `r` falls into, which is `r` itself if it opens one. */
  function WindowStart(c: Config, trace: seq<Req>, r: Req): int
    decreases |trace|
  {
    if trace == [] then r.at
    else
      var before, q := trace[..|trace| - 1], trace[|trace| - 1];
      if q.key != r.key then WindowStart(c, before, r)
      else if r.at - WindowStart(c, before, q) > c.window then r.at
      else WindowStart(c, before, q)
  }

  /** The position of `r` among the requests of its key in that window. */
  function WindowPosition(c: Config, trace: seq<Req>, r: Req): nat
    decreases |trace|
  {
    if trace == [] then 1
    else
      var before, q := trace[..|trace| - 1], trace[|trace| - 1];
      if q.key != r.key then WindowPosition(c, before, r)
      else if r.at - WindowStart(c, before, q) > c.window then 1
      else WindowPosition(c, before, q) + 1
  }

  ghost function EntriesAfter(c: Config, trace: seq<Req>): Entries
    decreases |trace|
  {
    if trace == [] then map[] else Check(c, EntriesAfter(c, trace[..|trace| - 1]), trace[|trace| - 1]).0
  }

  lemma {:induction false} WindowIsCounted(c: Config, trace: seq<Req>, r: Req)
    ensures var m := EntriesAfter(c, trace);
            if r.key !in m || r.at - m[r.key].windowStart > c.window
            then WindowStart(c, trace, r) == r.at && WindowPosition(c, trace, r) == 1
            else WindowStart(c, trace, r) == m[r.key].windowStart && WindowPosition(c, trace, r) == m[r.key].count + 1
    ensures CountedEntries(EntriesAfter(c, trace))
    decreases |trace|
  {
    if trace != [] {
      var before, q := trace[..|trace| - 1], trace[|trace| - 1];
      WindowIsCounted(c, before, if q.key == r.key then q else r);
    }
  }

  /** `CheckRateLimit` admits a request exactly when its position in its fixed window is within the quota. */
  lemma CheckExact(c: Config, trace: seq<Req>, r: Req)
    ensures Check(c, EntriesAfter(c, trace), r).1 <==> WindowPosition(c, trace, r) <= c.Quota()
  {
    WindowIsCounted(c, trace, r);
  }

  // ----- how many requests of one key pass in a span -----

  predicate Counts(r: Req, key: string, s: int, t: int) {
    r.key == key && s <= r.at <= t
  }

  function AllowedIn(c: Config, m: Visitors, trace: seq<Req>, key: string, s: int, t: int): nat
    decreases |trace|
  {
    if trace == [] then 0
    else (if Counts(trace[0], key, s, t) && Allow(c, m, trace[0]).1.allowed then 1 else 0)
         + AllowedIn(c, Allow(c, m, trace[0]).0, trace[1..], key, s, t)
  }

  function CheckedIn(c: Config, m: Entries, trace: seq<Req>, key: string, s: int, t: int): nat
    decreases |trace|
  {
    if trace == [] then 0
    else (if Counts(trace[0], key, s, t) && Check(c, m, trace[0]).1 then 1 else 0)
         + CheckedIn(c, Check(c, m, trace[0]).0, trace[1..], key, s, t)
  }

  /** How many requests of the key the span contains. */
  function RequestsIn(trace: seq<Req>, key: string, s: int, t: int): nat
    decreases |trace|
  {
    if trace == [] then 0 else (if Counts(trace[0], key, s, t) then 1 else 0) + RequestsIn(trace[1..], key, s, t)
  }

  function Min(a: nat, b: nat): nat {
    if a < b then a else b
  }

  /** What is left of the quota after `n` requests in the current window. */
  function Left(c: Config, n: int): nat {
    if c.rate <= n then 0 else c.rate - n
  }

  /** From a request at `last` on, the key's requests in [s, t] never leave a gap longer than the window. */
  predicate BusyFrom(c: Config, last: int, trace: seq<Req>, key: string, s: int, t: int)
    decreases |trace|
  {
    trace == [] ||
    if Counts(trace[0], key, s, t)
    then trace[0].at - last <= c.window && BusyFrom(c, trace[0].at, trace[1..], key, s, t)
    else BusyFrom(c, last, trace[1..], key, s, t)
  }

  /** The key is never idle for longer than the window during [s, t]. */
  predicate BusyIn(c: Config, trace: seq<Req>, key: string, s: int, t: int)
    decreases |trace|
  {
    trace == [] ||
    if Counts(trace[0], key, s, t)
    then BusyFrom(c, trace[0].at, trace[1..], key, s, t)
    else BusyIn(c, trace[1..], key, s, t)
  }

  lemma {:induction false} AllowedAfterFirst(c: Config, m: Visitors, start: int, trace: seq<Req>, key: string, s: int,
                                             t: int)
    requires InOrder(start, trace) && s <= start && key in m && 1 <= m[key].count
    requires BusyFrom(c, m[key].lastSeen, trace, key, s, t)
    ensures AllowedIn(c, m, trace, key, s, t) == Min(RequestsIn(trace, key, s, t), Left(c, m[key].count))
    decreases |trace|
  {
    if trace != [] {
      if trace[0].at > t {
        NoneAllowedLater(c, m, trace[0].at, trace, key, s, t);
      } else {
        AllowedAfterFirst(c, Allow(c, m, trace[0]).0, trace[0].at, trace[1..], key, s, t);
      }
    }
  }

  lemma {:induction false} NoneAllowedLater(c: Config, m: Visitors, start: int, trace: seq<Req>, key: string, s: int,
                                            t: int)
    requires InOrder(start, trace) && start > t
    ensures AllowedIn(c, m, trace, key, s, t) == RequestsIn(trace, key, s, t) == 0
    decreases |trace|
  {
    if trace != [] {
      NoneAllowedLater(c, Allow(c, m, trace[0]).0, trace[0].at, trace[1..], key, s, t);
    }
  }

  ghost predicate CountedVisitors(m: Visitors) {
    forall k :: k in m ==> 1 <= m[k].count
  }

  /** However long the stretch, a key that is never idle for longer than the window gets at most the quota in it. */
  lemma {:induction false} AllowBusyBound(c: Config, m: Visitors, start: int, trace: seq<Req>, key: string, s: int,
                                          t: int)
    requires CountedVisitors(m) && InOrder(start, trace) && BusyIn(c, trace, key, s, t)
    ensures AllowedIn(c, m, trace, key, s, t) <= c.Quota()
    decreases |trace|
  {
    if trace != [] {
      var r, next := trace[0], Allow(c, m, trace[0]).0;
      if Counts(r, key, s, t) {
        AllowedAfterFirst(c, next, r.at, trace[1..], key, s, t);
      } else {
        AllowBusyBound(c, next, r.at, trace[1..], key, s, t);
      }
    }
  }

  lemma {:induction false} ShortSpanBusyFrom(c: Config, last: int, start: int, trace: seq<Req>, key: string, s: int,
                                             t: int)
    requires InOrder(start, trace) && s <= last && t - s <= c.window
    ensures BusyFrom(c, last, trace, key, s, t)
    decreases |trace|
  {
    if trace != [] {
      var counted := Counts(trace[0], key, s, t);
      ShortSpanBusyFrom(c, if counted then trace[0].at else last, trace[0].at, trace[1..], key, s, t);
    }
  }

  lemma {:induction false} ShortSpanBusy(c: Config, start: int, trace: seq<Req>, key: string, s: int, t: int)
    requires InOrder(start, trace) && t - s <= c.window
    ensures BusyIn(c, trace, key, s, t)
    decreases |trace|
  {
    if trace != [] {
      if Counts(trace[0], key, s, t) {
        ShortSpanBusyFrom(c, trace[0].at, trace[0].at, trace[1..], key, s, t);
      } else {
        ShortSpanBusy(c, trace[0].at, trace[1..], key, s, t);
      }
    }
  }

  /** A whole busy stretch of a key not seen for a window gets exactly the quota, or everything if it is shorter. */
  lemma {:induction false} AllowBusyExact(c: Config, m: Visitors, start: int, trace: seq<Req>, key: string, s: int,
                                          t: int)
    requires CountedVisitors(m) && s <= start && InOrder(start, trace) && BusyIn(c, trace, key, s, t)
    requires key in m ==> start - m[key].lastSeen > c.window
    ensures AllowedIn(c, m, trace, key, s, t) == Min(RequestsIn(trace, key, s, t), c.Quota())
    decreases |trace|
  {
    if trace != [] {
      var r, next := trace[0], Allow(c, m, trace[0]).0;
      if r.at > t {
        NoneAllowedLater(c, m, r.at, trace, key, s, t);
      } else if r.key == key {
        AllowedAfterFirst(c, next, r.at, trace[1..], key, s, t);
      } else {
        AllowBusyExact(c, next, r.at, trace[1..], key, s, t);
      }
    }
  }

  /** In any span no longer than the window, `allow` admits at most the quota for each key. */
  lemma AllowBound(c: Config, m: Visitors, start: int, trace: seq<Req>, key: string, s: int, t: int)
    requires CountedVisitors(m) && InOrder(start, trace) && t - s <= c.window
    ensures AllowedIn(c, m, trace, key, s, t) <= c.Quota()
  {
    ShortSpanBusy(c, start, trace, key, s, t);
    AllowBusyBound(c, m, start, trace, key, s, t);
  }

  ghost predicate CountedEntries(m: Entries) {
    forall k :: k in m ==> 1 <= m[k].count
  }

  lemma {:induction false} NoneCheckedLater(c: Config, m: Entries, start: int, trace: seq<Req>, key: string, s: int,
                                            t: int)
    requires InOrder(start, trace) && start > t
    ensures CheckedIn(c, m, trace, key, s, t) == 0
    decreases |trace|
  {
    if trace != [] {
      NoneCheckedLater(c, Check(c, m, trace[0]).0, trace[0].at, trace[1..], key, s, t);
    }
  }

  /** What the span can still admit once it has begun, from the state of the key's window. */
  function SpanBudget(c: Config, m: Entries, key: string, s: int): nat {
    if key !in m then c.Quota()
    else if m[key].windowStart < s then Left(c, m[key].count) + c.Quota()
    else Left(c, m[key].count)
  }

  lemma {:induction false} CheckedWithinBudget(c: Config, m: Entries, start: int, trace: seq<Req>, key: string,
                                               s: int, t: int)
    requires CountedEntries(m) && InOrder(start, trace) && s <= start && t - s <= c.window
    ensures CheckedIn(c, m, trace, key, s, t) <= SpanBudget(c, m, key, s)
    decreases |trace|
  {
    if trace != [] {
      if trace[0].at > t {
        NoneCheckedLater(c, m, trace[0].at, trace, key, s, t);
      } else {
        CheckedWithinBudget(c, Check(c, m, trace[0]).0, trace[0].at, trace[1..], key, s, t);
      }
    }
  }

  /**
  In any span no longer than the window, `CheckRateLimit` admits fewer than twice the quota:
  a span that meets two windows cannot contain the request that opened the first.
  */
  lemma {:induction false} CheckBound(c: Config, m: Entries, start: int, trace: seq<Req>, key: string, s: int, t: int)
    requires CountedEntries(m) && InOrder(start, trace) && t - s <= c.window
    ensures CheckedIn(c, m, trace, key, s, t) <= 2 * c.Quota() - 1
    decreases |trace|
  {
    if trace != [] {
      if trace[0].at < s {
        CheckBound(c, Check(c, m, trace[0]).0, trace[0].at, trace[1..], key, s, t);
      } else {
        CheckedWithinBudget(c, m, trace[0].at, trace, key, s, t);
      }
    }
  }

  // ----- the second bound is attained -----

  function Volley(key: string, at: int, n: nat): (v: seq<Req>)
    ensures |v| == n && forall r :: r in v ==> r == Req(key, at)
  {
    if n == 0 then [] else [Req(key, at)] + Volley(key, at, n - 1)
  }

  ghost function CheckAfter(c: Config, m: Entries, trace: seq<Req>): Entries
    decreases |trace|
  {
    if trace == [] then m else CheckAfter(c, Check(c, m, trace[0]).0, trace[1..])
  }

  lemma {:induction false} CheckedConcat(c: Config, m: Entries, a: seq<Req>, b: seq<Req>, key: string, s: int, t: int)
    ensures CheckedIn(c, m, a + b, key, s, t) ==
            CheckedIn(c, m, a, key, s, t) + CheckedIn(c, CheckAfter(c, m, a), b, key, s, t)
    decreases |a|
  {
    if a == [] {
      assert a + b == b;
    } else {
      assert (a + b)[1..] == a[1..] + b;
      CheckedConcat(c, Check(c, m, a[0]).0, a[1..], b, key, s, t);
    }
  }

  /** Requests that fit an open window all pass. */
  lemma {:induction false} VolleyInWindow(c: Config, m: Entries, key: string, at: int, n: nat, s: int, t: int)
    requires key in m && at - m[key].windowStart <= c.window && m[key].count + n <= c.rate && s <= at <= t
    ensures CheckedIn(c, m, Volley(key, at, n), key, s, t) == n
    ensures CheckAfter(c, m, Volley(key, at, n)) == m[key := Entry(m[key].count + n, m[key].windowStart)]
    decreases n
  {
    if n == 0 {
      assert m == m[key := Entry(m[key].count, m[key].windowStart)];
    } else {
      var v := Volley(key, at, n);
      assert v[0] == Req(key, at) && v[1..] == Volley(key, at, n - 1);
      VolleyInWindow(c, Check(c, m, v[0]).0, key, at, n - 1, s, t);
    }
  }

  lemma {:induction false} VolleyInOrder(key: string, start: int, at: int, n: nat, rest: seq<Req>)
    requires start <= at && InOrder(at, rest)
    ensures InOrder(start, Volley(key, at, n) + rest)
    decreases n
  {
    if n == 0 {
      assert Volley(key, at, n) + rest == rest;
      OrderedFromEarlier(start, at, rest);
    } else {
      VolleyInOrder(key, at, at, n - 1, rest);
      assert Volley(key, at, n) + rest == [Req(key, at)] + (Volley(key, at, n - 1) + rest);
    }
  }

  lemma OrderedFromEarlier(a: int, b: int, trace: seq<Req>)
    requires a <= b && InOrder(b, trace)
    ensures InOrder(a, trace)
  {
  }

  /** One request opens a window, the rest of its quota comes at its last instant, a full quota right after. */
  function Straddling(c: Config, key: string): seq<Req>
    requires c.rate >= 1
  {
    [Req(key, 0)] + (Volley(key, c.window, c.rate - 1) + Volley(key, c.window + 1, c.rate))
  }

  lemma StraddlingInOrder(c: Config, key: string)
    requires c.rate >= 1 && c.window >= 1
    ensures InOrder(0, Straddling(c, key))
  {
    var w, n := c.window, c.rate;
    var filler, next := Volley(key, w, n - 1), Volley(key, w + 1, n);
    VolleyInOrder(key, w, w + 1, n, []);
    assert next + [] == next;
    VolleyInOrder(key, 0, w, n - 1, next);
    assert Straddling(c, key)[1..] == filler + next;
  }

  /** A volley that opens its window with its first request passes whole. */
  lemma VolleyInNewWindow(c: Config, m: Entries, key: string, at: int, n: nat, s: int, t: int)
    requires 1 <= n <= c.rate && s <= at <= t && c.window >= 0
    requires key in m && at - m[key].windowStart > c.window
    ensures CheckedIn(c, m, Volley(key, at, n), key, s, t) == n
  {
    var v := Volley(key, at, n);
    assert v[0] == Req(key, at) && v[1..] == Volley(key, at, n - 1);
    VolleyInWindow(c, m[key := Entry(1, at)], key, at, n - 1, s, t);
  }

  lemma StraddlingCount(c: Config, key: string)
    requires c.rate >= 1 && c.window >= 1
    ensures CheckedIn(c, map[], Straddling(c, key), key, c.window, c.window + 1) == 2 * c.rate - 1
  {
    var w, n := c.window, c.rate;
    var filler, next := Volley(key, w, n - 1), Volley(key, w + 1, n);
    var m0: Entries := map[];
    var m1 := m0[key := Entry(1, 0)];
    assert Straddling(c, key)[0] == Req(key, 0) && Straddling(c, key)[1..] == filler + next;
    VolleyInWindow(c, m1, key, w, n - 1, w, w + 1);
    CheckedConcat(c, m1, filler, next, key, w, w + 1);
    VolleyInNewWindow(c, CheckAfter(c, m1, filler), key, w + 1, n, w, w + 1);
  }

  /** The bound is attained: some trace passes 2 * rate - 1 requests of one key at two neighbouring instants. */
  lemma CheckBoundAttained(c: Config, key: string)
    requires c.rate >= 1 && c.window >= 1
    ensures exists trace ::
              InOrder(0, trace) && CheckedIn(c, map[], trace, key, c.window, c.window + 1) == 2 * c.Quota() - 1
  {
    StraddlingInOrder(c, key);
    StraddlingCount(c, key);
  }

  // ----- simulation -----

  /** The restarting window is never older, and its counter never smaller, than the fixed one's. */
  ghost predicate Related(v: Visitors, e: Entries) {
    && v.Keys == e.Keys
    && forall k :: k in v ==> e[k].windowStart <= v[k].lastSeen && e[k].count <= v[k].count
  }

  function AllowVerdicts(c: Config, m: Visitors, trace: seq<Req>): (v: seq<bool>)
    ensures |v| == |trace|
    decreases |trace|
  {
    if trace == [] then []
    else [Allow(c, m, trace[0]).1.allowed] + AllowVerdicts(c, Allow(c, m, trace[0]).0, trace[1..])
  }

  function CheckVerdicts(c: Config, m: Entries, trace: seq<Req>): (v: seq<bool>)
    ensures |v| == |trace|
    decreases |trace|
  {
    if trace == [] then [] else [Check(c, m, trace[0]).1] + CheckVerdicts(c, Check(c, m, trace[0]).0, trace[1..])
  }

  /** On the same trace, whatever `allow` admits `CheckRateLimit` admits too. */
  lemma {:induction false} AllowImpliesCheck(c: Config, v: Visitors, e: Entries, start: int, trace: seq<Req>)
    requires Related(v, e) && SeenBy(v, start) && CountedVisitors(v) && InOrder(start, trace)
    ensures forall i :: 0 <= i < |trace| && AllowVerdicts(c, v, trace)[i] ==> CheckVerdicts(c, e, trace)[i]
    decreases |trace|
  {
    if trace != [] {
      var r := trace[0];
      AllowImpliesCheck(c, Allow(c, v, r).0, Check(c, e, r).0, r.at, trace[1..]);
    }
  }

  // ----- the objects -----

  class VisitorLimiter {
    const config: Config
    var visitors: Visitors

    constructor (c: Config)
      ensures config == c && visitors == map[]
    {
      config, visitors := c, map[];
    }

    method Cleanup(now: int)
      modifies this
      ensures visitors == Sweep(config, old(visitors), now)
      ensures forall k :: k in visitors <==>
                k in old(visitors) && now - old(visitors)[k].lastSeen <= config.window * 2
      ensures forall k :: k in visitors ==> visitors[k] == old(visitors)[k]
    {
      var rest := visitors.Keys;
      while rest != {}
        invariant rest <= old(visitors.Keys)
        invariant forall k :: k in visitors <==>
                    k in old(visitors) && (k in rest || !(now - old(visitors)[k].lastSeen > config.window * 2))
        invariant forall k :: k in visitors ==> visitors[k] == old(visitors)[k]
      {
        var ip :| ip in rest;
        if now - visitors[ip].lastSeen > config.window * 2 {
          visitors := visitors - {ip};
        }
        rest := rest - {ip};
      }
    }

    method AllowRequest(ip: string, now: int) returns (allowed: bool, remaining: int, resetAt: int)
      modifies this
      ensures (visitors, Answer(allowed, remaining, resetAt)) == Allow(config, old(visitors), Req(ip, now))
      ensures var opens := ip !in old(visitors) || now - old(visitors)[ip].lastSeen > config.window;
              var n := if opens then 1 else old(visitors)[ip].count + 1;
              && visitors == old(visitors)[ip := Visitor(n, now)]
              && (allowed <==> opens || n <= config.rate)
              && remaining == (if allowed then config.rate - n else 0)
      ensures resetAt * NANOS_PER_SECOND <= now + config.window < (resetAt + 1) * NANOS_PER_SECOND
      ensures old(CountedVisitors(visitors)) ==> CountedVisitors(visitors)
      ensures old(SeenBy(visitors, now)) ==> SeenBy(visitors, now)
    {
      resetAt := (now + config.window) / NANOS_PER_SECOND;
      if ip !in visitors || now - visitors[ip].lastSeen > config.window {
        visitors := visitors[ip := Visitor(1, now)];
        return true, config.rate - 1, resetAt;
      }
      var v := visitors[ip];
      v := Visitor(v.count + 1, now);
      visitors := visitors[ip := v];
      if v.count > config.rate {
        return false, 0, resetAt;
      }
      return true, config.rate - v.count, resetAt;
    }
  }

  class KeyLimiter {
    const config: Config
    var rateLimits: Entries

    constructor (c: Config)
      ensures config == c && rateLimits == map[]
    {
      config, rateLimits := c, map[];
    }

    method CheckRateLimit(key: string, now: int) returns (ok: bool)
      modifies this
      ensures (rateLimits, ok) == Check(config, old(rateLimits), Req(key, now))
      ensures var opens := key !in old(rateLimits) || now - old(rateLimits)[key].windowStart > config.window;
              var n := if opens then 1 else old(rateLimits)[key].count + 1;
              && rateLimits == old(rateLimits)[key := Entry(n, if opens then now else old(rateLimits)[key].windowStart)]
              && (ok <==> opens || n <= config.rate)
      ensures old(CountedEntries(rateLimits)) ==> CountedEntries(rateLimits)
    {
      if key !in rateLimits || now - rateLimits[key].windowStart > config.window {
        rateLimits := rateLimits[key := Entry(1, now)];
        return true;
      }
      var entry := rateLimits[key];
      entry := entry.(count := entry.count + 1);
      rateLimits := rateLimits[key := entry];
      if entry.count > config.rate {
        return false;
      }
      return true;
    }
  }
}
