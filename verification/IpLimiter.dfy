/**
The per-address limiter of internal/api/middleware/ratelimit.go: a map of token buckets that is
swept from time to time.  The question is when the sweep can be noticed.
*/
module IpLimiter {
  import opened TokenBucket

  datatype Config = Config(rate: real, burst: int, interval: real) {
    predicate Valid() {
      rate > 0.0 && burst >= 1 && interval > 0.0
    }

    /** Two cleanup intervals are enough to fill an empty bucket. */
    predicate FillsBetweenSweeps() {
      rate * (2.0 * interval) >= burst as real
    }

    /** Two cleanup intervals are enough for one token. */
    predicate TokenBetweenSweeps() {
      rate * (2.0 * interval) >= 1.0
    }
  }

  type Buckets = map<string, Bucket>

  datatype Req = Req(ip: string, at: real)

  datatype Limiter = Limiter(buckets: Buckets, lastCleanup: real)

  // ----- one request -----

  /** The bucket of an address; an unknown address starts with a full one. */
  function Lookup(c: Config, m: Buckets, ip: string, now: real): Bucket {
    if ip in m then m[ip] else Bucket(c.burst as real, now, c.rate, c.burst)
  }

  function Serve(c: Config, m: Buckets, r: Req): (Buckets, bool) {
    var t := Take(Lookup(c, m, r.ip, r.at), r.at);
    (m[r.ip := t.0], t.1)
  }

  /** The buckets last refilled at or after the threshold. */
  function Kept(m: Buckets, threshold: real): Buckets {
    map ip | ip in m && m[ip].lastRefill >= threshold :: m[ip]
  }

  function Swept(c: Config, l: Limiter, now: real): Limiter {
    if now - l.lastCleanup < c.interval then l
    else Limiter(Kept(l.buckets, now - 2.0 * c.interval), now)
  }

  function Handle(c: Config, l: Limiter, r: Req): (Limiter, bool) {
    var s := Swept(c, l, r.at);
    var t := Serve(c, s.buckets, r);
    (Limiter(t.0, s.lastCleanup), t.1)
  }

  // ----- traces -----

  predicate InOrder(start: real, trace: seq<Req>)
    decreases |trace|
  {
    trace == [] || (start <= trace[0].at && InOrder(trace[0].at, trace[1..]))
  }

  /** The verdicts of the limiter as written. */
  function Verdicts(c: Config, l: Limiter, trace: seq<Req>): (v: seq<bool>)
    ensures |v| == |trace|
    decreases |trace|
  {
    if trace == [] then []
    else [Handle(c, l, trace[0]).1] + Verdicts(c, Handle(c, l, trace[0]).0, trace[1..])
  }

  /** The verdicts of a limiter that never forgets a bucket. */
  function PlainVerdicts(c: Config, m: Buckets, trace: seq<Req>): (v: seq<bool>)
    ensures |v| == |trace|
    decreases |trace|
  {
    if trace == [] then []
    else [Serve(c, m, trace[0]).1] + PlainVerdicts(c, Serve(c, m, trace[0]).0, trace[1..])
  }

  /** No trace of requests tells the limiter from one that never sweeps. */
  ghost predicate SweepUnobservable(c: Config, start: real) {
    forall trace :: InOrder(start, trace) ==>
      Verdicts(c, Limiter(map[], start), trace) == PlainVerdicts(c, map[], trace)
  }

  // ----- sufficiency: a simulation -----

  ghost predicate Wellformed(c: Config, m: Buckets, now: real) {
    forall ip :: ip in m ==> m[ip].Valid() && m[ip].rate == c.rate && m[ip].burst == c.burst && m[ip].lastRefill <= now
  }

  /** The swept map agrees with the full one, and whatever it lacks has refilled completely. */
  ghost predicate Similar(c: Config, swept: Buckets, full: Buckets, now: real) {
    && Wellformed(c, full, now)
    && (forall ip :: ip in swept ==> ip in full && full[ip] == swept[ip])
    && (forall ip :: ip in full && ip !in swept ==> Accrued(full[ip], now) >= c.burst as real)
  }

  lemma LookupValid(c: Config, m: Buckets, ip: string, now: real)
    requires c.Valid() && Wellformed(c, m, now)
    ensures Lookup(c, m, ip, now).Valid() && Lookup(c, m, ip, now).lastRefill <= now
  {
  }

  lemma TimePasses(c: Config, swept: Buckets, full: Buckets, t: real, now: real)
    requires c.Valid() && Similar(c, swept, full, t) && t <= now
    ensures Similar(c, swept, full, now)
  {
    forall ip | ip in full && ip !in swept
      ensures Accrued(full[ip], now) >= c.burst as real
    {
      GainSplit(c.rate, full[ip].lastRefill, t, now);
      GainNonNegative(c.rate, t, now);
    }
  }

  /** A bucket old enough to be swept is full again, provided two intervals suffice to fill it. */
  lemma OldBucketIsFull(c: Config, b: Bucket, now: real)
    requires c.Valid() && c.FillsBetweenSweeps()
    requires b.Valid() && b.rate == c.rate && b.lastRefill < now - 2.0 * c.interval
    ensures Accrued(b, now) >= c.burst as real
  {
    var limit := now - 2.0 * c.interval;
    GainSplit(c.rate, b.lastRefill, limit, now);
    GainNonNegative(c.rate, b.lastRefill, limit);
    assert Gain(c.rate, limit, now) == c.rate * (2.0 * c.interval);
  }

  lemma SweepKeepsSimilar(c: Config, l: Limiter, full: Buckets, now: real)
    requires c.Valid() && Similar(c, l.buckets, full, now)
    requires c.FillsBetweenSweeps()
    ensures Similar(c, Swept(c, l, now).buckets, full, now)
  {
    var s := Swept(c, l, now).buckets;
    forall ip | ip in full && ip !in s
      ensures Accrued(full[ip], now) >= c.burst as real
    {
      if ip in l.buckets {
        OldBucketIsFull(c, full[ip], now);
      }
    }
  }

  lemma ServeAlike(c: Config, swept: Buckets, full: Buckets, r: Req)
    requires c.Valid() && Similar(c, swept, full, r.at)
    ensures Serve(c, swept, r).1 == Serve(c, full, r).1
    ensures Similar(c, Serve(c, swept, r).0, Serve(c, full, r).0, r.at)
  {
    LookupValid(c, full, r.ip, r.at);
    RefillValid(Lookup(c, full, r.ip, r.at), r.at);
    assert Refill(Lookup(c, swept, r.ip, r.at), r.at) == Refill(Lookup(c, full, r.ip, r.at), r.at);
  }

  lemma {:induction false} SimilarVerdicts(c: Config, l: Limiter, full: Buckets, start: real, trace: seq<Req>)
    requires c.Valid() && c.FillsBetweenSweeps()
    requires Similar(c, l.buckets, full, start) && InOrder(start, trace)
    ensures Verdicts(c, l, trace) == PlainVerdicts(c, full, trace)
    decreases |trace|
  {
    if trace != [] {
      var r := trace[0];
      TimePasses(c, l.buckets, full, start, r.at);
      SweepKeepsSimilar(c, l, full, r.at);
      ServeAlike(c, Swept(c, l, r.at).buckets, full, r);
      SimilarVerdicts(c, Handle(c, l, r).0, Serve(c, full, r).0, r.at, trace[1..]);
    }
  }

  // ----- necessity: a distinguishing trace -----

  /** `n` simultaneous requests from one address. */
  function Volley(ip: string, at: real, n: nat): (v: seq<Req>)
    ensures |v| == n && forall i :: 0 <= i < n ==> v[i] == Req(ip, at)
  {
    if n == 0 then [] else [Req(ip, at)] + Volley(ip, at, n - 1)
  }

  ghost function PlainAfter(c: Config, m: Buckets, trace: seq<Req>): Buckets
    decreases |trace|
  {
    if trace == [] then m else PlainAfter(c, Serve(c, m, trace[0]).0, trace[1..])
  }

  ghost function After(c: Config, l: Limiter, trace: seq<Req>): Limiter
    decreases |trace|
  {
    if trace == [] then l else After(c, Handle(c, l, trace[0]).0, trace[1..])
  }

  lemma {:induction false} PlainVerdictsConcat(c: Config, m: Buckets, a: seq<Req>, b: seq<Req>)
    ensures PlainVerdicts(c, m, a + b) == PlainVerdicts(c, m, a) + PlainVerdicts(c, PlainAfter(c, m, a), b)
    decreases |a|
  {
    if a == [] {
      assert a + b == b;
    } else {
      assert (a + b)[1..] == a[1..] + b;
      PlainVerdictsConcat(c, Serve(c, m, a[0]).0, a[1..], b);
    }
  }

  lemma {:induction false} VerdictsConcat(c: Config, l: Limiter, a: seq<Req>, b: seq<Req>)
    ensures Verdicts(c, l, a + b) == Verdicts(c, l, a) + Verdicts(c, After(c, l, a), b)
    decreases |a|
  {
    if a == [] {
      assert a + b == b;
    } else {
      assert (a + b)[1..] == a[1..] + b;
      VerdictsConcat(c, Handle(c, l, a[0]).0, a[1..], b);
    }
  }

  /** Tokens of an address at an instant. */
  ghost function Level(c: Config, m: Buckets, ip: string, at: real): real {
    Refill(Lookup(c, m, ip, at), at).tokens
  }

  lemma ServeLowersLevel(c: Config, m: Buckets, ip: string, at: real)
    requires c.Valid() && Wellformed(c, m, at)
    ensures Wellformed(c, Serve(c, m, Req(ip, at)).0, at)
    ensures Serve(c, m, Req(ip, at)).1 <==> Level(c, m, ip, at) >= 1.0
    ensures Level(c, Serve(c, m, Req(ip, at)).0, ip, at) ==
            if Level(c, m, ip, at) >= 1.0 then Level(c, m, ip, at) - 1.0 else Level(c, m, ip, at)
    ensures Serve(c, m, Req(ip, at)).0[ip].lastRefill == at
  {
    LookupValid(c, m, ip, at);
    RefillValid(Lookup(c, m, ip, at), at);
    var b := Serve(c, m, Req(ip, at)).0[ip];
    assert Gain(b.rate, b.lastRefill, at) == 0.0;
  }

  /** A volley that fits the tokens is admitted whole; a larger one is not. */
  lemma {:induction false} VolleyOutcome(c: Config, m: Buckets, ip: string, at: real, n: nat)
    requires c.Valid() && Wellformed(c, m, at)
    ensures Wellformed(c, PlainAfter(c, m, Volley(ip, at, n)), at)
    ensures Level(c, m, ip, at) >= n as real ==>
              (forall i :: 0 <= i < n ==> PlainVerdicts(c, m, Volley(ip, at, n))[i]) &&
              Level(c, PlainAfter(c, m, Volley(ip, at, n)), ip, at) == Level(c, m, ip, at) - n as real
    ensures Level(c, m, ip, at) < n as real ==> exists i :: 0 <= i < n && !PlainVerdicts(c, m, Volley(ip, at, n))[i]
    ensures n > 0 ==> ip in PlainAfter(c, m, Volley(ip, at, n)) &&
                      PlainAfter(c, m, Volley(ip, at, n))[ip].lastRefill == at
    decreases n
  {
    LookupValid(c, m, ip, at);
    RefillValid(Lookup(c, m, ip, at), at);
    if n > 0 {
      ServeLowersLevel(c, m, ip, at);
      var next := Serve(c, m, Req(ip, at)).0;
      var whole, rest := Volley(ip, at, n), Volley(ip, at, n - 1);
      assert whole[0] == Req(ip, at) && whole[1..] == rest;
      VolleyOutcome(c, next, ip, at, n - 1);
      var vs := PlainVerdicts(c, next, rest);
      assert PlainVerdicts(c, m, whole) == [Serve(c, m, Req(ip, at)).1] + vs;
      if Level(c, m, ip, at) < n as real {
        if Level(c, m, ip, at) >= 1.0 {
          var i :| 0 <= i < n - 1 && !vs[i];
          assert !PlainVerdicts(c, m, whole)[i + 1];
        } else {
          assert !PlainVerdicts(c, m, whole)[0];
        }
      }
      if n == 1 {
        assert rest == [];
      }
    }
  }

  /** While no sweep is due the limiter behaves like the plain one. */
  lemma {:induction false} NoSweepDue(c: Config, l: Limiter, ip: string, at: real, n: nat)
    requires c.Valid() && at - l.lastCleanup < c.interval
    ensures Verdicts(c, l, Volley(ip, at, n)) == PlainVerdicts(c, l.buckets, Volley(ip, at, n))
    ensures After(c, l, Volley(ip, at, n)) == Limiter(PlainAfter(c, l.buckets, Volley(ip, at, n)), l.lastCleanup)
    decreases n
  {
    if n > 0 {
      var whole, rest := Volley(ip, at, n), Volley(ip, at, n - 1);
      assert whole[0] == Req(ip, at) && whole[1..] == rest;
      NoSweepDue(c, Handle(c, l, whole[0]).0, ip, at, n - 1);
    }
  }

  lemma {:induction false} VolleyInOrder(ip: string, start: real, at: real, n: nat, rest: seq<Req>)
    requires start <= at && InOrder(at, rest)
    ensures InOrder(start, Volley(ip, at, n) + rest)
    decreases n
  {
    if n == 0 {
      assert Volley(ip, at, n) + rest == rest;
    } else {
      VolleyInOrder(ip, at, at, n - 1, rest);
      assert Volley(ip, at, n) + rest == [Req(ip, at)] + (Volley(ip, at, n - 1) + rest);
    }
  }

  lemma VolleysInOrder(ip: string, s: real, n: nat, t: real, k: nat)
    requires s <= t
    ensures InOrder(s, Volley(ip, s, n) + Volley(ip, t, k))
  {
    VolleyInOrder(ip, s, t, k, []);
    assert Volley(ip, t, k) + [] == Volley(ip, t, k);
    VolleyInOrder(ip, s, s, n, Volley(ip, t, k));
  }

  /** The sweep drops the one drained bucket and the second volley meets a full one. */
  lemma SweepDrops(c: Config, l: Limiter, ip: string, s: real, t: real)
    requires c.Valid() && Wellformed(c, l.buckets, s) && ip in l.buckets && l.buckets[ip].lastRefill == s
    requires l.lastCleanup == s && s + 2.0 * c.interval < t
    ensures ip !in Swept(c, l, t).buckets && Swept(c, l, t).lastCleanup == t
    ensures Wellformed(c, Swept(c, l, t).buckets, t)
  {
  }

  lemma VolleyAfterSweep(c: Config, l: Limiter, ip: string, at: real, n: nat)
    requires c.Valid() && n > 0 && ip !in Swept(c, l, at).buckets && Swept(c, l, at).lastCleanup == at
    ensures Verdicts(c, l, Volley(ip, at, n)) == PlainVerdicts(c, Swept(c, l, at).buckets, Volley(ip, at, n))
  {
    var whole, rest := Volley(ip, at, n), Volley(ip, at, n - 1);
    assert whole[0] == Req(ip, at) && whole[1..] == rest;
    NoSweepDue(c, Handle(c, l, whole[0]).0, ip, at, n - 1);
  }

  /** There is an instant after the sweep threshold at which a drained bucket is not yet full. */
  lemma SomeInstantBetween(c: Config, start: real) returns (t: real)
    requires c.Valid() && !c.FillsBetweenSweeps()
    ensures start + 2.0 * c.interval < t && Gain(c.rate, start, t) < c.burst as real
  {
    var threshold, gap := start + 2.0 * c.interval, c.burst as real - c.rate * (2.0 * c.interval);
    assert Gain(c.rate, start, threshold) == c.rate * (2.0 * c.interval);
    var step := gap / (2.0 * c.rate);
    t := threshold + step;
    assert Gain(c.rate, threshold, t) == gap / 2.0 by {
      assert step * c.rate == gap / 2.0;
    }
    GainSplit(c.rate, start, threshold, t);
    assert step > 0.0;
  }

  /** The plain limiter refuses part of the second volley. */
  lemma PlainRefuses(c: Config, ip: string, start: real, t: real, n: nat) returns (i: nat)
    requires c.Valid() && n == c.burst && start <= t && Gain(c.rate, start, t) < c.burst as real
    ensures i < n && !PlainVerdicts(c, map[], Volley(ip, start, n) + Volley(ip, t, n))[n + i]
  {
    var first, second := Volley(ip, start, n), Volley(ip, t, n);
    VolleyOutcome(c, map[], ip, start, n);
    var m1 := PlainAfter(c, map[], first);
    assert Level(c, map[], ip, start) == n as real;
    DrainedLevel(c, m1, ip, start, t);
    VolleyOutcome(c, m1, ip, t, n);
    var plain := PlainVerdicts(c, m1, second);
    var k :| 0 <= k < n && !plain[k];
    PlainVerdictsConcat(c, map[], first, second);
    i := k;
  }

  predicate AllTrue(verdicts: seq<bool>) {
    forall k :: 0 <= k < |verdicts| ==> verdicts[k]
  }

  /** The sweeping limiter admits both volleys whole. */
  lemma SweptAdmits(c: Config, ip: string, start: real, t: real, n: nat)
    requires c.Valid() && n == c.burst && start + 2.0 * c.interval < t
    ensures AllTrue(Verdicts(c, Limiter(map[], start), Volley(ip, start, n) + Volley(ip, t, n)))
  {
    var first, second := Volley(ip, start, n), Volley(ip, t, n);
    var l0 := Limiter(map[], start);
    assert Level(c, map[], ip, start) == n as real by {
      assert Gain(c.rate, start, start) == 0.0;
    }
    VolleyOutcome(c, map[], ip, start, n);
    NoSweepDue(c, l0, ip, start, n);
    var l1 := After(c, l0, first);
    SweepDrops(c, l1, ip, start, t);
    VolleyAfterSweep(c, l1, ip, t, n);
    var swept := Swept(c, l1, t).buckets;
    assert Level(c, swept, ip, t) == n as real by {
      assert Gain(c.rate, t, t) == 0.0;
    }
    VolleyOutcome(c, swept, ip, t, n);
    VerdictsConcat(c, l0, first, second);
    assert AllTrue(Verdicts(c, l0, first)) && AllTrue(Verdicts(c, l1, second));
  }

  /** If two intervals do not fill a bucket, draining it, waiting and draining it again shows the sweep. */
  lemma SweepShows(c: Config, start: real)
    requires c.Valid() && !c.FillsBetweenSweeps()
    ensures !SweepUnobservable(c, start)
  {
    var ip, n := "a", c.burst;
    var t := SomeInstantBetween(c, start);
    VolleysInOrder(ip, start, n, t, n);
    var i := PlainRefuses(c, ip, start, t, n);
    SweptAdmits(c, ip, start, t, n);
    var trace := Volley(ip, start, n) + Volley(ip, t, n);
    assert Verdicts(c, Limiter(map[], start), trace)[n + i] != PlainVerdicts(c, map[], trace)[n + i];
  }

  lemma DrainedLevel(c: Config, m: Buckets, ip: string, s: real, t: real)
    requires c.Valid() && Wellformed(c, m, s) && ip in m && m[ip].lastRefill == s && s <= t
    requires Level(c, m, ip, s) == 0.0 && Gain(c.rate, s, t) < c.burst as real
    ensures Level(c, m, ip, t) == Gain(c.rate, s, t)
  {
  }

  /** The sweep is unobservable exactly when two cleanup intervals are enough to fill an empty bucket. */
  lemma SweepUnobservableIff(c: Config, start: real)
    requires c.Valid()
    ensures SweepUnobservable(c, start) <==> c.FillsBetweenSweeps()
  {
    if c.FillsBetweenSweeps() {
      forall trace | InOrder(start, trace)
        ensures Verdicts(c, Limiter(map[], start), trace) == PlainVerdicts(c, map[], trace)
      {
        SimilarVerdicts(c, Limiter(map[], start), map[], start, trace);
      }
    } else {
      SweepShows(c, start);
    }
  }

  // ----- the bound of one address in a mixed trace -----

  /** Requests of `ip` admitted at a time in [s, t], given the verdicts on the whole trace. */
  ghost function AdmittedFor(trace: seq<Req>, verdicts: seq<bool>, ip: string, s: real, t: real): nat
    requires |trace| == |verdicts|
    decreases |trace|
  {
    if trace == [] then 0
    else (if trace[0].ip == ip && verdicts[0] && s <= trace[0].at <= t then 1 else 0)
         + AdmittedFor(trace[1..], verdicts[1..], ip, s, t)
  }

  ghost function TimesOf(trace: seq<Req>, ip: string): seq<real>
    decreases |trace|
  {
    if trace == [] then []
    else (if trace[0].ip == ip then [trace[0].at] else []) + TimesOf(trace[1..], ip)
  }

  lemma ServeKeepsWellformed(c: Config, m: Buckets, r: Req)
    requires c.Valid() && Wellformed(c, m, r.at)
    ensures Wellformed(c, Serve(c, m, r).0, r.at)
  {
    LookupValid(c, m, r.ip, r.at);
    RefillValid(Lookup(c, m, r.ip, r.at), r.at);
  }

  /** A full bucket is the same bucket whenever it is said to have been created. */
  lemma FreshAnyTime(c: Config, m: Buckets, ip: string, start: real, now: real)
    requires c.Valid() && start <= now
    ensures Take(Lookup(c, m, ip, start), now) == Take(Lookup(c, m, ip, now), now)
  {
    GainNonNegative(c.rate, start, now);
    assert Gain(c.rate, now, now) == 0.0;
  }

  lemma {:induction false} OrderedEarlier(a: real, b: real, times: seq<real>)
    requires a <= b && Ordered(b, times)
    ensures Ordered(a, times)
  {
  }

  /** Interleaved requests of other addresses make no difference to a bucket. */
  lemma {:induction false} ProjectsToBucket(c: Config, m: Buckets, start: real, trace: seq<Req>, ip: string, s: real,
                                            t: real)
    requires c.Valid() && Wellformed(c, m, start) && InOrder(start, trace)
    ensures Ordered(start, TimesOf(trace, ip))
    ensures AdmittedFor(trace, PlainVerdicts(c, m, trace), ip, s, t)
            == Admitted(Lookup(c, m, ip, start), TimesOf(trace, ip), s, t)
    decreases |trace|
  {
    if trace != [] {
      var r, rest := trace[0], trace[1..];
      var next := Serve(c, m, r).0;
      ServeKeepsWellformed(c, m, r);
      ProjectsToBucket(c, next, r.at, rest, ip, s, t);
      assert PlainVerdicts(c, m, trace)[1..] == PlainVerdicts(c, next, rest);
      if r.ip == ip {
        FreshAnyTime(c, m, ip, start, r.at);
        assert TimesOf(trace, ip)[1..] == TimesOf(rest, ip);
      } else {
        OrderedEarlier(start, r.at, TimesOf(rest, ip));
        assert TimesOf(trace, ip) == TimesOf(rest, ip);
        SameAdmissions(c, m, ip, start, r.at, TimesOf(rest, ip), s, t);
      }
    }
  }

  lemma SameAdmissions(c: Config, m: Buckets, ip: string, start: real, now: real, times: seq<real>, s: real, t: real)
    requires c.Valid() && start <= now && Ordered(now, times)
    ensures Admitted(Lookup(c, m, ip, start), times, s, t) == Admitted(Lookup(c, m, ip, now), times, s, t)
  {
    if times != [] && ip !in m {
      FreshAnyTime(c, m, ip, start, times[0]);
      FreshAnyTime(c, m, ip, now, times[0]);
    }
  }

  /** In every trace no address gets more than its burst plus its rate over any interval. */
  ghost predicate BoundHolds(c: Config, start: real) {
    forall trace, ip, s, t :: InOrder(start, trace) && s <= t ==> Bounded(c, start, trace, ip, s, t)
  }

  ghost predicate Bounded(c: Config, start: real, trace: seq<Req>, ip: string, s: real, t: real) {
    AdmittedFor(trace, Verdicts(c, Limiter(map[], start), trace), ip, s, t) as real
    <= c.burst as real + Gain(c.rate, s, t)
  }

  /** With sweeps that cannot be noticed, no address gets more than its burst plus its rate over any interval. */
  lemma PerAddressBound(c: Config, start: real, trace: seq<Req>, ip: string, s: real, t: real)
    requires c.Valid() && c.FillsBetweenSweeps() && InOrder(start, trace) && s <= t
    ensures Bounded(c, start, trace, ip, s, t)
  {
    SimilarVerdicts(c, Limiter(map[], start), map[], start, trace);
    ProjectsToBucket(c, map[], start, trace, ip, s, t);
    AdmissionBound(Lookup(c, map[], ip, start), TimesOf(trace, ip), s, t);
  }

  lemma {:induction false} AllCounted(trace: seq<Req>, verdicts: seq<bool>, ip: string, s: real, t: real)
    requires |trace| == |verdicts| && AllTrue(verdicts)
    requires forall i :: 0 <= i < |trace| ==> trace[i].ip == ip && s <= trace[i].at <= t
    ensures AdmittedFor(trace, verdicts, ip, s, t) == |trace|
    decreases |trace|
  {
    if trace != [] {
      AllCounted(trace[1..], verdicts[1..], ip, s, t);
    }
  }

  /** Two full volleys just over two intervals apart exceed the bound when that is too short to refill. */
  lemma BoundBroken(c: Config, start: real)
    requires c.Valid() && !c.FillsBetweenSweeps()
    ensures !BoundHolds(c, start)
  {
    var ip, n := "a", c.burst;
    var t := SomeInstantBetween(c, start);
    var trace := Volley(ip, start, n) + Volley(ip, t, n);
    VolleysInOrder(ip, start, n, t, n);
    SweptAdmits(c, ip, start, t, n);
    AllCounted(trace, Verdicts(c, Limiter(map[], start), trace), ip, start, t);
    assert !Bounded(c, start, trace, ip, start, t);
  }

  /** The limiter keeps every address within burst plus rate times length exactly when sweeps cannot be noticed. */
  lemma PerAddressBoundIff(c: Config, start: real)
    requires c.Valid()
    ensures BoundHolds(c, start) <==> c.FillsBetweenSweeps()
  {
    if c.FillsBetweenSweeps() {
      forall trace, ip, s, t | InOrder(start, trace) && s <= t
        ensures Bounded(c, start, trace, ip, s, t)
      {
        PerAddressBound(c, start, trace, ip, s, t);
      }
    } else {
      BoundBroken(c, start);
    }
  }

  // ----- the advertised wait -----

  /** The wait advertised when `r` is refused: the one of its bucket after the request. */
  function AdvertisedWait(c: Config, l: Limiter, r: Req): real {
    var b := Handle(c, l, r).0.buckets[r.ip];
    if b.rate > 0.0 then RetryAfter(b) else 0.0
  }

  /** Every request of `ip` before `due` is refused, and its first one from then on is admitted. */
  predicate Honoured(c: Config, l: Limiter, trace: seq<Req>, ip: string, due: real)
    decreases |trace|
  {
    trace == [] ||
    var (next, admitted) := Handle(c, l, trace[0]);
    if trace[0].ip != ip then Honoured(c, next, trace[1..], ip, due)
    else if trace[0].at < due then !admitted && Honoured(c, next, trace[1..], ip, due)
    else admitted
  }

  /** Unless `ip` has been admitted before, its first request from `due` on is admitted. */
  predicate AdmittedByDue(c: Config, l: Limiter, trace: seq<Req>, ip: string, due: real)
    decreases |trace|
  {
    trace == [] ||
    var (next, admitted) := Handle(c, l, trace[0]);
    if trace[0].ip != ip then AdmittedByDue(c, next, trace[1..], ip, due)
    else admitted || (trace[0].at < due && AdmittedByDue(c, next, trace[1..], ip, due))
  }

  /** A refused bucket `d` of `ip`, refilled up to `last` unless it has been swept since. */
  ghost predicate Waiting(c: Config, l: Limiter, ip: string, d: Bucket, last: real) {
    && d.Valid() && d.rate == c.rate && d.burst == c.burst && d.tokens < 1.0 && d.lastRefill <= last
    && (ip in l.buckets ==> l.buckets[ip] == Refill(d, last))
  }

  function Due(d: Bucket): real
    requires d.rate > 0.0
  {
    d.lastRefill + RetryAfter(d)
  }

  lemma OtherRequestWaits(c: Config, l: Limiter, q: Req, ip: string, d: Bucket, last: real)
    requires c.Valid() && Waiting(c, l, ip, d, last) && q.ip != ip
    ensures Waiting(c, Handle(c, l, q).0, ip, d, last)
    ensures ip in Swept(c, l, q.at).buckets ==> ip in Handle(c, l, q).0.buckets
  {
  }

  /** A waiting address is refused exactly while its bucket is still there and the wait has not passed. */
  lemma OwnRequestWaits(c: Config, l: Limiter, q: Req, d: Bucket, last: real)
    requires c.Valid() && Waiting(c, l, q.ip, d, last) && last <= q.at
    ensures !Handle(c, l, q).1 <==> q.ip in Swept(c, l, q.at).buckets && q.at < Due(d)
    ensures !Handle(c, l, q).1 ==> Waiting(c, Handle(c, l, q).0, q.ip, d, q.at) && q.ip in Handle(c, l, q).0.buckets
  {
    if q.ip in Swept(c, l, q.at).buckets {
      RefillComposes(d, last, q.at);
      WaitIsExact(d, q.at);
    } else {
      assert Gain(c.rate, q.at, q.at) == 0.0;
    }
  }

  /** If two intervals yield a token, no sweep drops a bucket whose wait has not passed. */
  lemma WaitOutlastsSweep(c: Config, l: Limiter, ip: string, d: Bucket, last: real, now: real)
    requires c.Valid() && c.TokenBetweenSweeps() && Waiting(c, l, ip, d, last) && ip in l.buckets
    requires now < Due(d)
    ensures ip in Swept(c, l, now).buckets
  {
    var limit := d.lastRefill + 2.0 * c.interval;
    assert Gain(c.rate, d.lastRefill, Due(d)) == 1.0 - d.tokens;
    assert Gain(c.rate, d.lastRefill, limit) == c.rate * (2.0 * c.interval);
    GainSplit(c.rate, d.lastRefill, limit, Due(d));
    if limit < Due(d) {
      GainPositive(c.rate, limit, Due(d));
    }
  }

  lemma {:induction false} WaitHonoured(c: Config, l: Limiter, trace: seq<Req>, ip: string, d: Bucket, last: real,
                                        now: real)
    requires c.Valid() && c.TokenBetweenSweeps() && InOrder(now, trace)
    requires Waiting(c, l, ip, d, last) && last <= now && (ip in l.buckets || Due(d) <= now)
    ensures Honoured(c, l, trace, ip, Due(d))
    decreases |trace|
  {
    if trace != [] {
      var q, next := trace[0], Handle(c, l, trace[0]).0;
      if q.at < Due(d) {
        WaitOutlastsSweep(c, l, ip, d, last, q.at);
      }
      if q.ip != ip {
        OtherRequestWaits(c, l, q, ip, d, last);
        WaitHonoured(c, next, trace[1..], ip, d, last, q.at);
      } else {
        OwnRequestWaits(c, l, q, d, last);
        if q.at < Due(d) {
          WaitHonoured(c, next, trace[1..], ip, d, q.at, q.at);
        }
      }
    }
  }

  lemma {:induction false} WaitEnds(c: Config, l: Limiter, trace: seq<Req>, ip: string, d: Bucket, last: real,
                                    now: real)
    requires c.Valid() && InOrder(now, trace) && Waiting(c, l, ip, d, last) && last <= now
    ensures AdmittedByDue(c, l, trace, ip, Due(d))
    decreases |trace|
  {
    if trace != [] {
      var q, next := trace[0], Handle(c, l, trace[0]).0;
      if q.ip != ip {
        OtherRequestWaits(c, l, q, ip, d, last);
        WaitEnds(c, next, trace[1..], ip, d, last, q.at);
      } else {
        OwnRequestWaits(c, l, q, d, last);
        if !Handle(c, l, q).1 {
          WaitEnds(c, next, trace[1..], ip, d, q.at, q.at);
        }
      }
    }
  }

  lemma RefillTwice(b: Bucket, at: real)
    requires b.Valid() && b.lastRefill <= at
    ensures Refill(Refill(b, at), at) == Refill(b, at)
  {
    RefillComposes(b, at, at);
  }

  /** A refusal leaves its address waiting for the advertised instant. */
  lemma RefusalWaits(c: Config, l: Limiter, r: Req) returns (d: Bucket)
    requires c.Valid() && Wellformed(c, l.buckets, r.at) && !Handle(c, l, r).1
    ensures Waiting(c, Handle(c, l, r).0, r.ip, d, r.at) && r.ip in Handle(c, l, r).0.buckets
    ensures d == Handle(c, l, r).0.buckets[r.ip] && Due(d) == r.at + AdvertisedWait(c, l, r)
  {
    var swept := Swept(c, l, r.at).buckets;
    LookupValid(c, swept, r.ip, r.at);
    RefillValid(Lookup(c, swept, r.ip, r.at), r.at);
    d := Handle(c, l, r).0.buckets[r.ip];
    RefillTwice(Lookup(c, swept, r.ip, r.at), r.at);
  }

  /** If `r` is refused, the wait it advertises is exact for whatever comes next. */
  ghost predicate WaitExact(c: Config, l: Limiter, r: Req, rest: seq<Req>) {
    !Handle(c, l, r).1 ==> Honoured(c, Handle(c, l, r).0, rest, r.ip, r.at + AdvertisedWait(c, l, r))
  }

  /** Every advertised wait is exact, in every trace of requests from all addresses. */
  ghost predicate WaitsExact(c: Config, start: real) {
    forall before, r, rest :: InOrder(start, before + ([r] + rest)) ==>
      WaitExact(c, After(c, Limiter(map[], start), before), r, rest)
  }

  lemma HandleKeepsWellformed(c: Config, l: Limiter, r: Req, now: real)
    requires c.Valid() && Wellformed(c, l.buckets, now) && now <= r.at
    ensures Wellformed(c, Handle(c, l, r).0.buckets, r.at)
  {
    ServeKeepsWellformed(c, Swept(c, l, r.at).buckets, r);
  }

  lemma {:induction false} AfterKeepsWellformed(c: Config, l: Limiter, now: real, before: seq<Req>, more: seq<Req>)
    returns (reached: real)
    requires c.Valid() && Wellformed(c, l.buckets, now) && InOrder(now, before + more)
    ensures Wellformed(c, After(c, l, before).buckets, reached) && InOrder(reached, more)
    decreases |before|
  {
    if before == [] {
      assert before + more == more;
      reached := now;
    } else {
      assert (before + more)[1..] == before[1..] + more;
      HandleKeepsWellformed(c, l, before[0], now);
      reached := AfterKeepsWellformed(c, Handle(c, l, before[0]).0, before[0].at, before[1..], more);
    }
  }

  lemma RefusedAt(c: Config, start: real, before: seq<Req>, r: Req, rest: seq<Req>)
    requires c.Valid() && InOrder(start, before + ([r] + rest))
    ensures Wellformed(c, After(c, Limiter(map[], start), before).buckets, r.at) && InOrder(r.at, rest)
  {
    var now := AfterKeepsWellformed(c, Limiter(map[], start), start, before, [r] + rest);
    assert ([r] + rest)[1..] == rest;
  }

  lemma WaitsExactIfToken(c: Config, start: real, before: seq<Req>, r: Req, rest: seq<Req>)
    requires c.Valid() && c.TokenBetweenSweeps() && InOrder(start, before + ([r] + rest))
    ensures WaitExact(c, After(c, Limiter(map[], start), before), r, rest)
  {
    var l := After(c, Limiter(map[], start), before);
    RefusedAt(c, start, before, r, rest);
    if !Handle(c, l, r).1 {
      var d := RefusalWaits(c, l, r);
      WaitHonoured(c, Handle(c, l, r).0, rest, r.ip, d, r.at, r.at);
    }
  }

  /**
  Whatever the settings and whether or not a sweep happens, the wait is never too short: an address
  that was refused and not admitted since is admitted at its first request from the advertised instant on.
  */
  lemma WaitNeverTooShort(c: Config, start: real, before: seq<Req>, r: Req, rest: seq<Req>)
    requires c.Valid() && InOrder(start, before + ([r] + rest))
    requires !Handle(c, After(c, Limiter(map[], start), before), r).1
    ensures var l := After(c, Limiter(map[], start), before);
            AdmittedByDue(c, Handle(c, l, r).0, rest, r.ip, r.at + AdvertisedWait(c, l, r))
  {
    var l := After(c, Limiter(map[], start), before);
    RefusedAt(c, start, before, r, rest);
    var d := RefusalWaits(c, l, r);
    WaitEnds(c, Handle(c, l, r).0, rest, r.ip, d, r.at, r.at);
  }

  /** A full volley at the start drains the bucket, so that one more request is refused for a token's time. */
  lemma DrainedAndRefused(c: Config, ip: string, start: real) returns (l: Limiter)
    requires c.Valid()
    ensures l == After(c, Limiter(map[], start), Volley(ip, start, c.burst)) && l.lastCleanup == start
    ensures Wellformed(c, l.buckets, start) && !Handle(c, l, Req(ip, start)).1
    ensures Gain(c.rate, start, start + AdvertisedWait(c, l, Req(ip, start))) == 1.0
  {
    var l0, r := Limiter(map[], start), Req(ip, start);
    assert Level(c, map[], ip, start) == c.burst as real by {
      assert Gain(c.rate, start, start) == 0.0;
    }
    VolleyOutcome(c, map[], ip, start, c.burst);
    NoSweepDue(c, l0, ip, start, c.burst);
    l := After(c, l0, Volley(ip, start, c.burst));
    assert Level(c, l.buckets, ip, start) == 0.0;
    ServeLowersLevel(c, l.buckets, ip, start);
    assert AdvertisedWait(c, l, r) == 1.0 / c.rate;
  }

  /** A request between two intervals and the advertised instant is admitted: the sweep dropped its bucket. */
  lemma WaitCutShort(c: Config, start: real)
    requires c.Valid() && !c.TokenBetweenSweeps()
    ensures !WaitsExact(c, start)
  {
    var ip, r := "a", Req("a", start);
    var l := DrainedAndRefused(c, ip, start);
    var due := start + AdvertisedWait(c, l, r);
    TokenTakesLonger(c, start, due);
    var q := Req(ip, (start + 2.0 * c.interval + due) / 2.0);
    SweptAdmitsEarly(c, l, r, q);
    assert InOrder(start, [r] + [q]) by {
      assert ([r] + [q])[1..] == [q] && [q][1..] == [];
    }
    VolleyInOrder(ip, start, start, c.burst, [r] + [q]);
    assert !WaitExact(c, After(c, Limiter(map[], start), Volley(ip, start, c.burst)), r, [q]);
  }

  /** If two intervals do not yield a token, a token takes longer. */
  lemma TokenTakesLonger(c: Config, start: real, due: real)
    requires c.Valid() && !c.TokenBetweenSweeps() && Gain(c.rate, start, due) == 1.0
    ensures start + 2.0 * c.interval < due
  {
    var threshold := start + 2.0 * c.interval;
    assert Gain(c.rate, start, threshold) == c.rate * (2.0 * c.interval);
    GainSplit(c.rate, start, due, threshold);
    if due <= threshold {
      GainNonNegative(c.rate, due, threshold);
    }
  }

  lemma SweptAdmitsEarly(c: Config, l: Limiter, r: Req, q: Req)
    requires c.Valid() && Wellformed(c, l.buckets, r.at) && l.lastCleanup == r.at && !Handle(c, l, r).1
    requires q.ip == r.ip && r.at + 2.0 * c.interval < q.at < r.at + AdvertisedWait(c, l, r)
    ensures Handle(c, Handle(c, l, r).0, q).1 && !WaitExact(c, l, r, [q])
  {
    var refused := Handle(c, l, r).0;
    var d := RefusalWaits(c, l, r);
    HandleKeepsWellformed(c, l, r, r.at);
    SweepDrops(c, refused, r.ip, r.at, q.at);
    OwnRequestWaits(c, refused, q, d, r.at);
    assert [q][0] == q;
  }

  /** Every advertised wait is exact, in every trace, exactly when two cleanup intervals yield a token. */
  lemma WaitsExactIff(c: Config, start: real)
    requires c.Valid()
    ensures WaitsExact(c, start) <==> c.TokenBetweenSweeps()
  {
    if c.TokenBetweenSweeps() {
      forall before, r, rest | InOrder(start, before + ([r] + rest))
        ensures WaitExact(c, After(c, Limiter(map[], start), before), r, rest)
      {
        WaitsExactIfToken(c, start, before, r, rest);
      }
    } else {
      WaitCutShort(c, start);
    }
  }

  /** Draining a bucket, being refused for the time of one token and asking after a sweep but before that. */
  lemma EarlyAdmission(c: Config, ip: string, start: real, wait: real, at: real) returns (drained: Limiter)
    requires c.Valid() && Gain(c.rate, start, start + wait) == 1.0 && start + 2.0 * c.interval < at < start + wait
    ensures drained == After(c, Limiter(map[], start), Volley(ip, start, c.burst))
    ensures !Handle(c, drained, Req(ip, start)).1 && AdvertisedWait(c, drained, Req(ip, start)) == wait
    ensures Handle(c, Handle(c, drained, Req(ip, start)).0, Req(ip, at)).1
  {
    drained := DrainedAndRefused(c, ip, start);
    SameGainSameTime(c.rate, start, start + wait, start + AdvertisedWait(c, drained, Req(ip, start)));
    SweptAdmitsEarly(c, drained, Req(ip, start), Req(ip, at));
  }

  lemma SameGainSameTime(rate: real, from: real, u: real, v: real)
    requires rate > 0.0 && Gain(rate, from, u) == Gain(rate, from, v)
    ensures u == v
  {
    GainSplit(rate, from, u, v);
    GainSplit(rate, from, v, u);
    if u < v {
      GainPositive(rate, u, v);
    } else if v < u {
      GainPositive(rate, v, u);
    }
  }

  /** A thousandth of a token per second and sweeps every 60: refused at 0 for 1000 seconds, admitted at 121. */
  lemma EarlyAdmissionExample(c: Config) returns (drained: Limiter)
    requires c == Config(0.001, 1, 60.0)
    ensures drained == After(c, Limiter(map[], 0.0), Volley("a", 0.0, c.burst))
    ensures !Handle(c, drained, Req("a", 0.0)).1 && AdvertisedWait(c, drained, Req("a", 0.0)) == 1000.0
    ensures Handle(c, Handle(c, drained, Req("a", 0.0)).0, Req("a", 121.0)).1
  {
    drained := EarlyAdmission(c, "a", 0.0, 1000.0, 121.0);
  }

  // ----- one request, spelled out -----

  /** The tokens an address has: a full bucket unless it has one no cleanup drops, refilled up to the burst. */
  ghost function TokensAt(c: Config, l: Limiter, ip: string, now: real): real {
    var full := c.burst as real;
    if ip in l.buckets && (now - l.lastCleanup < c.interval || now - l.buckets[ip].lastRefill <= 2.0 * c.interval)
    then
      var refilled := l.buckets[ip].tokens + (now - l.buckets[ip].lastRefill) * c.rate;
      if refilled > full then full else refilled
    else full
  }

  /** A request is admitted exactly when its address has a token, and then takes one. */
  lemma HandleSpelledOut(c: Config, l: Limiter, r: Req)
    requires c.Valid() && Wellformed(c, l.buckets, r.at)
    ensures var (next, admitted) := Handle(c, l, r);
            && (admitted <==> TokensAt(c, l, r.ip, r.at) >= 1.0)
            && r.ip in next.buckets && next.buckets[r.ip].lastRefill == r.at
            && next.buckets[r.ip].tokens == TokensAt(c, l, r.ip, r.at) - (if admitted then 1.0 else 0.0)
            && (forall ip :: ip in next.buckets && ip != r.ip ==> ip in l.buckets && next.buckets[ip] == l.buckets[ip])
  {
    assert Gain(c.rate, r.at, r.at) == 0.0;
    assert Refill(Lookup(c, Swept(c, l, r.at).buckets, r.ip, r.at), r.at).tokens == TokensAt(c, l, r.ip, r.at);
  }

  // ----- nothing old is kept -----

  /** No bucket is older than two intervals before the last cleanup, which is less than one interval ago. */
  ghost predicate Recent(c: Config, l: Limiter, now: real) {
    && now - l.lastCleanup < c.interval
    && forall ip :: ip in l.buckets ==> l.buckets[ip].lastRefill >= l.lastCleanup - 2.0 * c.interval
  }

  /** A request at least one interval after the last cleanup leaves no bucket older than two intervals. */
  lemma CleanupIsTimely(c: Config, l: Limiter, r: Req)
    requires c.Valid() && r.at - l.lastCleanup >= c.interval
    ensures Handle(c, l, r).0.lastCleanup == r.at
    ensures forall ip :: ip in Handle(c, l, r).0.buckets ==>
              Handle(c, l, r).0.buckets[ip].lastRefill >= r.at - 2.0 * c.interval
  {
  }

  lemma HandleKeepsRecent(c: Config, l: Limiter, r: Req, now: real)
    requires c.Valid() && Recent(c, l, now) && l.lastCleanup <= now <= r.at
    ensures Recent(c, Handle(c, l, r).0, r.at) && Handle(c, l, r).0.lastCleanup <= r.at
  {
    if r.at - l.lastCleanup >= c.interval {
      CleanupIsTimely(c, l, r);
    }
  }

  /** In every trace, whenever a request has been handled no bucket is older than three intervals. */
  lemma {:induction false} BucketsStayRecent(c: Config, l: Limiter, now: real, trace: seq<Req>) returns (last: real)
    requires c.Valid() && Recent(c, l, now) && l.lastCleanup <= now && InOrder(now, trace)
    ensures last == if trace == [] then now else trace[|trace| - 1].at
    ensures forall ip :: ip in After(c, l, trace).buckets ==>
              After(c, l, trace).buckets[ip].lastRefill > last - 3.0 * c.interval
    decreases |trace|
  {
    if trace == [] {
      last := now;
    } else {
      HandleKeepsRecent(c, l, trace[0], now);
      last := BucketsStayRecent(c, Handle(c, l, trace[0]).0, trace[0].at, trace[1..]);
    }
  }

  // ----- the limiter object -----

  class RateLimiter {
    const config: Config
    var ipBuckets: Buckets
    var lastCleanup: real

    function State(): Limiter
      reads this
    {
      Limiter(ipBuckets, lastCleanup)
    }

    constructor (c: Config, now: real)
      ensures config == c && State() == Limiter(map[], now)
    {
      config, ipBuckets, lastCleanup := c, map[], now;
    }

    method PerformCleanup(now: real)
      modifies this
      ensures State() == Swept(config, old(State()), now)
      ensures now - old(lastCleanup) < config.interval ==> State() == old(State())
      ensures now - old(lastCleanup) >= config.interval ==>
                && lastCleanup == now
                && (forall ip :: ip in ipBuckets <==>
                      ip in old(ipBuckets) && old(ipBuckets)[ip].lastRefill >= now - 2.0 * config.interval)
                && (forall ip :: ip in ipBuckets ==> ipBuckets[ip] == old(ipBuckets)[ip])
    {
      if now - lastCleanup < config.interval {
        return;
      }
      var threshold := now - 2.0 * config.interval;
      var rest := ipBuckets.Keys;
      while rest != {}
        invariant rest <= old(ipBuckets.Keys) && lastCleanup == old(lastCleanup)
        invariant forall ip :: ip in ipBuckets <==>
                    ip in old(ipBuckets) && (ip in rest || old(ipBuckets)[ip].lastRefill >= threshold)
        invariant forall ip :: ip in ipBuckets ==> ipBuckets[ip] == old(ipBuckets)[ip]
      {
        var ip :| ip in rest;
        if ipBuckets[ip].lastRefill < threshold {
          ipBuckets := ipBuckets - {ip};
        }
        rest := rest - {ip};
      }
      assert ipBuckets == Kept(old(ipBuckets), threshold);
      lastCleanup := now;
    }

    method GetOrCreateIPBucket(ip: string, now: real) returns (b: Bucket)
      modifies this
      ensures b == Lookup(config, old(ipBuckets), ip, now)
      ensures State() == old(State()).(buckets := old(ipBuckets)[ip := b])
      ensures b == if ip in old(ipBuckets) then old(ipBuckets)[ip]
                   else Bucket(config.burst as real, now, config.rate, config.burst)
    {
      if ip !in ipBuckets {
        b := Bucket(config.burst as real, now, config.rate, config.burst);
        ipBuckets := ipBuckets[ip := b];
      } else {
        b := ipBuckets[ip];
        assert ipBuckets == ipBuckets[ip := b];
      }
    }

    method IPRateLimit(ip: string, now: real) returns (admitted: bool, retryAfter: real)
      requires config.Valid() && Wellformed(config, ipBuckets, now)
      modifies this
      ensures State() == Handle(config, old(State()), Req(ip, now)).0
      ensures admitted == Handle(config, old(State()), Req(ip, now)).1
      ensures Wellformed(config, ipBuckets, now)
      ensures !admitted ==> ip in ipBuckets && retryAfter == RetryAfter(ipBuckets[ip]) > 0.0
      ensures var tokens := TokensAt(config, old(State()), ip, now);
              && (admitted <==> tokens >= 1.0)
              && ip in ipBuckets && ipBuckets[ip].lastRefill == now
              && ipBuckets[ip].tokens == (if admitted then tokens - 1.0 else tokens)
      ensures !admitted ==> retryAfter == AdvertisedWait(config, old(State()), Req(ip, now))
    {
      HandleSpelledOut(config, State(), Req(ip, now));
      PerformCleanup(now);
      ghost var swept := ipBuckets;
      var bucket := GetOrCreateIPBucket(ip, now);
      LookupValid(config, swept, ip, now);
      RefillValid(bucket, now);
      bucket := Refill(bucket, now);
      if bucket.tokens < 1.0 {
        admitted, retryAfter := false, RetryAfter(bucket);
        assert retryAfter > 0.0;
      } else {
        bucket := bucket.(tokens := bucket.tokens - 1.0);
        admitted, retryAfter := true, 0.0;
      }
      ipBuckets := ipBuckets[ip := bucket];
      assert ipBuckets == swept[ip := bucket];
    }
  }
}
