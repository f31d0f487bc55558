/**
The token buckets of internal/api/middleware/ratelimit.go, over exact real numbers.

A bucket is a value held in the limiter's map.  One request is one atomic step: clean up if due,
find or create the bucket, refill it, take a token or refuse.
*/
module TokenBucket {

  datatype Bucket = Bucket(tokens: real, lastRefill: real, rate: real, burst: int) {
    predicate Valid() {
      0.0 <= tokens <= burst as real && rate > 0.0 && burst >= 1
    }
  }

  /** The tokens that accrue between two instants. */
  function Gain(rate: real, from: real, to: real): real {
    (to - from) * rate
  }

  /** What the bucket would hold at `now` without the cap. */
  function Accrued(b: Bucket, now: real): real {
    b.tokens + Gain(b.rate, b.lastRefill, now)
  }

  function Refill(b: Bucket, now: real): Bucket {
    var t := Accrued(b, now);
    b.(tokens := if t > b.burst as real then b.burst as real else t, lastRefill := now)
  }

  function RetryAfter(b: Bucket): real
    requires b.rate > 0.0
  {
    var needed := 1.0 - b.tokens;
    if needed <= 0.0 then 0.0 else needed / b.rate
  }

  /** One request: the bucket afterwards and whether the request was admitted. */
  function Take(b: Bucket, now: real): (Bucket, bool) {
    var r := Refill(b, now);
    if r.tokens < 1.0 then (r, false) else (r.(tokens := r.tokens - 1.0), true)
  }

  // ----- arithmetic -----

  lemma GainNonNegative(rate: real, from: real, to: real)
    requires rate >= 0.0 && from <= to
    ensures Gain(rate, from, to) >= 0.0
  {
  }

  lemma GainPositive(rate: real, from: real, to: real)
    requires rate > 0.0 && from < to
    ensures Gain(rate, from, to) > 0.0
  {
  }

  lemma GainSplit(rate: real, a: real, b: real, c: real)
    ensures Gain(rate, a, b) + Gain(rate, b, c) == Gain(rate, a, c)
  {
  }

  // ----- one bucket over a trace -----

  predicate Ordered(start: real, times: seq<real>)
    decreases |times|
  {
    times == [] || (start <= times[0] && Ordered(times[0], times[1..]))
  }

  function Run(b: Bucket, times: seq<real>): Bucket
    decreases |times|
  {
    if times == [] then b else Run(Take(b, times[0]).0, times[1..])
  }

  /** How many requests of the trace are admitted at a time in [s, t]. */
  function Admitted(b: Bucket, times: seq<real>, s: real, t: real): nat
    decreases |times|
  {
    if times == [] then 0
    else (if Take(b, times[0]).1 && s <= times[0] <= t then 1 else 0) + Admitted(Take(b, times[0]).0, times[1..], s, t)
  }

  lemma RefillValid(b: Bucket, now: real)
    requires b.Valid() && b.lastRefill <= now
    ensures Refill(b, now).Valid() && Take(b, now).0.Valid()
  {
    GainNonNegative(b.rate, b.lastRefill, now);
  }

  /** Whatever the trace, the bucket never holds a negative number of tokens or more than its burst. */
  lemma {:induction false} TokensStayInRange(b: Bucket, times: seq<real>)
    requires b.Valid() && Ordered(b.lastRefill, times)
    ensures Run(b, times).Valid() && Run(b, times).burst == b.burst && Run(b, times).rate == b.rate
    decreases |times|
  {
    if times != [] {
      RefillValid(b, times[0]);
      TokensStayInRange(Take(b, times[0]).0, times[1..]);
    }
  }

  /** Once inside the interval, what can still be admitted is bounded by what the bucket can still accrue. */
  lemma {:induction false} AdmittedWithinAccrual(b: Bucket, times: seq<real>, s: real, t: real)
    requires b.Valid() && Ordered(b.lastRefill, times)
    ensures b.lastRefill <= t ==> Admitted(b, times, s, t) as real <= Accrued(b, t)
    ensures b.lastRefill > t ==> Admitted(b, times, s, t) == 0
    decreases |times|
  {
    if b.lastRefill <= t {
      GainNonNegative(b.rate, b.lastRefill, t);
    }
    if times != [] {
      var now, next := times[0], Take(b, times[0]).0;
      RefillValid(b, now);
      AdmittedWithinAccrual(next, times[1..], s, t);
      GainSplit(b.rate, b.lastRefill, now, t);
    }
  }

  /** In any interval a bucket admits at most its burst plus what accrues during the interval. */
  lemma {:induction false} AdmissionBound(b: Bucket, times: seq<real>, s: real, t: real)
    requires b.Valid() && Ordered(b.lastRefill, times) && s <= t
    ensures Admitted(b, times, s, t) as real <= b.burst as real + Gain(b.rate, s, t)
    decreases |times|
  {
    GainNonNegative(b.rate, s, t);
    if times != [] {
      var now, next := times[0], Take(b, times[0]).0;
      RefillValid(b, now);
      if now < s || now > t {
        AdmissionBound(next, times[1..], s, t);
      } else {
        AdmittedWithinAccrual(next, times[1..], s, t);
        GainSplit(b.rate, s, now, t);
        GainNonNegative(b.rate, s, now);
      }
    }
  }

  // ----- refills compose -----

  lemma RefillComposes(b: Bucket, u: real, v: real)
    requires b.rate >= 0.0 && u <= v
    ensures Refill(Refill(b, u), v) == Refill(b, v)
  {
    GainSplit(b.rate, b.lastRefill, u, v);
    GainNonNegative(b.rate, u, v);
  }

  /** No request of the trace is admitted. */
  predicate NoneAdmitted(b: Bucket, times: seq<real>)
    decreases |times|
  {
    times == [] || (!Take(b, times[0]).1 && NoneAdmitted(Take(b, times[0]).0, times[1..]))
  }

  /** A refused bucket holds a full token at `u` exactly when the advertised wait has passed. */
  lemma WaitIsExact(d: Bucket, u: real)
    requires d.Valid() && d.tokens < 1.0 && d.lastRefill <= u
    ensures Refill(d, u).tokens >= 1.0 <==> u >= d.lastRefill + RetryAfter(d)
  {
    var due := d.lastRefill + RetryAfter(d);
    assert Gain(d.rate, d.lastRefill, due) == 1.0 - d.tokens;
    GainSplit(d.rate, d.lastRefill, due, u);
    GainSplit(d.rate, d.lastRefill, u, due);
    if u >= due {
      GainNonNegative(d.rate, due, u);
    } else {
      GainPositive(d.rate, u, due);
    }
  }

  lemma {:induction false} DeniedUntil(d: Bucket, from: real, early: seq<real>) returns (last: real)
    requires d.Valid() && d.tokens < 1.0 && d.lastRefill <= from && Ordered(from, early)
    requires forall e :: e in early ==> e < d.lastRefill + RetryAfter(d)
    ensures NoneAdmitted(Refill(d, from), early)
    ensures last == if early == [] then from else early[|early| - 1]
    ensures from <= last && Run(Refill(d, from), early) == Refill(d, last)
    decreases |early|
  {
    if early == [] {
      last := from;
    } else {
      var e := early[0];
      assert forall x :: x in early[1..] ==> x in early;
      RefillComposes(d, from, e);
      WaitIsExact(d, e);
      assert e in early && Refill(d, e).tokens < 1.0;
      assert Take(Refill(d, from), e) == (Refill(d, e), false);
      last := DeniedUntil(d, e, early[1..]);
    }
  }

  /**
  The advertised wait is exact: after a refusal at time `t`, every request before `t + retryAfter`
  is refused, however many there are, and the first one at or after it is admitted.
  */
  lemma RetryAfterIsExact(b: Bucket, t: real, early: seq<real>, u: real)
    requires b.Valid() && b.lastRefill <= t && !Take(b, t).1
    requires Ordered(t, early + [u])
    requires forall e :: e in early ==> e < t + RetryAfter(Take(b, t).0)
    requires u >= t + RetryAfter(Take(b, t).0)
    ensures NoneAdmitted(Take(b, t).0, early)
    ensures Take(Run(Take(b, t).0, early), u).1
  {
    var d := Take(b, t).0;
    RefillValid(b, t);
    OrderedPrefix(t, early, u);
    RefillComposes(b, t, t);
    assert Refill(d, t) == d;
    var last := DeniedUntil(d, t, early);
    RefillComposes(d, last, u);
    WaitIsExact(d, u);
  }

  lemma {:induction false} OrderedPrefix(start: real, early: seq<real>, u: real)
    requires Ordered(start, early + [u])
    ensures Ordered(start, early)
    ensures (if early == [] then start else early[|early| - 1]) <= u
    ensures start <= u
    decreases |early|
  {
    if early != [] {
      assert (early + [u])[1..] == early[1..] + [u];
      OrderedPrefix(early[0], early[1..], u);
    }
  }
}
