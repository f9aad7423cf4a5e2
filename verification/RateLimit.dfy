/** internal/ratelimit/ratelimit.go: the limiter, with tokens and seconds as real numbers. */
module RateLimit {
  import opened Clock
  import opened Options

  datatype Bucket = Bucket(tokens: real, last: real)

  /** Lazily: what a bucket holds at an instant, given what it held when last touched. */
  function Refill(rate: real, burst: real, b: Bucket, now: real): real {
    var elapsed := now - b.last;
    if elapsed <= 0.0 then b.tokens
    else if b.tokens + elapsed * rate > burst then burst
    else b.tokens + elapsed * rate
  }

  /** A label that was never seen has a full bucket. */
  function Found(burst: real, b: Option<Bucket>, now: real): Bucket {
    if b.Some? then b.value else Bucket(burst, now)
  }

  function Grants(rate: real, burst: real, b: Option<Bucket>, now: real): bool {
    Refill(rate, burst, Found(burst, b, now), now) >= 1.0
  }

  /** The bucket after a request: `last` is overwritten even by an earlier clock reading. */
  function Touched(rate: real, burst: real, b: Option<Bucket>, now: real): Bucket {
    var tokens := Refill(rate, burst, Found(burst, b, now), now);
    Bucket(if tokens >= 1.0 then tokens - 1.0 else tokens, now)
  }

  /** The exact time until a whole token is there. */
  function Wait(rate: real, tokens: real): real
    requires rate > 0.0
  {
    (1.0 - tokens) / rate
  }

  /** time.Duration keeps whole nanoseconds and drops the rest. */
  function WaitNanos(rate: real, tokens: real): int
    requires rate > 0.0
  {
    (Wait(rate, tokens) * NANOSECONDS as real).Floor
  }

  datatype LimiterState = LimiterState(rate: real, burst: real, buckets: map<string, Bucket>)

  function BucketOf(s: LimiterState, key: string): Option<Bucket> {
    if key in s.buckets then Some(s.buckets[key]) else None
  }

  function Allows(s: LimiterState, key: string, now: real): bool {
    s.rate <= 0.0 || Grants(s.rate, s.burst, BucketOf(s, key), now)
  }

  function AfterAllow(s: LimiterState, key: string, now: real): LimiterState {
    if s.rate <= 0.0 then s
    else s.(buckets := s.buckets[key := Touched(s.rate, s.burst, BucketOf(s, key), now)])
  }

  /** Every bucket of an enabled limiter holds between nothing and the burst. */
  ghost predicate InRange(s: LimiterState) {
    && (s.rate > 0.0 ==> s.burst >= 1.0)
    && (s.rate <= 0.0 ==> s.buckets == map[])
    && forall l | l in s.buckets :: 0.0 <= s.buckets[l].tokens <= s.burst
  }

  lemma EarningIsNotLosing(seconds: real, rate: real)
    requires seconds > 0.0 && rate > 0.0
    ensures seconds * rate > 0.0
  {
  }

  lemma RefillIsCapped(rate: real, burst: real, b: Bucket, now: real) returns (earned: real)
    requires rate > 0.0 && now > b.last
    ensures earned > 0.0
    ensures Refill(rate, burst, b, now) == if b.tokens + earned > burst then burst else b.tokens + earned
  {
    var elapsed := now - b.last;
    EarningIsNotLosing(elapsed, rate);
    earned := elapsed * rate;
  }

  lemma RefillInRange(rate: real, burst: real, b: Bucket, now: real)
    requires rate > 0.0 && 0.0 <= b.tokens <= burst
    ensures 0.0 <= Refill(rate, burst, b, now) <= burst
  {
    if now > b.last {
      var earned := RefillIsCapped(rate, burst, b, now);
    }
  }

  lemma AfterAllowInRange(s: LimiterState, key: string, now: real)
    requires InRange(s)
    ensures InRange(AfterAllow(s, key, now))
  {
    if s.rate > 0.0 {
      RefillInRange(s.rate, s.burst, Found(s.burst, BucketOf(s, key), now), now);
      hide Refill;
    }
  }

  class Limiter {
    var ratePerSec: real
    var burst: real
    var buckets: map<string, Bucket>

    /** A rate that is not positive switches limiting off; a burst below one is raised to one. */
    constructor New(perMinute: real, burst: int)
      ensures State().rate == if perMinute <= 0.0 then 0.0 else perMinute / 60.0
      ensures perMinute > 0.0 ==> State().burst == if burst < 1 then 1.0 else burst as real
      ensures State().buckets == map[] && InRange(State())
    {
      buckets := map[];
      ratePerSec := 0.0;
      this.burst := 0.0;
      new;
      if perMinute <= 0.0 {
        return;
      }
      ratePerSec := perMinute / 60.0;
      this.burst := burst as real;
      if this.burst < 1.0 {
        this.burst := 1.0;
      }
    }

    ghost function State(): LimiterState
      reads this
    {
      LimiterState(ratePerSec, burst, buckets)
    }
  }

  /** A null limiter allows everything, as a nil receiver does. The wait is in nanoseconds. */
  method Allow(l: Limiter?, key: string, now: real) returns (allowed: bool, retryAfter: int)
    requires l != null ==> InRange(l.State())
    modifies l
    ensures l == null ==> allowed && retryAfter == 0
    ensures l != null ==>
              && allowed == Allows(old(l.State()), key, now)
              && l.State() == AfterAllow(old(l.State()), key, now) && InRange(l.State())
    ensures l != null && !allowed ==>
              l.ratePerSec > 0.0 && key in l.buckets && l.buckets[key].tokens < 1.0
              && retryAfter == WaitNanos(l.ratePerSec, l.buckets[key].tokens)
    ensures allowed ==> retryAfter == 0
  {
    if l == null || l.ratePerSec <= 0.0 {
      return true, 0;
    }
    AfterAllowInRange(l.State(), key, now);
    hide InRange;
    if key !in l.buckets {
      l.buckets := l.buckets[key := Bucket(l.burst, now)];
    }
    var b := l.buckets[key];
    var elapsed := now - b.last;
    if elapsed > 0.0 {
      b := b.(tokens := b.tokens + elapsed * l.ratePerSec);
      if b.tokens > l.burst {
        b := b.(tokens := l.burst);
      }
    }
    b := b.(last := now);
    assert b.tokens == Refill(l.ratePerSec, l.burst, Found(l.burst, BucketOf(old(l.State()), key), now), now);
    if b.tokens >= 1.0 {
      b := b.(tokens := b.tokens - 1.0);
      l.buckets := l.buckets[key := b];
      return true, 0;
    }
    l.buckets := l.buckets[key := b];
    assert l.buckets == old(l.buckets)[key := b];
    return false, ((1.0 - b.tokens) / l.ratePerSec * NANOSECONDS as real).Floor;
  }

  /** writeRateLimited: the wait in whole seconds, rounded up, and at least one. */
  function RetryAfterSeconds(nanos: int): int {
    var seconds := -((-nanos) / NANOSECONDS);
    if seconds < 1 then 1 else seconds
  }
}
