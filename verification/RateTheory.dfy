/** What the limiter guarantees over runs of calls for any labels at any clock readings. */
module RateTheory {
  import opened Clock
  import opened Options
  import opened RateLimit
  import T = TokenBucket

  datatype Call = Call(key: string, now: real)

  ghost function Run(s: LimiterState, calls: seq<Call>): LimiterState
    decreases |calls|
  {
    if calls == [] then s else Run(AfterAllow(s, calls[0].key, calls[0].now), calls[1..])
  }

  /** The decisions a run makes for one key, in order. */
  ghost function Decisions(s: LimiterState, calls: seq<Call>, key: string): seq<bool>
    decreases |calls|
  {
    if calls == [] then []
    else
      (if calls[0].key == key then [Allows(s, key, calls[0].now)] else [])
      + Decisions(AfterAllow(s, calls[0].key, calls[0].now), calls[1..], key)
  }

  ghost function TimesOf(calls: seq<Call>, key: string): seq<real> {
    if calls == [] then []
    else (if calls[0].key == key then [calls[0].now] else []) + TimesOf(calls[1..], key)
  }

  /** One bucket on its own. */
  ghost function Answers(rate: real, burst: real, b: Option<Bucket>, times: seq<real>): seq<bool>
    decreases |times|
  {
    if times == [] then []
    else [Grants(rate, burst, b, times[0])] + Answers(rate, burst, Some(Touched(rate, burst, b, times[0])), times[1..])
  }

  /** A label is answered as if no other label ever called. */
  lemma {:induction false} LabelsAreIndependent(s: LimiterState, calls: seq<Call>, key: string)
    requires s.rate > 0.0
    ensures Decisions(s, calls, key) == Answers(s.rate, s.burst, BucketOf(s, key), TimesOf(calls, key))
    decreases |calls|
  {
    if calls != [] {
      var after := AfterAllow(s, calls[0].key, calls[0].now);
      LabelsAreIndependent(after, calls[1..], key);
      if calls[0].key == key {
        assert TimesOf(calls, key)[1..] == TimesOf(calls[1..], key);
      } else {
        assert TimesOf(calls, key) == TimesOf(calls[1..], key);
      }
    }
  }

  /** How far the clock moved forward into reading k; a step back counts nothing. */
  function Advance(times: seq<real>, k: nat): real
    requires k < |times|
  {
    if k == 0 || times[k] <= times[k - 1] then 0.0 else times[k] - times[k - 1]
  }

  /** The tokens that a bucket earns over a time, its capacity aside. */
  function Earned(rate: real, seconds: real): real { rate * seconds }

  /** What the bucket is credited before each request. */
  ghost function Credits(rate: real, times: seq<real>): (a: seq<real>)
    ensures |a| == |times|
    decreases |times|
  {
    if times == [] then []
    else Credits(rate, times[..|times| - 1]) + [rate * Advance(times, |times| - 1)]
  }

  lemma {:induction false} CreditAt(rate: real, times: seq<real>, k: nat)
    requires k < |times|
    ensures Credits(rate, times)[k] == rate * Advance(times, k)
    decreases |times|
  {
    if k < |times| - 1 {
      CreditAt(rate, times[..|times| - 1], k);
    }
  }

  lemma CreditsAreCredits(rate: real, times: seq<real>)
    requires rate >= 0.0
    ensures T.Credits(Credits(rate, times))
  {
    forall k | 0 <= k < |times| ensures Credits(rate, times)[k] >= 0.0 {
      CreditAt(rate, times, k);
    }
  }

  /** The answers from request k on are those of the bucket game at the level request k finds. */
  lemma {:induction false} AnswersFrom(rate: real, burst: real, times: seq<real>, k: nat)
    requires rate > 0.0 && burst >= 0.0 && k < |times|
    ensures var a := Credits(rate, times);
            var rest := Answers(rate, burst, Some(Bucket(if k == 0 then burst else T.Spend(T.Level(burst, a, k - 1)),
                                                         times[if k == 0 then 0 else k - 1])), times[k..]);
            && |rest| == |times| - k
            && forall j | k <= j < |times| :: rest[j - k] <==> T.Admitted(burst, a, j)
    decreases |times| - k
  {
    var a := Credits(rate, times);
    var b := Bucket(if k == 0 then burst else T.Spend(T.Level(burst, a, k - 1)), times[if k == 0 then 0 else k - 1]);
    assert times[k..][0] == times[k] && times[k..][1..] == times[k + 1..];
    CreditAt(rate, times, k);
    CreditsAreCredits(rate, times);
    RefillIsCredit(rate, burst, b, times[k], if k == 0 then 0.0 else a[k]);
    assert Refill(rate, burst, b, times[k]) == T.Level(burst, a, k) by {
      T.LevelInRange(burst, a, k);
      if k > 0 { T.LevelInRange(burst, a, k - 1); }
    }
    if k + 1 < |times| {
      AnswersFrom(rate, burst, times, k + 1);
    }
  }

  lemma RefillIsCredit(rate: real, burst: real, b: Bucket, now: real, credit: real)
    requires rate > 0.0 && b.tokens <= burst
    requires credit == if now <= b.last then 0.0 else rate * (now - b.last)
    ensures Refill(rate, burst, b, now) == T.Cap(burst, b.tokens + credit)
  {
  }

  /** A fresh label's decisions, whatever the other labels do and whatever the clock does. */
  lemma DecisionsAreTheBucketGame(s: LimiterState, calls: seq<Call>, key: string)
    requires s.rate > 0.0 && s.burst >= 0.0 && key !in s.buckets
    ensures var a := Credits(s.rate, TimesOf(calls, key));
            var d := Decisions(s, calls, key);
            |d| == |a| && forall j | 0 <= j < |d| :: d[j] <==> T.Admitted(s.burst, a, j)
  {
    LabelsAreIndependent(s, calls, key);
    var times := TimesOf(calls, key);
    if times != [] {
      AnswersFrom(s.rate, s.burst, times, 0);
      assert times[0..] == times;
      assert Touched(s.rate, s.burst, None, times[0])
          == Touched(s.rate, s.burst, Some(Bucket(s.burst, times[0])), times[0]);
    }
  }

  ghost predicate Ascending(times: seq<real>) {
    forall i, j | 0 <= i <= j < |times| :: times[i] <= times[j]
  }

  /** The sum of the clock's steps forward in a window. */
  ghost function Forward(times: seq<real>, i: nat, j: nat): real
    requires i <= j < |times|
    decreases j
  {
    if i == j then 0.0 else Forward(times, i, j - 1) + Advance(times, j)
  }

  lemma {:induction false} CreditIsRateTimesForward(rate: real, times: seq<real>, i: nat, j: nat)
    requires i <= j < |times|
    ensures T.Credit(Credits(rate, times), i, j) == Earned(rate, Forward(times, i, j))
    decreases j
  {
    if i < j {
      CreditIsRateTimesForward(rate, times, i, j - 1);
      CreditAt(rate, times, j);
      assert rate * (Forward(times, i, j - 1) + Advance(times, j))
          == rate * Forward(times, i, j - 1) + rate * Advance(times, j);
    }
  }

  lemma {:induction false} ForwardWhenAscending(times: seq<real>, i: nat, j: nat)
    requires i <= j < |times| && Ascending(times)
    ensures Forward(times, i, j) == times[j] - times[i]
    decreases j
  {
    if i < j {
      ForwardWhenAscending(times, i, j - 1);
    }
  }

  /** How far the clock went back between readings i and j. */
  ghost function Backward(times: seq<real>, i: nat, j: nat): real
    requires i <= j < |times|
    decreases j
  {
    if i == j then 0.0
    else Backward(times, i, j - 1) + if times[j] < times[j - 1] then times[j - 1] - times[j] else 0.0
  }

  /** What a window is credited is its length and what the clock went back in it: its length alone
      exactly when its readings are in order. */
  lemma {:induction false} ForwardIsLengthAndBack(times: seq<real>, i: nat, j: nat)
    requires i <= j < |times|
    ensures Forward(times, i, j) == times[j] - times[i] + Backward(times, i, j) && Backward(times, i, j) >= 0.0
    ensures Forward(times, i, j) == times[j] - times[i] <==> forall k | i < k <= j :: times[k - 1] <= times[k]
    decreases j
  {
    if i < j {
      ForwardIsLengthAndBack(times, i, j - 1);
    }
  }

  ghost function Allowed(d: seq<bool>, i: nat, j: nat): nat
    requires i <= j <= |d|
    decreases j
  {
    if i == j then 0 else Allowed(d, i, j - 1) + if d[j - 1] then 1 else 0
  }

  lemma {:induction false} AllowedIsCount(burst: real, a: seq<real>, d: seq<bool>, i: nat, j: nat)
    requires |d| == |a| && i <= j <= |d| && forall k | 0 <= k < |d| :: d[k] <==> T.Admitted(burst, a, k)
    ensures Allowed(d, i, j) == T.Count(burst, a, i, j)
    decreases j
  {
    if i < j {
      AllowedIsCount(burst, a, d, i, j - 1);
    }
  }

  /** The same window, counted by decisions and by the bucket game. */
  lemma WindowInTime(s: LimiterState, calls: seq<Call>, key: string, i: nat, j: nat)
    requires s.rate > 0.0 && s.burst >= 0.0 && key !in s.buckets && i <= j < |TimesOf(calls, key)|
    ensures var times, d := TimesOf(calls, key), Decisions(s, calls, key);
            var a := Credits(s.rate, times);
            && |d| == |times| && T.Credits(a) && (d[j] <==> T.Admitted(s.burst, a, j))
            && Allowed(d, i, j) == T.Count(s.burst, a, i, j) && Allowed(d, i, j + 1) == T.Count(s.burst, a, i, j + 1)
            && T.Credit(a, i, j) == Earned(s.rate, Forward(times, i, j))
  {
    hide Earned;
    var times, d := TimesOf(calls, key), Decisions(s, calls, key);
    var a := Credits(s.rate, times);
    CreditsAreCredits(s.rate, times);
    DecisionsAreTheBucketGame(s, calls, key);
    AllowedIsCount(s.burst, a, d, i, j);
    AllowedIsCount(s.burst, a, d, i, j + 1);
    CreditIsRateTimesForward(s.rate, times, i, j);
  }

  /**
   The bound, for clock readings in any order: no window of one label's requests has more of them
   allowed than the burst plus the rate times the clock's steps forward within the window; for
   readings in order that is the length of the window.
   */
  lemma WindowsAreBounded(s: LimiterState, calls: seq<Call>, key: string, i: nat, j: nat)
    requires s.rate > 0.0 && s.burst >= 0.0 && key !in s.buckets
    requires i <= j < |TimesOf(calls, key)|
    ensures |Decisions(s, calls, key)| == |TimesOf(calls, key)|
    ensures Allowed(Decisions(s, calls, key), i, j + 1) as real
         <= s.burst + Earned(s.rate, Forward(TimesOf(calls, key), i, j))
    ensures Ascending(TimesOf(calls, key)) ==>
              Forward(TimesOf(calls, key), i, j) == TimesOf(calls, key)[j] - TimesOf(calls, key)[i]
  {
    hide Earned;
    WindowInTime(s, calls, key, i, j);
    T.WindowBound(s.burst, Credits(s.rate, TimesOf(calls, key)), i, j);
    if Ascending(TimesOf(calls, key)) {
      ForwardWhenAscending(TimesOf(calls, key), i, j);
    }
  }

  /** The requests i to j-1 that are allowed, and request j besides. */
  ghost function WithOneMore(s: LimiterState, calls: seq<Call>, key: string, i: nat, j: nat): int
    requires i <= j <= |Decisions(s, calls, key)|
  {
    Allowed(Decisions(s, calls, key), i, j) + 1
  }

  lemma AllowedKeepsWindow(s: LimiterState, calls: seq<Call>, key: string, i: nat, j: nat)
    requires s.rate > 0.0 && s.burst >= 0.0 && key !in s.buckets && i <= j < |TimesOf(calls, key)|
    ensures |Decisions(s, calls, key)| == |TimesOf(calls, key)|
    ensures Decisions(s, calls, key)[j] ==>
              WithOneMore(s, calls, key, i, j) as real <= s.burst + Earned(s.rate, Forward(TimesOf(calls, key), i, j))
  {
    hide Earned;
    WindowInTime(s, calls, key, i, j);
    T.AdmittedIffWindowsConform(s.burst, Credits(s.rate, TimesOf(calls, key)), j);
    assert T.Admitted(s.burst, Credits(s.rate, TimesOf(calls, key)), j) ==>
        T.Fits(s.burst, Credits(s.rate, TimesOf(calls, key)), i, j);
  }

  lemma RefusedBreaksWindow(s: LimiterState, calls: seq<Call>, key: string, j: nat) returns (i: nat)
    requires s.rate > 0.0 && s.burst >= 0.0 && key !in s.buckets && j < |TimesOf(calls, key)|
    requires |Decisions(s, calls, key)| == |TimesOf(calls, key)| && !Decisions(s, calls, key)[j]
    ensures i <= j
        && WithOneMore(s, calls, key, i, j) as real > s.burst + Earned(s.rate, Forward(TimesOf(calls, key), i, j))
  {
    hide Earned;
    WindowInTime(s, calls, key, j, j);
    var a := Credits(s.rate, TimesOf(calls, key));
    T.AdmittedIffWindowsConform(s.burst, a, j);
    i :| 0 <= i <= j && !T.Fits(s.burst, a, i, j);
    WindowInTime(s, calls, key, i, j);
  }

  /** A request is allowed exactly when it keeps every window that ends with it within the bound. */
  lemma AllowedIffWindowsConform(s: LimiterState, calls: seq<Call>, key: string, j: nat)
    requires s.rate > 0.0 && s.burst >= 0.0 && key !in s.buckets
    requires j < |TimesOf(calls, key)|
    ensures |Decisions(s, calls, key)| == |TimesOf(calls, key)|
    ensures Decisions(s, calls, key)[j] <==> forall i | 0 <= i <= j ::
              WithOneMore(s, calls, key, i, j) as real <= s.burst + Earned(s.rate, Forward(TimesOf(calls, key), i, j))
  {
    hide Earned;
    forall i | 0 <= i <= j
      ensures |Decisions(s, calls, key)| == |TimesOf(calls, key)|
      ensures Decisions(s, calls, key)[j] ==>
                WithOneMore(s, calls, key, i, j) as real <= s.burst + Earned(s.rate, Forward(TimesOf(calls, key), i, j))
    {
      AllowedKeepsWindow(s, calls, key, i, j);
    }
    AllowedKeepsWindow(s, calls, key, j, j);
    if !Decisions(s, calls, key)[j] {
      var i := RefusedBreaksWindow(s, calls, key, j);
    }
  }

  lemma NoneRefusedKeepsSpan(s: LimiterState, calls: seq<Call>, key: string, i: nat, j: nat)
    requires s.rate > 0.0 && s.burst >= 0.0 && key !in s.buckets && Ascending(TimesOf(calls, key))
    requires i <= j < |TimesOf(calls, key)|
        && forall k | 0 <= k < |Decisions(s, calls, key)| :: Decisions(s, calls, key)[k]
    ensures (j - i + 1) as real <= s.burst + Earned(s.rate, TimesOf(calls, key)[j] - TimesOf(calls, key)[i])
  {
    hide Earned;
    AllowedKeepsWindow(s, calls, key, i, j);
    AllAllowed(Decisions(s, calls, key), i, j);
    ForwardWhenAscending(TimesOf(calls, key), i, j);
  }

  lemma {:induction false} AllAllowed(d: seq<bool>, i: nat, j: nat)
    requires i <= j <= |d|
    ensures Allowed(d, i, j) <= j - i
    ensures (forall k | 0 <= k < |d| :: d[k]) ==> Allowed(d, i, j) == j - i
    decreases j
  {
    if i < j {
      AllAllowed(d, i, j - 1);
    }
  }

  lemma RefusedBreaksSpan(s: LimiterState, calls: seq<Call>, key: string, j: nat) returns (i: nat)
    requires s.rate > 0.0 && s.burst >= 0.0 && key !in s.buckets && Ascending(TimesOf(calls, key))
    requires j < |Decisions(s, calls, key)| && !Decisions(s, calls, key)[j]
    ensures i <= j < |TimesOf(calls, key)|
    ensures (j - i + 1) as real > s.burst + Earned(s.rate, TimesOf(calls, key)[j] - TimesOf(calls, key)[i])
  {
    hide Earned;
    DecisionsAreTheBucketGame(s, calls, key);
    i := RefusedBreaksWindow(s, calls, key, j);
    AllAllowed(Decisions(s, calls, key), i, j);
    ForwardWhenAscending(TimesOf(calls, key), i, j);
  }

  /** Exact conformance: with the clock in order, no request of a label is refused if and only if
      every window of n requests over a time t has n <= burst + rate * t. */
  lemma NothingRefusedIffConformant(s: LimiterState, calls: seq<Call>, key: string)
    requires s.rate > 0.0 && s.burst >= 0.0 && key !in s.buckets && Ascending(TimesOf(calls, key))
    ensures var times, d := TimesOf(calls, key), Decisions(s, calls, key);
            (forall j | 0 <= j < |d| :: d[j]) <==>
              forall i, j | 0 <= i <= j < |times| ::
                (j - i + 1) as real <= s.burst + Earned(s.rate, times[j] - times[i])
  {
    hide Earned, Decisions, TimesOf;
    var times, d := TimesOf(calls, key), Decisions(s, calls, key);
    if forall j | 0 <= j < |d| :: d[j] {
      forall i, j | 0 <= i <= j < |times| ensures (j - i + 1) as real <= s.burst + Earned(s.rate, times[j] - times[i]) {
        NoneRefusedKeepsSpan(s, calls, key, i, j);
      }
    } else {
      var j :| 0 <= j < |d| && !d[j];
      var i := RefusedBreaksSpan(s, calls, key, j);
    }
  }

  /** No other way of spending one label's allowance ever gets more requests through. */
  lemma AllowIsOptimal(s: LimiterState, calls: seq<Call>, key: string, o: seq<bool>, j: nat)
    requires s.rate > 0.0 && s.burst >= 0.0 && key !in s.buckets
    requires var a := Credits(s.rate, TimesOf(calls, key)); |o| == |a| && T.NeverOverdraws(s.burst, a, o)
    requires j <= |o|
    ensures |Decisions(s, calls, key)| == |o|
    ensures T.Marked(o, j) <= Allowed(Decisions(s, calls, key), 0, j)
  {
    var a := Credits(s.rate, TimesOf(calls, key));
    CreditsAreCredits(s.rate, TimesOf(calls, key));
    DecisionsAreTheBucketGame(s, calls, key);
    T.GreedyIsOptimal(s.burst, a, o, j);
    AllowedIsCount(s.burst, a, Decisions(s, calls, key), 0, j);
  }

  /** A ticking bucket: refilled and capped at every one of the given instants. */
  ghost function Ticked(rate: real, burst: real, b: Bucket, ticks: seq<real>): Bucket
    decreases |ticks|
  {
    if ticks == [] then b else Ticked(rate, burst, Bucket(Refill(rate, burst, b, ticks[0]), ticks[0]), ticks[1..])
  }

  lemma Product(x: real, y: real)
    requires x >= 0.0 && y >= 0.0
    ensures x * y >= 0.0
  {
  }

  lemma TwoRefills(rate: real, burst: real, b: Bucket, t: real, now: real)
    requires rate > 0.0 && b.tokens <= burst && b.last <= t <= now
    ensures Refill(rate, burst, Bucket(Refill(rate, burst, b, t), t), now) == Refill(rate, burst, b, now)
    ensures Refill(rate, burst, b, t) <= burst
  {
    Product(t - b.last, rate);
    Product(now - t, rate);
    assert (now - b.last) * rate == (t - b.last) * rate + (now - t) * rate;
  }

  lemma {:induction false} AscendingParts(first: real, ticks: seq<real>, now: real)
    requires Ascending([first] + ticks + [now])
    ensures first <= now
    ensures ticks != [] ==> first <= ticks[0] <= now && Ascending([ticks[0]] + ticks[1..] + [now])
  {
    var all := [first] + ticks + [now];
    assert all[0] == first && all[|all| - 1] == now;
    if ticks != [] {
      assert all[1] == ticks[0];
      assert [ticks[0]] + ticks[1..] + [now] == all[1..];
    }
  }

  /**
   Refilling once, lazily, gives what refilling at every tick of the idle time would have given: at the
   last tick, and at the instant after it.
   */
  lemma {:induction false} LazyIsEager(rate: real, burst: real, b: Bucket, ticks: seq<real>, now: real)
    requires rate > 0.0 && b.tokens <= burst
    requires Ascending([b.last] + ticks + [now])
    ensures Refill(rate, burst, Ticked(rate, burst, b, ticks), now) == Refill(rate, burst, b, now)
    ensures var end := if ticks == [] then b.last else ticks[|ticks| - 1];
            Ticked(rate, burst, b, ticks) == Bucket(Refill(rate, burst, b, end), end)
    decreases |ticks|
  {
    hide Ascending, Refill;
    AscendingParts(b.last, ticks, now);
    if ticks == [] {
      NoTimeNoRefill(rate, burst, b);
    } else {
      var t, end := ticks[0], ticks[|ticks| - 1];
      var c := Bucket(Refill(rate, burst, b, t), t);
      TwoRefills(rate, burst, b, t, now);
      LazyIsEager(rate, burst, c, ticks[1..], now);
      LastTickIsLater(b.last, ticks, now);
      TwoRefills(rate, burst, b, t, end);
      NoTimeNoRefill(rate, burst, c);
    }
  }

  lemma LastTickIsLater(first: real, ticks: seq<real>, now: real)
    requires Ascending([first] + ticks + [now]) && ticks != []
    ensures first <= ticks[0] <= ticks[|ticks| - 1]
  {
    var all := [first] + ticks + [now];
    assert all[0] == first && all[1] == ticks[0] && all[|ticks|] == ticks[|ticks| - 1];
  }

  lemma NoTimeNoRefill(rate: real, burst: real, b: Bucket)
    ensures Refill(rate, burst, b, b.last) == b.tokens
  {
  }

  /** When the next whole token is there. */
  function Ready(rate: real, b: Bucket): real
    requires rate > 0.0
  {
    b.last + Wait(rate, b.tokens)
  }

  /** e seconds earn what is missing exactly when they are at least w = missing / rate. */
  lemma EarnsEnough(rate: real, missing: real, e: real, w: real)
    requires rate > 0.0 && w == missing / rate
    ensures e * rate >= missing <==> e >= w
    ensures (missing - e * rate) / rate == w - e
  {
    var short := (w - e) * rate;
    assert short == missing - e * rate by {
      assert w * rate == missing;
    }
    assert short / rate == w - e by {
      QuotientOfProduct(w - e, rate);
    }
    assert short <= 0.0 <==> e >= w by {
      if e >= w {
        Product(e - w, rate);
        assert short == -((e - w) * rate);
      } else {
        StrictProduct(w - e, rate);
      }
    }
  }

  lemma RefillReachesOneWhenReady(rate: real, burst: real, b: Bucket, now: real)
    requires rate > 0.0 && burst >= 1.0 && 0.0 <= b.tokens < 1.0 && now >= b.last
    ensures Refill(rate, burst, b, now) >= 1.0 <==> now >= Ready(rate, b)
    ensures now < Ready(rate, b) ==> Ready(rate, Bucket(Refill(rate, burst, b, now), now)) == Ready(rate, b)
  {
    var e, earned := now - b.last, (now - b.last) * rate;
    EarnsEnough(rate, 1.0 - b.tokens, e, Wait(rate, b.tokens));
    Product(e, rate);
    assert Refill(rate, burst, b, now) == if b.tokens + earned > burst then burst else b.tokens + earned;
  }

  lemma StrictProduct(x: real, y: real)
    requires x > 0.0 && y > 0.0
    ensures x * y > 0.0
  {
  }

  lemma QuotientOfProduct(x: real, y: real)
    requires y > 0.0
    ensures (x * y) / y == x
  {
  }

  /** One retry: what it is told, and that being refused does not move the promised instant. */
  lemma OneRetry(rate: real, burst: real, b: Bucket, now: real)
    requires rate > 0.0 && burst >= 1.0 && 0.0 <= b.tokens < 1.0 && now >= b.last
    ensures Grants(rate, burst, Some(b), now) <==> now >= Ready(rate, b)
    ensures var c := Touched(rate, burst, Some(b), now);
            now < Ready(rate, b) ==> c.last == now && 0.0 <= c.tokens < 1.0 && Ready(rate, c) == Ready(rate, b)
  {
    RefillReachesOneWhenReady(rate, burst, b, now);
    Product(now - b.last, rate);
    hide Ready;
  }

  lemma AscendingTail(first: real, times: seq<real>)
    requires Ascending([first] + times) && times != []
    ensures first <= times[0] && Ascending([times[0]] + times[1..])
  {
    var all := [first] + times;
    assert all[0] == first && all[1] == times[0];
    assert [times[0]] + times[1..] == all[1..];
  }

  /**
   The wait is exact. After a refusal that left the bucket b, however often the caller tries again
   in the meantime, the first request at or after the promised instant is allowed and every one
   before it is refused.
   */
  lemma {:induction false} WaitIsExact(rate: real, burst: real, b: Bucket, times: seq<real>, k: nat)
    requires rate > 0.0 && burst >= 1.0 && 0.0 <= b.tokens < 1.0
    requires Ascending([b.last] + times) && k < |times|
    requires forall j | 0 <= j < k :: times[j] < Ready(rate, b)
    ensures |Answers(rate, burst, Some(b), times)| == |times|
    ensures Answers(rate, burst, Some(b), times)[k] <==> times[k] >= Ready(rate, b)
    decreases |times|
  {
    hide Ascending, Ready, Grants, Touched;
    AnswersLength(rate, burst, Some(b), times);
    AscendingTail(b.last, times);
    OneRetry(rate, burst, b, times[0]);
    if k > 0 {
      WaitIsExact(rate, burst, Touched(rate, burst, Some(b), times[0]), times[1..], k - 1);
    }
  }

  lemma {:induction false} ForwardShifts(times: seq<real>, k: nat)
    requires k + 1 < |times|
    ensures Forward(times, 0, k + 1) == Advance(times, 1) + Forward(times[1..], 0, k)
    decreases k
  {
    if k > 0 {
      ForwardShifts(times, k - 1);
      assert Advance(times[1..], k) == Advance(times, k + 1);
    }
  }

  lemma RefillWithoutCap(rate: real, burst: real, b: Bucket, now: real)
    requires rate > 0.0 && burst >= 1.0 && 0.0 <= b.tokens < 1.0
    ensures var tokens := b.tokens + rate * Advance([b.last, now], 1);
            && (Refill(rate, burst, b, now) >= 1.0 <==> tokens >= 1.0)
            && (Refill(rate, burst, b, now) < 1.0 ==> Refill(rate, burst, b, now) == tokens >= b.tokens)
  {
    if now > b.last {
      Product(now - b.last, rate);
    }
  }

  /** What the first retry finds, and what it leaves when it is refused. */
  lemma FirstRetry(rate: real, burst: real, b: Bucket, times: seq<real>) returns (c: Bucket)
    requires rate > 0.0 && burst >= 1.0 && 0.0 <= b.tokens < 1.0 && times != []
    ensures var tokens := b.tokens + rate * Advance([b.last] + times, 1);
            var answers := Answers(rate, burst, Some(b), times);
            && |answers| == |times| && (answers[0] <==> tokens >= 1.0)
            && (!answers[0] ==> c == Bucket(tokens, times[0]) && 0.0 <= tokens < 1.0)
            && answers[1..] == Answers(rate, burst, Some(c), times[1..])
  {
    AnswersLength(rate, burst, Some(b), times);
    RefillWithoutCap(rate, burst, b, times[0]);
    assert Advance([b.last] + times, 1) == Advance([b.last, times[0]], 1);
    c := Touched(rate, burst, Some(b), times[0]);
  }

  /**
   For clock readings in any order: as long as retries are refused, the next one is allowed exactly
   when the bucket's tokens and what the clock's steps forward earned since make a whole one.
   */
  lemma {:induction false} RetriesEarn(rate: real, burst: real, b: Bucket, times: seq<real>, k: nat)
    requires rate > 0.0 && burst >= 1.0 && 0.0 <= b.tokens < 1.0 && k < |times|
    requires |Answers(rate, burst, Some(b), times)| == |times|
    requires forall j | 0 <= j < k :: !Answers(rate, burst, Some(b), times)[j]
    ensures Answers(rate, burst, Some(b), times)[k] <==>
              b.tokens + Earned(rate, Forward([b.last] + times, 0, k + 1)) >= 1.0
    decreases |times|
  {
    hide Answers, Advance;
    var answers, all := Answers(rate, burst, Some(b), times), [b.last] + times;
    var c := FirstRetry(rate, burst, b, times);
    if k > 0 {
      var later := answers[1..];
      forall j | 0 <= j < k - 1 ensures !later[j] {
        assert later[j] == answers[j + 1];
      }
      RetriesEarn(rate, burst, c, times[1..], k - 1);
      ForwardShifts(all, k);
      assert [c.last] + times[1..] == all[1..];
      EarnedAdds(rate, Advance(all, 1), Forward(all[1..], 0, k));
    } else {
      assert Forward(all, 0, 1) == Advance(all, 1);
    }
  }

  lemma EarnedAdds(rate: real, x: real, y: real)
    ensures Earned(rate, x + y) == rate * x + Earned(rate, y)
  {
  }

  lemma {:induction false} AnswersLength(rate: real, burst: real, b: Option<Bucket>, times: seq<real>)
    ensures |Answers(rate, burst, b, times)| == |times|
    decreases |times|
  {
    if times != [] {
      AnswersLength(rate, burst, Some(Touched(rate, burst, b, times[0])), times[1..]);
    }
  }

  /** Whole seconds, rounded up from the exact wait. */
  function WholeSeconds(wait: real): int {
    var up := -((-wait).Floor);
    if up < 1 then 1 else up
  }

  /** After a refusal, the exact wait in whole seconds brings a client back to be allowed, and one
      second fewer to be refused. */
  lemma RoundingUpIsTight(rate: real, burst: real, b: Bucket)
    requires rate > 0.0 && burst >= 1.0 && 0.0 <= b.tokens < 1.0
    ensures var n := WholeSeconds(Wait(rate, b.tokens));
            && Grants(rate, burst, Some(b), b.last + n as real)
            && (n > 1 ==> !Grants(rate, burst, Some(b), b.last + (n - 1) as real))
  {
    var n := WholeSeconds(Wait(rate, b.tokens));
    RefillReachesOneWhenReady(rate, burst, b, b.last + n as real);
    if n > 1 {
      RefillReachesOneWhenReady(rate, burst, b, b.last + (n - 1) as real);
    }
  }

  /** Dropping the fraction of a nanosecond leaves the bucket short by less than rate / 10^9. */
  lemma TruncationIsSmall(rate: real, b: Bucket)
    requires rate > 0.0 && 0.0 <= b.tokens < 1.0
    ensures var early := WaitNanos(rate, b.tokens) as real / 1000000000.0;
            && early <= Wait(rate, b.tokens)
            && 1.0 - (b.tokens + early * rate) < rate / 1000000000.0
  {
    var w := Wait(rate, b.tokens);
    var x := w * NANOSECONDS as real;
    var early := WaitNanos(rate, b.tokens) as real / NANOSECONDS as real;
    assert w - early < 1.0 / NANOSECONDS as real;
    assert (w - early) * rate < (1.0 / NANOSECONDS as real) * rate;
    assert w * rate == 1.0 - b.tokens;
    assert (w - early) * rate == w * rate - early * rate;
  }

  /** Truncating to whole nanoseconds drops part of the wait. */
  predicate Drops(rate: real, tokens: real)
    requires rate > 0.0
  {
    Wait(rate, tokens) * NANOSECONDS as real != WaitNanos(rate, tokens) as real
  }

  /**
   The Retry-After header is rounded up from the truncated wait, not from the exact one. A client
   that comes back when it says is allowed, except when the truncated wait is a whole number of
   seconds, at least one, and truncation dropped something.
   */
  lemma HeaderSufficesExactlyWhen(rate: real, burst: real, b: Bucket)
    requires rate > 0.0 && burst >= 1.0 && 0.0 <= b.tokens < 1.0
    ensures var nanos := WaitNanos(rate, b.tokens);
            Grants(rate, burst, Some(b), b.last + RetryAfterSeconds(nanos) as real) <==>
              !(nanos > 0 && nanos % 1000000000 == 0 && Drops(rate, b.tokens))
  {
    HeaderCoversExactlyWhen(rate, b.tokens);
    var header := RetryAfterSeconds(WaitNanos(rate, b.tokens));
    RefillReachesOneWhenReady(rate, burst, b, b.last + header as real);
  }

  lemma HeaderCoversExactlyWhen(rate: real, tokens: real)
    requires rate > 0.0 && 0.0 <= tokens < 1.0
    ensures var nanos := WaitNanos(rate, tokens);
            RetryAfterSeconds(nanos) as real >= Wait(rate, tokens) <==>
              !(nanos > 0 && nanos % NANOSECONDS == 0 && Drops(rate, tokens))
  {
    var wait, nanos := Wait(rate, tokens), WaitNanos(rate, tokens);
    var q, r := nanos / NANOSECONDS, nanos % NANOSECONDS;
    assert wait > 0.0 by { assert wait * rate == 1.0 - tokens; }
    assert nanos == q * NANOSECONDS + r;
    CeilingOfNanos(nanos);
    assert nanos as real <= wait * NANOSECONDS as real < nanos as real + 1.0;
  }

  lemma CeilingOfNanos(nanos: int)
    requires nanos >= 0
    ensures RetryAfterSeconds(nanos) ==
              if nanos == 0 then 1
              else if nanos % NANOSECONDS == 0 then nanos / NANOSECONDS
              else nanos / NANOSECONDS + 1
  {
  }

  /** The header can come a moment too early: at 7 requests a minute and a burst of one, a request
      0.571428571 s after the first is told to come back in 8 s, and is refused again when it does. */
  lemma HeaderCanBeTooEarly()
    ensures var s := LimiterState(7.0 / 60.0, 1.0, map[]);
            var calls := [Call("k", 0.0), Call("k", 0.571428571), Call("k", 8.571428571)];
            var refused := Touched(s.rate, 1.0, Some(Touched(s.rate, 1.0, None, 0.0)), 0.571428571);
            && Decisions(s, calls, "k") == [true, false, false]
            && RetryAfterSeconds(WaitNanos(s.rate, refused.tokens)) == 8
  {
    var s := LimiterState(7.0 / 60.0, 1.0, map[]);
    var calls := [Call("k", 0.0), Call("k", 0.571428571), Call("k", 8.571428571)];
    LabelsAreIndependent(s, calls, "k");
    assert calls[1..] == [Call("k", 0.571428571), Call("k", 8.571428571)];
    assert calls[1..][1..] == [Call("k", 8.571428571)];
    assert TimesOf(calls, "k") == [0.0, 0.571428571, 8.571428571];
    var one := Touched(s.rate, 1.0, None, 0.0);
    assert one == Bucket(0.0, 0.0);
    var two := Touched(s.rate, 1.0, Some(one), 0.571428571);
    assert two.tokens == 0.571428571 * (7.0 / 60.0);
    var times := [0.0, 0.571428571, 8.571428571];
    assert times[1..] == [0.571428571, 8.571428571] && times[1..][1..] == [8.571428571];
    assert Answers(s.rate, 1.0, Some(two), [8.571428571]) == [false];
    assert Answers(s.rate, 1.0, Some(one), times[1..]) == [false, false];
  }

  /** For readings out of order the burst and the rate times a window's length bound nothing: a
      step back and forth earns a token twice. */
  lemma LengthDoesNotBound()
    ensures var s := LimiterState(1.0, 1.0, map[]);
            var calls := [Call("k", 0.0), Call("k", -1.0), Call("k", 0.0)];
            var d := Decisions(s, calls, "k");
            d == [true, false, true] && Allowed(d, 0, 3) as real > s.burst + Earned(s.rate, 0.0 - 0.0)
  {
    var s := LimiterState(1.0, 1.0, map[]);
    var calls := [Call("k", 0.0), Call("k", -1.0), Call("k", 0.0)];
    LabelsAreIndependent(s, calls, "k");
    assert calls[1..] == [Call("k", -1.0), Call("k", 0.0)] && calls[1..][1..] == [Call("k", 0.0)];
    var times := [0.0, -1.0, 0.0];
    assert TimesOf(calls, "k") == times;
    assert times[1..] == [-1.0, 0.0] && times[1..][1..] == [0.0];
    var one := Touched(1.0, 1.0, None, 0.0);
    var two := Touched(1.0, 1.0, Some(one), -1.0);
    assert one == Bucket(0.0, 0.0) && two == Bucket(0.0, -1.0);
    assert Answers(1.0, 1.0, Some(two), [0.0]) == [true];
    assert Answers(1.0, 1.0, Some(one), times[1..]) == [false, true];
    var d := Decisions(s, calls, "k");
    assert d == [true, false, true];
    assert Allowed(d, 0, 1) == 1 && Allowed(d, 0, 2) == 1;
  }
}
