/**
 The arithmetic of one token bucket: before request k it is credited a[k] tokens, up to its
 capacity, and a request that finds a whole token spends it. It starts full, so a[0] is moot.
 */
module TokenBucket {

  ghost predicate Credits(a: seq<real>) {
    forall k | 0 <= k < |a| :: a[k] >= 0.0
  }

  function Cap(burst: real, x: real): real { if x > burst then burst else x }

  function Spend(x: real): real { if x >= 1.0 then x - 1.0 else x }

  /** The tokens request j finds. */
  ghost function Level(burst: real, a: seq<real>, j: nat): real
    requires j < |a|
  {
    if j == 0 then burst else Cap(burst, Spend(Level(burst, a, j - 1)) + a[j])
  }

  ghost predicate Admitted(burst: real, a: seq<real>, j: nat)
    requires j < |a|
  {
    Level(burst, a, j) >= 1.0
  }

  /** How many of the requests i, ..., j-1 are admitted. */
  ghost function Count(burst: real, a: seq<real>, i: nat, j: nat): nat
    requires i <= j <= |a|
    decreases j
  {
    if i == j then 0 else Count(burst, a, i, j - 1) + if Admitted(burst, a, j - 1) then 1 else 0
  }

  /** The credit given after request i, up to and including the one before request j. */
  ghost function Credit(a: seq<real>, i: nat, j: nat): real
    requires i <= j < |a|
    decreases j
  {
    if i == j then 0.0 else Credit(a, i, j - 1) + a[j]
  }

  lemma {:induction false} LevelInRange(burst: real, a: seq<real>, j: nat)
    requires burst >= 0.0 && Credits(a) && j < |a|
    ensures 0.0 <= Level(burst, a, j) <= burst
  {
    if j > 0 {
      LevelInRange(burst, a, j - 1);
    }
  }

  /** What a window starting at request i would leave in a bucket that was full then. */
  ghost function Window(burst: real, a: seq<real>, i: nat, j: nat): real
    requires i <= j < |a|
  {
    burst + Credit(a, i, j) - Count(burst, a, i, j) as real
  }

  lemma {:induction false} LevelIsAtMostWindow(burst: real, a: seq<real>, i: nat, j: nat)
    requires burst >= 0.0 && Credits(a) && i <= j < |a|
    ensures Level(burst, a, j) <= Window(burst, a, i, j)
    decreases j
  {
    LevelInRange(burst, a, j);
    if i < j {
      LevelIsAtMostWindow(burst, a, i, j - 1);
    }
  }

  lemma {:induction false} LevelIsSomeWindow(burst: real, a: seq<real>, j: nat) returns (i: nat)
    requires burst >= 0.0 && Credits(a) && j < |a|
    ensures i <= j && Level(burst, a, j) == Window(burst, a, i, j)
  {
    i := j;
    if j > 0 && Spend(Level(burst, a, j - 1)) + a[j] <= burst {
      i := LevelIsSomeWindow(burst, a, j - 1);
    }
  }

  predicate Within(n: int, burst: real, credit: real) {
    n as real <= burst + credit
  }

  /** One more request at j keeps the window from i within the burst plus the window's credit. */
  ghost predicate Fits(burst: real, a: seq<real>, i: nat, j: nat)
    requires i <= j < |a|
  {
    Within(Count(burst, a, i, j) + 1, burst, Credit(a, i, j))
  }

  /** The counter is the least, over all windows that end here, of burst plus credit less admissions. */
  lemma LevelIsLeastWindow(burst: real, a: seq<real>, j: nat)
    requires burst >= 0.0 && Credits(a) && j < |a|
    ensures forall i | 0 <= i <= j :: Level(burst, a, j) <= Window(burst, a, i, j)
    ensures exists i :: 0 <= i <= j && Level(burst, a, j) == Window(burst, a, i, j)
  {
    forall i | 0 <= i <= j ensures Level(burst, a, j) <= Window(burst, a, i, j) {
      LevelIsAtMostWindow(burst, a, i, j);
    }
    var k := LevelIsSomeWindow(burst, a, j);
  }

  /**
   So a request is admitted exactly when it keeps every window that ends with it within the burst
   plus the window's credit.
   */
  lemma AdmittedIffWindowsConform(burst: real, a: seq<real>, j: nat)
    requires burst >= 0.0 && Credits(a) && j < |a|
    ensures Admitted(burst, a, j) <==> forall i | 0 <= i <= j :: Fits(burst, a, i, j)
  {
    LevelIsLeastWindow(burst, a, j);
    var k :| 0 <= k <= j && Level(burst, a, j) == Window(burst, a, k, j);
    if Admitted(burst, a, j) {
      forall i | 0 <= i <= j ensures Fits(burst, a, i, j) {
        assert Level(burst, a, j) <= Window(burst, a, i, j);
      }
    } else {
      assert !Fits(burst, a, k, j);
    }
  }

  /** No window, wherever it starts and ends, admits more than the burst plus its credit. */
  lemma WindowBound(burst: real, a: seq<real>, i: nat, j: nat)
    requires burst >= 0.0 && Credits(a) && i <= j < |a|
    ensures Count(burst, a, i, j + 1) as real <= burst + Credit(a, i, j)
  {
    LevelIsAtMostWindow(burst, a, i, j);
    LevelInRange(burst, a, j);
  }

  /** The tokens left to someone who admits the requests marked in o. */
  ghost function Balance(burst: real, a: seq<real>, o: seq<bool>, j: nat): real
    requires j < |a| && |o| == |a|
  {
    if j == 0 then burst
    else Cap(burst, Balance(burst, a, o, j - 1) - (if o[j - 1] then 1.0 else 0.0) + a[j])
  }

  /** o never spends a token that is not there. */
  ghost predicate NeverOverdraws(burst: real, a: seq<real>, o: seq<bool>)
    requires |o| == |a|
  {
    forall j | 0 <= j < |a| && o[j] :: Balance(burst, a, o, j) >= 1.0
  }

  ghost function Marked(o: seq<bool>, j: nat): nat
    requires j <= |o|
  {
    if j == 0 then 0 else Marked(o, j - 1) + if o[j - 1] then 1 else 0
  }

  /** Admitting whenever possible is optimal: no way of spending the same bucket is ever ahead. */
  lemma {:induction false} GreedyIsOptimal(burst: real, a: seq<real>, o: seq<bool>, j: nat)
    requires burst >= 0.0 && Credits(a) && |o| == |a| && NeverOverdraws(burst, a, o) && j <= |a|
    ensures Marked(o, j) <= Count(burst, a, 0, j)
    ensures j < |a| ==>
              Balance(burst, a, o, j) + Marked(o, j) as real <= Level(burst, a, j) + Count(burst, a, 0, j) as real
  {
    if j > 0 {
      GreedyIsOptimal(burst, a, o, j - 1);
      LevelInRange(burst, a, j - 1);
    }
  }

  /** And that way never overdraws: it is one of those it is compared with. */
  lemma {:induction false} GreedyIsFeasible(burst: real, a: seq<real>, o: seq<bool>, j: nat)
    requires burst >= 0.0 && Credits(a) && |o| == |a| && forall k | 0 <= k < |o| :: o[k] <==> Admitted(burst, a, k)
    requires j <= |a|
    ensures NeverOverdraws(burst, a, o) && Marked(o, j) == Count(burst, a, 0, j)
  {
    forall k | 0 <= k < |a| ensures Balance(burst, a, o, k) == Level(burst, a, k) {
      GreedyBalance(burst, a, o, k);
    }
    GreedyMarks(burst, a, o, j);
  }

  lemma {:induction false} GreedyBalance(burst: real, a: seq<real>, o: seq<bool>, k: nat)
    requires |o| == |a| && k < |a| && forall k | 0 <= k < |o| :: o[k] <==> Admitted(burst, a, k)
    ensures Balance(burst, a, o, k) == Level(burst, a, k)
  {
    if k > 0 {
      GreedyBalance(burst, a, o, k - 1);
    }
  }

  lemma {:induction false} GreedyMarks(burst: real, a: seq<real>, o: seq<bool>, j: nat)
    requires |o| == |a| && j <= |a| && forall k | 0 <= k < |o| :: o[k] <==> Admitted(burst, a, k)
    ensures Marked(o, j) == Count(burst, a, 0, j)
  {
    if j > 0 {
      GreedyMarks(burst, a, o, j - 1);
    }
  }
}
