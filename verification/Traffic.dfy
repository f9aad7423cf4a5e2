/**
 What a run of the gateway looks like to its Picker and to its limiter: a run of theirs. Whatever
 is proved of all runs of a Picker, or of all runs of a limiter, holds inside the gateway.
 */
module Traffic {
  import opened Options
  import opened PickerModel
  import opened Protocol
  import opened Gateway
  import PickerRuns
  import R = RateLimit
  import RateTheory
  import Isolation
  import Accounting
  import Names
  import Paths

  /** The Picker calls of one step. */
  ghost function OpsOf(s: System, step: Step): seq<PickerRuns.Op> {
    if step.Move? && step.i in s.reqs then PickerOps(s.reqs[step.i], step.e, step.env) else []
  }

  ghost function AllOps(c: Config, s: System, steps: seq<Step>): seq<PickerRuns.Op>
    requires AllPossible(c, s, steps)
    decreases |steps|
  {
    if steps == [] then [] else OpsOf(s, steps[0]) + AllOps(c, After(c, s, steps[0]), steps[1..])
  }

  lemma {:induction false} RunAppends(c: PickerRuns.Config, p: PickerState, a: seq<PickerRuns.Op>,
                                      b: seq<PickerRuns.Op>)
    ensures PickerRuns.Run(c, p, a + b) == PickerRuns.Run(c, PickerRuns.Run(c, p, a), b)
    ensures PickerRuns.Legal(c, p, a) && PickerRuns.Legal(c, PickerRuns.Run(c, p, a), b) ==>
        PickerRuns.Legal(c, p, a + b)
    decreases |a|
  {
    if a == [] {
      assert a + b == b;
    } else {
      hide PickerRuns.Step;
      RunAppends(c, PickerRuns.Step(c, p, a[0]), a[1..], b);
      assert (a + b)[1..] == a[1..] + b;
    }
  }

  lemma ReleasesAreOfHeld(c: Config, s: System, i: nat, e: Event, env: Env)
    requires ReservationsFit(s.picker, Reservations(s.reqs)) && i in s.reqs
    ensures |PickerOps(s.reqs[i], e, env)| <= 1
    ensures forall op | op in PickerOps(s.reqs[i], e, env) && op.Release? :: op.id in s.picker.held
  {
    hide PickerRuns.IdsBelow, PickChoice, ViewChoice;
    ReservationOf(s.reqs, i);
    if i in Reservations(s.reqs) {
      assert Reservations(s.reqs)[i] in Reservations(s.reqs).Values;
    }
  }

  lemma StepOnPicker(c: Config, s: System, step: Step)
    requires AllFit(c, s) && Possible(c, s, step)
    ensures After(c, s, step).picker == PickerRuns.Run(c.picker, s.picker, OpsOf(s, step))
    ensures |OpsOf(s, step)| <= 1
    ensures forall op | op in OpsOf(s, step) && op.Release? :: op.id in s.picker.held
  {
    assert PickerRuns.Run(c.picker, s.picker, []) == s.picker;
    hide ReqFits, Enabled, TokensFit, ReservationsFit, HeldFits, PickChoice, ViewChoice, PickerRuns.Run, Next,
          PickerOps, R.Allows;
    if step.Move? {
      ReleasesAreOfHeld(c, s, step.i, step.e, step.env);
    }
  }

  /** The Picker goes through a run in which only handed-out ids are released. */
  lemma {:induction false} PickerRunsUnder(c: Config, s: System, steps: seq<Step>)
    requires AllFit(c, s) && AllPossible(c, s, steps)
    ensures AfterAll(c, s, steps).picker == PickerRuns.Run(c.picker, s.picker, AllOps(c, s, steps))
    ensures PickerRuns.Legal(c.picker, s.picker, AllOps(c, s, steps))
    decreases |steps|
  {
    if steps != [] {
      var after := After(c, s, steps[0]);
      StepOnPicker(c, s, steps[0]);
      EveryStepFits(c, s, steps[0]);
      PickerRunsUnder(c, after, steps[1..]);
      RunAppends(c.picker, s.picker, OpsOf(s, steps[0]), AllOps(c, after, steps[1..]));
      hide Possible, After, OpsOf, ReqFits, TokensFit, PickerRuns.Step, PickerRuns.Run;
      OneOpIsLegal(c.picker, s.picker, OpsOf(s, steps[0]));
    }
  }

  lemma OneOpIsLegal(c: PickerRuns.Config, p: PickerState, ops: seq<PickerRuns.Op>)
    requires PickerRuns.IdsBelow(p) && |ops| <= 1
    requires forall op | op in ops && op.Release? :: op.id in p.held
    ensures PickerRuns.Legal(c, p, ops)
  {
    if |ops| == 1 {
      assert ops[0] in ops && ops[1..] == [];
    }
  }

  // ---- each reservation is given back once

  /** The ids that a list of calls releases, in order, with every repetition. */
  ghost function ReleasedIds(ops: seq<PickerRuns.Op>): seq<nat> {
    if ops == [] then []
    else (if ops[0].Release? then [ops[0].id] else []) + ReleasedIds(ops[1..])
  }

  lemma {:induction false} ReleasedIdsAppend(a: seq<PickerRuns.Op>, b: seq<PickerRuns.Op>)
    ensures ReleasedIds(a + b) == ReleasedIds(a) + ReleasedIds(b)
  {
    if a == [] {
      assert a + b == b;
      assert ReleasedIds(a) + ReleasedIds(b) == ReleasedIds(b);
    } else {
      ReleasedIdsAppend(a[1..], b);
      var head := if a[0].Release? then [a[0].id] else [];
      assert (a + b)[1..] == a[1..] + b && (a + b)[0] == a[0];
      assert head + (ReleasedIds(a[1..]) + ReleasedIds(b)) == (head + ReleasedIds(a[1..])) + ReleasedIds(b);
    }
  }

  lemma ReleasedByOne(ops: seq<PickerRuns.Op>)
    requires |ops| <= 1
    ensures ReleasedIds(ops) == if ops != [] && ops[0].Release? then [ops[0].id] else []
    ensures ops != [] ==> ops == [ops[0]] && ops[0] in ops
  {
    if ops != [] {
      assert ops[1..] == [];
    }
  }

  ghost predicate NoRepeats(ids: seq<nat>) {
    forall a, b | 0 <= a < b < |ids| :: ids[a] != ids[b]
  }

  /** One call leaves: ids that were handed out and are not held stay so. */
  lemma SpentStaysSpent(c: PickerRuns.Config, p: PickerState, ops: seq<PickerRuns.Op>, id: nat)
    requires PickerRuns.IdsBelow(p) && |ops| <= 1 && id < p.nextID
    requires id !in p.held || ops == [PickerRuns.Release(id)]
    ensures id < PickerRuns.Run(c, p, ops).nextID && id !in PickerRuns.Run(c, p, ops).held
  {
    if |ops| == 1 {
      PickerRuns.StepKeepsIdsBelow(c, p, ops[0]);
      hide PickerRuns.Step;
      assert ops[1..] == [];
    }
  }

  /** An id that was given back is not given back again. */
  lemma {:induction false} SpentIsNotReleased(c: Config, s: System, steps: seq<Step>, id: nat)
    requires AllFit(c, s) && AllPossible(c, s, steps) && id < s.picker.nextID && id !in s.picker.held
    ensures id !in ReleasedIds(AllOps(c, s, steps))
    decreases |steps|
  {
    if steps != [] {
      var after, ops := After(c, s, steps[0]), OpsOf(s, steps[0]);
      StepOnPicker(c, s, steps[0]);
      EveryStepFits(c, s, steps[0]);
      SpentStaysSpent(c.picker, s.picker, ops, id);
      SpentIsNotReleased(c, after, steps[1..], id);
      hide Possible, After, OpsOf, AllFit, PickerRuns.Run;
      ReleasedIdsAppend(ops, AllOps(c, after, steps[1..]));
      ReleasedByOne(ops);
    }
  }

  lemma NeverAgain(c: Config, s: System, steps: seq<Step>, id: nat)
    requires AllFit(c, s) && steps != [] && AllPossible(c, s, steps) && OpsOf(s, steps[0]) == [PickerRuns.Release(id)]
    ensures id !in ReleasedIds(AllOps(c, After(c, s, steps[0]), steps[1..]))
  {
    var ops := OpsOf(s, steps[0]);
    StepOnPicker(c, s, steps[0]);
    EveryStepFits(c, s, steps[0]);
    assert ops[0] in ops;
    assert PickerRuns.IdsBelow(s.picker);
    HeldIdsAreOld(s.picker, id);
    SpentStaysSpent(c.picker, s.picker, ops, id);
    hide AllFit, PickerRuns.Run, OpsOf, ReleasedIds, AllOps, Possible, PickerRuns.IdsBelow;
    SpentIsNotReleased(c, After(c, s, steps[0]), steps[1..], id);
  }

  lemma PrependedNoRepeats(ids: seq<nat>, id: nat)
    requires NoRepeats(ids) && id !in ids
    ensures NoRepeats([id] + ids)
  {
  }

  /**
   In every run of the gateway each reservation is given back at most once: no forward relies on
   the release function tolerating a second call.
   */
  lemma {:induction false} ReleasedAtMostOnce(c: Config, s: System, steps: seq<Step>)
    requires AllFit(c, s) && AllPossible(c, s, steps)
    ensures NoRepeats(ReleasedIds(AllOps(c, s, steps)))
    decreases |steps|
  {
    if steps != [] {
      hide Possible, After, OpsOf, AllFit, PickerRuns.Run, ReleasedIds, NoRepeats;
      var after, ops := After(c, s, steps[0]), OpsOf(s, steps[0]);
      var later := AllOps(c, after, steps[1..]);
      StepOnPicker(c, s, steps[0]);
      EveryStepFits(c, s, steps[0]);
      ReleasedAtMostOnce(c, after, steps[1..]);
      ReleasedIdsAppend(ops, later);
      ReleasedByOne(ops);
      if ops != [] && ops[0].Release? {
        NeverAgain(c, s, steps, ops[0].id);
        PrependedNoRepeats(ReleasedIds(later), ops[0].id);
      } else {
        assert [] + ReleasedIds(later) == ReleasedIds(later);
      }
    } else {
      assert AllOps(c, s, steps) == [];
    }
  }

  lemma HeldIdsAreOld(p: PickerState, id: nat)
    requires PickerRuns.IdsBelow(p) && id in p.held
    ensures id < p.nextID
  {
  }

  lemma {:induction false} ReleasedIdsAreReleased(ops: seq<PickerRuns.Op>)
    ensures PickerRuns.Released(ops) == set id | id in ReleasedIds(ops)
  {
    if ops != [] {
      ReleasedIdsAreReleased(ops[1..]);
    }
  }

  lemma IssuedUnrolls(c: PickerRuns.Config, p: PickerState, ops: seq<PickerRuns.Op>, later: seq<PickerRuns.Op>)
    requires |ops| <= 1 && PickerRuns.IdsBelow(p)
    ensures PickerRuns.Issued(c, PickerRuns.Run(c, p, ops), later).Keys <= PickerRuns.Issued(c, p, ops + later).Keys
    ensures PickerRuns.Run(c, p, ops).held.Keys <= p.held.Keys + PickerRuns.Issued(c, p, ops + later).Keys
  {
    if ops == [] {
      assert ops + later == later;
    } else {
      PickerRuns.StepKeepsIdsBelow(c, p, ops[0]);
      hide PickerRuns.Step;
      assert (ops + later)[1..] == later && ops[1..] == [];
    }
  }

  /** Only what was held, or handed out on the way, is given back. */
  lemma {:induction false} ReleasedWereIssued(c: Config, s: System, steps: seq<Step>)
    requires AllFit(c, s) && AllPossible(c, s, steps)
    ensures forall id | id in ReleasedIds(AllOps(c, s, steps)) ::
              id in s.picker.held || id in PickerRuns.Issued(c.picker, s.picker, AllOps(c, s, steps))
    decreases |steps|
  {
    if steps != [] {
      var after, ops := After(c, s, steps[0]), OpsOf(s, steps[0]);
      var later := AllOps(c, after, steps[1..]);
      StepOnPicker(c, s, steps[0]);
      EveryStepFits(c, s, steps[0]);
      ReleasedWereIssued(c, after, steps[1..]);
      IssuedUnrolls(c.picker, s.picker, ops, later);
      hide Possible, After, OpsOf, AllFit, PickerRuns.Run, PickerRuns.Issued, ReleasedIds;
      ReleasedIdsAppend(ops, later);
      ReleasedByOne(ops);
    }
  }

  /** When every request has finished, each id that Pick handed out was given back, exactly once. */
  lemma EverythingIsReleased(c: Config, limiter: R.LimiterState, steps: seq<Step>)
    requires AllPossible(c, Init(limiter), steps)
    requires forall i | i in AfterAll(c, Init(limiter), steps).reqs ::
               AfterAll(c, Init(limiter), steps).reqs[i].pc.Done?
    ensures var ops := AllOps(c, Init(limiter), steps);
            && NoRepeats(ReleasedIds(ops))
            && (set id | id in ReleasedIds(ops)) == PickerRuns.Issued(c.picker, INITIAL, ops).Keys
  {
    hide AfterAll, AllOps, PickerRuns.Issued, PickerRuns.Run, AllPossible;
    var ops := AllOps(c, Init(limiter), steps);
    StartFits(c, limiter);
    ReleasedAtMostOnce(c, Init(limiter), steps);
    ReleasedWereIssued(c, Init(limiter), steps);
    PickerRunsUnder(c, Init(limiter), steps);
    NothingLeaks(c, limiter, steps);
    hide AllFit, NoRepeats, PickerRuns.Legal, ReleasedIds;
    PickerRuns.ReleasesRemoveTheirOwn(c.picker, INITIAL, ops);
    ReleasedIdsAreReleased(ops);
    var issued := PickerRuns.Issued(c.picker, INITIAL, ops);
    forall id | id in issued ensures id in PickerRuns.Released(ops) {
      assert id !in (INITIAL.held + issued) - PickerRuns.Released(ops);
    }
  }

  // ---- what the limiter sees

  ghost function CallsOf(s: System, step: Step): seq<RateTheory.Call> {
    if step.Move? && step.e.Rated? && step.i in s.reqs
    then [RateTheory.Call(s.reqs[step.i].input.key, step.env.now)] else []
  }

  ghost function AllCalls(c: Config, s: System, steps: seq<Step>): seq<RateTheory.Call>
    requires AllPossible(c, s, steps)
    decreases |steps|
  {
    if steps == [] then [] else CallsOf(s, steps[0]) + AllCalls(c, After(c, s, steps[0]), steps[1..])
  }

  /** What the requests of one key were told at their rate check, in the order of the checks. */
  ghost function Told(c: Config, s: System, steps: seq<Step>, key: string): seq<bool>
    requires AllPossible(c, s, steps)
    decreases |steps|
  {
    if steps == [] then [] else ToldBy(s, steps[0], key) + Told(c, After(c, s, steps[0]), steps[1..], key)
  }

  ghost function ToldBy(s: System, step: Step, key: string): seq<bool> {
    if step.Move? && step.i in s.reqs && step.e.Rated? && s.reqs[step.i].input.key == key then [step.e.allowed] else []
  }

  lemma {:induction false} LimiterRunsUnder(c: Config, s: System, steps: seq<Step>, key: string)
    requires AllPossible(c, s, steps)
    ensures AfterAll(c, s, steps).limiter == RateTheory.Run(s.limiter, AllCalls(c, s, steps))
    ensures Told(c, s, steps, key) == RateTheory.Decisions(s.limiter, AllCalls(c, s, steps), key)
    decreases |steps|
  {
    if steps != [] {
      var step, after := steps[0], After(c, s, steps[0]);
      LimiterRunsUnder(c, after, steps[1..], key);
      hide Enabled, PickChoice, ViewChoice, R.Allows, R.AfterAllow, PickerRuns.Run, Next;
      var calls := AllCalls(c, s, steps);
      if CallsOf(s, step) == [] {
        assert calls == AllCalls(c, after, steps[1..]);
      } else {
        assert calls[1..] == AllCalls(c, after, steps[1..]);
      }
    }
  }

  /**
   However requests interleave, those of one key that pass the rate check within a window are never
   more than the burst and what the rate earns over the clock's steps forward in that window.
   */
  lemma KeysAreLimited(c: Config, s: System, steps: seq<Step>, key: string, i: nat, j: nat)
    requires AllPossible(c, s, steps)
    requires s.limiter.rate > 0.0 && s.limiter.burst >= 0.0 && key !in s.limiter.buckets
    requires i <= j < |Told(c, s, steps, key)|
    ensures var times := RateTheory.TimesOf(AllCalls(c, s, steps), key);
            && |Told(c, s, steps, key)| == |times|
            && RateTheory.Allowed(Told(c, s, steps, key), i, j + 1) as real
               <= s.limiter.burst + RateTheory.Earned(s.limiter.rate, RateTheory.Forward(times, i, j))
  {
    hide AllPossible, AfterAll, RateTheory.Earned, RateTheory.Allowed, Told, AllCalls;
    LimiterRunsUnder(c, s, steps, key);
    RateTheory.LabelsAreIndependent(s.limiter, AllCalls(c, s, steps), key);
    RateTheory.AnswersLength(s.limiter.rate, s.limiter.burst, R.BucketOf(s.limiter, key),
                             RateTheory.TimesOf(AllCalls(c, s, steps), key));
    RateTheory.WindowsAreBounded(s.limiter, AllCalls(c, s, steps), key, i, j);
  }

  // ---- what reaches the nodes

  /** The requests of one key that the rate check let pass. */
  ghost function Passed(reqs: map<nat, Req>, key: string): set<nat> {
    set i | i in reqs && reqs[i].input.key == key && reqs[i].rated == Some(true)
  }

  /** A request for a model, told by its method and its path. */
  predicate AsksForModel(input: Input) {
    input.verb == "POST"
    && (input.path == "/v1/chat/completions" || input.path == "/v1/completions" || input.path == "/v1/embeddings")
  }

  lemma AskingIsByModel(input: Input)
    ensures AsksForModel(input) <==> Paths.RouteOf(input.verb, input.path).ByModel?
  {
    Paths.ByModelExactlyWhen(input.verb, input.path);
  }

  /** The requests of one key for a model that were sent to any node. */
  ghost function Sent(reqs: map<nat, Req>, key: string): set<nat> {
    set i | i in reqs && reqs[i].input.key == key && reqs[i].tried != [] && AsksForModel(reqs[i].input)
  }

  lemma RatedOnce(maxBody: nat, r: Req, e: Event)
    requires ReqFits(maxBody, r) && Enabled(maxBody, r, e) && e.Rated?
    ensures r.rated == None
  {
    hide FramesFit, BodyFits, TriedFits, ReachedFits, AnswersFit, RouteFits, ReasonsFit, ReleaseFits;
  }

  ghost predicate HasPassed(r: Req, key: string) { r.input.key == key && r.rated == Some(true) }

  lemma PassedSplits(reqs: map<nat, Req>, i: nat, key: string)
    ensures |Passed(reqs, key)| == |Passed(reqs, key) - {i}| + if i in reqs && HasPassed(reqs[i], key) then 1 else 0
  {
    var rest := Passed(reqs, key) - {i};
    assert i in Passed(reqs, key) <==> i in reqs && HasPassed(reqs[i], key);
    assert Passed(reqs, key) == if i in Passed(reqs, key) then rest + {i} else rest;
  }

  lemma PassedUpdate(reqs: map<nat, Req>, i: nat, r: Req, key: string)
    ensures |Passed(reqs[i := r], key)| == |Passed(reqs, key)| + (if HasPassed(r, key) then 1 else 0)
                                         - if i in reqs && HasPassed(reqs[i], key) then 1 else 0
  {
    PassedSplits(reqs, i, key);
    PassedSplits(reqs[i := r], i, key);
    assert Passed(reqs[i := r], key) - {i} == Passed(reqs, key) - {i};
  }

  lemma PassedAfter(c: Config, s: System, step: Step, key: string)
    requires AllFit(c, s) && Possible(c, s, step)
    ensures |Passed(After(c, s, step).reqs, key)|
         == |Passed(s.reqs, key)| + if ToldBy(s, step, key) == [true] then 1 else 0
  {
    hide ReqFits, Enabled, TokensFit, ReservationsFit, HeldFits, PickChoice, ViewChoice, PickerRuns.Run, Next,
          R.Allows, R.AfterAllow;
    hide Passed;
    if step.Move? {
      InputStays(c.maxBody, s.reqs[step.i], step.e);
      if step.e.Rated? {
        RatedOnce(c.maxBody, s.reqs[step.i], step.e);
      }
      PassedUpdate(s.reqs, step.i, Next(c.maxBody, s.reqs[step.i], step.e), key);
    } else {
      PassedUpdate(s.reqs, step.i, NewReq(step.input), key);
    }
  }

  lemma {:induction false} AllowedPrepends(head: seq<bool>, d: seq<bool>, k: nat)
    requires |head| <= 1 && k <= |d|
    ensures RateTheory.Allowed(head + d, 0, |head| + k)
         == (if head == [true] then 1 else 0) + RateTheory.Allowed(d, 0, k)
    decreases k
  {
    if k == 0 {
      assert (head + d)[..|head|] == head;
    } else {
      AllowedPrepends(head, d, k - 1);
    }
  }

  /** Each answer that lets a request pass lets one more request pass. */
  lemma {:induction false} PassedAreTold(c: Config, s: System, steps: seq<Step>, key: string)
    requires AllFit(c, s) && AllPossible(c, s, steps)
    ensures |Passed(AfterAll(c, s, steps).reqs, key)|
         == |Passed(s.reqs, key)| + RateTheory.Allowed(Told(c, s, steps, key), 0, |Told(c, s, steps, key)|)
    decreases |steps|
  {
    if steps != [] {
      hide AllFit, After, Possible, Passed, ToldBy, RateTheory.Allowed;
      var step, after := steps[0], After(c, s, steps[0]);
      EveryStepFits(c, s, step);
      PassedAfter(c, s, step, key);
      PassedAreTold(c, after, steps[1..], key);
      var head, later := ToldBy(s, step, key), Told(c, after, steps[1..], key);
      assert |head| <= 1 by { OneTold(s, step, key); }
      AllowedPrepends(head, later, |later|);
      assert |head + later| == |head| + |later|;
    } else {
      NoneAllowed([]);
    }
  }

  lemma OneTold(s: System, step: Step, key: string)
    ensures |ToldBy(s, step, key)| <= 1
  {
  }

  /**
   Whatever one key's holder does, in any number of requests and however they interleave with
   everyone else's, no more of them are ever sent to nodes by model than the burst and what the rate
   earns while the clock moves forward from their first rate check to their last.
   */
  lemma SentAreLimited(c: Config, limiter: R.LimiterState, steps: seq<Step>, key: string)
    requires AllPossible(c, Init(limiter), steps)
    requires limiter.rate > 0.0 && limiter.burst >= 0.0 && key !in limiter.buckets
    ensures var sent := Sent(AfterAll(c, Init(limiter), steps).reqs, key);
            var times := RateTheory.TimesOf(AllCalls(c, Init(limiter), steps), key);
            if times == [] then sent == {}
            else |sent| as real
                 <= limiter.burst + RateTheory.Earned(limiter.rate, RateTheory.Forward(times, 0, |times| - 1))
  {
    hide AllPossible, AfterAll, AllFit, RateTheory.Earned, RateTheory.Allowed, RateTheory.Forward, RateTheory.TimesOf;
    hide Told, AllCalls, Sent, Passed, Init;
    InitLimits(limiter, key);
    StartFits(c, limiter);
    PassedAreTold(c, Init(limiter), steps, key);
    TimesAreTold(c, Init(limiter), steps, key);
    SentHavePassed(c, limiter, steps, key);
    var told := Told(c, Init(limiter), steps, key);
    if told != [] {
      KeysAreLimited(c, Init(limiter), steps, key, 0, |told| - 1);
    } else {
      NoneAllowed(told);
    }
  }

  lemma InitLimits(limiter: R.LimiterState, key: string)
    ensures Init(limiter).limiter == limiter && |Passed(Init(limiter).reqs, key)| == 0
  {
    assert Passed(Init(limiter).reqs, key) == {};
  }

  lemma NoneAllowed(d: seq<bool>)
    ensures RateTheory.Allowed(d, 0, 0) == 0
  {
  }

  lemma TimesAreTold(c: Config, s: System, steps: seq<Step>, key: string)
    requires AllPossible(c, s, steps) && s.limiter.rate > 0.0
    ensures |RateTheory.TimesOf(AllCalls(c, s, steps), key)| == |Told(c, s, steps, key)|
  {
    hide AllPossible, AfterAll, Told, AllCalls;
    LimiterRunsUnder(c, s, steps, key);
    RateTheory.LabelsAreIndependent(s.limiter, AllCalls(c, s, steps), key);
    RateTheory.AnswersLength(s.limiter.rate, s.limiter.burst, R.BucketOf(s.limiter, key),
                             RateTheory.TimesOf(AllCalls(c, s, steps), key));
  }

  lemma SentHavePassed(c: Config, limiter: R.LimiterState, steps: seq<Step>, key: string)
    requires AllPossible(c, Init(limiter), steps)
    ensures var reqs := AfterAll(c, Init(limiter), steps).reqs;
            Sent(reqs, key) <= Passed(reqs, key) && |Sent(reqs, key)| <= |Passed(reqs, key)|
  {
    hide AllPossible, AfterAll;
    var reqs := AfterAll(c, Init(limiter), steps).reqs;
    forall i | i in Sent(reqs, key) ensures i in Passed(reqs, key) {
      InferenceIsRated(c, limiter, steps, i);
    }
    Names.SubsetIsNoLarger(Sent(reqs, key), Passed(reqs, key));
  }

  // ---- the theorems about Picker runs, inside the gateway

  /** What the requests for one model are told by Pick does not depend on the requests for others. */
  lemma GatewayIsolatesModels(c: Config, limiter: R.LimiterState, steps: seq<Step>, model: string)
    requires AllPossible(c, Init(limiter), steps)
    ensures var ops := AllOps(c, Init(limiter), steps);
            var calls := Isolation.CallsOf(c.picker, INITIAL, ops, map[]);
            Isolation.TargetsOf(PickerRuns.Choices(c.picker, INITIAL, ops, model))
            == Isolation.Answers(c.picker, Isolation.World(INITIAL, map[]), Isolation.Erase(calls, model), model)
  {
    hide AllPossible, AllFit;
    StartFits(c, limiter);
    PickerRunsUnder(c, Init(limiter), steps);
    Isolation.RunsIsolateModels(c.picker, AllOps(c, Init(limiter), steps), model);
  }

  /**
   In a run whose Picks and Views read an orderly history of truthful reports, the free slots that
   Pick uses for a node are its slots less the requests now being forwarded there, less those its
   report still counts although they have ended.
   */
  lemma ForwardsAreCountedOnce(c: Config, limiter: R.LimiterState, steps: seq<Step>, es: seq<Accounting.Event>,
                               node: string, model: string)
    requires AllPossible(c, Init(limiter), steps)
    requires var start := Accounting.World(INITIAL, map[], map[]);
             && Accounting.AllOrderly(c.picker, start, es)
             && AllOps(c, Init(limiter), steps) == Accounting.CallsOf(c.picker, start, es)
             && var end := Accounting.AfterAll(c.picker, start, es);
                node in end.reports && model in end.reports[node].models
    ensures var s := AfterAll(c, Init(limiter), steps);
            var end := Accounting.AfterAll(c.picker, Accounting.World(INITIAL, map[], map[]), es);
            var rep := end.reports[node];
            && node in end.heldAt
            && LoadOf(s.picker.held, node, model, rep).free
               == Clamp(rep.models[model].slots - |Forwards(s.reqs, node, model)|
                        - |Accounting.Gone(s.picker.held, end.heldAt[node], node, model)|)
  {
    var start := Accounting.World(INITIAL, map[], map[]);
    NothingCounted();
    HistoryEnds(c, limiter, steps, es);
    hide Accounting.Accounted, Accounting.AllOrderly, Accounting.AfterAll, Accounting.Gone, Accounting.CallsOf,
          AllPossible, AllOps;
    hide AfterAll, AllFit, InFlight, Forwards, LoadOf, Clamp, Init;
    RunFits(c, limiter, steps);
    Accounting.EveryForwardIsChargedOnce(c.picker, start, es, node, model);
    InFlightAreForwards(c, AfterAll(c, Init(limiter), steps), node, model);
  }

  lemma NothingCounted()
    ensures Accounting.Accounted(Accounting.World(INITIAL, map[], map[]))
  {
  }

  lemma HistoryEnds(c: Config, limiter: R.LimiterState, steps: seq<Step>, es: seq<Accounting.Event>)
    requires AllPossible(c, Init(limiter), steps)
    requires AllOps(c, Init(limiter), steps)
          == Accounting.CallsOf(c.picker, Accounting.World(INITIAL, map[], map[]), es)
    ensures AfterAll(c, Init(limiter), steps).picker
         == Accounting.AfterAll(c.picker, Accounting.World(INITIAL, map[], map[]), es).s
  {
    hide AllFit, AllPossible, AfterAll, AllOps, PickerRuns.Run, Accounting.CallsOf, Accounting.AfterAll;
    StartFits(c, limiter);
    PickerRunsUnder(c, Init(limiter), steps);
    Accounting.HistoriesAreRuns(c.picker, Accounting.World(INITIAL, map[], map[]), es);
  }
}
