/** No request waits for another, and none takes steps for ever. */
module Progress {
  import opened PickerModel
  import opened Protocol
  import opened Gateway
  import PickerRuns
  import R = RateLimit

  /** A step that a request could take now. */
  ghost function SomeEvent(c: Config, s: System, r: Req, env: Env): Event
    requires !r.pc.Done?
  {
    match r.pc
    case Arrived => Begin
    case AtRateCheck => Rated(R.Allows(s.limiter, r.input.key, env.now))
    case AtSemaphore(_) => Acquired(s.inUse < c.maxInFlight)
    case AtView => Viewed(ViewChoice(c.picker.viewNodes, c.picker.isFresh, s.picker, env.snap))
    case AtFallback => Viewed(ViewChoice(c.picker.viewNodes, c.picker.isFresh, s.picker, env.snap))
    case Reading(_) => BodyFails(true)
    case AtPick(_) => Picked(PickChoice(c.picker.isFresh, s.picker, r.input.model, Excluded(r), env.snap))
    case Dialing(_, _) => DialFails
    case Connected(_, _) => Breaks
    case Streaming(_, _) => StreamEnds
    case Returning(_, _, _) => ToReturns
    case Unreached(mayRetry, _) => if mayRetry then Rewinds else WritesUnreachable
    case Leaving => Leaves
  }

  /** Where the next event is the router's own doing and not the client's, the network's or a node's. */
  predicate RouterDecides(pc: Pc) {
    !pc.Reading? && !pc.Dialing? && !pc.Connected? && !pc.Streaming? && !pc.Done?
  }

  /**
   The router never waits and never guesses: where the next step is its own there is exactly one,
   whatever the other requests hold.
   */
  lemma ExactlyOneStep(c: Config, s: System, i: nat, e: Event, env: Env)
    requires i in s.reqs && RouterDecides(s.reqs[i].pc)
    ensures Possible(c, s, Move(i, e, env)) <==> e == SomeEvent(c, s, s.reqs[i], env)
  {
    hide PickChoice, ViewChoice, R.Allows;
  }

  /** And elsewhere there is at least one; so whatever the others hold, a request can move. */
  lemma NobodyWaits(c: Config, s: System, i: nat, env: Env)
    requires i in s.reqs && !s.reqs[i].pc.Done?
    ensures Possible(c, s, Move(i, SomeEvent(c, s, s.reqs[i], env), env))
  {
    hide PickChoice, ViewChoice, R.Allows;
    if RouterDecides(s.reqs[i].pc) {
      ExactlyOneStep(c, s, i, SomeEvent(c, s, s.reqs[i], env), env);
    }
  }

  // ---- how long a request can take

  /** A bound on the steps a request has left: for each stage, one for each byte posted and one more. */
  ghost function StepsLeft(r: Req): nat {
    Room(Stages(r), |r.input.posted|) + if Ahead(r) < 0 then 0 else Ahead(r)
  }

  lemma AheadIsInTheBody(maxBody: nat, r: Req)
    requires ReqFits(maxBody, r)
    ensures Ahead(r) <= |r.input.posted|
  {
    hide FramesFit, TriedFits, ReachedFits, AnswersFit, RouteFits, RateFits, ReasonsFit, ReleaseFits;
  }

  lemma StepsLeftFall(maxBody: nat, r: Req, e: Event)
    requires ReqFits(maxBody, r) && Enabled(maxBody, r, e) && ChoiceFits(r, e)
    ensures StepsLeft(Next(maxBody, r, e)) < StepsLeft(r)
  {
    hide ReqFits, Enabled, Next, Stages, Ahead, Room;
    var after := Next(maxBody, r, e);
    EveryStepAdvances(maxBody, r, e);
    StepFits(maxBody, r, e);
    AheadIsInTheBody(maxBody, after);
    InputStays(maxBody, r, e);
    if Stages(after) < Stages(r) {
      RoomGrows(Stages(after), |r.input.posted|);
      RoomMonotone(Stages(after) + 1, Stages(r), |r.input.posted|);
    }
  }

  /** How many of the steps are this request's. */
  ghost function Moves(steps: seq<Step>, i: nat): nat {
    if steps == [] then 0 else (if steps[0].Move? && steps[0].i == i then 1 else 0) + Moves(steps[1..], i)
  }

  /** The positions of the request's own steps. */
  ghost function OwnSteps(steps: seq<Step>, i: nat): set<nat> {
    set k: nat | k < |steps| && steps[k].Move? && steps[k].i == i
  }

  lemma {:induction false} MovesAreOwnSteps(steps: seq<Step>, i: nat)
    ensures Moves(steps, i) == |OwnSteps(steps, i)|
  {
    if steps == [] {
      assert OwnSteps(steps, i) == {};
    } else {
      var n := |steps| - 1;
      MovesAreOwnSteps(steps[..n], i);
      MovesAppend(steps[..n], [steps[n]], i);
      assert steps == steps[..n] + [steps[n]];
      assert Moves([steps[n]], i) == if steps[n].Move? && steps[n].i == i then 1 else 0;
      assert OwnSteps(steps, i) == OwnSteps(steps[..n], i) + if steps[n].Move? && steps[n].i == i then {n} else {};
    }
  }

  lemma {:induction false} MovesAppend(a: seq<Step>, b: seq<Step>, i: nat)
    ensures Moves(a + b, i) == Moves(a, i) + Moves(b, i)
  {
    if a == [] {
      assert a + b == b;
    } else {
      MovesAppend(a[1..], b, i);
      assert (a + b)[1..] == a[1..] + b;
    }
  }

  lemma StepsLeftInSystem(c: Config, s: System, step: Step, i: nat)
    requires AllFit(c, s) && Possible(c, s, step) && i in s.reqs
    ensures var after := After(c, s, step);
            && i in after.reqs && after.reqs[i].input == s.reqs[i].input
            && StepsLeft(after.reqs[i]) + (if step.Move? && step.i == i then 1 else 0) <= StepsLeft(s.reqs[i])
  {
    hide ReqFits, Enabled, Next, StepsLeft, PickChoice, ViewChoice, PickerRuns.Run, R.Allows, TokensFit,
          ReservationsFit;
    if step.Move? && step.i == i {
      ExcludedIsNotChosen(c, s, s.reqs[i], step.e, step.env);
      StepsLeftFall(c.maxBody, s.reqs[i], step.e);
      InputStays(c.maxBody, s.reqs[i], step.e);
    }
  }

  lemma {:induction false} MovesAreBounded(c: Config, s: System, steps: seq<Step>, i: nat)
    requires AllFit(c, s) && AllPossible(c, s, steps) && i in s.reqs
    ensures Moves(steps, i) <= StepsLeft(s.reqs[i])
    decreases |steps|
  {
    if steps != [] {
      hide AllFit, After, Possible, StepsLeft;
      EveryStepFits(c, s, steps[0]);
      StepsLeftInSystem(c, s, steps[0], i);
      MovesAreBounded(c, After(c, s, steps[0]), steps[1..], i);
    }
  }

  /**
   A request that has arrived takes no more than eighteen steps, and two for each replay, for each
   byte it posted and one more, whatever the other requests do and however long the run.
   */
  lemma EveryRequestEnds(c: Config, limiter: R.LimiterState, before: seq<Step>, i: nat, input: Input, steps: seq<Step>)
    requires AllPossible(c, Init(limiter), before) && i !in AfterAll(c, Init(limiter), before).reqs
    requires AllPossible(c, After(c, AfterAll(c, Init(limiter), before), Arrive(i, input)), steps)
    ensures Moves(steps, i) <= (18 + 2 * input.replays) * (|input.posted| + 1)
  {
    hide AllFit, AfterAll, AllPossible;
    var s := AfterAll(c, Init(limiter), before);
    RunFits(c, limiter, before);
    EveryStepFits(c, s, Arrive(i, input));
    MovesAreBounded(c, After(c, s, Arrive(i, input)), steps, i);
  }

  // ---- the gateway empties

  /** The steps that all requests together have left. */
  ghost function AllLeft(reqs: map<nat, Req>): nat
    decreases |reqs|
  {
    if reqs == map[] then 0
    else
      var i :| i in reqs;
      StepsLeft(reqs[i]) + AllLeft(reqs - {i})
  }

  lemma {:induction false} AllLeftSplits(reqs: map<nat, Req>, i: nat)
    requires i in reqs
    ensures AllLeft(reqs) == StepsLeft(reqs[i]) + AllLeft(reqs - {i}) && AllLeft(map[]) == 0
    decreases |reqs|
  {
    hide StepsLeft;
    var j :| j in reqs && AllLeft(reqs) == StepsLeft(reqs[j]) + AllLeft(reqs - {j});
    if j != i {
      AllLeftSplits(reqs - {j}, i);
      AllLeftSplits(reqs - {i}, j);
      assert reqs - {j} - {i} == reqs - {i} - {j};
    }
  }

  lemma AllLeftFalls(c: Config, s: System, step: Step)
    requires AllFit(c, s) && Possible(c, s, step) && step.Move?
    ensures AllLeft(After(c, s, step).reqs) < AllLeft(s.reqs)
  {
    StepsLeftInSystem(c, s, step, step.i);
    OnlyOneMoves(c, s, step);
    hide AllFit, After, Possible, StepsLeft, AllLeft;
    AllLeftSplits(s.reqs, step.i);
    AllLeftSplits(After(c, s, step).reqs, step.i);
  }

  lemma {:induction false} MovesEmpty(c: Config, s: System, steps: seq<Step>)
    requires AllFit(c, s) && AllPossible(c, s, steps) && forall step | step in steps :: step.Move?
    ensures |steps| + AllLeft(AfterAll(c, s, steps).reqs) <= AllLeft(s.reqs)
    decreases |steps|
  {
    if steps != [] {
      hide AllFit, After, Possible, AllLeft;
      EveryStepFits(c, s, steps[0]);
      AllLeftFalls(c, s, steps[0]);
      MovesEmpty(c, After(c, s, steps[0]), steps[1..]);
    }
  }

  lemma QuietMeansEmpty(c: Config, limiter: R.LimiterState, steps: seq<Step>, env: Env)
    requires AllPossible(c, Init(limiter), steps)
    requires forall i, e :: !Possible(c, AfterAll(c, Init(limiter), steps), Move(i, e, env))
    ensures var s := AfterAll(c, Init(limiter), steps);
            (forall i | i in s.reqs :: s.reqs[i].pc.Done?) && s.inUse == 0 && s.picker.held == map[]
  {
    hide AfterAll, AllPossible, Possible;
    var s := AfterAll(c, Init(limiter), steps);
    forall i | i in s.reqs ensures s.reqs[i].pc.Done? {
      if !s.reqs[i].pc.Done? {
        NobodyWaits(c, s, i, env);
      }
    }
    NothingLeaks(c, limiter, steps);
  }

  /**
   Left alone, the gateway empties. From any state it can reach, runs without arrivals are no longer
   than the steps its requests have left, and one that cannot be continued, with these members and at
   this time, has finished every request and given back every token and every reservation.
   */
  lemma GatewayDrains(c: Config, limiter: R.LimiterState, before: seq<Step>, steps: seq<Step>, env: Env)
    requires AllPossible(c, Init(limiter), before + steps) && AllPossible(c, Init(limiter), before)
    requires forall step | step in steps :: step.Move?
    ensures |steps| <= AllLeft(AfterAll(c, Init(limiter), before).reqs)
    ensures (forall i, e :: !Possible(c, AfterAll(c, Init(limiter), before + steps), Move(i, e, env))) ==>
              var s := AfterAll(c, Init(limiter), before + steps);
              (forall i | i in s.reqs :: s.reqs[i].pc.Done?) && s.inUse == 0 && s.picker.held == map[]
  {
    RunSplits(c, Init(limiter), before, steps);
    hide AllFit, AfterAll, AllPossible, AllLeft, Possible;
    RunFits(c, limiter, before);
    MovesEmpty(c, AfterAll(c, Init(limiter), before), steps);
    if forall i, e :: !Possible(c, AfterAll(c, Init(limiter), before + steps), Move(i, e, env)) {
      QuietMeansEmpty(c, limiter, before + steps, env);
    }
  }

  lemma {:induction false} RunSplits(c: Config, s: System, a: seq<Step>, b: seq<Step>)
    requires AllPossible(c, s, a + b) && AllPossible(c, s, a)
    ensures AllPossible(c, AfterAll(c, s, a), b) && AfterAll(c, s, a + b) == AfterAll(c, AfterAll(c, s, a), b)
    decreases |a|
  {
    hide After, Possible;
    if a == [] {
      assert a + b == b;
    } else {
      assert (a + b)[1..] == a[1..] + b;
      RunSplits(c, After(c, s, a[0]), a[1..], b);
    }
  }
}
