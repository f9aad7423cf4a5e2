/**
 The gateway as a whole: any number of requests, interleaved in any way, sharing one semaphore,
 one Picker and one rate limiter.
 */
module Gateway {
  import opened Options
  import opened PickerModel
  import opened Protocol
  import PickerRuns
  import R = RateLimit
  import Names
  import Paths

  datatype Config = Config(picker: PickerRuns.Config, maxInFlight: nat, maxBody: nat)

  datatype System = System(inUse: nat, picker: PickerState, limiter: R.LimiterState, reqs: map<nat, Req>)

  /** What a step reads from outside: the members and reports, and the limiter's clock. */
  datatype Env = Env(snap: Snapshot, now: real)

  datatype Step = Arrive(i: nat, input: Input) | Move(i: nat, e: Event, env: Env)

  ghost function Init(limiter: R.LimiterState): System {
    System(0, INITIAL, limiter, map[])
  }

  function Excluded(r: Req): set<string> {
    if r.pc.AtPick? && r.pc.failed.Some? then {r.pc.failed.value} else {}
  }

  /** An event says of the shared state what the shared state says. */
  ghost predicate Agrees(c: Config, s: System, r: Req, e: Event, env: Env) {
    match e
    case Rated(allowed) => allowed == R.Allows(s.limiter, r.input.key, env.now)
    case Acquired(ok) => ok == (s.inUse < c.maxInFlight)
    case Viewed(view) => view == ViewChoice(c.picker.viewNodes, c.picker.isFresh, s.picker, env.snap)
    case Picked(choice) => choice == PickChoice(c.picker.isFresh, s.picker, r.input.model, Excluded(r), env.snap)
    case _ => true
  }

  ghost predicate Possible(c: Config, s: System, step: Step) {
    match step
    case Arrive(i, input) => i !in s.reqs
    case Move(i, e, env) =>
      i in s.reqs && Enabled(c.maxBody, s.reqs[i], e) && Agrees(c, s, s.reqs[i], e, env)
  }

  /** The calls on the Picker that an event makes. */
  ghost function PickerOps(r: Req, e: Event, env: Env): seq<PickerRuns.Op> {
    match e
    case Viewed(_) => [PickerRuns.View(env.snap)]
    case Picked(_) => [PickerRuns.Pick(r.input.model, Excluded(r), env.snap)]
    case ToReturns => if |r.frames| == 2 && r.frames[1].Reserved? then [PickerRuns.Release(r.frames[1].id)] else []
    case _ => []
  }

  ghost function InUseAfter(s: System, r: Req, e: Event): int {
    if e.Acquired? && e.ok then s.inUse + 1
    else if e.Leaves? && r.frames == [SemToken] then s.inUse - 1
    else s.inUse
  }

  ghost function After(c: Config, s: System, step: Step): System
    requires Possible(c, s, step)
  {
    match step
    case Arrive(i, input) => s.(reqs := s.reqs[i := NewReq(input)])
    case Move(i, e, env) =>
      var r := s.reqs[i];
      System(
        if InUseAfter(s, r, e) < 0 then 0 else InUseAfter(s, r, e),
        PickerRuns.Run(c.picker, s.picker, PickerOps(r, e, env)),
        if e.Rated? then R.AfterAllow(s.limiter, r.input.key, env.now) else s.limiter,
        s.reqs[i := Next(c.maxBody, r, e)])
  }

  ghost predicate AllPossible(c: Config, s: System, steps: seq<Step>)
    decreases |steps|
  {
    steps == [] || (Possible(c, s, steps[0]) && AllPossible(c, After(c, s, steps[0]), steps[1..]))
  }

  ghost function AfterAll(c: Config, s: System, steps: seq<Step>): System
    requires AllPossible(c, s, steps)
    decreases |steps|
  {
    if steps == [] then s else AfterAll(c, After(c, s, steps[0]), steps[1..])
  }

  // ---- what is conserved

  /** The requests between taking a concurrency token and giving it back. */
  ghost function TokenHolders(reqs: map<nat, Req>): set<nat> {
    set i | i in reqs && reqs[i].frames != []
  }

  /** The reservation of each request inside forwardHolding: the id its deferred release gives back. */
  ghost function Reservations(reqs: map<nat, Req>): map<nat, nat> {
    map i | i in reqs && |reqs[i].frames| == 2 && reqs[i].frames[1].Reserved? :: reqs[i].frames[1].id
  }

  /** The reservations in the Picker and the requests inside forwardHolding match one to one. */
  ghost predicate ReservationsFit(picker: PickerState, reservations: map<nat, nat>) {
    PickerRuns.IdsBelow(picker) && Names.Injective(reservations) && reservations.Values == picker.held.Keys
  }

  ghost predicate TokensFit(c: Config, s: System) {
    s.inUse == |TokenHolders(s.reqs)| && s.inUse <= c.maxInFlight
  }

  /** The reservation of a request inside forwardHolding is for its node and its model. */
  ghost predicate HeldFits(held: map<nat, Reservation>, r: Req) {
    Holding(r.pc) && |r.frames| == 2 && r.frames[1].Reserved? ==>
      r.frames[1].id in held && held[r.frames[1].id].node == r.pc.target.node
          && held[r.frames[1].id].model == r.input.model
  }

  ghost predicate AllFit(c: Config, s: System) {
    && (forall i | i in s.reqs :: ReqFits(c.maxBody, s.reqs[i]))
    && (forall i | i in s.reqs :: HeldFits(s.picker.held, s.reqs[i]))
    && TokensFit(c, s) && ReservationsFit(s.picker, Reservations(s.reqs))
  }

  lemma ExcludedIsNotChosen(c: Config, s: System, r: Req, e: Event, env: Env)
    requires Agrees(c, s, r, e, env)
    ensures ChoiceFits(r, e)
  {
    if e.Picked? {
      PickChoiceServes(c.picker.isFresh, s.picker, r.input.model, Excluded(r), env.snap);
    }
  }

  lemma OnlyOneMoves(c: Config, s: System, step: Step)
    requires Possible(c, s, step) && step.Move?
    ensures After(c, s, step).reqs - {step.i} == s.reqs - {step.i}
  {
    hide Enabled, Next, PickerRuns.Run, PickChoice, ViewChoice, R.Allows, R.AfterAllow;
  }

  lemma RouteFrames(c: Config, r: Req, e: Event)
    requires FramesFit(r) && Enabled(c.maxBody, r, e) && !InTransport(e)
    ensures var before, after := r.frames, Route(c.maxBody, r, e).frames;
            && (e.Acquired? && e.ok ==> before == [] && after == [SemToken])
            && (e.Picked? && e.choice.Chose? ==> before == [SemToken] && after == [SemToken, Reserved(e.choice.id)])
            && (!(e.Acquired? && e.ok) && !(e.Picked? && e.choice.Chose?) ==> after == before)
  {
    hide Paths.RouteOf;
  }

  /** How one event changes the stack of deferred calls. */
  lemma FramesChange(c: Config, r: Req, e: Event)
    requires ReqFits(c.maxBody, r) && Enabled(c.maxBody, r, e)
    ensures var before, after := r.frames, Next(c.maxBody, r, e).frames;
            && (e.Acquired? && e.ok ==> before == [] && after == [SemToken])
            && (e.Picked? && e.choice.Chose? ==> before == [SemToken] && after == [SemToken, Reserved(e.choice.id)])
            && (e.ToReturns? && |before| == 2 ==> before[1].Reserved? && after == [SemToken])
            && (e.ToReturns? && |before| != 2 ==> after == before)
            && (e.Leaves? ==> (before == [] || before == [SemToken]) && after == [])
            && (!((e.Acquired? && e.ok) || (e.Picked? && e.choice.Chose?) || e.ToReturns? || e.Leaves?) ==>
                after == before)
  {
    hide BodyFits, TriedFits, ReachedFits, AnswersFit, RouteFits, RateFits, ReasonsFit, ReleaseFits, Route;
    if !InTransport(e) {
      RouteFrames(c, r, e);
    }
  }

  lemma HoldersAfter(reqs: map<nat, Req>, i: nat, r: Req)
    requires i in reqs
    ensures |TokenHolders(reqs[i := r])| ==
              |TokenHolders(reqs)| + (if r.frames != [] then 1 else 0) - if reqs[i].frames != [] then 1 else 0
  {
    HoldersWithout(reqs, i);
    HoldersWithout(reqs[i := r], i);
    assert reqs[i := r] - {i} == reqs - {i};
  }

  lemma TokensStayFit(c: Config, s: System, i: nat, e: Event, env: Env)
    requires AllFit(c, s) && Possible(c, s, Move(i, e, env))
    ensures TokensFit(c, After(c, s, Move(i, e, env)))
  {
    hide ReqFits, Enabled, ReservationsFit, PickerRuns.Run, PickChoice, ViewChoice, Next, TokenHolders, R.Allows;
    var r, after := s.reqs[i], Next(c.maxBody, s.reqs[i], e);
    FramesChange(c, r, e);
    HoldersAfter(s.reqs, i, after);
  }

  lemma AddedIsInjective(f: map<nat, nat>, i: nat, id: nat)
    requires Names.Injective(f) && i !in f && id !in f.Values
    ensures Names.Injective(f[i := id]) && f[i := id].Values == f.Values + {id}
  {
    var g := f[i := id];
    assert forall k | k in f :: g[k] == f[k];
    assert g[i] == id;
    forall v | v in f.Values ensures v in g.Values {
      var k :| k in f && f[k] == v;
      assert g[k] == v;
    }
  }

  lemma RemovedIsInjective(f: map<nat, nat>, i: nat)
    requires Names.Injective(f) && i in f
    ensures Names.Injective(f - {i}) && (f - {i}).Values == f.Values - {f[i]}
  {
    var g := f - {i};
    forall v | v in f.Values && v != f[i] ensures v in g.Values {
      var k :| k in f && f[k] == v;
      assert g[k] == v;
    }
  }

  lemma InjectiveSize(f: map<nat, nat>)
    requires Names.Injective(f)
    ensures |f.Values| == |f|
  {
    assert (set i | i in f.Keys :: f[i]) == f.Values;
    Names.ImageSize(f.Keys, f);
    assert |f.Keys| == |f|;
  }

  lemma ReservationsAfter(reqs: map<nat, Req>, i: nat, r: Req)
    ensures Reservations(reqs[i := r]) ==
              if |r.frames| == 2 && r.frames[1].Reserved? then Reservations(reqs)[i := r.frames[1].id]
              else Reservations(reqs) - {i}
  {
  }

  /** What an event does to the Picker's table. */
  lemma PickerChange(c: Config, s: System, r: Req, e: Event, env: Env)
    requires PickerRuns.IdsBelow(s.picker) && Agrees(c, s, r, e, env)
    ensures var after := PickerRuns.Run(c.picker, s.picker, PickerOps(r, e, env));
            && PickerRuns.IdsBelow(after)
            && (e.Picked? && e.choice.Chose? ==>
                  && e.choice.id == s.picker.nextID
                  && after.held == s.picker.held[
                       s.picker.nextID := Reservation(e.choice.target.node, r.input.model, env.snap.now)])
            && (e.ToReturns? && |r.frames| == 2 && r.frames[1].Reserved? ==>
                  after.held == s.picker.held - {r.frames[1].id})
            && (!(e.Picked? && e.choice.Chose?) && !(e.ToReturns? && |r.frames| == 2 && r.frames[1].Reserved?) ==>
                  after.held == s.picker.held)
  {
    var ops := PickerOps(r, e, env);
    if ops != [] {
      PickerRuns.StepKeepsIdsBelow(c.picker, s.picker, ops[0]);
      assert ops[1..] == [];
      if e.Picked? && e.choice.Chose? {
        var n := PickUnfolds(c.picker.isFresh, s.picker, r.input.model, Excluded(r), env.snap);
      }
    }
  }

  lemma EntersHolding(c: Config, r: Req, e: Event)
    requires FramesFit(r) && Enabled(c.maxBody, r, e) && !InTransport(e) && Holding(Route(c.maxBody, r, e).pc)
    ensures var after := Route(c.maxBody, r, e);
            && after.input == r.input && |after.frames| == 2
            && e.Picked? && e.choice.Chose? && after.pc.target == e.choice.target
                && after.frames[1] == Reserved(e.choice.id)
  {
    hide Paths.RouteOf;
  }

  /** A request stays inside forwardHolding with the node and the reservation it entered with. */
  lemma StaysHolding(c: Config, r: Req, e: Event)
    requires FramesFit(r) && Enabled(c.maxBody, r, e) && Holding(Next(c.maxBody, r, e).pc)
    ensures var after := Next(c.maxBody, r, e);
            && after.input == r.input && |after.frames| == 2
            && (if e.Picked? then e.choice.Chose? && after.pc.target == e.choice.target
                && after.frames[1] == Reserved(e.choice.id)
                else !e.ToReturns? && Holding(r.pc) && after.pc.target == r.pc.target && after.frames == r.frames)
  {
    hide Route;
    if !InTransport(e) {
      EntersHolding(c, r, e);
    }
  }

  /** The reservations of other requests are not touched. */
  lemma OthersKeepHeld(c: Config, s: System, i: nat, e: Event, env: Env, j: nat)
    requires AllFit(c, s) && Possible(c, s, Move(i, e, env)) && j in s.reqs && j != i
    ensures HeldFits(After(c, s, Move(i, e, env)).picker.held, s.reqs[j])
  {
    hide ReqFits, Enabled, TokensFit, Next, PickerRuns.Run, PickChoice, ViewChoice, Reservations, PickerOps, Holding;
    PickerChange(c, s, s.reqs[i], e, env);
    ReservationOf(s.reqs, i);
    ReservationOf(s.reqs, j);
    assert HeldFits(s.picker.held, s.reqs[j]);
    if j in Reservations(s.reqs) {
      assert Reservations(s.reqs)[j] in s.picker.held;
    }
  }

  lemma OwnHeldFits(c: Config, s: System, i: nat, e: Event, env: Env)
    requires AllFit(c, s) && Possible(c, s, Move(i, e, env))
    ensures HeldFits(After(c, s, Move(i, e, env)).picker.held, Next(c.maxBody, s.reqs[i], e))
  {
    assert ReqFits(c.maxBody, s.reqs[i]);
    hide ReqFits, Enabled, TokensFit, Next, PickerRuns.Run, PickerRuns.IdsBelow, PickChoice, ViewChoice,
          Reservations, PickerOps, Holding;
    PickerChange(c, s, s.reqs[i], e, env);
    if Holding(Next(c.maxBody, s.reqs[i], e).pc) {
      FramesAlone(c, s.reqs[i]);
      StaysHolding(c, s.reqs[i], e);
      assert HeldFits(s.picker.held, s.reqs[i]);
    }
  }

  lemma FramesAlone(c: Config, r: Req)
    requires ReqFits(c.maxBody, r)
    ensures FramesFit(r)
  {
    hide FramesFit;
  }

  lemma HeldStaysFit(c: Config, s: System, i: nat, e: Event, env: Env)
    requires AllFit(c, s) && Possible(c, s, Move(i, e, env))
    ensures var after := After(c, s, Move(i, e, env));
            forall j | j in after.reqs :: HeldFits(after.picker.held, after.reqs[j])
  {
    hide ReqFits, Enabled, TokensFit, ReservationsFit, Next, PickerRuns.Run, PickChoice, ViewChoice, HeldFits, R.Allows;
    var after := After(c, s, Move(i, e, env));
    forall j | j in after.reqs ensures HeldFits(after.picker.held, after.reqs[j]) {
      if j == i {
        OwnHeldFits(c, s, i, e, env);
      } else {
        OthersKeepHeld(c, s, i, e, env, j);
      }
    }
  }

  lemma ReservationsStayFit(c: Config, s: System, i: nat, e: Event, env: Env)
    requires AllFit(c, s) && Possible(c, s, Move(i, e, env))
    ensures var after := After(c, s, Move(i, e, env)); ReservationsFit(after.picker, Reservations(after.reqs))
  {
    hide ReqFits, Enabled, TokensFit, Next, PickerRuns.Run, PickerRuns.IdsBelow, PickChoice, ViewChoice,
          Names.Injective;
    hide Reservations, PickerOps;
    var r, after := s.reqs[i], Next(c.maxBody, s.reqs[i], e);
    FramesChange(c, r, e);
    PickerChange(c, s, r, e, env);
    ReservationsAfter(s.reqs, i, after);
    var f := Reservations(s.reqs);
    ReservationOf(s.reqs, i);
    if e.Picked? && e.choice.Chose? {
      IdIsNew(s.picker);
      AddedIsInjective(f, i, e.choice.id);
    } else if e.ToReturns? && |r.frames| == 2 {
      RemovedIsInjective(f, i);
    } else {
      assert Reservations(s.reqs[i := after]) == f;
    }
  }

  lemma IdIsNew(p: PickerState)
    requires PickerRuns.IdsBelow(p)
    ensures p.nextID !in p.held.Keys
  {
  }

  lemma ReservationOf(reqs: map<nat, Req>, i: nat)
    requires i in reqs
    ensures i in Reservations(reqs) <==> |reqs[i].frames| == 2 && reqs[i].frames[1].Reserved?
    ensures i in Reservations(reqs) ==> Reservations(reqs)[i] == reqs[i].frames[1].id
  {
  }

  lemma ArrivalFits(c: Config, s: System, i: nat, input: Input)
    requires AllFit(c, s) && i !in s.reqs
    ensures AllFit(c, s.(reqs := s.reqs[i := NewReq(input)]))
  {
    var reqs := s.reqs[i := NewReq(input)];
    NewReqFits(c.maxBody, input);
    hide ReqFits;
    assert TokenHolders(reqs) == TokenHolders(s.reqs);
    assert Reservations(reqs) == Reservations(s.reqs);
  }

  /** Whatever request moves next, and however, everything still fits. */
  lemma EveryStepFits(c: Config, s: System, step: Step)
    requires AllFit(c, s) && Possible(c, s, step)
    ensures AllFit(c, After(c, s, step))
  {
    match step
    case Arrive(i, input) => ArrivalFits(c, s, i, input);
    case Move(i, e, env) =>
      hide ReqFits, Enabled, TokensFit, ReservationsFit, HeldFits, Next;
      HeldStaysFit(c, s, i, e, env);
      ExcludedIsNotChosen(c, s, s.reqs[i], e, env);
      StepFits(c.maxBody, s.reqs[i], e);
      TokensStayFit(c, s, i, e, env);
      ReservationsStayFit(c, s, i, e, env);
  }

  lemma {:induction false} EveryRunFits(c: Config, s: System, steps: seq<Step>)
    requires AllFit(c, s) && AllPossible(c, s, steps)
    ensures AllFit(c, AfterAll(c, s, steps))
    decreases |steps|
  {
    if steps != [] {
      hide AllFit, After, Possible;
      EveryStepFits(c, s, steps[0]);
      EveryRunFits(c, After(c, s, steps[0]), steps[1..]);
    }
  }

  lemma StartFits(c: Config, limiter: R.LimiterState)
    ensures AllFit(c, Init(limiter))
  {
    var none: map<nat, Req> := map[];
    assert TokenHolders(none) == {} && Reservations(none) == map[];
  }

  ghost function Buffered(reqs: map<nat, Req>): nat
    decreases |reqs|
  {
    if reqs == map[] then 0
    else
      var i :| i in reqs;
      |reqs[i].buffer| + Buffered(reqs - {i})
  }

  /** The buffered bytes are the sum of what each request buffers. */
  lemma {:induction false} BufferedSums(reqs: map<nat, Req>, i: nat)
    requires i in reqs
    ensures Buffered(reqs) == |reqs[i].buffer| + Buffered(reqs - {i}) && Buffered(map[]) == 0
    decreases |reqs|
  {
    var j :| j in reqs && Buffered(reqs) == |reqs[j].buffer| + Buffered(reqs - {j});
    if j != i {
      BufferedSums(reqs - {j}, i);
      BufferedSums(reqs - {i}, j);
      assert reqs - {j} - {i} == reqs - {i} - {j};
    }
  }

  lemma HoldersWithout(reqs: map<nat, Req>, i: nat)
    requires i in reqs
    ensures |TokenHolders(reqs)| == |TokenHolders(reqs - {i})| + if reqs[i].frames != [] then 1 else 0
  {
    var rest := TokenHolders(reqs - {i});
    assert i !in rest;
    assert TokenHolders(reqs) == rest + if reqs[i].frames != [] then {i} else {};
  }

  /** n times one more than m: the bytes that n bodies may take, each read up to one past the limit m. */
  function Room(n: nat, m: nat): nat {
    n * (m + 1)
  }

  lemma RoomGrows(n: nat, maxBody: nat)
    ensures Room(0, maxBody) == 0
    ensures Room(n + 1, maxBody) == Room(n, maxBody) + maxBody + 1
  {
    assert (n + 1) * (maxBody + 1) == n * (maxBody + 1) + (maxBody + 1);
  }

  lemma RoomMonotone(a: nat, b: nat, maxBody: nat)
    requires a <= b
    ensures Room(a, maxBody) <= Room(b, maxBody)
  {
  }

  lemma {:induction false} BuffersAreBounded(maxBody: nat, reqs: map<nat, Req>)
    requires forall i | i in reqs :: ReqFits(maxBody, reqs[i])
    ensures Buffered(reqs) <= Room(|TokenHolders(reqs)|, maxBody)
    decreases |reqs|
  {
    hide ReqFits, TokenHolders, Room;
    if reqs != map[] {
      var i :| i in reqs && Buffered(reqs) == |reqs[i].buffer| + Buffered(reqs - {i});
      BuffersAreBounded(maxBody, reqs - {i});
      FramesTell(maxBody, reqs[i]);
      HoldersWithout(reqs, i);
      RoomGrows(|TokenHolders(reqs - {i})|, maxBody);
    }
  }

  lemma FramesTell(maxBody: nat, r: Req)
    requires ReqFits(maxBody, r)
    ensures |r.buffer| <= if r.frames != [] then maxBody + 1 else 0
    ensures |r.frames| == 2 <==> Holding(r.pc)
    ensures |r.frames| == 2 ==> r.frames[1].Reserved?
    ensures r.pc.Done? ==> r.frames == []
  {
    hide TriedFits, ReachedFits, AnswersFit, RouteFits, RateFits, ReasonsFit, ReleaseFits;
  }

  /** The requests now inside forwardHolding. */
  ghost function InsideForward(reqs: map<nat, Req>): set<nat> {
    set i | i in reqs && Holding(reqs[i].pc)
  }

  lemma RunFits(c: Config, limiter: R.LimiterState, steps: seq<Step>)
    requires AllPossible(c, Init(limiter), steps)
    ensures AllFit(c, AfterAll(c, Init(limiter), steps))
  {
    hide AllFit;
    StartFits(c, limiter);
    EveryRunFits(c, Init(limiter), steps);
  }

  lemma FitReservations(c: Config, s: System)
    requires AllFit(c, s)
    ensures |s.picker.held| == |InsideForward(s.reqs)|
    ensures InsideForward(s.reqs) <= TokenHolders(s.reqs)
    ensures (forall i | i in s.reqs :: s.reqs[i].pc.Done?) ==> TokenHolders(s.reqs) == {}
  {
    hide ReqFits, PickerRuns.IdsBelow, Names.Injective;
    forall i | i in s.reqs
      ensures |s.reqs[i].frames| == 2 <==> Holding(s.reqs[i].pc)
      ensures |s.reqs[i].frames| == 2 ==> s.reqs[i].frames[1].Reserved?
      ensures s.reqs[i].pc.Done? ==> s.reqs[i].frames == []
    {
      FramesTell(c.maxBody, s.reqs[i]);
    }
    hide Holding;
    assert Reservations(s.reqs).Keys == InsideForward(s.reqs);
    InjectiveSize(Reservations(s.reqs));
    assert |s.picker.held.Keys| == |s.picker.held|;
    assert |Reservations(s.reqs).Keys| == |Reservations(s.reqs)|;
  }

  lemma FitCounts(c: Config, s: System)
    requires AllFit(c, s)
    ensures s.inUse == |TokenHolders(s.reqs)| <= c.maxInFlight
    ensures |s.picker.held| == |InsideForward(s.reqs)| <= s.inUse
    ensures Buffered(s.reqs) <= Room(c.maxInFlight, c.maxBody)
    ensures (forall i | i in s.reqs :: s.reqs[i].pc.Done?) ==>
              s.inUse == 0 && s.picker.held == map[] && Buffered(s.reqs) == 0
  {
    FitReservations(c, s);
    hide ReqFits, ReservationsFit, Reservations, InsideForward, TokenHolders, Buffered, Room;
    Names.SubsetIsNoLarger(InsideForward(s.reqs), TokenHolders(s.reqs));
    BuffersAreBounded(c.maxBody, s.reqs);
    RoomMonotone(s.inUse, c.maxInFlight, c.maxBody);
    RoomGrows(0, c.maxBody);
  }

  /**
   Conservation. In every run, the tokens in use are the requests that took one and have not given
   it back, never more than the cap; the Picker's reservations are as many as the requests now
   inside forwardHolding, so no more than the tokens; and the buffered body bytes stay within the
   cap times one byte more than a body may have. When every request has finished, however it
   finished, nothing is left taken.
   */
  lemma NothingLeaks(c: Config, limiter: R.LimiterState, steps: seq<Step>)
    requires AllPossible(c, Init(limiter), steps)
    ensures var s := AfterAll(c, Init(limiter), steps);
            && s.inUse == |TokenHolders(s.reqs)| <= c.maxInFlight
            && |s.picker.held| == |InsideForward(s.reqs)| <= s.inUse
            && Buffered(s.reqs) <= c.maxInFlight * (c.maxBody + 1)
            && ((forall i | i in s.reqs :: s.reqs[i].pc.Done?) ==>
                  s.inUse == 0 && s.picker.held == map[] && Buffered(s.reqs) == 0)
  {
    hide AllFit, AfterAll, AllPossible;
    RunFits(c, limiter, steps);
    FitCounts(c, AfterAll(c, Init(limiter), steps));
  }

  /** The requests now being forwarded to a node for a model. */
  ghost function Forwards(reqs: map<nat, Req>, node: string, model: string): set<nat> {
    set i | i in reqs && Holding(reqs[i].pc) && reqs[i].pc.target.node == node && reqs[i].input.model == model
  }

  /** What the one-to-one match and the contents say of one reservation and one request. */
  ghost predicate Matched(picker: PickerState, reqs: map<nat, Req>) {
    && Names.Injective(Reservations(reqs)) && Reservations(reqs).Values == picker.held.Keys
    && (forall i | i in reqs :: i in Reservations(reqs) <==> Holding(reqs[i].pc))
    && (forall i | i in Reservations(reqs) ::
          var r := picker.held[Reservations(reqs)[i]];
          r.node == reqs[i].pc.target.node && r.model == reqs[i].input.model)
  }

  lemma FitMatches(c: Config, s: System)
    requires AllFit(c, s)
    ensures Matched(s.picker, s.reqs)
  {
    hide ReqFits, PickerRuns.IdsBelow, TokensFit, Names.Injective, Holding;
    forall i | i in s.reqs
      ensures i in Reservations(s.reqs) <==> Holding(s.reqs[i].pc)
      ensures i in Reservations(s.reqs) ==> HeldFits(s.picker.held, s.reqs[i])
    {
      FramesTell(c.maxBody, s.reqs[i]);
      ReservationOf(s.reqs, i);
    }
  }

  lemma CountThrough(f: map<nat, nat>, held: map<nat, Reservation>, A: set<nat>, node: string, model: string)
    requires Names.Injective(f) && f.Values == held.Keys && A <= f.Keys
    requires forall i | i in f :: f[i] in held
    requires forall i | i in f :: i in A <==> held[f[i]].node == node && held[f[i]].model == model
    ensures |InFlight(held, node, model)| == |A|
  {
    forall v | v in InFlight(held, node, model) ensures v in set i | i in A :: f[i] {
      var i :| i in f && f[i] == v;
      assert i in A;
    }
    assert (set i | i in A :: f[i]) == InFlight(held, node, model);
    Names.ImageSize(A, f);
  }

  /** Reservations stand for forwards: as many to each node for each model. */
  lemma InFlightAreForwards(c: Config, s: System, node: string, model: string)
    requires AllFit(c, s)
    ensures |InFlight(s.picker.held, node, model)| == |Forwards(s.reqs, node, model)|
  {
    FitMatches(c, s);
    hide AllFit, Holding, InFlight;
    assert forall i | i in Reservations(s.reqs) :: i in s.reqs;
    hide Reservations;
    assert Forwards(s.reqs, node, model) <= Reservations(s.reqs).Keys;
    CountThrough(Reservations(s.reqs), s.picker.held, Forwards(s.reqs, node, model), node, model);
  }

  /**
   What the promise of a single delivery says of one request. A request that the transport replayed is
   sent once more for each replay; without one, nothing that answers 502 for an unreachable node was
   sent at all.
   */
  ghost predicate AtMostOnce(r: Req) {
    && |r.reached| == |r.sent| <= Replayed(r) + 1 && (forall k | 0 <= k < |r.sent| :: r.sent[k] == r.input.posted)
    && (forall k | 0 <= k < |r.reached| :: r.reached[k] in r.tried)
    && |r.tried| <= 2 && (|r.tried| == 2 ==> r.tried[0] != r.tried[1])
    && |r.answers| <= 1 && (r.pc.Done? ==> |r.answers| == 1 || r.cancelled)
    && (|r.answers| == 1 && r.answers[0].Unreachable? ==> r.tried != [] && r.answers[0].node == r.tried[|r.tried| - 1])
    && (r.aborted ==> |r.answers| == 1 && r.answers[0].Relayed?)
    && (Replayed(r) == 0 ==>
          && (|r.reached| == 1 ==> r.tried != [] && r.reached[0] == r.tried[|r.tried| - 1])
          && (|r.answers| == 1 && r.answers[0].Unreachable? ==> r.reached == []))
    && (TwoNodes(r) ==> Replayed(r) > 0 && |r.tried| == 2)
  }

  lemma TwoNodesTells(maxBody: nat, r: Req)
    requires ReqFits(maxBody, r)
    ensures TwoNodes(r) ==> Replayed(r) > 0 && |r.tried| == 2
  {
    hide ReqFits, TwoNodes;
    if TwoNodes(r) {
      TwoNodesNeedAReplay(maxBody, r);
    }
  }

  lemma DeliveryFits(maxBody: nat, r: Req)
    requires ReqFits(maxBody, r)
    ensures TriedFits(r) && ReachedFits(r) && AnswersFit(r)
  {
    hide FramesFit, BodyFits, TriedFits, ReachedFits, AnswersFit, RouteFits, RateFits, ReasonsFit, ReleaseFits;
  }

  lemma FitsAtMostOnce(maxBody: nat, r: Req)
    requires ReqFits(maxBody, r)
    ensures AtMostOnce(r)
  {
    hide ReqFits, TwoNodes;
    TwoNodesTells(maxBody, r);
    DeliveryFits(maxBody, r);
  }

  /**
   At most once. Of every request in every run: at most two nodes are tried, different ones; what is
   sent is exactly the bytes the client posted, to a node that was tried, once and once more for each
   replay by the transport; at most one answer is begun; a finished request has one unless its client
   had gone; and an answer that says a node is unreachable names the last one tried. Where nothing
   was replayed, a node that is connected to is the last tried and the only one, and none was when a
   node is reported unreachable. Two nodes are connected to only after a replay.
   */
  lemma DeliveredAtMostOnce(c: Config, limiter: R.LimiterState, steps: seq<Step>, i: nat)
    requires AllPossible(c, Init(limiter), steps) && i in AfterAll(c, Init(limiter), steps).reqs
    ensures AtMostOnce(AfterAll(c, Init(limiter), steps).reqs[i])
  {
    hide AtMostOnce, ReqFits, AfterAll, AllPossible, TokensFit, ReservationsFit, HeldFits;
    RunFits(c, limiter, steps);
    FitsAtMostOnce(c.maxBody, AfterAll(c, Init(limiter), steps).reqs[i]);
  }

  lemma FitsRetry(maxBody: nat, r: Req)
    requires ReqFits(maxBody, r) && r.pc.AtPick? && r.pc.failed.Some?
    ensures r.tried == [r.pc.failed.value] && |r.reached| == Replayed(r) && r.answers == []
    ensures r.buffer == r.input.posted && r.bodyPos == 0 && r.frames == [SemToken]
  {
    hide RouteFits, RateFits, ReasonsFit, ReleaseFits;
  }

  /**
   A retry begins only after the first node failed to be dialled: it alone was tried, it was reached
   only as often as the transport replayed, nothing was answered, the body stands at its first byte
   again, and the first reservation is already given back, so that every reservation held is some
   other request's.
   */
  lemma RetryHoldsNothing(c: Config, limiter: R.LimiterState, steps: seq<Step>, i: nat)
    requires AllPossible(c, Init(limiter), steps) && i in AfterAll(c, Init(limiter), steps).reqs
    requires var pc := AfterAll(c, Init(limiter), steps).reqs[i].pc; pc.AtPick? && pc.failed.Some?
    ensures var s := AfterAll(c, Init(limiter), steps);
            var r := s.reqs[i];
            && r.tried == [r.pc.failed.value] && |r.reached| == Replayed(r) && r.answers == []
            && r.buffer == r.input.posted && r.bodyPos == 0
            && s.picker.held.Keys == Reservations(s.reqs - {i}).Values
  {
    hide ReqFits, AfterAll, AllPossible, TokensFit, PickerRuns.IdsBelow, Names.Injective;
    RunFits(c, limiter, steps);
    var s := AfterAll(c, Init(limiter), steps);
    FitsRetry(c.maxBody, s.reqs[i]);
    assert Reservations(s.reqs - {i}) == Reservations(s.reqs);
  }

  /** What a request costs that the rate check refused, and who is checked at all. */
  ghost predicate RatedFirst(r: Req) {
    var byModel := Paths.RouteOf(r.input.verb, r.input.path).ByModel?;
    && (r.rated == Some(false) ==>
          r.frames == [] && r.buffer == [] && r.tried == [] && r.answers == [RateLimited])
    && (byModel && (r.frames != [] || r.buffer != [] || r.tried != []) ==> r.rated == Some(true))
    && (!byModel ==> r.rated == None)
  }

  lemma FitsRatedFirst(maxBody: nat, r: Req)
    requires ReqFits(maxBody, r)
    ensures RatedFirst(r)
  {
    hide ReachedFits, AnswersFit, RouteFits, ReasonsFit, Paths.RouteOf;
    if r.rated.Some? {
      var allowed: bool := r.rated.value;
      assert r.rated == Some(allowed);
    }
    assert r.pc.Arrived? || r.pc.AtRateCheck? ==> r.frames == [] && r.buffer == [] && r.tried == [];
  }

  /**
   A throttled request costs a look at its bucket and nothing else: in every run it holds no token,
   buffers nothing and is sent nowhere. A model-routed request that holds, buffers or was sent
   anything has passed the rate check; requests for the view node are never checked.
   */
  lemma ThrottledCostsNothing(c: Config, limiter: R.LimiterState, steps: seq<Step>, i: nat)
    requires AllPossible(c, Init(limiter), steps) && i in AfterAll(c, Init(limiter), steps).reqs
    ensures RatedFirst(AfterAll(c, Init(limiter), steps).reqs[i])
  {
    hide RatedFirst, ReqFits, AfterAll, AllPossible, TokensFit, ReservationsFit, HeldFits;
    RunFits(c, limiter, steps);
    FitsRatedFirst(c.maxBody, AfterAll(c, Init(limiter), steps).reqs[i]);
  }

  /**
   Who is rated, by method and path: in every run a POST to one of the three inference paths that was
   sent to any node has passed its key's rate check, and no other request is ever rated.
   */
  lemma InferenceIsRated(c: Config, limiter: R.LimiterState, steps: seq<Step>, i: nat)
    requires AllPossible(c, Init(limiter), steps) && i in AfterAll(c, Init(limiter), steps).reqs
    ensures var r := AfterAll(c, Init(limiter), steps).reqs[i];
            var p := r.input.path;
            if r.input.verb == "POST"
               && (p == "/v1/chat/completions" || p == "/v1/completions" || p == "/v1/embeddings")
            then r.tried != [] || r.frames != [] || r.buffer != [] ==> r.rated == Some(true)
            else r.rated == None
  {
    hide RatedFirst, AfterAll, AllPossible, Paths.RouteOf;
    ThrottledCostsNothing(c, limiter, steps, i);
    var r := AfterAll(c, Init(limiter), steps).reqs[i];
    RatedFirstSays(r);
    Paths.ByModelExactlyWhen(r.input.verb, r.input.path);
  }

  lemma RatedFirstSays(r: Req)
    requires RatedFirst(r)
    ensures if Paths.RouteOf(r.input.verb, r.input.path).ByModel?
            then r.tried != [] || r.frames != [] || r.buffer != [] ==> r.rated == Some(true)
            else r.rated == None
  {
    hide Paths.RouteOf;
  }

  lemma FitsReasons(maxBody: nat, r: Req)
    requires ReqFits(maxBody, r)
    ensures ReasonsFit(maxBody, r) && |r.answers| <= 1
    ensures |r.answers| == 1 && r.answers[0].Relayed? ==>
              r.reached != [] && r.reached[|r.reached| - 1] == r.answers[0].node
  {
    hide FramesFit, BodyFits, RouteFits, RateFits, ReasonsFit, ReleaseFits;
  }

  /**
   Answers are honest. In every run a request is answered 403 exactly for a forbidden path, 429
   exactly when the rate check refused it, 413 only for a body over the limit, and with a node's
   response or a 502 exactly when a node was tried; a response that is relayed comes from the node
   that was reached last. A body over the limit is never forwarded.
   */
  lemma AnswersHaveReasons(c: Config, limiter: R.LimiterState, steps: seq<Step>, i: nat)
    requires AllPossible(c, Init(limiter), steps) && i in AfterAll(c, Init(limiter), steps).reqs
    ensures var r := AfterAll(c, Init(limiter), steps).reqs[i];
            && ReasonsFit(c.maxBody, r) && |r.answers| <= 1
            && (|r.answers| == 1 && r.answers[0].Relayed? ==>
                  r.reached != [] && r.reached[|r.reached| - 1] == r.answers[0].node)
  {
    hide ReasonsFit, ReqFits, AfterAll, AllPossible, TokensFit, ReservationsFit, HeldFits;
    RunFits(c, limiter, steps);
    FitsReasons(c.maxBody, AfterAll(c, Init(limiter), steps).reqs[i]);
  }

  /** What a request is answered in one step, told by where it is and by what is shared. */
  ghost function AnswerTo(c: Config, s: System, r: Req, e: Event, env: Env): seq<Answer> {
    match r.pc
    case Arrived => if Paths.RouteOf(r.input.verb, r.input.path).Forbidden? then [Denied] else []
    case AtRateCheck => if R.Allows(s.limiter, r.input.key, env.now) then [] else [RateLimited]
    case AtSemaphore(_) => if s.inUse < c.maxInFlight then [] else [OverCapacity]
    case AtView =>
      if ViewChoice(c.picker.viewNodes, c.picker.isFresh, s.picker, env.snap).Some? then [] else [NoHealthyNode]
    case AtFallback =>
      if ViewChoice(c.picker.viewNodes, c.picker.isFresh, s.picker, env.snap).Some? then [] else [NoHealthyNode]
    case Reading(_) =>
      if e == BodyFails(true) then [BodyTimeout]
      else if e == BodyFails(false) then [BodyUnreadable]
      else if e.BodyEnd? && |r.input.posted| > c.maxBody then [BodyTooLarge] else []
    case AtPick(failed) =>
      if failed.Some? && PickChoice(c.picker.isFresh, s.picker, r.input.model, {failed.value}, env.snap) == NoNode
      then [Unreachable(failed.value)] else []
    case Unreached(mayRetry, node) => if mayRetry then [] else [Unreachable(node)]
    case Dialing(_, target) => if e.Breaks? then [UpstreamFailed(target.apiAddr)] else []
    case Connected(_, target) =>
      if e.Breaks? then [UpstreamFailed(target.apiAddr)] else if e.FirstByte? then [Relayed(target.node)] else []
    case _ => []
  }

  lemma ReadingEnds(c: Config, r: Req, e: Event)
    requires Enabled(c.maxBody, r, e) && BufferFits(c.maxBody, r)
    ensures e.BodyEnd? ==> (|r.buffer| > c.maxBody <==> |r.input.posted| > c.maxBody)
  {
  }

  /**
   Every answer is given at the moment when its cause holds, and whenever it holds: 429 when the
   limiter refuses, 503 when every token is in use or there is no view node, 413, 408 and 400 for what
   happened to the body, 502 when no other node serves the model after one could not be dialled, when
   the second or the view node could not be, or when a forward broke. Nothing else is answered.
   */
  lemma AnswersAreCaused(c: Config, s: System, i: nat, e: Event, env: Env)
    requires AllFit(c, s) && Possible(c, s, Move(i, e, env))
    ensures After(c, s, Move(i, e, env)).reqs[i].answers == s.reqs[i].answers + AnswerTo(c, s, s.reqs[i], e, env)
  {
    var r := s.reqs[i];
    assert ReqFits(c.maxBody, r);
    FitsBuffer(c.maxBody, r);
    hide ReqFits, TokensFit, ReservationsFit, HeldFits, BufferFits, PickerRuns.Run, R.Allows, PickChoice, ViewChoice;
    ReadingEnds(c, r, e);
    StepAnswers(c, s, r, e, env);
  }

  lemma FitsBuffer(maxBody: nat, r: Req)
    requires ReqFits(maxBody, r)
    ensures BufferFits(maxBody, r)
  {
    hide BufferFits;
  }

  lemma ForwardStepAnswers(c: Config, s: System, r: Req, e: Event, env: Env)
    requires Enabled(c.maxBody, r, e) && InTransport(e)
    ensures Forward(c.maxBody, r, e).answers == r.answers + AnswerTo(c, s, r, e, env)
  {
    hide R.Allows, PickChoice, ViewChoice, Paths.RouteOf;
    assert r.answers + [] == r.answers;
  }

  lemma StepAnswers(c: Config, s: System, r: Req, e: Event, env: Env)
    requires Enabled(c.maxBody, r, e) && Agrees(c, s, r, e, env)
    requires e.BodyEnd? ==> (|r.buffer| > c.maxBody <==> |r.input.posted| > c.maxBody)
    ensures Next(c.maxBody, r, e).answers == r.answers + AnswerTo(c, s, r, e, env)
  {
    hide R.Allows, PickChoice, ViewChoice, Paths.RouteOf, Forward;
    if InTransport(e) {
      ForwardStepAnswers(c, s, r, e, env);
    }
    assert r.answers + [] == r.answers;
  }

  // ---- every answer of a run had its cause

  lemma StepAnswersOf(c: Config, s: System, step: Step, i: nat)
    requires AllFit(c, s) && Possible(c, s, step) && i in s.reqs
    ensures var after := After(c, s, step);
            && AllFit(c, after) && i in after.reqs && |after.reqs[i].answers| <= 1
            && after.reqs[i].answers == s.reqs[i].answers
               + if step.Move? && step.i == i then AnswerTo(c, s, s.reqs[i], step.e, step.env) else []
  {
    hide AllFit, AnswerTo, Enabled, Next, PickerRuns.Run, PickChoice, ViewChoice, R.Allows, R.AfterAllow;
    EveryStepFits(c, s, step);
    if step.Move? && step.i == i {
      AnswersAreCaused(c, s, i, step.e, step.env);
    }
    AtMostOneAnswer(c, After(c, s, step), i);
    assert s.reqs[i].answers + [] == s.reqs[i].answers;
  }

  lemma AtMostOneAnswer(c: Config, s: System, i: nat)
    requires AllFit(c, s) && i in s.reqs
    ensures |s.reqs[i].answers| <= 1
  {
    assert ReqFits(c.maxBody, s.reqs[i]);
    hide ReqFits, TokensFit, ReservationsFit, HeldFits;
    DeliveryFits(c.maxBody, s.reqs[i]);
  }

  lemma {:induction false} AnswersPersist(c: Config, s: System, steps: seq<Step>, i: nat)
    requires AllFit(c, s) && AllPossible(c, s, steps) && i in s.reqs && s.reqs[i].answers != []
    ensures i in AfterAll(c, s, steps).reqs && AfterAll(c, s, steps).reqs[i].answers == s.reqs[i].answers
    decreases |steps|
  {
    if steps != [] {
      hide AllFit, After, Possible, AnswerTo;
      StepAnswersOf(c, s, steps[0], i);
      AnswersPersist(c, After(c, s, steps[0]), steps[1..], i);
    }
  }

  /** Step k of the run is the request's own and answers this, as the shared state then is. */
  ghost predicate AnsweredAt(c: Config, s: System, steps: seq<Step>, k: nat, i: nat, answers: seq<Answer>)
    requires k < |steps|
  {
    && steps[k].Move? && steps[k].i == i && AllPossible(c, s, steps[..k])
    && var moment := AfterAll(c, s, steps[..k]);
       i in moment.reqs && AnswerTo(c, moment, moment.reqs[i], steps[k].e, steps[k].env) == answers
  }

  lemma AnsweredLater(c: Config, s: System, steps: seq<Step>, k: nat, i: nat, answers: seq<Answer>)
    requires steps != [] && Possible(c, s, steps[0]) && k < |steps| - 1
    requires AnsweredAt(c, After(c, s, steps[0]), steps[1..], k, i, answers)
    ensures AnsweredAt(c, s, steps, k + 1, i, answers)
  {
    hide After, Possible, AnswerTo;
    assert steps[..k + 1][1..] == steps[1..][..k] && steps[..k + 1][0] == steps[0];
  }

  lemma FirstAnswer(c: Config, s: System, step: Step, i: nat)
    requires AllFit(c, s) && Possible(c, s, step) && (i in s.reqs ==> s.reqs[i].answers == [])
    ensures var after := After(c, s, step);
            && AllFit(c, after)
            && (i in after.reqs && after.reqs[i].answers != [] ==>
                  && step.Move? && step.i == i && i in s.reqs
                  && AnswerTo(c, s, s.reqs[i], step.e, step.env) == after.reqs[i].answers)
  {
    EveryStepFits(c, s, step);
    if i in s.reqs {
      StepAnswersOf(c, s, step, i);
    } else {
      NotYetThere(c, s, step, i);
    }
    hide AllFit, After, Possible, AnswerTo;
  }

  lemma {:induction false} AnswerHasAStep(c: Config, s: System, steps: seq<Step>, i: nat) returns (k: nat)
    requires AllFit(c, s) && AllPossible(c, s, steps) && (i in s.reqs ==> s.reqs[i].answers == [])
    requires i in AfterAll(c, s, steps).reqs && AfterAll(c, s, steps).reqs[i].answers != []
    ensures k < |steps| && AnsweredAt(c, s, steps, k, i, AfterAll(c, s, steps).reqs[i].answers)
    decreases |steps|
  {
    hide AllFit, After, Possible, AnswerTo;
    assert steps != [];
    var after := After(c, s, steps[0]);
    FirstAnswer(c, s, steps[0], i);
    if i in after.reqs && after.reqs[i].answers != [] {
      AnswersPersist(c, after, steps[1..], i);
      k := 0;
      assert steps[..0] == [];
    } else {
      k := AnswerHasAStep(c, after, steps[1..], i);
      AnsweredLater(c, s, steps, k, i, AfterAll(c, s, steps).reqs[i].answers);
      k := k + 1;
    }
  }

  /** A request begins without an answer. */
  lemma NotYetThere(c: Config, s: System, step: Step, i: nat)
    requires Possible(c, s, step) && i !in s.reqs
    ensures i in After(c, s, step).reqs ==> step.Arrive? && After(c, s, step).reqs[i].answers == []
  {
    hide Enabled, Next, PickerRuns.Run, PickChoice, ViewChoice, R.Allows, R.AfterAllow;
  }

  /** What the answers about shared things say of the moment they were given. */
  lemma AnswerTells(c: Config, s: System, r: Req, e: Event, env: Env)
    ensures AnswerTo(c, s, r, e, env) == [OverCapacity] ==> s.inUse >= c.maxInFlight
    ensures AnswerTo(c, s, r, e, env) == [RateLimited] ==> !R.Allows(s.limiter, r.input.key, env.now)
    ensures AnswerTo(c, s, r, e, env) == [NoHealthyNode] ==>
              ViewChoice(c.picker.viewNodes, c.picker.isFresh, s.picker, env.snap) == None
    ensures forall n :: AnswerTo(c, s, r, e, env) == [Unreachable(n)] && r.pc.AtPick? ==>
              PickChoice(c.picker.isFresh, s.picker, r.input.model, {n}, env.snap) == NoNode
  {
    hide R.Allows, PickChoice, ViewChoice, Paths.RouteOf;
  }

  /** What an answer that is about something shared says of the moment it was given. */
  ghost predicate CauseHeld(c: Config, s: System, i: nat, a: Answer, env: Env) {
    && i in s.reqs
    && (a.OverCapacity? ==> s.inUse == c.maxInFlight)
    && (a.RateLimited? ==> !R.Allows(s.limiter, s.reqs[i].input.key, env.now))
    && (a.NoHealthyNode? ==> ViewChoice(c.picker.viewNodes, c.picker.isFresh, s.picker, env.snap) == None)
    && (a.Unreachable? && s.reqs[i].pc.AtPick? ==>
          PickChoice(c.picker.isFresh, s.picker, s.reqs[i].input.model, {a.node}, env.snap) == NoNode)
  }

  /**
   Every answer in every run was given in one step of its request, at a moment when its cause held:
   a 503 for capacity when every token was in use, a 429 when the limiter refused that key at that
   time, a 503 for want of a node when View found none, a 502 after one failed node when Pick found
   no other.
   */
  lemma EveryAnswerHadItsCause(c: Config, limiter: R.LimiterState, steps: seq<Step>, i: nat, a: Answer)
    requires AllPossible(c, Init(limiter), steps) && i in AfterAll(c, Init(limiter), steps).reqs
    requires AfterAll(c, Init(limiter), steps).reqs[i].answers == [a]
    ensures exists k :: 0 <= k < |steps| && AnsweredAt(c, Init(limiter), steps, k, i, [a])
                        && CauseHeld(c, AfterAll(c, Init(limiter), steps[..k]), i, a, steps[k].env)
  {
    hide AllFit, AllPossible, AfterAll, AnswerTo, R.Allows, ViewChoice, PickChoice;
    StartFits(c, limiter);
    var k := AnswerHasAStep(c, Init(limiter), steps, i);
    var s := AfterAll(c, Init(limiter), steps[..k]);
    AnswerTells(c, s, s.reqs[i], steps[k].e, steps[k].env);
    RunFits(c, limiter, steps[..k]);
    FitTokens(c, s);
    assert CauseHeld(c, s, i, a, steps[k].env);
  }

  lemma FitTokens(c: Config, s: System)
    requires AllFit(c, s)
    ensures s.inUse <= c.maxInFlight
  {
    hide ReqFits, ReservationsFit, HeldFits;
  }

  /** The semaphore if `defer release()` read the variable when it ran and not when it was deferred. */
  ghost function InUseIfLate(s: System, r: Req, e: Event): int {
    if e.Leaves? && r.frames != [] && r.release == Some(SemToken) then s.inUse - 1
    else if e.Leaves? then s.inUse
    else InUseAfter(s, r, e)
  }

  /** The variable `release` of a model-routed request that was sent to a node is not the token's any more. */
  ghost predicate ReleaseOverwritten(r: Req) {
    && (Holding(r.pc) && r.pc.attempt.First? ==>
          |r.frames| == 2 && r.frames[0] == SemToken && r.frames[1].Reserved? && r.release == Some(r.frames[1]))
    && (r.frames != [] && r.tried != [] && Paths.RouteOf(r.input.verb, r.input.path).ByModel? ==>
          r.frames[0] == SemToken && r.release != Some(SemToken))
  }

  lemma FitsOverwritten(maxBody: nat, r: Req)
    requires ReqFits(maxBody, r)
    ensures ReleaseOverwritten(r)
  {
    hide BodyFits, ReachedFits, AnswersFit, RouteFits, RateFits, ReasonsFit, Paths.RouteOf;
  }

  /**
   The token's release is the one that was deferred, not the one the variable holds when the handler
   returns. In every run the variable is overwritten by Pick before a node is tried; so of a
   model-routed request that was sent to a node the token comes back because the deferred call was
   bound early, and would be lost if it were bound late.
   */
  lemma LateBindingWouldLeak(c: Config, limiter: R.LimiterState, steps: seq<Step>, i: nat)
    requires AllPossible(c, Init(limiter), steps) && i in AfterAll(c, Init(limiter), steps).reqs
    ensures var s := AfterAll(c, Init(limiter), steps);
            var r := s.reqs[i];
            && ReleaseOverwritten(r)
            && (r.pc.Leaving? && r.frames != [] && r.tried != []
                && Paths.RouteOf(r.input.verb, r.input.path).ByModel? ==>
                  InUseAfter(s, r, Leaves) == s.inUse - 1 && InUseIfLate(s, r, Leaves) == s.inUse)
  {
    hide ReleaseOverwritten, ReqFits, AfterAll, AllPossible, TokensFit, ReservationsFit, HeldFits, Paths.RouteOf;
    RunFits(c, limiter, steps);
    var r := AfterAll(c, Init(limiter), steps).reqs[i];
    FitsOverwritten(c.maxBody, r);
    if r.pc.Leaving? && r.frames != [] && r.tried != [] {
      LeavingFrames(c.maxBody, r);
      OverwrittenTells(r);
    }
  }

  lemma LeavingFrames(maxBody: nat, r: Req)
    requires ReqFits(maxBody, r) && r.pc.Leaving? && r.frames != []
    ensures r.frames == [SemToken]
  {
    hide BodyFits, TriedFits, ReachedFits, AnswersFit, RouteFits, RateFits, ReasonsFit, ReleaseFits;
  }

  lemma OverwrittenTells(r: Req)
    requires ReleaseOverwritten(r) && r.frames != [] && r.tried != []
    ensures Paths.RouteOf(r.input.verb, r.input.path).ByModel? ==> r.release != Some(SemToken)
  {
    hide Paths.RouteOf;
  }

  /** A path that resolves to chassis power control, or a write to the alias table. */
  ghost predicate MustNotLeave(input: Input) {
    && Paths.Rooted(input.path)
    && (|| Paths.Meaning(input.path) == ["v1", "power"] || Paths.Meaning(input.path) == ["v1", "mesh", "power"]
        || (input.verb != "GET" && input.verb != "HEAD" && ["v1", "aliases"] <= Paths.Meaning(input.path)))
  }

  lemma UntriedIsUnreached(r: Req)
    requires ReachedFits(r)
    ensures r.tried == [] ==> r.reached == []
  {
    if r.reached != [] {
      assert r.reached[0] in r.tried;
    }
  }

  lemma FitsDenied(maxBody: nat, r: Req)
    requires ReqFits(maxBody, r) && MustNotLeave(r.input)
    ensures r.tried == [] && r.reached == [] && (r.pc.Done? ==> r.answers == [Denied])
  {
    Paths.ForbiddenByMeaning(r.input.verb, r.input.path);
    hide FramesFit, BodyFits, RateFits, ReasonsFit, ReleaseFits, Paths.RouteOf;
    UntriedIsUnreached(r);
  }

  /** No such request is ever sent to any node, however its path is spelled: it is answered 403. */
  lemma ForbiddenNeverLeaves(c: Config, limiter: R.LimiterState, steps: seq<Step>, i: nat)
    requires AllPossible(c, Init(limiter), steps) && i in AfterAll(c, Init(limiter), steps).reqs
    requires MustNotLeave(AfterAll(c, Init(limiter), steps).reqs[i].input)
    ensures var r := AfterAll(c, Init(limiter), steps).reqs[i];
            r.tried == [] && r.reached == [] && (r.pc.Done? ==> r.answers == [Denied])
  {
    hide ReqFits, AfterAll, AllPossible, TokensFit, ReservationsFit, HeldFits, MustNotLeave;
    RunFits(c, limiter, steps);
    FitsDenied(c.maxBody, AfterAll(c, Init(limiter), steps).reqs[i]);
  }
}
