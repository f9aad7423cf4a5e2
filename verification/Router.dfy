/**
 internal/proxy/router.go and internal/proxy/forward.go as they run: one request's handler, step by
 step, over the Picker, the limiter and the semaphore it shares with every other request. Between its
 steps any number of other requests take any number of steps of theirs on the same three. Everything
 that happens is logged as steps of the system in Gateway.dfy, so what is proved there of every run is
 proved of this code.
 */
module Router {
  import opened Options
  import opened PickerModel
  import opened Protocol
  import opened Gateway
  import Names
  import Paths
  import PickerRuns
  import Traffic
  import P = Picker
  import R = RateLimit

  /** How the client sends its body: all of it, or so many bytes and then an error. */
  datatype Upload = Whole | Broken(after: nat, timedOut: bool)

  /** What a node, the network and the client do to one forward. */
  datatype Outcome =
    | DialError(taken: nat)
    | Hangup(connected: bool)
    | Failure(connected: bool)
    | Response(aborts: bool)
    | Replay(next: Outcome)

  /** What a forward comes to when the transport can replay it so often; a connection that dies under
      a request that cannot be replayed is a failure. */
  function Last(outcome: Outcome, replays: nat): Outcome {
    if !outcome.Replay? then outcome
    else if replays == 0 then Failure(true)
    else Last(outcome.next, replays - 1)
  }

  /** What another request does: it arrives, or something happens to it, if it can where it is. */
  datatype Act = Joins(j: nat, input: Input) | Acts(j: nat, e: Event, env: Env)

  /** Everything one request reads from outside the gateway, and what the others do at each point: no
      two points share a list. */
  datatype World = World(checked: real, upload: Upload, pick: Snapshot, first: Outcome,
                         again: Snapshot, second: Outcome, look: Snapshot, others: (nat, nat) -> seq<Act>)

  datatype BodyError = NoError | TooLarge | TimedOut | Unreadable

  ghost function Limits(l: R.Limiter?): R.LimiterState
    reads l
  {
    if l == null then R.LimiterState(0.0, 0.0, map[]) else l.State()
  }

  /** The shared half of the Router: its semaphore, Picker and limiter; and who else is inside. */
  class Gate {
    const picker: P.Picker
    const limiter: R.Limiter?
    const maxInFlight: nat
    const maxBody: nat
    var inUse: nat
    var others: map<nat, Req>

    constructor (picker: P.Picker, limiter: R.Limiter?, maxInFlight: nat, maxBody: nat)
      ensures inUse == 0 && others == map[]
      ensures this.picker == picker && this.limiter == limiter
      ensures this.maxInFlight == maxInFlight && this.maxBody == maxBody
    {
      this.picker, this.limiter, this.maxInFlight, this.maxBody := picker, limiter, maxInFlight, maxBody;
      inUse, others := 0, map[];
    }

    method TryAcquire() returns (ok: bool)
      modifies this`inUse
      ensures ok <==> old(inUse) < maxInFlight
      ensures inUse == old(inUse) + if ok then 1 else 0
    {
      ok := inUse < maxInFlight;
      if ok {
        inUse := inUse + 1;
      }
    }

    method GiveBack()
      requires inUse > 0
      modifies this`inUse
      ensures inUse == old(inUse) - 1
    {
      inUse := inUse - 1;
    }
  }

  lemma {:induction false} OneMoreStep(c: Config, s: System, steps: seq<Step>, step: Step)
    requires AllPossible(c, s, steps) && Possible(c, AfterAll(c, s, steps), step)
    ensures AllPossible(c, s, steps + [step])
    ensures AfterAll(c, s, steps + [step]) == After(c, AfterAll(c, s, steps), step)
    decreases |steps|
  {
    hide Possible, After;
    if steps == [] {
      assert ([] + [step])[1..] == [];
      assert AfterAll(c, After(c, s, step), []) == After(c, s, step);
    } else {
      OneMoreStep(c, After(c, s, steps[0]), steps[1..], step);
      assert (steps + [step])[1..] == steps[1..] + [step];
    }
  }

  /** Events that touch nothing shared. */
  predicate Private(e: Event) {
    !e.Rated? && !e.Acquired? && !e.Viewed? && !e.Picked? && !e.ToReturns? && !e.Leaves?
  }

  lemma PrivateStep(c: Config, s: System, i: nat, e: Event, env: Env)
    requires Private(e) && i in s.reqs && Enabled(c.maxBody, s.reqs[i], e)
    ensures Possible(c, s, Move(i, e, env))
    ensures After(c, s, Move(i, e, env)) == s.(reqs := s.reqs[i := Next(c.maxBody, s.reqs[i], e)])
  {
    hide Enabled, Next;
  }

  // ---- what others do, as steps of the system

  /** The event that happens, with what the shared state then says in it. */
  ghost function Actual(c: Config, s: System, j: nat, e: Event, env: Env): Event
    requires j in s.reqs
  {
    var r := s.reqs[j];
    match e
    case Rated(_) => Rated(R.Allows(s.limiter, r.input.key, env.now))
    case Acquired(_) => Acquired(s.inUse < c.maxInFlight)
    case Viewed(_) => Viewed(ViewChoice(c.picker.viewNodes, c.picker.isFresh, s.picker, env.snap))
    case Picked(_) => Picked(PickChoice(c.picker.isFresh, s.picker, r.input.model, Excluded(r), env.snap))
    case _ => e
  }

  lemma ActualIsPossible(c: Config, s: System, j: nat, e: Event, env: Env)
    requires j in s.reqs && Enabled(c.maxBody, s.reqs[j], e)
    ensures Possible(c, s, Move(j, Actual(c, s, j, e, env), env))
  {
    hide PickChoice, ViewChoice, R.Allows;
  }

  /** An act of another request than i takes place if it can. */
  ghost predicate CanAct(c: Config, i: nat, s: System, act: Act) {
    match act
    case Joins(j, input) => j != i && j !in s.reqs
    case Acts(j, e, env) =>
      j != i && j in s.reqs && Enabled(c.maxBody, s.reqs[j], e) && (e.Picked? ==> DistinctNames(env.snap.members))
  }

  ghost function AfterAct(c: Config, i: nat, s: System, act: Act): System {
    if !CanAct(c, i, s, act) then s
    else
      match act
      case Joins(j, input) => After(c, s, Arrive(j, input))
      case Acts(j, e, env) =>
        ActualIsPossible(c, s, j, e, env);
        After(c, s, Move(j, Actual(c, s, j, e, env), env))
  }

  ghost function AfterActs(c: Config, i: nat, s: System, acts: seq<Act>): System
    decreases |acts|
  {
    if acts == [] then s else AfterActs(c, i, AfterAct(c, i, s, acts[0]), acts[1..])
  }

  function ActsOf(steps: seq<Step>): seq<Act> {
    if steps == [] then []
    else
      [match steps[0]
       case Arrive(j, input) => Joins(j, input)
       case Move(j, e, env) => Acts(j, e, env)]
      + ActsOf(steps[1..])
  }

  /** A step of another request; where it picks, the member table lists each name once. */
  ghost predicate Others(i: nat, step: Step) {
    step.i != i && (step.Move? && step.e.Picked? ==> DistinctNames(step.env.snap.members))
  }

  /** Whatever run other requests go through in between, some list of acts is that run. */
  lemma {:induction false} EveryRunOfOthersIsActs(c: Config, i: nat, s: System, steps: seq<Step>)
    requires AllPossible(c, s, steps) && forall step | step in steps :: Others(i, step)
    ensures AfterActs(c, i, s, ActsOf(steps)) == AfterAll(c, s, steps)
    decreases |steps|
  {
    if steps != [] {
      var acts := ActsOf(steps);
      assert acts[1..] == ActsOf(steps[1..]);
      assert steps[0] in steps;
      OneActIsThat(c, i, s, steps[0], acts[0]);
      EveryRunOfOthersIsActs(c, i, After(c, s, steps[0]), steps[1..]);
    }
  }

  lemma OneActIsThat(c: Config, i: nat, s: System, step: Step, act: Act)
    requires Possible(c, s, step) && Others(i, step)
    requires act == match step case Arrive(j, input) => Joins(j, input) case Move(j, e, env) => Acts(j, e, env)
    ensures AfterAct(c, i, s, act) == After(c, s, step)
  {
    if step.Move? {
      assert Actual(c, s, step.i, step.e, step.env) == step.e by {
        hide PickChoice, ViewChoice, R.Allows, Enabled;
      }
    }
    hide PickChoice, ViewChoice, R.Allows, Enabled, After, Actual;
  }

  class Handler {
    const gate: Gate
    const input: Input
    const i: nat
    var body: seq<char>
    var bodyPos: nat
    var replays: nat
    var answers: seq<Answer>
    ghost const start: System
    ghost var steps: seq<Step>
    ghost var now: System

    constructor (gate: Gate, input: Input, i: nat, ghost start: System)
      requires i !in start.reqs && start.inUse == gate.inUse && start.reqs == gate.others
      requires start.picker == gate.picker.State() && start.limiter == Limits(gate.limiter)
      requires gate.limiter != null ==> R.InRange(gate.limiter.State())
      requires AllFit(SettingsOf(gate), start)
      ensures this.gate == gate && this.input == input && this.i == i && this.start == start
      ensures Valid() && Me() == NewReq(input) && steps == [Arrive(i, input)]
    {
      hide AllFit, R.InRange, AllPossible, AfterAll, Possible, After;
      this.gate, this.input, this.i, this.start := gate, input, i, start;
      body, bodyPos, replays, answers := [], 0, input.replays, [];
      steps := [Arrive(i, input)];
      now := start.(reqs := start.reqs[i := NewReq(input)]);
      new;
      Arrives(Settings(), start, i, input);
    }

    ghost function Settings(): Config {
      SettingsOf(gate)
    }

    ghost function Me(): Req
      requires i in now.reqs
      reads this
    {
      now.reqs[i]
    }

    /** What was logged is a run, and it led to `now`. */
    ghost predicate Logged()
      reads this
    {
      && AllPossible(Settings(), start, steps) && now == AfterAll(Settings(), start, steps)
      && AllFit(Settings(), start) && i !in start.reqs && i in now.reqs && Me().input == input
    }

    /** What the requests share is as the log says. */
    ghost predicate Shared()
      reads this, gate, gate.picker, gate.limiter
    {
      && now.inUse == gate.inUse && now.picker == gate.picker.State() && now.limiter == Limits(gate.limiter)
      && gate.others == now.reqs - {i}
      && (gate.limiter != null ==> R.InRange(gate.limiter.State()))
    }

    /** And so is the handler. */
    ghost predicate Valid()
      reads this, gate, gate.picker, gate.limiter
    {
      && Logged() && Shared()
      && Me().buffer == body && Me().bodyPos == bodyPos && Me().replays == replays && Me().answers == answers
    }

    ghost method LogStep(step: Step)
      requires Logged() && Possible(Settings(), now, step)
      modifies this`steps, this`now
      ensures Logged() && now == After(Settings(), old(now), step)
      ensures step.Move? && step.i == i ==>
                Me() == Next(gate.maxBody, old(Me()), step.e) && now.reqs - {i} == old(now.reqs) - {i}
      ensures !(step.Move? && step.i == i) ==> Me() == old(Me())
    {
      hide AllPossible, AfterAll, AllFit, Enabled;
      OneMoreStep(Settings(), start, steps, step);
      if step.Move? && step.i == i {
        InputStays(gate.maxBody, Me(), step.e);
        OnlyOneMoves(Settings(), now, step);
      }
      steps := steps + [step];
      now := After(Settings(), now, step);
    }

    ghost method Log(e: Event, env: Env)
      requires Logged() && Possible(Settings(), now, Move(i, e, env))
      modifies this`steps, this`now
      ensures Logged() && now == After(Settings(), old(now), Move(i, e, env))
      ensures Me() == Next(gate.maxBody, old(Me()), e) && now.reqs - {i} == old(now.reqs) - {i}
    {
      hide AllPossible, AfterAll, AllFit, Enabled, Next, After;
      LogStep(Move(i, e, env));
    }

    ghost method LogPrivate(e: Event)
      requires Logged() && Private(e) && Enabled(gate.maxBody, Me(), e)
      modifies this`steps, this`now
      ensures Logged() && now.reqs - {i} == old(now.reqs) - {i}
      ensures now == old(now).(reqs := old(now).reqs[i := Next(gate.maxBody, old(Me()), e)])
    {
      hide AllPossible, AfterAll, AllFit, Enabled, Next;
      var env := Env(Snapshot([], map[], 0), 0.0);
      PrivateStep(Settings(), now, i, e, env);
      Log(e, env);
    }

    // ---- what the other requests do in between

    /** Another request has moved, by what the shared state then said. */
    ghost predicate Moved(before: System, j: nat, e: Event, env: Env)
      reads this
    {
      && j in before.reqs && Possible(Settings(), before, Move(j, Actual(Settings(), before, j, e, env), env))
      && now == After(Settings(), before, Move(j, Actual(Settings(), before, j, e, env), env))
    }

    /** Each act takes place if it can, and this request does not change. */
    method Yield(acts: seq<Act>)
      requires Valid()
      modifies this`steps, this`now, gate`inUse, gate`others, gate.picker, gate.limiter
      ensures Valid() && Me() == old(Me()) && now == AfterActs(Settings(), i, old(now), acts)
    {
      hide AllPossible, AfterAll, AllFit, R.InRange, AfterAct;
      for k := 0 to |acts|
        invariant Valid() && Me() == old(Me())
        invariant AfterActs(Settings(), i, now, acts[k..]) == AfterActs(Settings(), i, old(now), acts)
      {
        assert acts[k..][0] == acts[k] && acts[k..][1..] == acts[k + 1..];
        match acts[k] {
          case Joins(j, other) => LetJoin(j, other);
          case Acts(j, e, env) => LetAct(j, e, env);
        }
      }
    }

    method LetJoin(j: nat, other: Input)
      requires Valid()
      modifies this`steps, this`now, gate`others
      ensures Valid() && Me() == old(Me()) && now == AfterAct(Settings(), i, old(now), Joins(j, other))
    {
      hide AllPossible, AfterAll, AllFit, R.InRange;
      if j != i && j !in gate.others {
        ghost var before := now;
        gate.others := gate.others[j := NewReq(other)];
        LogStep(Arrive(j, other));
        assert now.reqs - {i} == (before.reqs - {i})[j := NewReq(other)];
      }
    }

    method LetAct(j: nat, e: Event, env: Env)
      requires Valid()
      modifies this`steps, this`now, gate`inUse, gate`others, gate.picker, gate.limiter
      ensures Valid() && Me() == old(Me()) && now == AfterAct(Settings(), i, old(now), Acts(j, e, env))
    {
      hide AllPossible, AfterAll, AllFit, R.InRange, Next, Possible, After, Actual, DistinctNames, Enabled;
      if j != i && j in gate.others && Enabled(gate.maxBody, gate.others[j], e)
         && (e.Picked? ==> DistinctNames(env.snap.members)) {
        LetHappen(j, e, env);
      }
    }

    /** What the event does to the shared state, by the same calls that this request makes. */
    method LetHappen(j: nat, e: Event, env: Env)
      requires Valid() && j != i && j in gate.others && Enabled(gate.maxBody, gate.others[j], e)
      requires e.Picked? ==> DistinctNames(env.snap.members)
      modifies this`steps, this`now, gate`inUse, gate`others, gate.picker, gate.limiter
      ensures Valid() && Me() == old(Me()) && Moved(old(now), j, e, env)
    {
      hide AllPossible, AfterAll, AllFit, R.InRange, Next, Moved, DistinctNames;
      match e {
        case Rated(_) => LetCheck(j, e, env);
        case Acquired(_) => LetAcquire(j, e, env);
        case Viewed(_) => LetView(j, e, env);
        case Picked(_) => LetPick(j, e, env);
        case ToReturns => LetReturn(j, e, env);
        case Leaves => LetLeave(j, e, env);
        case _ => LetMove(j, e, env);
      }
    }

    method LetMove(j: nat, e: Event, env: Env)
      requires Valid() && j != i && j in gate.others && Private(e) && Enabled(gate.maxBody, gate.others[j], e)
      modifies this`steps, this`now, gate`others
      ensures Valid() && Me() == old(Me()) && Moved(old(now), j, e, env)
    {
      hide AllPossible, AfterAll, AllFit, R.InRange, Next, Enabled;
      PrivateStep(Settings(), now, j, e, env);
      hide Possible, After;
      Settle(j, e, env);
    }

    /** Another request moves on, once what it shares has changed accordingly. */
    method Settle(j: nat, e: Event, env: Env)
      requires Logged() && j != i && j in now.reqs && Possible(Settings(), now, Move(j, e, env))
      requires gate.others == now.reqs - {i} && Enabled(gate.maxBody, gate.others[j], e)
      modifies this`steps, this`now, gate`others
      ensures Logged() && Me() == old(Me()) && now == After(Settings(), old(now), Move(j, e, env))
      ensures gate.others == now.reqs - {i}
    {
      hide AllPossible, AfterAll, AllFit, Next, Enabled;
      ghost var before := now;
      gate.others := gate.others[j := Next(gate.maxBody, gate.others[j], e)];
      LogStep(Move(j, e, env));
      assert now.reqs - {i} == (before.reqs - {i})[j := now.reqs[j]];
    }

    method LetCheck(j: nat, e: Event, env: Env)
      requires Valid() && e.Rated? && j != i && j in gate.others && gate.others[j].pc.AtRateCheck?
      modifies this`steps, this`now, gate`others, gate.limiter
      ensures Valid() && Me() == old(Me()) && Moved(old(now), j, e, env)
    {
      hide AllPossible, AfterAll, AllFit, R.InRange, Next;
      ghost var allows := R.Allows(Limits(gate.limiter), gate.others[j].input.key, env.now);
      RatedStep(Settings(), now, j, env, allows);
      var allowed, retryAfter := R.Allow(gate.limiter, gate.others[j].input.key, env.now);
      hide R.Allows, R.AfterAllow, Possible, After;
      Settle(j, Rated(allowed), env);
    }

    method LetAcquire(j: nat, e: Event, env: Env)
      requires Valid() && e.Acquired? && j != i && j in gate.others && gate.others[j].pc.AtSemaphore?
      modifies this`steps, this`now, gate`inUse, gate`others
      ensures Valid() && Me() == old(Me()) && Moved(old(now), j, e, env)
    {
      hide AllPossible, AfterAll, AllFit, R.InRange, Next;
      TokenStep(Settings(), now, j, Acquired(gate.inUse < gate.maxInFlight), env);
      var ok := gate.TryAcquire();
      hide Possible, After;
      Settle(j, Acquired(ok), env);
    }

    method LetView(j: nat, e: Event, env: Env)
      requires Valid() && e.Viewed? && j != i && j in gate.others && (gate.others[j].pc.AtView?
          || gate.others[j].pc.AtFallback?)
      modifies this`steps, this`now, gate`others, gate.picker
      ensures Valid() && Me() == old(Me()) && Moved(old(now), j, e, env)
    {
      hide AllPossible, AfterAll, AllFit, R.InRange, Next;
      ghost var choice := ViewChoice(gate.picker.viewNodes, gate.picker.isFresh, gate.picker.State(), env.snap);
      ViewedStep(Settings(), now, j, env, choice);
      var view, ok := gate.picker.View(env.snap);
      hide ViewChoice, AfterView, Possible, After;
      Settle(j, Viewed(if ok then Some(view) else None), env);
    }

    method LetPick(j: nat, e: Event, env: Env)
      requires Valid() && e.Picked? && j != i && j in gate.others && gate.others[j].pc.AtPick?
      requires DistinctNames(env.snap.members)
      modifies this`steps, this`now, gate`others, gate.picker
      ensures Valid() && Me() == old(Me()) && Moved(old(now), j, e, env)
    {
      hide AllPossible, AfterAll, AllFit, R.InRange, Next, Loads, Leaders, PickChoice, AfterPick, DistinctNames,
            Enabled;
      var r := gate.others[j];
      ghost var choice := PickChoice(gate.picker.isFresh, gate.picker.State(), r.input.model, Excluded(r), env.snap);
      PickedStep(Settings(), now, j, env, choice);
      var target, release, ok := gate.picker.Pick(r.input.model, Excluded(r), env.snap);
      hide PickChoice, AfterPick, Possible, After;
      Settle(j, Picked(if ok then Chose(target, release.id) else NoNode), env);
    }

    method LetReturn(j: nat, e: Event, env: Env)
      requires Valid() && e.ToReturns? && j != i && j in gate.others && gate.others[j].pc.Returning?
      modifies this`steps, this`now, gate`others, gate.picker
      ensures Valid() && Me() == old(Me()) && Moved(old(now), j, e, env)
    {
      hide AllPossible, AfterAll, AllFit, R.InRange, Next;
      FitFrames(Settings(), start, steps, j);
      var r := gate.others[j];
      if |r.frames| == 2 {
        assert r.frames == [SemToken, Reserved(r.frames[1].id)];
        ReleaseStep(Settings(), now, j, r.frames[1].id, env);
        var release := new P.Release(gate.picker, r.frames[1].id, true);
        release.Call();
      } else {
        UnheldReturn(Settings(), now, j, env);
      }
      hide Possible, After;
      Settle(j, ToReturns, env);
    }

    method LetLeave(j: nat, e: Event, env: Env)
      requires Valid() && e.Leaves? && j != i && j in gate.others && gate.others[j].pc.Leaving?
      modifies this`steps, this`now, gate`inUse, gate`others
      ensures Valid() && Me() == old(Me()) && Moved(old(now), j, e, env)
    {
      hide AllPossible, AfterAll, AllFit, R.InRange, Next;
      FitFrames(Settings(), start, steps, j);
      var r := gate.others[j];
      TokenStep(Settings(), now, j, Leaves, env);
      if r.frames != [] {
        gate.GiveBack();
      }
      hide Possible, After;
      Settle(j, Leaves, env);
    }

    // ---- this request

    /** The first so many bytes of the body arrive. */
    method Receive(read: nat)
      requires Valid() && Me().pc.Reading? && body == [] && read <= |input.posted| && read <= gate.maxBody + 1
      modifies this
      ensures Valid() && Me() == old(Me()).(buffer := body) && body == input.posted[..read]
      ensures bodyPos == old(bodyPos) && answers == old(answers)
    {
      hide AllPossible, AfterAll, AllFit, R.InRange, Possible, After;
      body := input.posted[..read];
      if read > 0 {
        LogPrivate(Chunk(read));
      }
    }

    /** io.ReadAll over a LimitReader one byte longer than the limit. */
    method ReadBody(upload: Upload, others: seq<Act>) returns (err: BodyError)
      requires Valid() && Me().pc.Reading? && body == [] && bodyPos == 0
      modifies this, gate, gate.picker, gate.limiter
      ensures Valid() && Me() == old(Me()).(buffer := body) && bodyPos == 0 && answers == old(answers)
      ensures err == (if upload.Broken? && upload.after < |input.posted| && upload.after <= gate.maxBody
                      then if upload.timedOut then TimedOut else Unreadable
                      else if |input.posted| > gate.maxBody then TooLarge else NoError)
      ensures err == NoError ==> body == input.posted
      ensures err == TooLarge ==> |body| == gate.maxBody + 1
    {
      hide AllPossible, AfterAll, AllFit, R.InRange, Possible, After, Next, Enabled, AfterActs;
      var most := if |input.posted| <= gate.maxBody + 1 then |input.posted| else gate.maxBody + 1;
      var read := if upload.Broken? && upload.after < most then upload.after else most;
      Receive(read);
      Yield(others);
      if upload.Broken? && upload.after < most {
        return if upload.timedOut then TimedOut else Unreadable;
      }
      return if |body| > gate.maxBody then TooLarge else NoError;
    }

    /** A body read whole is forwarded to the view node found before, or goes to be picked for. */
    ghost method LogWhole()
      requires Logged() && Me().pc.Reading? && Me().buffer == input.posted && |input.posted| <= gate.maxBody
          && Me().bodyPos == 0
      modifies this`steps, this`now
      ensures Logged() && now.reqs - {i} == old(now.reqs) - {i}
      ensures now == old(now).(reqs := old(now).reqs[i := Me()])
      ensures Me() == if old(Me()).pc.view.Some? then StartForward(old(Me()), Sticky, old(Me()).pc.view.value)
                      else old(Me()).(pc := AtPick(None))
    {
      hide AllPossible, AfterAll, AllFit, R.InRange, Possible, After;
      LogPrivate(BodyEnd);
    }

    /** The errors of ReadBody, answered. */
    method Reject(err: BodyError)
      requires Valid() && Me().pc.Reading? && err != NoError
      requires err == TooLarge ==> |body| == gate.maxBody + 1
      modifies this
      ensures Valid() && Me().pc.Leaving? && Me().frames == old(Me().frames)
      ensures answers == old(answers)
                         + [if err == TooLarge then BodyTooLarge
                            else if err == TimedOut then BodyTimeout else BodyUnreadable]
    {
      hide AllPossible, AfterAll, AllFit, R.InRange, Possible, After;
      match err {
        case TooLarge =>
          answers := answers + [BodyTooLarge];
          LogPrivate(BodyEnd);
        case TimedOut =>
          answers := answers + [BodyTimeout];
          LogPrivate(BodyFails(true));
        case Unreadable =>
          answers := answers + [BodyUnreadable];
          LogPrivate(BodyFails(false));
      }
    }

    /** ErrorHandler: a hung-up client is nothing to report, a failed dial is To's, the rest is a 502. */
    method HandleError(outcome: Outcome, target: Target) returns (unreachable: bool)
      requires Valid() && !outcome.Response? && !outcome.Replay?
      requires if outcome.DialError? || !outcome.connected then Me().pc.Dialing? else Me().pc.Connected?
      requires Me().pc.target == target
      modifies this
      ensures Valid() && unreachable == outcome.DialError?
      ensures answers == old(answers) + if outcome.Failure? then [UpstreamFailed(target.apiAddr)] else []
      ensures Me().pc == Returning(old(Me().pc.attempt), target,
            if unreachable then ReturnedUnreachable else ReturnedNil)
      ensures Me().frames == old(Me().frames) && Me().tried == old(Me().tried)
    {
      hide AllPossible, AfterAll, AllFit, R.InRange, Possible, After;
      if outcome.Hangup? {
        LogPrivate(ClientGone);
        return false;
      }
      if outcome.DialError? {
        LogPrivate(DialFails);
        return true;
      }
      answers := answers + [UpstreamFailed(target.apiAddr)];
      LogPrivate(Breaks);
      return false;
    }

    /** The transport reads some of the body before the dial fails. */
    method TakeBody(taken: nat)
      requires Valid() && Me().pc.Dialing?
      modifies this
      ensures Valid() && Me().pc == old(Me().pc) && Me().frames == old(Me().frames) && answers == old(answers)
      ensures Me().tried == old(Me().tried)
    {
      hide AllPossible, AfterAll, AllFit, R.InRange, Possible, After;
      var n := if bodyPos + taken <= |body| then taken else |body| - bodyPos;
      if n > 0 {
        bodyPos := bodyPos + n;
        LogPrivate(BodyTaken(n));
      }
    }

    /** A node that answers: the response streams to its end, or its stream is aborted by a panic. */
    method Relay(target: Target, aborts: bool, others: seq<Act>) returns (verdict: Verdict)
      requires Valid() && Me().pc.Connected? && Me().pc.target == target
      modifies this, gate, gate.picker, gate.limiter
      ensures Valid() && Me().pc == Returning(old(Me().pc.attempt), target, verdict)
      ensures Me().frames == old(Me().frames) && Me().tried == old(Me().tried)
      ensures verdict == if aborts then Panicked else ReturnedNil
      ensures answers == old(answers) + [Relayed(target.node)]
    {
      hide AllPossible, AfterAll, AllFit, R.InRange, Possible, After, Next, Enabled, AfterActs;
      StreamSteps(gate.maxBody, Me());
      answers := answers + [Relayed(target.node)];
      LogPrivate(FirstByte);
      Yield(others);
      StreamSteps(gate.maxBody, Me());
      if aborts {
        LogPrivate(Aborts);
        return Panicked;
      }
      LogPrivate(StreamEnds);
      return ReturnedNil;
    }

    /** A connection dies under the request, and the transport dials again with the body from its start. */
    method ReplayOnce(others: nat -> seq<Act>)
      requires Valid() && Me().pc.Dialing? && replays > 0
      modifies this, gate, gate.picker, gate.limiter
      ensures Valid() && replays == old(replays) - 1 && answers == old(answers)
      ensures Me().pc == old(Me().pc) && Me().frames == old(Me().frames) && Me().tried == old(Me().tried)
    {
      hide AllPossible, AfterAll, AllFit, R.InRange, Possible, After, Next, Enabled, AfterActs;
      ReplaySteps(gate.maxBody, Me());
      LogPrivate(Connects);
      Yield(others(2 * replays + 3));
      ReplaySteps(gate.maxBody, Me());
      bodyPos, replays := 0, replays - 1;
      LogPrivate(Replays);
      Yield(others(2 * replays + 4));
    }

    /** The transport sends the request again as often as connections die under it. */
    method SendAgain(outcome: Outcome, others: nat -> seq<Act>) returns (last: Outcome)
      requires Valid() && Me().pc.Dialing?
      modifies this, gate, gate.picker, gate.limiter
      ensures Valid() && last == Last(outcome, old(replays)) && !last.Replay?
      ensures Me().pc == old(Me().pc) && Me().frames == old(Me().frames) && answers == old(answers)
      ensures Me().tried == old(Me().tried)
    {
      hide AllPossible, AfterAll, AllFit, R.InRange, Possible, After, Next, Enabled, AfterActs;
      last := outcome;
      while last.Replay? && replays > 0
        invariant Valid() && Last(last, replays) == Last(outcome, old(replays))
        invariant Me().pc == old(Me().pc) && Me().frames == old(Me().frames) && answers == old(answers)
        invariant Me().tried == old(Me().tried)
        decreases replays
      {
        ReplayOnce(others);
        last := last.next;
      }
      if last.Replay? {
        last := Failure(true);
      }
    }

    /** Forwarder.To, with the panic of an aborted stream as one of its ends. */
    method To(target: Target, outcome: Outcome, others: nat -> seq<Act>) returns (verdict: Verdict)
      requires Valid() && Me().pc.Dialing? && Me().pc.target == target
      modifies this, gate, gate.picker, gate.limiter
      ensures Valid() && Me().pc == Returning(old(Me().pc.attempt), target, verdict)
      ensures Me().frames == old(Me().frames) && Me().tried == old(Me().tried)
      ensures verdict == (match Last(outcome, old(replays))
                          case DialError(_) => ReturnedUnreachable
                          case Response(aborts) => if aborts then Panicked else ReturnedNil
                          case _ => ReturnedNil)
      ensures answers == old(answers) + (match Last(outcome, old(replays))
                                         case Response(_) => [Relayed(target.node)]
                                         case Failure(_) => [UpstreamFailed(target.apiAddr)]
                                         case _ => [])
    {
      hide AllPossible, AfterAll, AllFit, R.InRange, Possible, After, Next, Enabled, Last, AfterActs;
      Yield(others(0));
      var last := SendAgain(outcome, others);
      if last.DialError? {
        TakeBody(last.taken);
      } else if last.Response? || last.connected {
        ReplaySteps(gate.maxBody, Me());
        LogPrivate(Connects);
      }
      Yield(others(1));
      if last.Response? {
        verdict := Relay(target, last.aborts, others(2));
        return;
      }
      var holder := HandleError(last, target);
      return if holder then ReturnedUnreachable else ReturnedNil;
    }

    /** forwardHolding: the deferred release runs however To ends, a panic included. */
    method ForwardHolding(target: Target, release: P.Release, outcome: Outcome, returning: seq<Act>,
                          others: nat -> seq<Act>) returns (verdict: Verdict)
      requires Valid() && Me().pc.Dialing? && !Me().pc.attempt.Sticky? && Me().pc.target == target
      requires Me().frames == [SemToken, Reserved(release.id)]
      requires release.picker == gate.picker && release.armed && !release.done
      modifies this, gate, gate.picker, gate.limiter, release
      ensures Valid() && release.done && release.id !in gate.picker.held
      ensures Me().frames == [SemToken] && verdict.ReturnedUnreachable? == Last(outcome, old(replays)).DialError?
      ensures Me().tried == old(Me().tried)
      ensures Me().pc == if verdict.ReturnedUnreachable? then Unreached(old(Me().pc.attempt.First?), target.node)
                         else Leaving
    {
      hide AllPossible, AfterAll, AllFit, R.InRange, Possible, After, Next, Enabled, Last, AfterActs;
      verdict := To(target, outcome, others);
      Yield(returning);
      ReturnSteps(gate.maxBody, Me());
      ghost var env := Env(Snapshot([], map[], 0), 0.0);
      ReleaseStep(Settings(), now, i, release.id, env);
      release.Call();
      Log(ToReturns, env);
    }

    /** The end of a forward that found nobody: writeUnreachable, unless a retry is due. */
    method WriteUnreachable(node: string)
      requires Valid() && Me().pc == Unreached(false, node)
      modifies this
      ensures Valid() && Me().pc.Leaving? && Me().frames == old(Me().frames) && Me().tried == old(Me().tried)
      ensures answers == old(answers) + [Unreachable(node)]
    {
      hide AllPossible, AfterAll, AllFit, R.InRange, Possible, After;
      answers := answers + [Unreachable(node)];
      LogPrivate(WritesUnreachable);
    }

    /** A forward to the view node: it holds no reservation. */
    method ForwardToView(target: Target, outcome: Outcome, world: World)
      requires Valid() && Me().pc == Dialing(Sticky, target) && Me().frames == [SemToken]
      modifies this, gate, gate.picker, gate.limiter
      ensures Valid() && Me().pc.Leaving? && Me().frames == [SemToken]
    {
      hide AllPossible, AfterAll, AllFit, R.InRange, Possible, After, Next, Enabled, Last, AfterActs;
      var verdict := To(target, outcome, (k: nat) => world.others(5, k));
      Yield(world.others(6, 0));
      ReturnSteps(gate.maxBody, Me());
      ghost var env := Env(Snapshot([], map[], 0), 0.0);
      UnheldReturn(Settings(), now, i, env);
      Log(ToReturns, env);
      if verdict.ReturnedUnreachable? {
        Yield(world.others(6, 1));
        WriteUnreachable(target.node);
      }
    }

    /** One Pick and the reservation it takes. A failed one changes nothing. */
    method Choose(snap: Snapshot, exclude: set<string>) returns (target: Target, release: P.Release, ok: bool)
      requires Valid() && Me().pc.AtPick? && Me().frames == [SemToken] && exclude == Excluded(Me())
      requires DistinctNames(snap.members)
      modifies this, gate.picker
      ensures Valid()
      ensures !ok ==> Me() == old(Me()) && now == old(now)
      ensures !ok ==> NoNode == PickChoice(gate.picker.isFresh, gate.picker.State(), input.model, exclude, snap)
      ensures ok ==> fresh(release) && release.picker == gate.picker && release.armed && !release.done
      ensures ok ==> Me().frames == [SemToken, Reserved(release.id)]
      ensures ok ==> target.node !in exclude && Me().tried == old(Me().tried) + [target.node]
      ensures ok ==> Me().pc == Dialing(if old(Me().pc.failed).None? then First else Second, target)
    {
      hide AllPossible, AfterAll, AllFit, R.InRange, Enabled, DistinctNames, Loads, Leaders, PickChoice, AfterPick;
      ghost var env := Env(snap, 0.0);
      ghost var choice := PickChoice(gate.picker.isFresh, gate.picker.State(), input.model, exclude, snap);
      PickedStep(Settings(), now, i, env, choice);
      PickAvoids(gate.picker.isFresh, gate.picker.State(), input.model, exclude, snap);
      target, release, ok := gate.picker.Pick(input.model, exclude, snap);
      hide PickChoice, AfterPick, Possible, After, Next;
      if ok {
        ChosenIsDialled(gate.maxBody, Me(), choice);
        Log(Picked(choice), env);
      }
    }

    /** A Pick that found nobody, and what was answered to it. */
    ghost method LogNoNode(env: Env)
      requires Logged() && Me().pc.AtPick?
      requires NoNode == PickChoice(gate.picker.isFresh, now.picker, input.model, Excluded(Me()), env.snap)
      modifies this`steps, this`now
      ensures Logged() && now.reqs - {i} == old(now.reqs) - {i}
      ensures now == old(now).(reqs := old(now).reqs[i := Next(gate.maxBody, old(Me()), Picked(NoNode))])
    {
      hide Next, AllPossible, AfterAll, AllFit;
      PickedStep(Settings(), now, i, env, NoNode);
      Log(Picked(NoNode), env);
    }

    /** resetBody. */
    method Rewind(node: string)
      requires Valid() && Me().pc == Unreached(true, node) && Me().frames == [SemToken]
      modifies this
      ensures Valid() && Me().pc == AtPick(Some(node)) && Me().frames == [SemToken] && Me().tried == [node]
    {
      hide AllPossible, AfterAll, AllFit, R.InRange, Possible, After, Next, Enabled;
      RetrySteps(gate.maxBody, Me());
      FitTried(Settings(), start, steps, i);
      bodyPos := 0;
      LogPrivate(Rewinds);
    }

    /** The second half of routeByModel: one more node, with the body rewound. */
    method Retry(node: string, world: World)
      requires Valid() && Me().pc == Unreached(true, node) && Me().frames == [SemToken]
      requires DistinctNames(world.again.members)
      modifies this, gate, gate.picker, gate.limiter
      ensures Valid() && Me().pc.Leaving? && Me().frames == [SemToken]
      ensures Me().tried == [node] || (|Me().tried| == 2 && Me().tried[0] == node && Me().tried[1] != node)
    {
      hide AllPossible, AfterAll, AllFit, R.InRange, PickChoice, DistinctNames, Possible, After, Next, Enabled,
            Loads, Leaders, Last, AfterActs;
      Yield(world.others(6, 1));
      Rewind(node);
      Yield(world.others(6, 2));
      RetrySteps(gate.maxBody, Me());
      var second, release, ok := Choose(world.again, {node});
      if !ok {
        answers := answers + [Unreachable(node)];
        LogNoNode(Env(world.again, 0.0));
        return;
      }
      ForwardAgain(second, release, world);
    }

    /** The second attempt is the last: a node that cannot be dialled is answered for. */
    method ForwardAgain(second: Target, release: P.Release, world: World)
      requires Valid() && Me().pc == Dialing(Second, second) && Me().frames == [SemToken, Reserved(release.id)]
      requires release.picker == gate.picker && release.armed && !release.done
      modifies this, gate, gate.picker, gate.limiter, release
      ensures Valid() && Me().pc.Leaving? && Me().frames == [SemToken] && Me().tried == old(Me().tried)
    {
      hide AllPossible, AfterAll, AllFit, R.InRange, Possible, After, Next, Enabled, Last, AfterActs;
      var verdict := ForwardHolding(second, release, world.second, world.others(8, 0), (k: nat) => world.others(7, k));
      if verdict.ReturnedUnreachable? {
        Yield(world.others(8, 1));
        WriteUnreachable(second.node);
      }
    }

    /** View, logged, and what is answered when there is no node. */
    method Look(snap: Snapshot) returns (view: Target, ok: bool)
      requires Valid() && (Me().pc.AtView? || Me().pc.AtFallback?)
      modifies this, gate.picker
      ensures Valid()
      ensures ok ==> Me() == Seen(old(Me()), view)
      ensures !ok ==> Me().pc.Leaving? && Me().frames == old(Me().frames)
    {
      hide AllPossible, AfterAll, AllFit, R.InRange;
      ghost var env := Env(snap, 0.0);
      ghost var choice := ViewChoice(gate.picker.viewNodes, gate.picker.isFresh, gate.picker.State(), snap);
      ViewedStep(Settings(), now, i, env, choice);
      view, ok := gate.picker.View(snap);
      hide ViewChoice, AfterView, Possible, After;
      if !ok {
        answers := answers + [NoHealthyNode];
      }
      Log(Viewed(choice), env);
    }

    /** routeByModel once the body is read. */
    method RouteBody(world: World)
      requires Valid() && Me().pc == AtPick(None) && Me().frames == [SemToken]
      requires DistinctNames(world.pick.members) && DistinctNames(world.again.members)
      modifies this, gate, gate.picker, gate.limiter
      ensures Valid() && Me().pc.Leaving? && Me().frames == [SemToken]
    {
      hide AllPossible, AfterAll, AllFit, R.InRange, PickChoice, DistinctNames, Possible, After, Next, Enabled,
            Loads, Leaders, Last, AfterActs;
      RetrySteps(gate.maxBody, Me());
      var target, release, ok := Choose(world.pick, {});
      if !ok {
        LogNoNode(Env(world.pick, 0.0));
        Yield(world.others(4, 1));
        var view, haveView := Look(world.look);
        if haveView {
          ForwardToView(view, world.first, world);
        }
        return;
      }
      var verdict := ForwardHolding(target, release, world.first, world.others(6, 0), (k: nat) => world.others(5, k));
      if verdict.ReturnedUnreachable? {
        Retry(target.node, world);
      }
    }

    /** What the deferred release does when the handler of a request returns. */
    method Leave(admitted: bool)
      requires Valid() && Me().pc.Leaving? && Me().frames == (if admitted then [SemToken] else [])
      modifies this, gate`inUse
      ensures Valid() && Me().pc.Done? && Me().frames == []
      ensures gate.inUse == old(gate.inUse) - if admitted then 1 else 0
    {
      hide AllPossible, AfterAll, AllFit, R.InRange;
      ghost var env := Env(Snapshot([], map[], 0), 0.0);
      FitFrames(Settings(), start, steps, i);
      TokenStep(Settings(), now, i, Leaves, env);
      if admitted {
        gate.GiveBack();
      }
      body := [];
      hide Possible, After;
      Log(Leaves, env);
    }

    /** tryAcquire and the answer when it fails. */
    method Enter() returns (ok: bool)
      requires Valid() && Me().pc.AtSemaphore? && Me().frames == []
      modifies this, gate`inUse
      ensures Valid() && gate.inUse == old(gate.inUse) + (if ok then 1 else 0)
      ensures !ok ==> Me().pc.Leaving? && Me().frames == []
      ensures ok ==> Me() == Admitted(old(Me()))
    {
      hide AllPossible, AfterAll, AllFit, R.InRange;
      ghost var env := Env(Snapshot([], map[], 0), 0.0);
      TokenStep(Settings(), now, i, Acquired(gate.inUse < gate.maxInFlight), env);
      ok := gate.TryAcquire();
      if !ok {
        answers := answers + [OverCapacity];
      }
      hide Possible, After;
      Log(Acquired(ok), env);
    }

    /** The rate check, before a token is taken or a byte is read, and the answer when it fails. */
    method CheckRate(checked: real) returns (allowed: bool)
      requires Valid() && Me().pc.AtRateCheck?
      modifies this, gate.limiter
      ensures Valid()
      ensures Me() == if allowed then old(Me()).(rated := Some(true), pc := AtSemaphore(false))
                      else AnswerAndLeave(old(Me()).(rated := Some(false)), RateLimited)
      ensures gate.limiter != null ==> R.InRange(gate.limiter.State())
    {
      hide AllPossible, AfterAll, AllFit, R.InRange;
      ghost var env := Env(Snapshot([], map[], 0), checked);
      ghost var allows := R.Allows(Limits(gate.limiter), input.key, checked);
      RatedStep(Settings(), now, i, env, allows);
      var retryAfter;
      allowed, retryAfter := R.Allow(gate.limiter, input.key, checked);
      hide R.Allows, R.AfterAllow, Possible, After;
      if !allowed {
        answers := answers + [RateLimited];
      }
      Log(Rated(allows), env);
    }

    /** routeByModel once the rate check is passed. */
    method Admit(world: World)
      requires Valid() && Me() == NewReq(input).(rated := Some(true), pc := AtSemaphore(false))
      requires DistinctNames(world.pick.members) && DistinctNames(world.again.members)
      modifies this, gate, gate.picker, gate.limiter
      ensures Valid() && Me().pc.Done? && Me().frames == []
    {
      hide AllPossible, AfterAll, AllFit, R.InRange, DistinctNames, Possible, After, Next, Enabled, AfterActs;
      var ok := Enter();
      Yield(world.others(2, 0));
      if ok {
        var err := ReadBody(world.upload, world.others(3, 0));
        if err != NoError {
          Reject(err);
        } else {
          LogWhole();
          Yield(world.others(4, 0));
          RouteBody(world);
        }
        Yield(world.others(9, 0));
      }
      Leave(ok);
    }

    method RouteByModel(world: World)
      requires Valid() && Me() == NewReq(input).(pc := AtRateCheck)
      requires DistinctNames(world.pick.members) && DistinctNames(world.again.members)
      modifies this, gate, gate.picker, gate.limiter
      ensures Valid() && Me().pc.Done? && Me().frames == []
      ensures gate.limiter != null ==> R.InRange(gate.limiter.State())
    {
      hide AllPossible, AfterAll, AllFit, R.InRange, DistinctNames, Possible, After, Next, Enabled, AfterActs;
      Yield(world.others(1, 0));
      var allowed := CheckRate(world.checked);
      Yield(world.others(1, 1));
      if !allowed {
        Leave(false);
        return;
      }
      Admit(world);
    }

    method SendToView(view: Target, world: World)
      requires Valid() && Me().pc == Reading(Some(view)) && Me().frames == [SemToken] && body == [] && bodyPos == 0
      modifies this, gate, gate.picker, gate.limiter
      ensures Valid() && Me().pc.Leaving? && Me().frames == [SemToken]
    {
      hide AllPossible, AfterAll, AllFit, R.InRange, Possible, After, Next, Enabled, AfterActs;
      var err := ReadBody(world.upload, world.others(3, 0));
      if err != NoError {
        Reject(err);
      } else {
        LogWhole();
        ForwardToView(view, world.first, world);
      }
    }

    method RouteToView(world: World)
      requires Valid() && Me() == NewReq(input).(pc := AtSemaphore(true))
      modifies this, gate, gate.picker, gate.limiter
      ensures Valid() && Me().pc.Done? && Me().frames == []
    {
      hide AllPossible, AfterAll, AllFit, R.InRange, Possible, After, Next, Enabled, AfterActs;
      Yield(world.others(1, 0));
      var ok := Enter();
      Yield(world.others(1, 1));
      if ok {
        var view, haveView := Look(world.look);
        Yield(world.others(2, 0));
        if haveView {
          SendToView(view, world);
        }
        Yield(world.others(9, 0));
      }
      Leave(ok);
    }

    /**
     One request from its arrival to its end, whatever the world does to it and whatever the other
     requests do in between. All of it is a run of the system that ends with this request finished and
     delivered at most once. Where the others are at its end as they were at its start, so are the
     semaphore and the table of reservations.
     */
    method ServeHTTP(world: World)
      requires Valid() && Me() == NewReq(input)
      requires DistinctNames(world.pick.members) && DistinctNames(world.again.members)
      modifies this, gate, gate.picker, gate.limiter
      ensures Valid() && Me().pc.Done? && AtMostOnce(Me())
      ensures gate.limiter != null ==> R.InRange(gate.limiter.State())
      ensures i !in TokenHolders(now.reqs) && i !in Reservations(now.reqs)
      ensures gate.inUse == |TokenHolders(gate.others)| && gate.picker.held.Keys == Reservations(gate.others).Values
      ensures gate.others == start.reqs ==> gate.inUse == start.inUse && gate.picker.held == start.picker.held
    {
      hide AllPossible, AfterAll, AllFit, AtMostOnce, R.InRange, DistinctNames, Paths.RouteOf, Possible, After,
            AfterActs;
      hide TokenHolders, Reservations;
      Yield(world.others(0, 0));
      match Paths.RouteOf(input.verb, input.path) {
        case Forbidden =>
          answers := answers + [Denied];
          LogPrivate(Begin);
          Yield(world.others(1, 0));
          Leave(false);
        case ByModel =>
          LogPrivate(Begin);
          RouteByModel(world);
        case ToView(path) =>
          LogPrivate(Begin);
          RouteToView(world);
      }
      EndsWithNothing(Settings(), start, steps, i);
    }
  }

  ghost function Admitted(r: Req): Req
    requires r.pc.AtSemaphore?
  {
    r.(release := Some(SemToken), frames := r.frames + [SemToken], pc := if r.pc.sticky then AtView else Reading(None))
  }

  ghost function Seen(r: Req, view: Target): Req
    requires r.pc.AtView? || r.pc.AtFallback?
  {
    if r.pc.AtView? then r.(pc := Reading(Some(view))) else StartForward(r, Sticky, view)
  }

  ghost function SettingsOf(gate: Gate): Config {
    Config(PickerRuns.Config(gate.picker.isFresh, gate.picker.viewNodes), gate.maxInFlight, gate.maxBody)
  }

  /** What a request about to give something back has to give back. */
  lemma FitFrames(c: Config, s: System, steps: seq<Step>, j: nat)
    requires AllFit(c, s) && AllPossible(c, s, steps) && j in AfterAll(c, s, steps).reqs
    ensures var end := AfterAll(c, s, steps);
            var r := end.reqs[j];
            && (r.pc.Returning? ==>
                  r.frames == [SemToken] || (|r.frames| == 2 && r.frames[0] == SemToken && r.frames[1].Reserved?))
            && (r.pc.Leaving? ==> r.frames == [] || r.frames == [SemToken])
            && (r.frames != [] ==> end.inUse > 0)
  {
    hide ReqFits, ReservationsFit, HeldFits, AfterAll, AllPossible;
    var end := AfterAll(c, s, steps);
    EveryRunFits(c, s, steps);
    FramesAlone(c, end.reqs[j]);
    if end.reqs[j].frames != [] {
      assert j in TokenHolders(end.reqs);
    }
  }

  /** A request that may try again has tried one node. */
  lemma FitTried(c: Config, s: System, steps: seq<Step>, j: nat)
    requires AllFit(c, s) && AllPossible(c, s, steps) && j in AfterAll(c, s, steps).reqs
    ensures var r := AfterAll(c, s, steps).reqs[j]; r.pc.Unreached? && r.pc.mayRetry ==> r.tried == [r.pc.node]
  {
    hide ReqFits, ReservationsFit, HeldFits, TokensFit, AfterAll, AllPossible;
    EveryRunFits(c, s, steps);
    TriedAlone(c, AfterAll(c, s, steps).reqs[j]);
  }

  lemma TriedAlone(c: Config, r: Req)
    requires ReqFits(c.maxBody, r)
    ensures TriedFits(r)
  {
    hide TriedFits;
  }

  lemma Arrives(c: Config, s: System, i: nat, input: Input)
    requires AllFit(c, s) && i !in s.reqs
    ensures AllPossible(c, s, [Arrive(i, input)])
    ensures var now := s.(reqs := s.reqs[i := NewReq(input)]);
            AfterAll(c, s, [Arrive(i, input)]) == now && now.reqs - {i} == s.reqs
  {
    hide AllFit;
    assert AllPossible(c, s, []) && AfterAll(c, s, []) == s;
    hide AllPossible, AfterAll;
    OneMoreStep(c, s, [], Arrive(i, input));
    assert [] + [Arrive(i, input)] == [Arrive(i, input)];
  }

  lemma ReplaySteps(maxBody: nat, r: Req)
    ensures r.pc.Dialing? ==>
              && Enabled(maxBody, r, Connects)
              && var after := Next(maxBody, r, Connects);
                 && after.pc == Connected(r.pc.attempt, r.pc.target) && after.frames == r.frames
                     && after.replays == r.replays
                 && after.buffer == r.buffer && after.bodyPos == r.bodyPos && after.answers == r.answers
                     && after.tried == r.tried
    ensures r.pc.Connected? && r.replays > 0 ==>
              && Enabled(maxBody, r, Replays)
              && Next(maxBody, r, Replays)
                 == r.(replays := r.replays - 1, bodyPos := 0, from := 0, pc := Dialing(r.pc.attempt, r.pc.target))
  {
  }

  lemma ReturnSteps(maxBody: nat, r: Req)
    requires r.pc.Returning? && r.frames != [] && (r.pc.attempt.Sticky? ==> |r.frames| == 1)
    ensures var after := Next(maxBody, r, ToReturns);
            && after.buffer == r.buffer && after.bodyPos == r.bodyPos && after.answers == r.answers
                && after.replays == r.replays
            && after.tried == r.tried
            && after.frames == (if r.pc.attempt.Sticky? then r.frames else r.frames[..|r.frames| - 1])
            && after.pc == if r.pc.verdict.ReturnedUnreachable? then Unreached(r.pc.attempt.First?, r.pc.target.node)
                           else Leaving
  {
  }

  lemma PickAvoids(isFresh: Freshness, s: PickerState, model: string, exclude: set<string>, snap: Snapshot)
    ensures var choice := PickChoice(isFresh, s, model, exclude, snap); choice.Chose? ==> choice.target.node !in exclude
  {
    PickChoiceServes(isFresh, s, model, exclude, snap);
  }

  /** A request that has finished has left nothing: what is taken is what the others hold. */
  lemma EndsWithNothing(c: Config, s: System, steps: seq<Step>, i: nat)
    requires AllFit(c, s) && AllPossible(c, s, steps) && i !in s.reqs
    requires i in AfterAll(c, s, steps).reqs && AfterAll(c, s, steps).reqs[i].pc.Done?
    ensures var end := AfterAll(c, s, steps);
            && AtMostOnce(end.reqs[i]) && i !in TokenHolders(end.reqs) && i !in Reservations(end.reqs)
            && end.inUse == |TokenHolders(end.reqs - {i})|
                && end.picker.held.Keys == Reservations(end.reqs - {i}).Values
            && (end.reqs - {i} == s.reqs ==> end.inUse == s.inUse && end.picker.held == s.picker.held)
  {
    hide AtMostOnce, ReqFits, AfterAll, AllPossible, HeldFits, PickerRuns.IdsBelow, Names.Injective;
    var end := AfterAll(c, s, steps);
    EveryRunFits(c, s, steps);
    FitsAtMostOnce(c.maxBody, end.reqs[i]);
    FramesTell(c.maxBody, end.reqs[i]);
    assert TokenHolders(end.reqs) == TokenHolders(end.reqs - {i});
    assert Reservations(end.reqs) == Reservations(end.reqs - {i});
    if end.reqs - {i} == s.reqs {
      SameIdsSameHeld(c, s, steps);
    }
  }

  /** A reservation never changes, so equal ids are equal tables. */
  lemma SameIdsSameHeld(c: Config, s: System, steps: seq<Step>)
    requires AllFit(c, s) && AllPossible(c, s, steps) && AfterAll(c, s, steps).picker.held.Keys == s.picker.held.Keys
    ensures AfterAll(c, s, steps).picker.held == s.picker.held
  {
    hide AfterAll, AllPossible, PickerRuns.Run, PickerRuns.Issued, PickerRuns.Legal;
    Traffic.PickerRunsUnder(c, s, steps);
    var ops := Traffic.AllOps(c, s, steps);
    assert PickerRuns.IdsBelow(s.picker);
    hide AllFit;
    PickerRuns.IssuedAreNew(c.picker, s.picker, ops);
    PickerRuns.ReleasesRemoveTheirOwn(c.picker, s.picker, ops);
  }

  lemma ReleaseStep(c: Config, s: System, i: nat, id: nat, env: Env)
    requires i in s.reqs && s.reqs[i].pc.Returning? && s.reqs[i].frames == [SemToken, Reserved(id)]
    ensures Possible(c, s, Move(i, ToReturns, env))
    ensures After(c, s, Move(i, ToReturns, env))
         == System(s.inUse, AfterRelease(s.picker, id), s.limiter, s.reqs[i := Next(c.maxBody, s.reqs[i], ToReturns)])
  {
    hide Next;
    OneCall(c.picker, s.picker, PickerRuns.Release(id));
    assert PickerOps(s.reqs[i], ToReturns, env) == [PickerRuns.Release(id)];
  }

  lemma OneCall(c: PickerRuns.Config, p: PickerState, op: PickerRuns.Op)
    ensures PickerRuns.Run(c, p, [op]) == PickerRuns.Step(c, p, op)
  {
    assert [op][1..] == [];
    assert PickerRuns.Run(c, PickerRuns.Step(c, p, op), []) == PickerRuns.Step(c, p, op);
  }

  lemma PickedStep(c: Config, s: System, i: nat, env: Env, choice: Choice)
    requires i in s.reqs && s.reqs[i].pc.AtPick?
    requires choice == PickChoice(c.picker.isFresh, s.picker, s.reqs[i].input.model, Excluded(s.reqs[i]), env.snap)
    ensures Possible(c, s, Move(i, Picked(choice), env))
    ensures After(c, s, Move(i, Picked(choice), env))
         == System(s.inUse, AfterPick(c.picker.isFresh, s.picker, s.reqs[i].input.model, Excluded(s.reqs[i]), env.snap),
                   s.limiter, s.reqs[i := Next(c.maxBody, s.reqs[i], Picked(choice))])
  {
    hide Next, PickChoice, AfterPick;
    OneCall(c.picker, s.picker, PickerRuns.Pick(s.reqs[i].input.model, Excluded(s.reqs[i]), env.snap));
  }

  lemma ViewedStep(c: Config, s: System, i: nat, env: Env, view: Option<Target>)
    requires i in s.reqs && (s.reqs[i].pc.AtView? || s.reqs[i].pc.AtFallback?)
    requires view == ViewChoice(c.picker.viewNodes, c.picker.isFresh, s.picker, env.snap)
    ensures Possible(c, s, Move(i, Viewed(view), env))
    ensures After(c, s, Move(i, Viewed(view), env))
         == System(s.inUse, AfterView(c.picker.viewNodes, c.picker.isFresh, s.picker, env.snap),
                   s.limiter, s.reqs[i := Next(c.maxBody, s.reqs[i], Viewed(view))])
  {
    hide Next, ViewChoice, AfterView;
    OneCall(c.picker, s.picker, PickerRuns.View(env.snap));
  }

  lemma RatedStep(c: Config, s: System, i: nat, env: Env, allowed: bool)
    requires i in s.reqs && s.reqs[i].pc.AtRateCheck? && allowed == R.Allows(s.limiter, s.reqs[i].input.key, env.now)
    ensures Possible(c, s, Move(i, Rated(allowed), env))
    ensures After(c, s, Move(i, Rated(allowed), env))
         == System(s.inUse, s.picker, R.AfterAllow(s.limiter, s.reqs[i].input.key, env.now),
                   s.reqs[i := Next(c.maxBody, s.reqs[i], Rated(allowed))])
  {
    hide Next, R.Allows, R.AfterAllow;
  }

  lemma TokenStep(c: Config, s: System, i: nat, e: Event, env: Env)
    requires i in s.reqs
    requires (s.reqs[i].pc.AtSemaphore? && e == Acquired(s.inUse < c.maxInFlight))
          || (s.reqs[i].pc.Leaving? && e == Leaves && (s.reqs[i].frames == [SemToken] ==> s.inUse > 0))
    ensures Possible(c, s, Move(i, e, env))
    ensures After(c, s, Move(i, e, env))
         == System(if e == Acquired(true) then s.inUse + 1
                   else if e == Leaves && s.reqs[i].frames == [SemToken] then s.inUse - 1 else s.inUse,
                   s.picker, s.limiter, s.reqs[i := Next(c.maxBody, s.reqs[i], e)])
  {
    hide Next;
  }

  lemma ChosenIsDialled(maxBody: nat, r: Req, choice: Choice)
    requires r.pc.AtPick? && choice.Chose?
    ensures var after := Next(maxBody, r, Picked(choice));
            && after.pc == Dialing(if r.pc.failed.None? then First else Second, choice.target)
            && after.frames == r.frames + [Reserved(choice.id)]
            && after.buffer == r.buffer && after.bodyPos == r.bodyPos && after.answers == r.answers
                && after.replays == r.replays
            && after.tried == r.tried + [choice.target.node]
  {
  }

  lemma RetrySteps(maxBody: nat, r: Req)
    ensures r.pc.Unreached? && r.pc.mayRetry ==>
              Enabled(maxBody, r, Rewinds) && Next(maxBody, r, Rewinds) == ResetBody(r).(pc := AtPick(Some(r.pc.node)))
    ensures r.pc.AtPick? ==>
              Next(maxBody, r, Picked(NoNode)) ==
                if r.pc.failed.Some? then AnswerAndLeave(r, Unreachable(r.pc.failed.value))
                else r.(release := None, pc := AtFallback)
  {
  }

  lemma StreamSteps(maxBody: nat, r: Req)
    ensures r.pc.Connected? ==>
              Enabled(maxBody, r, FirstByte)
              && Next(maxBody, r, FirstByte)
              == r.(answers := r.answers + [Relayed(r.pc.target.node)], pc := Streaming(r.pc.attempt, r.pc.target))
    ensures r.pc.Streaming? ==>
              && Enabled(maxBody, r, Aborts) && Enabled(maxBody, r, StreamEnds)
              && Next(maxBody, r, Aborts) == r.(aborted := true, pc := Returning(r.pc.attempt, r.pc.target, Panicked))
              && Next(maxBody, r, StreamEnds) == r.(pc := Returning(r.pc.attempt, r.pc.target, ReturnedNil))
  {
  }

  lemma UnheldReturn(c: Config, s: System, i: nat, env: Env)
    requires i in s.reqs && s.reqs[i].pc.Returning? && |s.reqs[i].frames| == 1
    ensures Possible(c, s, Move(i, ToReturns, env))
    ensures After(c, s, Move(i, ToReturns, env)) == s.(reqs := s.reqs[i := Next(c.maxBody, s.reqs[i], ToReturns)])
  {
    hide Next;
  }
}
