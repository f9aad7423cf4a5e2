/** The one way for a request to be sent to two nodes, as a run of the whole gateway. */
module Replay {
  import opened Options
  import opened PickerModel
  import opened Protocol
  import opened Gateway
  import opened Router
  import Paths
  import PickerRuns
  import R = RateLimit

  lemma OneMore(c: Config, s: System, step: Step, rest: seq<Step>)
    requires Possible(c, s, step) && AllPossible(c, After(c, s, step), rest)
    ensures AllPossible(c, s, [step] + rest)
    ensures AfterAll(c, s, [step] + rest) == AfterAll(c, After(c, s, step), rest)
  {
    assert ([step] + rest)[1..] == rest;
  }

  /** Request 0 is alone and at this point. */
  ghost predicate Alone(s: System, r: Req) {
    s.reqs == map[0 := r]
  }

  /** From s the request can come to have been sent to two nodes. */
  ghost predicate Doubled(c: Config, s: System, steps: seq<Step>) {
    && AllPossible(c, s, steps)
    && var end := AfterAll(c, s, steps);
       0 in end.reqs && 0 in s.reqs && end.reqs[0].input == s.reqs[0].input && TwoNodes(end.reqs[0])
  }

  lemma StepBefore(c: Config, s: System, e: Event, env: Env, rest: seq<Step>)
    requires 0 in s.reqs && Possible(c, s, Move(0, e, env)) && Doubled(c, After(c, s, Move(0, e, env)), rest)
    ensures Doubled(c, s, [Move(0, e, env)] + rest)
  {
    InputStays(c.maxBody, s.reqs[0], e);
    hide Enabled, Next, TwoNodes, AllPossible, AfterAll, PickerRuns.Run, PickChoice, ViewChoice, R.Allows;
    OneMore(c, s, Move(0, e, env), rest);
  }

  lemma PrivateBefore(c: Config, s: System, r: Req, e: Event, env: Env, rest: seq<Step>)
    requires Alone(s, r) && Private(e) && Enabled(c.maxBody, r, e)
    requires Doubled(c, s.(reqs := map[0 := Next(c.maxBody, r, e)]), rest)
    ensures Doubled(c, s, [Move(0, e, env)] + rest)
  {
    hide Enabled, Next, Doubled, After, Possible;
    PrivateStep(c, s, 0, e, env);
    assert s.reqs[0 := Next(c.maxBody, r, e)] == map[0 := Next(c.maxBody, r, e)];
    StepBefore(c, s, e, env, rest);
  }

  /** Where a node qualifies that is not excluded, Pick finds one that is not. */
  lemma PickFindsAnother(c: Config, p: PickerState, model: string, exclude: set<string>, snap: Snapshot, n: string)
    requires n in Serving(c.picker.isFresh, model, {}, snap) && n !in exclude
    ensures var choice := PickChoice(c.picker.isFresh, p, model, exclude, snap);
            choice.Chose? && choice.target.node !in exclude
  {
    PickAvoids(c.picker.isFresh, p, model, exclude, snap);
    assert n in Loads(c.picker.isFresh, p.held, model, exclude, snap);
  }

  lemma TwoAreTwo(r: Req, a: string, b: string)
    requires r.reached == [a, b] && a != b
    ensures TwoNodes(r)
  {
    assert r.reached[0] != r.reached[1];
  }

  lemma NothingMore(c: Config, s: System)
    requires 0 in s.reqs && TwoNodes(s.reqs[0])
    ensures Doubled(c, s, [])
  {
  }

  lemma RetryShape(maxBody: nat, r: Req, a: string, choice: Choice)
    requires r.pc == Unreached(true, a) && r.reached == [a] && choice.Chose?
    ensures Enabled(maxBody, r, Rewinds)
    ensures var r1 := Next(maxBody, r, Rewinds);
            && Enabled(maxBody, r1, Picked(choice))
            && var r2 := Next(maxBody, r1, Picked(choice));
            && r1.pc == AtPick(Some(a)) && r1.input == r.input && Excluded(r1) == {a}
            && Enabled(maxBody, r2, Connects) && Next(maxBody, r2, Connects).reached == [a, choice.target.node]
  {
  }

  lemma DeathShape(maxBody: nat, r: Req, a: Target, id: nat)
    requires r.pc == Connected(First, a) && r.reached == [a.node] && r.replays > 0
    requires r.frames == [SemToken, Reserved(id)]
    ensures Enabled(maxBody, r, Replays)
    ensures var r1 := Next(maxBody, r, Replays);
            && Enabled(maxBody, r1, DialFails)
            && var r2 := Next(maxBody, r1, DialFails);
               && r2.pc.Returning? && r2.frames == r.frames && Enabled(maxBody, r2, ToReturns)
               && var r3 := Next(maxBody, r2, ToReturns);
                  r3.pc == Unreached(true, a.node) && r3.reached == [a.node] && r3.input == r.input
  {
  }

  /** The first node was sent the request and cannot be dialled any more. */
  lemma SecondNode(c: Config, s: System, r: Req, a: string, b: string, env: Env) returns (steps: seq<Step>)
    requires Alone(s, r) && r.pc == Unreached(true, a) && r.reached == [a]
    requires b != a && b in Serving(c.picker.isFresh, r.input.model, {}, env.snap)
    ensures Doubled(c, s, steps)
  {
    hide After, Possible, Doubled, PickChoice, AfterPick, Serving, TwoNodes, Next, Enabled, Excluded;
    PickFindsAnother(c, s.picker, r.input.model, {a}, env.snap, b);
    var choice := PickChoice(c.picker.isFresh, s.picker, r.input.model, {a}, env.snap);
    RetryShape(c.maxBody, r, a, choice);
    var r1 := Next(c.maxBody, r, Rewinds);
    var s1 := s.(reqs := map[0 := r1]);
    var r2 := Next(c.maxBody, r1, Picked(choice));
    PickedStep(c, s1, 0, env, choice);
    var s2 := After(c, s1, Move(0, Picked(choice), env));
    assert s2.reqs == map[0 := r2];
    var r3 := Next(c.maxBody, r2, Connects);
    TwoAreTwo(r3, a, choice.target.node);
    NothingMore(c, s2.(reqs := map[0 := r3]));
    PrivateBefore(c, s2, r2, Connects, env, []);
    steps := [Move(0, Connects, env)] + [];
    StepBefore(c, s1, Picked(choice), env, steps);
    steps := [Move(0, Picked(choice), env)] + steps;
    PrivateBefore(c, s, r, Rewinds, env, steps);
    steps := [Move(0, Rewinds, env)] + steps;
  }

  /** The first node has been sent the request: its connection dies, and it cannot be dialled again. */
  lemma FirstDies(c: Config, s: System, r: Req, a: Target, id: nat, b: string, env: Env) returns (steps: seq<Step>)
    requires Alone(s, r) && r.pc == Connected(First, a) && r.reached == [a.node] && r.replays > 0
    requires r.frames == [SemToken, Reserved(id)]
    requires b != a.node && b in Serving(c.picker.isFresh, r.input.model, {}, env.snap)
    ensures Doubled(c, s, steps)
  {
    hide Serving, After, Possible, Doubled, TwoNodes, Next, Enabled;
    DeathShape(c.maxBody, r, a, id);
    var r1 := Next(c.maxBody, r, Replays);
    var r2 := Next(c.maxBody, r1, DialFails);
    var r3 := Next(c.maxBody, r2, ToReturns);
    var s2 := s.(reqs := map[0 := r2]);
    ReleaseStep(c, s2, 0, id, env);
    var s3 := After(c, s2, Move(0, ToReturns, env));
    assert s3.reqs == map[0 := r3];
    steps := SecondNode(c, s3, r3, a.node, b, env);
    StepBefore(c, s2, ToReturns, env, steps);
    steps := [Move(0, ToReturns, env)] + steps;
    PrivateBefore(c, s.(reqs := map[0 := r1]), r1, DialFails, env, steps);
    steps := [Move(0, DialFails, env)] + steps;
    PrivateBefore(c, s, r, Replays, env, steps);
    steps := [Move(0, Replays, env)] + steps;
  }

  /** The request goes to be picked for, and one of the two nodes is sent it. */
  lemma FirstPick(c: Config, s: System, r: Req, x: string, y: string, env: Env) returns (steps: seq<Step>)
    requires Alone(s, r) && r.pc == AtPick(None) && r.replays > 0 && r.reached == [] && r.frames == [SemToken] && x != y
    requires x in Serving(c.picker.isFresh, r.input.model, {}, env.snap)
    requires y in Serving(c.picker.isFresh, r.input.model, {}, env.snap)
    ensures Doubled(c, s, steps)
  {
    hide After, Possible, Doubled, PickChoice, AfterPick, Serving;
    PickFindsAnother(c, s.picker, r.input.model, {}, env.snap, x);
    var choice := PickChoice(c.picker.isFresh, s.picker, r.input.model, {}, env.snap);
    var r1 := Next(c.maxBody, r, Picked(choice));
    PickedStep(c, s, 0, env, choice);
    var s1 := After(c, s, Move(0, Picked(choice), env));
    assert s1.reqs == map[0 := r1];
    var r2 := Next(c.maxBody, r1, Connects);
    var b := if choice.target.node == x then y else x;
    steps := FirstDies(c, s1.(reqs := map[0 := r2]), r2, choice.target, choice.id, b, env);
    hide Next;
    PrivateBefore(c, s1, r1, Connects, env, steps);
    steps := [Move(0, Connects, env)] + steps;
    StepBefore(c, s, Picked(choice), env, steps);
    steps := [Move(0, Picked(choice), env)] + steps;
  }

  /** The body has been read whole. */
  lemma FirstNode(c: Config, s: System, r: Req, x: string, y: string, env: Env) returns (steps: seq<Step>)
    requires Alone(s, r) && r.pc == Reading(None) && r.buffer == r.input.posted && |r.buffer| <= c.maxBody
    requires r.replays > 0 && r.reached == [] && r.frames == [SemToken] && x != y
    requires x in Serving(c.picker.isFresh, r.input.model, {}, env.snap)
    requires y in Serving(c.picker.isFresh, r.input.model, {}, env.snap)
    ensures Doubled(c, s, steps)
  {
    hide Serving, Doubled;
    var r1 := Next(c.maxBody, r, BodyEnd);
    steps := FirstPick(c, s.(reqs := map[0 := r1]), r1, x, y, env);
    hide Next;
    PrivateBefore(c, s, r, BodyEnd, env, steps);
    steps := [Move(0, BodyEnd, env)] + steps;
  }

  lemma ReadsFirst(c: Config, s: System, r: Req, x: string, y: string, env: Env) returns (steps: seq<Step>)
    requires Alone(s, r) && r.pc == Reading(None) && r.buffer == [] && |r.input.posted| <= c.maxBody
    requires r.replays > 0 && r.reached == [] && r.frames == [SemToken] && x != y
    requires x in Serving(c.picker.isFresh, r.input.model, {}, env.snap)
    requires y in Serving(c.picker.isFresh, r.input.model, {}, env.snap)
    ensures Doubled(c, s, steps)
  {
    hide Serving;
    var n := |r.input.posted|;
    if n == 0 {
      steps := FirstNode(c, s, r, x, y, env);
    } else {
      assert r.input.posted[..n] == r.input.posted;
      var r1 := Next(c.maxBody, r, Chunk(n));
      steps := FirstNode(c, s.(reqs := map[0 := r1]), r1, x, y, env);
      hide Next, Doubled, After, Possible;
      PrivateBefore(c, s, r, Chunk(n), env, steps);
      steps := [Move(0, Chunk(n), env)] + steps;
    }
  }

  /**
   Two members that serve the model, a free token and a limiter that allows: then a replayable,
   model-routed request within the body limit can be sent to two different nodes.
   */
  lemma TwoNodesHappen(c: Config, limiter: R.LimiterState, input: Input, x: string, y: string, env: Env)
    returns (steps: seq<Step>)
    requires Paths.RouteOf(input.verb, input.path).ByModel? && input.replays > 0 && |input.posted| <= c.maxBody
    requires c.maxInFlight > 0 && R.Allows(limiter, input.key, env.now)
    requires x != y && x in Serving(c.picker.isFresh, input.model, {}, env.snap)
    requires y in Serving(c.picker.isFresh, input.model, {}, env.snap)
    ensures AllPossible(c, Init(limiter), steps)
    ensures var end := AfterAll(c, Init(limiter), steps);
            0 in end.reqs && end.reqs[0].input == input && TwoNodes(end.reqs[0])
  {
    Arrival(c, limiter, input);
    hide Serving, Paths.RouteOf, R.Allows, R.AfterAllow, After, Possible, Doubled;
    var r0 := NewReq(input);
    var r1 := Next(c.maxBody, r0, Begin);
    var r2 := Next(c.maxBody, r1, Rated(true));
    var r3 := Next(c.maxBody, r2, Acquired(true));
    var s0 := Init(limiter).(reqs := map[0 := r0]);
    var s1 := s0.(reqs := map[0 := r1]);
    RatedStep(c, s1, 0, env, true);
    var s2 := After(c, s1, Move(0, Rated(true), env));
    assert s2.reqs == map[0 := r2];
    TokenStep(c, s2, 0, Acquired(true), env);
    var s3 := After(c, s2, Move(0, Acquired(true), env));
    assert s3.reqs == map[0 := r3];
    steps := ReadsFirst(c, s3, r3, x, y, env);
    hide Next;
    StepBefore(c, s2, Acquired(true), env, steps);
    steps := [Move(0, Acquired(true), env)] + steps;
    StepBefore(c, s1, Rated(true), env, steps);
    steps := [Move(0, Rated(true), env)] + steps;
    PrivateBefore(c, s0, r0, Begin, env, steps);
    steps := [Move(0, Begin, env)] + steps;
    DoubledTells(c, s0, steps);
    OneMore(c, Init(limiter), Arrive(0, input), steps);
    steps := [Arrive(0, input)] + steps;
  }

  lemma Arrival(c: Config, limiter: R.LimiterState, input: Input)
    ensures Possible(c, Init(limiter), Arrive(0, input))
    ensures After(c, Init(limiter), Arrive(0, input)) == Init(limiter).(reqs := map[0 := NewReq(input)])
  {
  }

  lemma DoubledTells(c: Config, s: System, steps: seq<Step>)
    requires Doubled(c, s, steps)
    ensures AllPossible(c, s, steps) && 0 in s.reqs && 0 in AfterAll(c, s, steps).reqs
    ensures AfterAll(c, s, steps).reqs[0].input == s.reqs[0].input && TwoNodes(AfterAll(c, s, steps).reqs[0])
  {
    hide AllPossible, AfterAll, TwoNodes;
  }
}
