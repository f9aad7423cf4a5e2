/** One model's traffic does not disturb another's. */
module Isolation {
  import opened Options
  import Names
  import opened PickerModel
  import opened PickerRuns

  /** The calls of many callers; a caller is known by the model it asks for and a tag of its own. */
  datatype Call =
    | Ask(model: string, tag: nat, exclude: set<string>, snap: Snapshot)
    | GiveBack(model: string, tag: nat)
    | Look(snap: Snapshot)

  /** The picker, and the release function each caller holds: the id it closes over. */
  datatype World = World(s: PickerState, closures: map<(string, nat), nat>)

  ghost function After(c: Config, w: World, call: Call): World {
    match call
    case Ask(model, tag, exclude, snap) =>
      var choice := PickChoice(c.isFresh, w.s, model, exclude, snap);
      World(AfterPick(c.isFresh, w.s, model, exclude, snap),
            if choice.Chose? then w.closures[(model, tag) := choice.id] else w.closures - {(model, tag)})
    case GiveBack(model, tag) =>
      if (model, tag) in w.closures then w.(s := AfterRelease(w.s, w.closures[(model, tag)])) else w
    case Look(snap) => w.(s := AfterView(c.viewNodes, c.isFresh, w.s, snap))
  }

  ghost function AfterAll(c: Config, w: World, calls: seq<Call>): World
    decreases |calls|
  {
    if calls == [] then w else AfterAll(c, After(c, w, calls[0]), calls[1..])
  }

  ghost predicate Concerns(call: Call, model: string) {
    !call.Look? && call.model == model
  }

  /** The run with every call for another model, and every View, left out. */
  ghost function Erase(calls: seq<Call>, model: string): seq<Call> {
    if calls == [] then []
    else (if Concerns(calls[0], model) then [calls[0]] else []) + Erase(calls[1..], model)
  }

  /** What is left is the model's own calls, every one of them. */
  lemma {:induction false} ErasedAreItsOwn(calls: seq<Call>, model: string)
    ensures forall call | call in Erase(calls, model) :: !call.Look? && call.model == model
    ensures (forall call | call in calls :: !call.Look? && call.model == model) ==> Erase(calls, model) == calls
  {
    if calls != [] {
      ErasedAreItsOwn(calls[1..], model);
      assert calls == [calls[0]] + calls[1..];
      assert forall call :: call in calls <==> call == calls[0] || call in calls[1..];
    }
  }

  ghost function TargetOf(choice: Choice): (t: Option<Target>)
    ensures t.Some? <==> choice.Chose?
    ensures t.Some? ==> t.value == choice.target
  {
    if choice.Chose? then Some(choice.target) else None
  }

  /** What the callers of one model are answered, in order. */
  ghost function Answers(c: Config, w: World, calls: seq<Call>, model: string): seq<Option<Target>>
    decreases |calls|
  {
    if calls == [] then []
    else
      (if calls[0].Ask? && calls[0].model == model
       then [TargetOf(PickChoice(c.isFresh, w.s, model, calls[0].exclude, calls[0].snap))] else [])
      + Answers(c, After(c, w, calls[0]), calls[1..], model)
  }

  /** The reservations of one model in the full run are those of the erased run, renamed by f. */
  ghost predicate SameHeld(full: map<nat, Reservation>, erased: map<nat, Reservation>, f: map<nat, nat>,
                           model: string) {
    && Names.Injective(f)
    && (forall id | id in full && full[id].model == model :: id in f && f[id] in erased)
    && (forall id | id in f && f[id] in erased :: id in full && full[id] == erased[f[id]] && full[id].model == model)
    && (forall id | id in erased :: id in f.Values)
  }

  ghost predicate SameState(w: PickerState, e: PickerState, f: map<nat, nat>, model: string) {
    && Rotation(w.rotate, model) == Rotation(e.rotate, model)
    && IdsBelow(w) && IdsBelow(e)
    && (forall id | id in f :: id < w.nextID && f[id] < e.nextID)
    && SameHeld(w.held, e.held, f, model)
  }

  ghost predicate SameClosures(w: map<(string, nat), nat>, e: map<(string, nat), nat>, nextID: nat, f: map<nat, nat>,
                               model: string) {
    && (forall k | k in e :: k.0 == model ==> k in w)
    && (forall k | k in w ::
          w[k] < nextID && if k.0 == model then k in e && w[k] in f && f[w[k]] == e[k] else w[k] !in f)
  }

  ghost predicate Simulates(w: World, e: World, f: map<nat, nat>, model: string) {
    SameState(w.s, e.s, f, model) && SameClosures(w.closures, e.closures, w.s.nextID, f, model)
  }

  lemma SameCharge(full: map<nat, Reservation>, erased: map<nat, Reservation>, f: map<nat, nat>, model: string,
                   node: string, received: int)
    requires SameHeld(full, erased, f, model)
    ensures |Charged(full, node, model, received)| == |Charged(erased, node, model, received)|
  {
    var A := Charged(full, node, model, received);
    Names.ImageSize(A, f);
    forall b | b in Charged(erased, node, model, received) ensures b in set a | a in A :: f[a] {
      var a :| a in f && f[a] == b;
      assert a in A;
    }
    assert (set a | a in A :: f[a]) == Charged(erased, node, model, received);
  }

  lemma SameLoads(c: Config, full: map<nat, Reservation>, erased: map<nat, Reservation>, f: map<nat, nat>,
                  model: string,
                  exclude: set<string>, snap: Snapshot)
    requires SameHeld(full, erased, f, model)
    ensures Loads(c.isFresh, full, model, exclude, snap) == Loads(c.isFresh, erased, model, exclude, snap)
  {
    forall n | n in Serving(c.isFresh, model, exclude, snap)
      ensures LoadOf(full, n, model, snap.reports[n]) == LoadOf(erased, n, model, snap.reports[n])
    {
      SameCharge(full, erased, f, model, n, snap.reports[n].received);
    }
  }

  lemma SameStateAfterPick(c: Config, w: PickerState, e: PickerState, f: map<nat, nat>, model: string,
                           exclude: set<string>, snap: Snapshot)
    returns (g: map<nat, nat>)
    requires SameState(w, e, f, model)
    ensures var choice := PickChoice(c.isFresh, w, model, exclude, snap);
            var twin := PickChoice(c.isFresh, e, model, exclude, snap);
            && TargetOf(choice) == TargetOf(twin)
            && g == (if choice.Chose? then f[choice.id := twin.id] else f)
            && (choice.Chose? ==>
                  choice.id == w.nextID && AfterPick(c.isFresh, w, model, exclude, snap).nextID == w.nextID + 1)
    ensures w.nextID <= AfterPick(c.isFresh, w, model, exclude, snap).nextID
    ensures SameState(AfterPick(c.isFresh, w, model, exclude, snap),
                      AfterPick(c.isFresh, e, model, exclude, snap), g, model)
  {
    SameLoads(c, w.held, e.held, f, model, exclude, snap);
    g := f;
    if Loads(c.isFresh, w.held, model, exclude, snap) != map[] {
      var n := PickUnfolds(c.isFresh, w, model, exclude, snap);
      var m := PickUnfolds(c.isFresh, e, model, exclude, snap);
      g := f[w.nextID := e.nextID];
      ExtendState(w, e, f, model, Reservation(n, model, snap.now), AfterPick(c.isFresh, w, model, exclude, snap).rotate,
                  AfterPick(c.isFresh, e, model, exclude, snap).rotate);
    }
  }

  lemma ExtendState(w: PickerState, e: PickerState, f: map<nat, nat>, model: string, r: Reservation,
                    rw: map<string, nat>, re: map<string, nat>)
    requires SameState(w, e, f, model) && r.model == model && Rotation(rw, model) == Rotation(re, model)
    ensures SameState(PickerState(w.held[w.nextID := r], w.nextID + 1, rw, w.view),
                      PickerState(e.held[e.nextID := r], e.nextID + 1, re, e.view), f[w.nextID := e.nextID], model)
  {
    ExtendHeld(w, e, f, model, r);
  }

  lemma ExtendHeld(w: PickerState, e: PickerState, f: map<nat, nat>, model: string, r: Reservation)
    requires IdsBelow(w) && IdsBelow(e) && SameHeld(w.held, e.held, f, model) && r.model == model
    requires forall id | id in f :: id < w.nextID && f[id] < e.nextID
    ensures SameHeld(w.held[w.nextID := r], e.held[e.nextID := r], f[w.nextID := e.nextID], model)
  {
    var g := f[w.nextID := e.nextID];
    forall id | id in e.held[e.nextID := r] ensures id in g.Values {
      if id == e.nextID {
        assert g[w.nextID] == id;
      } else {
        var a :| a in f && f[a] == id;
        assert g[a] == id;
      }
    }
  }

  lemma ExtendClosures(w: map<(string, nat), nat>, e: map<(string, nat), nat>, nextID: nat, f: map<nat, nat>,
                       model: string,
                       tag: nat, twin: nat)
    requires SameClosures(w, e, nextID, f, model)
    ensures SameClosures(w[(model, tag) := nextID], e[(model, tag) := twin], nextID + 1, f[nextID := twin], model)
    ensures SameClosures(w - {(model, tag)}, e - {(model, tag)}, nextID, f, model)
  {
  }

  /** A kept Pick is answered alike, and extends the renaming by its own id. */
  lemma KeptAsk(c: Config, w: World, e: World, f: map<nat, nat>, call: Call) returns (g: map<nat, nat>)
    requires call.Ask? && Simulates(w, e, f, call.model)
    ensures TargetOf(PickChoice(c.isFresh, w.s, call.model, call.exclude, call.snap))
         == TargetOf(PickChoice(c.isFresh, e.s, call.model, call.exclude, call.snap))
    ensures Simulates(After(c, w, call), After(c, e, call), g, call.model)
  {
    var twin := PickChoice(c.isFresh, e.s, call.model, call.exclude, call.snap);
    g := SameStateAfterPick(c, w.s, e.s, f, call.model, call.exclude, call.snap);
    ExtendClosures(w.closures, e.closures, w.s.nextID, f, call.model, call.tag, if twin.Chose? then twin.id else 0);
  }

  lemma OtherPick(c: Config, w: PickerState, e: PickerState, f: map<nat, nat>, model: string, other: string,
                  exclude: set<string>, snap: Snapshot)
    requires SameState(w, e, f, model) && other != model
    ensures SameState(AfterPick(c.isFresh, w, other, exclude, snap), e, f, model)
    ensures w.nextID !in f && w.nextID <= AfterPick(c.isFresh, w, other, exclude, snap).nextID
    ensures var choice := PickChoice(c.isFresh, w, other, exclude, snap);
            choice.Chose? ==>
              choice.id == w.nextID && AfterPick(c.isFresh, w, other, exclude, snap).nextID == w.nextID + 1
  {
    if Loads(c.isFresh, w.held, other, exclude, snap) != map[] {
      var n := PickUnfolds(c.isFresh, w, other, exclude, snap);
    }
  }

  lemma OtherClosure(w: map<(string, nat), nat>, e: map<(string, nat), nat>, nextID: nat, f: map<nat, nat>,
                     model: string,
                     k: (string, nat))
    requires SameClosures(w, e, nextID, f, model) && nextID !in f && k.0 != model
    ensures SameClosures(w[k := nextID], e, nextID + 1, f, model) && SameClosures(w - {k}, e, nextID, f, model)
  {
  }

  /** A dropped call leaves everything about this model as it was. */
  lemma DroppedCall(c: Config, w: World, e: World, f: map<nat, nat>, call: Call, model: string)
    requires !Concerns(call, model) && Simulates(w, e, f, model)
    ensures Simulates(After(c, w, call), e, f, model)
  {
    if call.Ask? {
      OtherPick(c, w.s, e.s, f, model, call.model, call.exclude, call.snap);
      OtherClosure(w.closures, e.closures, w.s.nextID, f, model, (call.model, call.tag));
    }
  }

  lemma KeptGiveBack(c: Config, w: World, e: World, f: map<nat, nat>, call: Call)
    requires call.GiveBack? && Simulates(w, e, f, call.model)
    ensures Simulates(After(c, w, call), After(c, e, call), f, call.model)
  {
  }

  /**
   Non-interference. In any interleaving of any callers' calls, one model's callers are answered as
   they would be if no other model were ever asked for; so are its rotation and its reservations, up
   to the ids they happen to get.
   */
  lemma {:induction false} ModelsDoNotInterfere(c: Config, w: World, e: World, f: map<nat, nat>, calls: seq<Call>,
                                                model: string)
    returns (g: map<nat, nat>)
    requires Simulates(w, e, f, model)
    ensures Answers(c, w, calls, model) == Answers(c, e, Erase(calls, model), model)
    ensures Simulates(AfterAll(c, w, calls), AfterAll(c, e, Erase(calls, model)), g, model)
    decreases |calls|
  {
    if calls == [] {
      g := f;
    } else {
      var call, rest := calls[0], calls[1..];
      if Concerns(call, model) {
        assert Erase(calls, model)[1..] == Erase(rest, model);
        if call.Ask? {
          g := KeptAsk(c, w, e, f, call);
          g := ModelsDoNotInterfere(c, After(c, w, call), After(c, e, call), g, rest, model);
        } else {
          KeptGiveBack(c, w, e, f, call);
          g := ModelsDoNotInterfere(c, After(c, w, call), After(c, e, call), f, rest, model);
        }
      } else {
        DroppedCall(c, w, e, f, call, model);
        assert Erase(calls, model) == Erase(rest, model);
        g := ModelsDoNotInterfere(c, After(c, w, call), e, f, rest, model);
      }
    }
  }

  /** The same, said of a fresh picker. */
  lemma FreshPickerIsolatesModels(c: Config, calls: seq<Call>, model: string)
    ensures var start := World(INITIAL, map[]);
            var full, alone := AfterAll(c, start, calls), AfterAll(c, start, Erase(calls, model));
            && Answers(c, start, calls, model) == Answers(c, start, Erase(calls, model), model)
            && Rotation(full.s.rotate, model) == Rotation(alone.s.rotate, model)
            && exists f :: SameHeld(full.s.held, alone.s.held, f, model)
  {
    var start := World(INITIAL, map[]);
    var g := ModelsDoNotInterfere(c, start, start, map[], calls, model);
  }

  // ---- every run of a Picker is such a run of callers

  /** The calls behind a run: each Pick is a caller of its own, tagged with the id it would get. */
  ghost function CallsOf(c: Config, p: PickerState, ops: seq<Op>, modelOf: map<nat, string>): seq<Call>
    decreases |ops|
  {
    if ops == [] then []
    else
      var after := Step(c, p, ops[0]);
      match ops[0]
      case Pick(model, exclude, snap) =>
        [Ask(model, p.nextID, exclude, snap)]
        + CallsOf(c, after, ops[1..],
                  if PickChoice(c.isFresh, p, model, exclude, snap).Chose? then modelOf[p.nextID := model] else modelOf)
      case Release(id) =>
        (if id in modelOf then [GiveBack(modelOf[id], id)] else []) + CallsOf(c, after, ops[1..], modelOf)
      case View(snap) => [Look(snap)] + CallsOf(c, after, ops[1..], modelOf)
  }

  /** Each id that was handed out is the closure of the caller tagged with it. */
  ghost predicate Tagged(w: World, modelOf: map<nat, string>) {
    && IdsBelow(w.s)
    && (forall id: nat :: id in modelOf <==> id < w.s.nextID)
    && (forall id | id in modelOf :: (modelOf[id], id) in w.closures && w.closures[(modelOf[id], id)] == id)
  }

  ghost function TargetsOf(choices: seq<Choice>): seq<Option<Target>> {
    if choices == [] then [] else [TargetOf(choices[0])] + TargetsOf(choices[1..])
  }

  lemma OneCall(c: Config, w: World, op: Op, modelOf: map<nat, string>)
    requires Tagged(w, modelOf) && (op.Release? ==> op.id < w.s.nextID)
    ensures var call := (match op
                         case Pick(model, exclude, snap) => Ask(model, w.s.nextID, exclude, snap)
                         case Release(id) => GiveBack(modelOf[id], id)
                         case View(snap) => Look(snap));
            var later := if op.Pick? && PickChoice(c.isFresh, w.s, op.model, op.exclude, op.snap).Chose?
                         then modelOf[w.s.nextID := op.model] else modelOf;
            After(c, w, call).s == Step(c, w.s, op) && Tagged(After(c, w, call), later)
  {
    hide AfterPick, PickChoice;
    match op
    case Pick(model, exclude, snap) => OneAsk(c, w, model, exclude, snap, modelOf);
    case Release(id) => StepKeepsIdsBelow(c, w.s, op);
    case View(snap) => StepKeepsIdsBelow(c, w.s, op);
  }

  lemma OneAsk(c: Config, w: World, model: string, exclude: set<string>, snap: Snapshot, modelOf: map<nat, string>)
    requires Tagged(w, modelOf)
    ensures Tagged(After(c, w, Ask(model, w.s.nextID, exclude, snap)),
                   if PickChoice(c.isFresh, w.s, model, exclude, snap).Chose?
                   then modelOf[w.s.nextID := model] else modelOf)
  {
    StepKeepsIdsBelow(c, w.s, Pick(model, exclude, snap));
    PickIsNextID(c, w.s, model, exclude, snap);
    hide AfterPick, PickChoice, IdsBelow;
  }

  lemma PickIsNextID(c: Config, p: PickerState, model: string, exclude: set<string>, snap: Snapshot)
    ensures var choice := PickChoice(c.isFresh, p, model, exclude, snap);
            && (choice.Chose? ==>
                  choice.id == p.nextID && AfterPick(c.isFresh, p, model, exclude, snap).nextID == p.nextID + 1)
            && (choice.NoNode? ==> AfterPick(c.isFresh, p, model, exclude, snap) == p)
  {
    if PickChoice(c.isFresh, p, model, exclude, snap).Chose? {
      var n := PickUnfolds(c.isFresh, p, model, exclude, snap);
    }
  }

  lemma {:induction false} RunsAreCalls(c: Config, w: World, ops: seq<Op>, modelOf: map<nat, string>, model: string)
    requires Tagged(w, modelOf) && Legal(c, w.s, ops)
    ensures AfterAll(c, w, CallsOf(c, w.s, ops, modelOf)).s == Run(c, w.s, ops)
    ensures Answers(c, w, CallsOf(c, w.s, ops, modelOf), model) == TargetsOf(Choices(c, w.s, ops, model))
    decreases |ops|
  {
    if ops != [] {
      var op, calls := ops[0], CallsOf(c, w.s, ops, modelOf);
      OneCall(c, w, op, modelOf);
      assert |calls| > 0;
      var later := if op.Pick? && PickChoice(c.isFresh, w.s, op.model, op.exclude, op.snap).Chose?
                   then modelOf[w.s.nextID := op.model] else modelOf;
      var after := After(c, w, calls[0]);
      assert calls[1..] == CallsOf(c, after.s, ops[1..], later);
      RunsAreCalls(c, after, ops[1..], later, model);
      if op.Pick? && op.model == model {
        assert Choices(c, w.s, ops, model)[1..] == Choices(c, after.s, ops[1..], model);
      } else {
        assert Choices(c, w.s, ops, model) == Choices(c, after.s, ops[1..], model);
      }
    }
  }

  /** So in any run of a Picker a model's choices are those of the run without the other models. */
  lemma RunsIsolateModels(c: Config, ops: seq<Op>, model: string)
    requires Legal(c, INITIAL, ops)
    ensures TargetsOf(Choices(c, INITIAL, ops, model))
         == Answers(c, World(INITIAL, map[]), Erase(CallsOf(c, INITIAL, ops, map[]), model), model)
  {
    RunsAreCalls(c, World(INITIAL, map[]), ops, map[], model);
    FreshPickerIsolatesModels(c, CallsOf(c, INITIAL, ops, map[]), model);
  }
}
