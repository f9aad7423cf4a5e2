/** Reports and reservations together count every forward once. */
module Accounting {
  import opened PickerModel
  import opened PickerRuns

  /** What the gateway knows, and for each node what was in flight when its latest report was taken. */
  datatype World = World(s: PickerState, reports: map<string, Report>, heldAt: map<string, map<nat, Reservation>>)

  datatype Event =
    | Picked(model: string, exclude: set<string>, members: seq<Member>, now: int)
    | Given(id: nat)
    | Looked(members: seq<Member>, now: int)
    | Reported(node: string, rep: Report)

  ghost function After(c: Config, w: World, e: Event): World {
    match e
    case Picked(model, exclude, members, now) =>
      w.(s := AfterPick(c.isFresh, w.s, model, exclude, Snapshot(members, w.reports, now)))
    case Given(id) => w.(s := AfterRelease(w.s, id))
    case Looked(members, now) => w.(s := AfterView(c.viewNodes, c.isFresh, w.s, Snapshot(members, w.reports, now)))
    case Reported(node, rep) => w.(reports := w.reports[node := rep], heldAt := w.heldAt[node := w.s.held])
  }

  ghost function AfterAll(c: Config, w: World, es: seq<Event>): World
    decreases |es|
  {
    if es == [] then w else AfterAll(c, After(c, w, es[0]), es[1..])
  }

  /** A report's busy counts are this gateway's forwards in flight when it was received. */
  ghost predicate Truthful(held: map<nat, Reservation>, node: string, rep: Report) {
    forall model | model in rep.models :: rep.models[model].busy == |InFlight(held, node, model)|
  }

  /** A Pick is stamped after the report of the node it chose, a report after the reservations it counts. */
  ghost predicate Orderly(c: Config, w: World, e: Event) {
    match e
    case Picked(model, exclude, members, now) =>
      var choice := PickChoice(c.isFresh, w.s, model, exclude, Snapshot(members, w.reports, now));
      choice.Chose? && choice.target.node in w.reports ==> now > w.reports[choice.target.node].received
    case Given(id) => true
    case Looked(_, _) => true
    case Reported(node, rep) =>
      && Truthful(w.s.held, node, rep)
      && forall id | id in w.s.held && w.s.held[id].node == node :: w.s.held[id].at <= rep.received
  }

  ghost predicate AllOrderly(c: Config, w: World, es: seq<Event>)
    decreases |es|
  {
    es == [] || (Orderly(c, w, es[0]) && AllOrderly(c, After(c, w, es[0]), es[1..]))
  }

  ghost predicate Accounted(w: World) {
    && IdsBelow(w.s)
    && w.reports.Keys == w.heldAt.Keys
    && (forall n | n in w.reports ::
          && Truthful(w.heldAt[n], n, w.reports[n])
          && NodeAccounted(w.s, n, w.reports[n].received, w.heldAt[n]))
  }

  /** The reservations a report does not count are exactly those stamped after it was received. */
  ghost predicate NodeAccounted(s: PickerState, node: string, received: int, counted: map<nat, Reservation>) {
    && (forall id | id in counted :: id < s.nextID)
    && (forall id | id in s.held && id in counted :: s.held[id] == counted[id])
    && (forall id | id in s.held && s.held[id].node == node :: s.held[id].at > received <==> id !in counted)
  }

  lemma ReserveStaysAccounted(s: PickerState, r: Reservation, rotate: map<string, nat>, node: string, received: int,
                              counted: map<nat, Reservation>)
    requires IdsBelow(s) && NodeAccounted(s, node, received, counted)
    ensures NodeAccounted(PickerState(s.held[s.nextID := r], s.nextID + 1, rotate, s.view), node, received, counted)
       <==> (r.node == node ==> r.at > received)
  {
    var after := s.held[s.nextID := r];
    assert s.nextID !in counted && after[s.nextID] == r;
    assert forall id | id in s.held :: after[id] == s.held[id];
  }

  lemma WorldStaysAccounted(w: World, r: Reservation, rotate: map<string, nat>)
    requires Accounted(w) && r.node in w.reports
    ensures Accounted(w.(s := PickerState(w.s.held[w.s.nextID := r], w.s.nextID + 1, rotate, w.s.view)))
       <==> r.at > w.reports[r.node].received
  {
    hide NodeAccounted, Truthful;
    var after := PickerState(w.s.held[w.s.nextID := r], w.s.nextID + 1, rotate, w.s.view);
    forall m | m in w.reports
      ensures NodeAccounted(after, m, w.reports[m].received, w.heldAt[m])
         <==> (r.node == m ==> r.at > w.reports[m].received)
    {
      ReserveStaysAccounted(w.s, r, rotate, m, w.reports[m].received, w.heldAt[m]);
    }
  }

  /** What a Pick that chose a node did to the Picker. */
  lemma PickReserves(c: Config, p: PickerState, model: string, exclude: set<string>, snap: Snapshot)
    returns (r: Reservation, rotate: map<string, nat>)
    requires PickChoice(c.isFresh, p, model, exclude, snap).Chose?
    ensures r == Reservation(PickChoice(c.isFresh, p, model, exclude, snap).target.node, model, snap.now)
    ensures AfterPick(c.isFresh, p, model, exclude, snap)
         == PickerState(p.held[p.nextID := r], p.nextID + 1, rotate, p.view)
    ensures r.node in snap.reports && model in snap.reports[r.node].models
  {
    PickChoiceServes(c.isFresh, p, model, exclude, snap);
    var n := PickUnfolds(c.isFresh, p, model, exclude, snap);
    r, rotate := Reservation(n, model, snap.now), AfterPick(c.isFresh, p, model, exclude, snap).rotate;
  }

  lemma FailedPickKeeps(c: Config, p: PickerState, model: string, exclude: set<string>, snap: Snapshot)
    requires PickChoice(c.isFresh, p, model, exclude, snap).NoNode?
    ensures AfterPick(c.isFresh, p, model, exclude, snap) == p
  {
  }

  /**
   A Pick keeps the accounts exactly when it is stamped after the report of the node it chose: the
   one comparison that reading the clock before taking the lock can get wrong.
   */
  lemma PickAccountsExactlyWhen(c: Config, w: World, model: string, exclude: set<string>, snap: Snapshot)
    requires Accounted(w) && snap.reports == w.reports && PickChoice(c.isFresh, w.s, model, exclude, snap).Chose?
    ensures var n := PickChoice(c.isFresh, w.s, model, exclude, snap).target.node;
            && n in w.reports
            && (Accounted(w.(s := AfterPick(c.isFresh, w.s, model, exclude, snap))) <==>
                snap.now > w.reports[n].received)
  {
    hide Accounted, AfterPick, PickChoice;
    var r, rotate := PickReserves(c, w.s, model, exclude, snap);
    WorldStaysAccounted(w, r, rotate);
  }

  lemma ReleaseStaysAccounted(w: World, id: nat)
    requires Accounted(w)
    ensures Accounted(w.(s := AfterRelease(w.s, id)))
  {
    hide Truthful;
  }

  lemma ReportStaysAccounted(w: World, node: string, rep: Report)
    requires Accounted(w) && Truthful(w.s.held, node, rep)
    requires forall id | id in w.s.held && w.s.held[id].node == node :: w.s.held[id].at <= rep.received
    ensures Accounted(w.(reports := w.reports[node := rep], heldAt := w.heldAt[node := w.s.held]))
  {
    hide Truthful;
  }

  lemma LookStaysAccounted(c: Config, w: World, snap: Snapshot)
    requires Accounted(w)
    ensures Accounted(w.(s := AfterView(c.viewNodes, c.isFresh, w.s, snap)))
  {
    hide Truthful, NextView;
  }

  lemma StepStaysAccounted(c: Config, w: World, e: Event)
    requires Accounted(w) && Orderly(c, w, e)
    ensures Accounted(After(c, w, e))
  {
    hide Accounted, AfterPick, PickChoice, AfterRelease, AfterView, Truthful;
    match e
    case Picked(model, exclude, members, now) =>
      var snap := Snapshot(members, w.reports, now);
      if PickChoice(c.isFresh, w.s, model, exclude, snap).Chose? {
        PickAccountsExactlyWhen(c, w, model, exclude, snap);
      } else {
        FailedPickKeeps(c, w.s, model, exclude, snap);
      }
    case Given(id) => ReleaseStaysAccounted(w, id);
    case Looked(members, now) => LookStaysAccounted(c, w, Snapshot(members, w.reports, now));
    case Reported(node, rep) => ReportStaysAccounted(w, node, rep);
  }

  lemma {:induction false} RunStaysAccounted(c: Config, w: World, es: seq<Event>)
    requires Accounted(w) && AllOrderly(c, w, es)
    ensures Accounted(AfterAll(c, w, es))
    decreases |es|
  {
    if es != [] {
      StepStaysAccounted(c, w, es[0]);
      RunStaysAccounted(c, After(c, w, es[0]), es[1..]);
    }
  }

  /** Forwards the report counts that have ended since. */
  ghost function Gone(held: map<nat, Reservation>, counted: map<nat, Reservation>, node: string,
                      model: string): set<nat> {
    InFlight(counted, node, model) - InFlight(held, node, model)
  }

  /** Forwards in flight that neither the report nor the reservations charge. */
  ghost function Missed(held: map<nat, Reservation>, counted: map<nat, Reservation>, node: string, model: string,
                        received: int): set<nat> {
    InFlight(held, node, model) - InFlight(counted, node, model) - Charged(held, node, model, received)
  }

  /** Forwards in flight that both charge. */
  ghost function Doubled(held: map<nat, Reservation>, counted: map<nat, Reservation>, node: string, model: string,
                         received: int): set<nat> {
    InFlight(counted, node, model) * Charged(held, node, model, received)
  }

  /** With no assumption about clocks at all: how far Pick's figure is from the truth, exactly. */
  lemma ChargeIsExactUpTo(held: map<nat, Reservation>, counted: map<nat, Reservation>, node: string, model: string,
                          rep: Report)
    requires model in rep.models && Truthful(counted, node, rep)
    ensures RawFree(held, node, model, rep)
         == rep.models[model].slots - |InFlight(held, node, model)| - |Gone(held, counted, node, model)|
            - |Doubled(held, counted, node, model, rep.received)| + |Missed(held, counted, node, model, rep.received)|
  {
    CountBoth(InFlight(counted, node, model), InFlight(held, node, model), Charged(held, node, model, rep.received));
  }

  lemma DisjointSum<T>(X: set<T>, Y: set<T>)
    ensures |X| == |X * Y| + |X - Y|
  {
    assert X == X * Y + (X - Y);
  }

  lemma CountBoth(A: set<nat>, F: set<nat>, C: set<nat>)
    requires C <= F
    ensures |A| + |C| == |F| + |A - F| + |A * C| - |F - A - C|
  {
    DisjointSum(A, F);
    DisjointSum(F, C);
    DisjointSum(A * F, C);
    DisjointSum(F - C, A);
    SplitFourWays(A, F, C);
  }

  lemma SplitFourWays(A: set<nat>, F: set<nat>, C: set<nat>)
    requires C <= F
    ensures A * F * C == A * C && F * C == C && (F - C) * A == A * F - C && F - C - A == F - A - C
  {
  }

  /**
   No forward is charged twice and none is missed: over any orderly run the effective free slots
   Pick uses for a node are the slots less the forwards truly in flight there, less those the
   latest report still counts although they have ended, and never below zero.
   */
  lemma EveryForwardIsChargedOnce(c: Config, w: World, es: seq<Event>, node: string, model: string)
    requires Accounted(w) && AllOrderly(c, w, es)
    requires var end := AfterAll(c, w, es); node in end.reports && model in end.reports[node].models
    ensures var end := AfterAll(c, w, es);
            var rep := end.reports[node];
            var inFlight := |InFlight(end.s.held, node, model)|;
            && node in end.heldAt
            && LoadOf(end.s.held, node, model, rep).free
               == Clamp(rep.models[model].slots - inFlight - |Gone(end.s.held, end.heldAt[node], node, model)|)
            && LoadOf(end.s.held, node, model, rep).free <= Clamp(rep.models[model].slots - inFlight)
  {
    hide Accounted, AfterAll, AllOrderly, InFlight, Gone, Charged;
    RunStaysAccounted(c, w, es);
    AccountedIsExact(AfterAll(c, w, es), node, model);
  }

  lemma AccountedIsExact(w: World, node: string, model: string)
    requires Accounted(w) && node in w.reports && model in w.reports[node].models
    ensures node in w.heldAt
    ensures RawFree(w.s.held, node, model, w.reports[node])
         == w.reports[node].models[model].slots - |InFlight(w.s.held, node, model)|
            - |Gone(w.s.held, w.heldAt[node], node, model)|
  {
    ChargeIsExactUpTo(w.s.held, w.heldAt[node], node, model, w.reports[node]);
    AccountedMissesNothing(w.s, node, model, w.reports[node].received, w.heldAt[node]);
  }

  lemma AccountedMissesNothing(s: PickerState, node: string, model: string, received: int,
                               counted: map<nat, Reservation>)
    requires NodeAccounted(s, node, received, counted)
    ensures Missed(s.held, counted, node, model, received) == {}
        && Doubled(s.held, counted, node, model, received) == {}
  {
  }

  lemma OneMoreInFlight(held: map<nat, Reservation>, id: nat, r: Reservation)
    requires id !in held
    ensures InFlight(held[id := r], r.node, r.model) == InFlight(held, r.node, r.model) + {id}
    ensures id !in InFlight(held, r.node, r.model)
  {
  }

  lemma OneMoreCharged(held: map<nat, Reservation>, id: nat, r: Reservation, received: int)
    requires id !in held
    ensures Charged(held[id := r], r.node, r.model, received)
         == Charged(held, r.node, r.model, received) + (if r.at > received then {id} else {})
    ensures id !in Charged(held, r.node, r.model, received)
  {
    OneMoreInFlight(held, id, r);
  }

  lemma GoneStays(held: map<nat, Reservation>, counted: map<nat, Reservation>, id: nat, r: Reservation)
    requires id !in held && id !in counted
    ensures Gone(held[id := r], counted, r.node, r.model) == Gone(held, counted, r.node, r.model)
  {
    OneMoreInFlight(held, id, r);
    assert id !in InFlight(counted, r.node, r.model);
  }

  lemma OneMoreReservation(held: map<nat, Reservation>, counted: map<nat, Reservation>, id: nat, r: Reservation,
                           received: int)
    requires id !in held && id !in counted
    ensures |InFlight(held[id := r], r.node, r.model)| == |InFlight(held, r.node, r.model)| + 1
    ensures |Charged(held[id := r], r.node, r.model, received)|
         == |Charged(held, r.node, r.model, received)| + if r.at > received then 1 else 0
    ensures Gone(held[id := r], counted, r.node, r.model) == Gone(held, counted, r.node, r.model)
  {
    OneMoreInFlight(held, id, r);
    OneMoreCharged(held, id, r, received);
    GoneStays(held, counted, id, r);
    hide InFlight, Charged, Gone;
  }

  /**
   A Pick makes a node look freer than it is exactly when it is stamped no later than the report it
   reads, the report counts no forward that has ended, and the Pick saw a free slot to take.
   */
  lemma PickOverstatesExactlyWhen(c: Config, w: World, model: string, exclude: set<string>, snap: Snapshot)
    requires Accounted(w) && snap.reports == w.reports && PickChoice(c.isFresh, w.s, model, exclude, snap).Chose?
    ensures var n := PickChoice(c.isFresh, w.s, model, exclude, snap).target.node;
            var after := AfterPick(c.isFresh, w.s, model, exclude, snap);
            && n in w.reports && n in w.heldAt && model in w.reports[n].models
            && var rep := w.reports[n];
               (LoadOf(after.held, n, model, rep).free
                > Clamp(rep.models[model].slots - |InFlight(after.held, n, model)|) <==>
                  && snap.now <= rep.received && LoadOf(w.s.held, n, model, rep).free > 0
                  && Gone(w.s.held, w.heldAt[n], n, model) == {})
  {
    var r, rotate := PickReserves(c, w.s, model, exclude, snap);
    hide AfterPick, PickChoice, Charged, InFlight, Gone;
    var n := r.node;
    AccountedIsExact(w, n, model);
    NewIdIsNew(w, n);
    OneMoreReservation(w.s.held, w.heldAt[n], w.s.nextID, r, w.reports[n].received);
  }

  lemma NewIdIsNew(w: World, n: string)
    requires Accounted(w) && n in w.reports
    ensures w.s.nextID !in w.s.held && n in w.heldAt && w.s.nextID !in w.heldAt[n]
  {
  }

  // ---- such histories are runs of a Picker

  /** The Picker calls of a history; reports are not calls. */
  ghost function CallsOf(c: Config, w: World, es: seq<Event>): seq<Op>
    decreases |es|
  {
    if es == [] then []
    else
      (match es[0]
       case Picked(model, exclude, members, now) => [Pick(model, exclude, Snapshot(members, w.reports, now))]
       case Given(id) => [Release(id)]
       case Looked(members, now) => [View(Snapshot(members, w.reports, now))]
       case Reported(_, _) => [])
      + CallsOf(c, After(c, w, es[0]), es[1..])
  }

  lemma {:induction false} HistoriesAreRuns(c: Config, w: World, es: seq<Event>)
    ensures AfterAll(c, w, es).s == Run(c, w.s, CallsOf(c, w, es))
    decreases |es|
  {
    if es != [] {
      HistoriesAreRuns(c, After(c, w, es[0]), es[1..]);
      var ops := CallsOf(c, w, es);
      if es[0].Reported? {
        assert ops == CallsOf(c, After(c, w, es[0]), es[1..]);
      } else {
        assert ops[1..] == CallsOf(c, After(c, w, es[0]), es[1..]);
      }
    }
  }

  /**
   Pick reads its clock before it takes the lock. A report that is received in between counts
   nothing of this Pick and is not older than its stamp, so the next Pick sees a free slot on a
   node whose only slot is taken.
   */
  lemma ClockReadBeforeTheLockOverstates(isFresh: Freshness)
    requires isFresh(Report("a:8086", 6, 0, map["m" := ModelCapacity(1, 0, 1)]), 5)
    ensures var rep := Report("a:8086", 6, 0, map["m" := ModelCapacity(1, 0, 1)]);
            var snap := Snapshot([Member("a", MemberAlive, false, RoleNode)], map["a" := rep], 5);
            var s := AfterPick(isFresh, INITIAL, "m", {}, snap);
            && Truthful(INITIAL.held, "a", rep)
            && |InFlight(s.held, "a", "m")| == rep.models["m"].slots
            && LoadOf(s.held, "a", "m", rep).free == 1
  {
    var rep := Report("a:8086", 6, 0, map["m" := ModelCapacity(1, 0, 1)]);
    var snap := Snapshot([Member("a", MemberAlive, false, RoleNode)], map["a" := rep], 5);
    assert snap.members[0] in snap.members;
    assert "a" in Loads(isFresh, map[], "m", {}, snap);
    var n := PickUnfolds(isFresh, INITIAL, "m", {}, snap);
    var s := AfterPick(isFresh, INITIAL, "m", {}, snap);
    assert n == "a";
    assert InFlight(INITIAL.held, "a", "m") == {};
    assert InFlight(s.held, "a", "m") == {0};
    assert Charged(s.held, "a", "m", 6) == {};
  }
}
