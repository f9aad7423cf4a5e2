/**
 The load balancer of internal/fleet/picker.go as values: what a call sees, what it keeps, and
 what it decides. Nothing here sorts or loops; the class in Picker.dfy does, and is proved
 against these definitions.
 */
module PickerModel {
  import opened Options
  import Names
  import opened Sorting

  datatype MemberState = MemberAlive | MemberDead
  datatype Role = RoleNode | RoleGateway
  datatype Member = Member(name: string, state: MemberState, local: bool, role: Role)

  datatype ModelCapacity = ModelCapacity(slots: int, busy: int, healthyBackends: int) {
    function Free(): int { slots - busy }
  }

  datatype Report = Report(apiAddr: string, received: int, rtt: int, models: map<string, ModelCapacity>)

  /** capacity.Fresh with the gateway's staleAfter already applied: an input of the model. */
  type Freshness = (Report, int) -> bool

  /** What one call reads: the member table, the poller's reports, and the clock. */
  datatype Snapshot = Snapshot(members: seq<Member>, reports: map<string, Report>, now: int)

  datatype Target = Target(node: string, apiAddr: string)
  datatype Reservation = Reservation(node: string, model: string, at: int)

  datatype PickerState = PickerState(
    held: map<nat, Reservation>, nextID: nat, rotate: map<string, nat>, view: string)

  const INITIAL := PickerState(map[], 0, map[], "")

  predicate Routable(m: Member) {
    m.state == MemberAlive && !m.local && m.role == RoleNode
  }

  predicate DistinctNames(members: seq<Member>) {
    forall i, j | 0 <= i < j < |members| :: members[i].name != members[j].name
  }

  function NameSet(members: seq<Member>): set<string> { set m | m in members :: m.name }

  lemma NameSetGrows(members: seq<Member>, z: Member)
    ensures NameSet(members + [z]) == NameSet(members) + {z.name}
  {
  }

  lemma OneMoreName(members: seq<Member>, z: Member)
    ensures DistinctNames(members + [z]) <==> DistinctNames(members) && z.name !in NameSet(members)
  {
    var all := members + [z];
    assert forall i | 0 <= i < |members| :: all[i] == members[i] && members[i] in members;
    if z.name in NameSet(members) {
      var m :| m in members && m.name == z.name;
      var i :| 0 <= i < |members| && members[i] == m;
      assert all[i].name == all[|members|].name;
    }
  }

  /** Names are distinct when there are as many of them as members. */
  lemma {:induction false} DistinctNamesAreAsMany(members: seq<Member>)
    ensures DistinctNames(members) <==> |NameSet(members)| == |members|
  {
    NamesAtMost(members);
    if members != [] {
      var front, z := members[..|members| - 1], members[|members| - 1];
      assert members == front + [z];
      DistinctNamesAreAsMany(front);
      NamesAtMost(front);
      OneMoreName(front, z);
      NameSetGrows(front, z);
      hide DistinctNames, NameSet;
      if z.name in NameSet(front) {
        assert NameSet(front) + {z.name} == NameSet(front);
      }
    }
  }

  lemma {:induction false} NamesAtMost(members: seq<Member>)
    ensures |NameSet(members)| <= |members|
  {
    if members != [] {
      var front, z := members[..|members| - 1], members[|members| - 1];
      NamesAtMost(front);
      assert members == front + [z];
      NameSetGrows(front, z);
      hide NameSet;
    } else {
      assert NameSet(members) == {};
    }
  }

  /** The nodes that can be sent a request at all. */
  ghost function Reachable(isFresh: Freshness, snap: Snapshot): set<string> {
    set m | m in snap.members && Routable(m) && m.name in snap.reports
            && isFresh(snap.reports[m.name], snap.now) :: m.name
  }

  ghost function Eligible(isFresh: Freshness, snap: Snapshot): map<string, Target> {
    map n | n in Reachable(isFresh, snap) :: Target(n, snap.reports[n].apiAddr)
  }

  predicate Serves(rep: Report, model: string) {
    model in rep.models && rep.models[model].healthyBackends > 0
  }

  /** The nodes that can be sent a request for this model. */
  ghost function Serving(isFresh: Freshness, model: string, exclude: set<string>, snap: Snapshot): set<string> {
    set n | n in Reachable(isFresh, snap) && n !in exclude && Serves(snap.reports[n], model)
  }

  ghost function InFlight(held: map<nat, Reservation>, node: string, model: string): set<nat> {
    set id | id in held && held[id].node == node && held[id].model == model
  }

  /** The reservations a report received at this instant does not account for. */
  ghost function Charged(held: map<nat, Reservation>, node: string, model: string, received: int): set<nat> {
    set id | id in InFlight(held, node, model) && held[id].at > received
  }

  ghost function RawFree(held: map<nat, Reservation>, node: string, model: string, rep: Report): int
    requires model in rep.models
  {
    rep.models[model].Free() - |Charged(held, node, model, rep.received)|
  }

  datatype Load = Load(free: nat, rtt: int)

  function Clamp(x: int): nat { if x < 0 then 0 else x }

  ghost function LoadOf(held: map<nat, Reservation>, node: string, model: string, rep: Report): Load
    requires model in rep.models
  {
    Load(Clamp(RawFree(held, node, model, rep)), rep.rtt)
  }

  ghost function Loads(isFresh: Freshness, held: map<nat, Reservation>, model: string,
                       exclude: set<string>, snap: Snapshot): map<string, Load> {
    map n | n in Serving(isFresh, model, exclude, snap) :: LoadOf(held, n, model, snap.reports[n])
  }

  predicate Better(a: Load, b: Load) {
    a.free > b.free || (a.free == b.free && a.rtt < b.rtt)
  }

  /** The nodes that no other node beats on free slots, then on round-trip time. */
  ghost function Leaders(loads: map<string, Load>): set<string> {
    set n | n in loads && forall m | m in loads :: !Better(loads[m], loads[n])
  }

  lemma {:induction false} LeadersExist(loads: map<string, Load>)
    requires loads != map[]
    ensures Leaders(loads) != {}
    decreases |loads|
  {
    var n :| n in loads;
    var rest := loads - {n};
    if rest == map[] {
      assert forall m | m in loads :: m == n || m in rest;
      assert n in Leaders(loads);
    } else {
      LeadersExist(rest);
      var b :| b in Leaders(rest);
      assert forall m | m in loads :: m == n || m in rest;
      if Better(loads[n], loads[b]) {
        assert forall m | m in rest :: !Better(loads[m], loads[n]);
        assert n in Leaders(loads);
      } else {
        assert b in Leaders(loads);
      }
    }
  }

  function Rotation(rotate: map<string, nat>, model: string): nat {
    if model in rotate then rotate[model] else 0
  }

  datatype Choice = NoNode | Chose(target: Target, id: nat)

  /** The rotation index selects among the leaders, in name order. */
  ghost function Selected(loads: map<string, Load>, rotation: nat): (n: string)
    requires loads != map[]
    ensures n in Leaders(loads)
  {
    LeadersExist(loads);
    assert |Leaders(loads)| != 0;
    Names.Nth(Leaders(loads), rotation % |Leaders(loads)|)
  }

  ghost function PickChoice(isFresh: Freshness, s: PickerState, model: string,
                            exclude: set<string>, snap: Snapshot): Choice {
    var loads := Loads(isFresh, s.held, model, exclude, snap);
    if loads == map[] then NoNode
    else
      var n := Selected(loads, Rotation(s.rotate, model));
      Chose(Target(n, snap.reports[n].apiAddr), s.nextID)
  }

  ghost function AfterPick(isFresh: Freshness, s: PickerState, model: string,
                           exclude: set<string>, snap: Snapshot): PickerState {
    var loads := Loads(isFresh, s.held, model, exclude, snap);
    if loads == map[] then s
    else
      var n := Selected(loads, Rotation(s.rotate, model));
      var tied := |Leaders(loads)|;
      PickerState(
        s.held[s.nextID := Reservation(n, model, snap.now)],
        s.nextID + 1,
        if tied > 1 then s.rotate[model := (Rotation(s.rotate, model) + 1) % tied] else s.rotate,
        s.view)
  }

  /** PickChoice and AfterPick when there is a candidate, with the chosen node named. */
  lemma PickUnfolds(isFresh: Freshness, s: PickerState, model: string, exclude: set<string>, snap: Snapshot)
    returns (n: string)
    requires Loads(isFresh, s.held, model, exclude, snap) != map[]
    ensures var loads := Loads(isFresh, s.held, model, exclude, snap);
            && n in Leaders(loads) && Leaders(loads) != {}
            && n == Names.Nth(Leaders(loads), Rotation(s.rotate, model) % |Leaders(loads)|)
            && PickChoice(isFresh, s, model, exclude, snap) == Chose(Target(n, snap.reports[n].apiAddr), s.nextID)
            && AfterPick(isFresh, s, model, exclude, snap) == PickerState(
                 s.held[s.nextID := Reservation(n, model, snap.now)], s.nextID + 1,
                 if |Leaders(loads)| > 1
                 then s.rotate[model := (Rotation(s.rotate, model) + 1) % |Leaders(loads)|] else s.rotate,
                 s.view)
  {
    var loads := Loads(isFresh, s.held, model, exclude, snap);
    LeadersExist(loads);
    n := Selected(loads, Rotation(s.rotate, model));
  }

  function AfterRelease(s: PickerState, id: nat): PickerState {
    s.(held := s.held - {id})
  }

  /** The allowlist names that are eligible, in the operator's order. */
  ghost function Listed(viewNodes: seq<string>, eligible: set<string>): seq<string> {
    if viewNodes == [] then []
    else (if viewNodes[0] in eligible then [viewNodes[0]] else []) + Listed(viewNodes[1..], eligible)
  }

  /** The view node's name after a call, "" when there is none. */
  ghost function NextView(viewNodes: seq<string>, view: string, eligible: set<string>): Option<string> {
    if eligible == {} then None
    else if viewNodes != [] then
      var listed := Listed(viewNodes, eligible);
      if listed == [] then None else Some(listed[0])
    else if view in eligible then Some(view)
    else Some(Names.Least(eligible))
  }

  ghost function ViewChoice(viewNodes: seq<string>, isFresh: Freshness, s: PickerState,
                            snap: Snapshot): Option<Target> {
    var next := NextView(viewNodes, s.view, Reachable(isFresh, snap));
    if next.None? then None
    else Some(Target(next.value, if next.value in snap.reports then snap.reports[next.value].apiAddr else ""))
  }

  ghost function AfterView(viewNodes: seq<string>, isFresh: Freshness, s: PickerState, snap: Snapshot): PickerState {
    var next := NextView(viewNodes, s.view, Reachable(isFresh, snap));
    s.(view := if next.None? then "" else next.value)
  }

  lemma {:induction false} ListedSound(viewNodes: seq<string>, eligible: set<string>)
    ensures forall n :: n in Listed(viewNodes, eligible) <==> n in viewNodes && n in eligible
  {
    if viewNodes != [] {
      ListedSound(viewNodes[1..], eligible);
    }
  }

  lemma PickChoiceServes(isFresh: Freshness, s: PickerState, model: string, exclude: set<string>, snap: Snapshot)
    ensures var c := PickChoice(isFresh, s, model, exclude, snap);
            && (c.NoNode? <==>
                forall m | m in snap.members ::
                  !(&& Routable(m) && m.name !in exclude && m.name in snap.reports
                    && isFresh(snap.reports[m.name], snap.now) && Serves(snap.reports[m.name], model)))
            && (c.Chose? ==>
                && c.target.node in Serving(isFresh, model, exclude, snap)
                && c.target.apiAddr == snap.reports[c.target.node].apiAddr
                && forall n | n in Serving(isFresh, model, exclude, snap) ::
                     var best := LoadOf(s.held, c.target.node, model, snap.reports[c.target.node]);
                     var other := LoadOf(s.held, n, model, snap.reports[n]);
                     best.free > other.free || (best.free == other.free && best.rtt <= other.rtt))
  {
    var loads := Loads(isFresh, s.held, model, exclude, snap);
    if m: Member :| m in snap.members && Routable(m) && m.name !in exclude && m.name in snap.reports
                    && isFresh(snap.reports[m.name], snap.now) && Serves(snap.reports[m.name], model) {
      assert m.name in Reachable(isFresh, snap);
      assert m.name in loads;
    }
    if loads != map[] {
      var n := Selected(loads, Rotation(s.rotate, model));
      assert n in Leaders(loads);
      forall k | k in Serving(isFresh, model, exclude, snap) ensures !Better(loads[k], loads[n]) {
        assert k in loads;
      }
    }
  }

  /**
   Pick fails exactly when no member is alive, remote, a node, not excluded, freshly reported and with
   a healthy backend for the model; otherwise it chooses such a member, at its report's address, and no
   other has more free slots left, or as many and a lower round-trip time.
   */
  lemma PickChoiceMeetsSpec(isFresh: Freshness, s: PickerState, model: string, exclude: set<string>, snap: Snapshot)
    ensures PickChoice(isFresh, s, model, exclude, snap).NoNode? <==>
              forall m | m in snap.members ::
                !(&& m.state == MemberAlive && !m.local && m.role == RoleNode && m.name !in exclude
                  && m.name in snap.reports && isFresh(snap.reports[m.name], snap.now)
                  && model in snap.reports[m.name].models && snap.reports[m.name].models[model].healthyBackends > 0)
    ensures var c := PickChoice(isFresh, s, model, exclude, snap);
            c.Chose? ==>
              && (exists m :: && m in snap.members && m.name == c.target.node
                              && m.state == MemberAlive && !m.local && m.role == RoleNode && m.name !in exclude)
              && c.target.node in snap.reports
              && var chosen := snap.reports[c.target.node];
                 && isFresh(chosen, snap.now) && c.target.apiAddr == chosen.apiAddr
                 && model in chosen.models && chosen.models[model].healthyBackends > 0
                 && forall m | m in snap.members && m.state == MemberAlive && !m.local && m.role == RoleNode
                               && m.name !in exclude && m.name in snap.reports ::
                      var other := snap.reports[m.name];
                      isFresh(other, snap.now) && model in other.models && other.models[model].healthyBackends > 0 ==>
                        var best := LoadOf(s.held, c.target.node, model, chosen).free;
                        var rest := LoadOf(s.held, m.name, model, other).free;
                        best > rest || (best == rest && chosen.rtt <= other.rtt)
  {
    PickChoiceServes(isFresh, s, model, exclude, snap);
    hide PickChoice, LoadOf;
    forall m: Member | m in snap.members && Routable(m) && m.name !in exclude && m.name in snap.reports
      ensures isFresh(snap.reports[m.name], snap.now) && Serves(snap.reports[m.name], model) ==>
                m.name in Serving(isFresh, model, exclude, snap)
    {
      if isFresh(snap.reports[m.name], snap.now) && Serves(snap.reports[m.name], model) {
        assert m.name in Reachable(isFresh, snap);
      }
    }
    LoadKeepsRtt(s.held, model);
  }

  lemma LoadKeepsRtt(held: map<nat, Reservation>, model: string)
    ensures forall n, rep: Report | model in rep.models :: LoadOf(held, n, model, rep).rtt == rep.rtt
  {
  }

  /** The free slots that are compared: slots less busy less what the report does not count, or nothing. */
  lemma FreeIsWhatIsLeft(held: map<nat, Reservation>, node: string, model: string, rep: Report)
    requires model in rep.models
    ensures var later := set id | id in held && held[id].node == node && held[id].model == model
                                  && held[id].at > rep.received;
            var left := rep.models[model].slots - rep.models[model].busy - |later|;
            LoadOf(held, node, model, rep).free == if left > 0 then left else 0
  {
    assert Charged(held, node, model, rep.received)
        == set id | id in held && held[id].node == node && held[id].model == model && held[id].at > rep.received;
  }

  /** A model that was never rotated starts with the first of the leaders in name order. */
  lemma RotationStartsAtTheFirst(isFresh: Freshness, s: PickerState, model: string, exclude: set<string>,
                                 snap: Snapshot)
    requires PickChoice(isFresh, s, model, exclude, snap).Chose? && model !in s.rotate
    ensures var n := PickChoice(isFresh, s, model, exclude, snap).target.node;
            forall m | m in Leaders(Loads(isFresh, s.held, model, exclude, snap)) && m != n ::
              n < m || exists k :: 0 <= k < |n| && k < |m| && n[..k] == m[..k] && n[k] < m[k]
  {
    hide Loads, Leaders;
    var n := PickUnfolds(isFresh, s, model, exclude, snap);
    hide PickChoice, AfterPick;
    var leaders := Leaders(Loads(isFresh, s.held, model, exclude, snap));
    assert Names.Rank(leaders, n) == 0;
    Names.FirstInOrder(leaders, n);
  }

  /** The view is a member that can be reached, at its own report's address. */
  lemma ViewIsAReachableMember(viewNodes: seq<string>, isFresh: Freshness, s: PickerState, snap: Snapshot)
    ensures var v := ViewChoice(viewNodes, isFresh, s, snap);
            v.Some? ==>
              && v.value.node in snap.reports && v.value.apiAddr == snap.reports[v.value.node].apiAddr
              && isFresh(snap.reports[v.value.node], snap.now)
              && exists m :: && m in snap.members && m.name == v.value.node
                             && m.state == MemberAlive && !m.local && m.role == RoleNode
  {
    ListedSound(viewNodes, Reachable(isFresh, snap));
    if Listed(viewNodes, Reachable(isFresh, snap)) != [] {
      assert Listed(viewNodes, Reachable(isFresh, snap))[0] in Listed(viewNodes, Reachable(isFresh, snap));
    }
  }

  /** The order in which the member table lists the members does not matter. */
  lemma PickIgnoresMemberOrder(isFresh: Freshness, s: PickerState, model: string, exclude: set<string>,
                               a: Snapshot, b: Snapshot)
    requires multiset(a.members) == multiset(b.members) && a.reports == b.reports && a.now == b.now
    ensures PickChoice(isFresh, s, model, exclude, a) == PickChoice(isFresh, s, model, exclude, b)
    ensures AfterPick(isFresh, s, model, exclude, a) == AfterPick(isFresh, s, model, exclude, b)
  {
    SameElements(a.members, b.members);
    assert Reachable(isFresh, a) == Reachable(isFresh, b);
    assert Loads(isFresh, s.held, model, exclude, a) == Loads(isFresh, s.held, model, exclude, b);
  }
}
