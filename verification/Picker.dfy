/** internal/fleet/picker.go: the Picker object and the release function it hands out. */
module Picker {
  import opened Options
  import Names
  import opened Sorting
  import opened PickerModel

  datatype Candidate = Candidate(target: Target, free: nat, rtt: int) {
    function Score(): Load { Load(free, rtt) }
  }

  /** Free slots decide, then round-trip time; names only make the order total. */
  predicate Before(a: Candidate, b: Candidate) {
    if a.free != b.free then a.free > b.free
    else if a.rtt != b.rtt then a.rtt < b.rtt
    else Names.Less(a.target.node, b.target.node)
  }

  lemma BeforeIsStrictWeakOrder()
    ensures StrictWeakOrder(Before)
  {
    forall a: Candidate ensures !Before(a, a) {
      Names.LessTotal(a.target.node, a.target.node);
    }
    forall a: Candidate, b: Candidate, c: Candidate | Before(a, b) && Before(b, c) ensures Before(a, c) {
      if a.Score() == b.Score() == c.Score() {
        Names.LessTransitive(a.target.node, b.target.node, c.target.node);
      }
    }
    forall a: Candidate, b: Candidate, c: Candidate | Before(a, c) ensures Before(a, b) || Before(b, c) {
      Names.LessTotal(a.target.node, b.target.node);
      Names.LessTotal(b.target.node, c.target.node);
    }
  }

  /** One loop iteration's filter. */
  predicate Accepts(isFresh: Freshness, model: string, exclude: set<string>, snap: Snapshot, m: Member) {
    && Routable(m) && m.name !in exclude && m.name in snap.reports
    && isFresh(snap.reports[m.name], snap.now) && Serves(snap.reports[m.name], model)
  }

  /** The names of the members the loop keeps, in member order. */
  ghost function AcceptedNames(isFresh: Freshness, model: string, exclude: set<string>, snap: Snapshot,
                               members: seq<Member>): seq<string> {
    if members == [] then []
    else
      var m := members[|members| - 1];
      AcceptedNames(isFresh, model, exclude, snap, members[..|members| - 1])
      + if Accepts(isFresh, model, exclude, snap, m) then [m.name] else []
  }

  lemma {:induction false} AcceptedNamesSound(isFresh: Freshness, model: string, exclude: set<string>, snap: Snapshot,
                                              members: seq<Member>, n: string)
    ensures n in AcceptedNames(isFresh, model, exclude, snap, members) <==>
              exists m :: m in members && Accepts(isFresh, model, exclude, snap, m) && m.name == n
  {
    if members != [] {
      var front, m := members[..|members| - 1], members[|members| - 1];
      AcceptedNamesSound(isFresh, model, exclude, snap, front, n);
      assert members == front + [m];
      assert forall k :: k in members <==> k in front || k == m;
    }
  }

  lemma {:induction false} AcceptedNamesDistinct(isFresh: Freshness, model: string, exclude: set<string>,
                                                 snap: Snapshot,
                                                 members: seq<Member>)
    requires DistinctNames(members)
    ensures Distinct(AcceptedNames(isFresh, model, exclude, snap, members))
  {
    if members != [] {
      var front, m := members[..|members| - 1], members[|members| - 1];
      AcceptedNamesDistinct(isFresh, model, exclude, snap, front);
      AcceptedNamesSound(isFresh, model, exclude, snap, front, m.name);
    }
  }

  function NodesOf(cands: seq<Candidate>): (ns: seq<string>)
    ensures |ns| == |cands| && forall i | 0 <= i < |cands| :: ns[i] == cands[i].target.node
  {
    seq(|cands|, i requires 0 <= i < |cands| => cands[i].target.node)
  }

  /** A candidate built from its node's report. */
  ghost predicate FromReport(held: map<nat, Reservation>, model: string, snap: Snapshot, c: Candidate) {
    && c.target.node in snap.reports && model in snap.reports[c.target.node].models
    && c.target.apiAddr == snap.reports[c.target.node].apiAddr
    && c.Score() == LoadOf(held, c.target.node, model, snap.reports[c.target.node])
  }

  ghost predicate DistinctNodes(cands: seq<Candidate>) {
    forall i, j | 0 <= i < j < |cands| :: cands[i].target.node != cands[j].target.node
  }

  /** The candidate list carries exactly the loads of the specification; a member listed twice is there twice. */
  ghost predicate Covers(cands: seq<Candidate>, loads: map<string, Load>) {
    && (forall c | c in cands :: c.target.node in loads && loads[c.target.node] == c.Score())
    && (forall n | n in loads :: exists c :: c in cands && c.target.node == n)
  }

  /** And each node once. */
  ghost predicate Represents(cands: seq<Candidate>, loads: map<string, Load>) {
    DistinctNodes(cands) && Covers(cands, loads)
  }

  lemma CollectedRepresents(isFresh: Freshness, held: map<nat, Reservation>, model: string, exclude: set<string>,
                            snap: Snapshot, cands: seq<Candidate>)
    requires NodesOf(cands) == AcceptedNames(isFresh, model, exclude, snap, snap.members)
    requires forall c | c in cands :: FromReport(held, model, snap, c)
    ensures Covers(cands, Loads(isFresh, held, model, exclude, snap))
    ensures DistinctNames(snap.members) ==> Represents(cands, Loads(isFresh, held, model, exclude, snap))
  {
    hide LoadOf, DistinctNames;
    var ns := NodesOf(cands);
    forall n ensures n in ns <==> n in Serving(isFresh, model, exclude, snap) {
      AcceptedNamesSound(isFresh, model, exclude, snap, snap.members, n);
    }
    forall c | c in cands ensures c.target.node in ns {
      var i :| 0 <= i < |cands| && cands[i] == c;
      assert ns[i] == c.target.node;
    }
    forall n | n in ns ensures exists c :: c in cands && c.target.node == n {
      var i :| 0 <= i < |ns| && ns[i] == n;
      assert cands[i] in cands;
    }
    if DistinctNames(snap.members) {
      AcceptedNamesDistinct(isFresh, model, exclude, snap, snap.members);
      forall i, j | 0 <= i < j < |cands| ensures cands[i].target.node != cands[j].target.node {
        assert ns[i] != ns[j];
      }
    }
  }

  lemma EmptyTogether(cands: seq<Candidate>, loads: map<string, Load>)
    requires Covers(cands, loads)
    ensures cands == [] <==> loads == map[]
  {
    if cands != [] {
      assert cands[0] in cands;
    }
  }

  lemma PermutationRepresents(a: seq<Candidate>, b: seq<Candidate>, loads: map<string, Load>)
    requires multiset(a) == multiset(b) && Covers(a, loads)
    ensures Covers(b, loads) && (Represents(a, loads) ==> Represents(b, loads))
  {
    SameElements(a, b);
    if Represents(a, loads) {
      PermutationKeepsNodes(a, b);
    }
  }

  lemma PermutationKeepsNodes(a: seq<Candidate>, b: seq<Candidate>)
    requires multiset(a) == multiset(b) && DistinctNodes(a)
    ensures DistinctNodes(b)
  {
    SameElements(a, b);
    assert Distinct(a);
    PermutationKeepsDistinct(a, b);
    forall i, j | 0 <= i < j < |b| ensures b[i].target.node != b[j].target.node {
      assert b[i] in a && b[j] in a;
      var k :| 0 <= k < |a| && a[k] == b[i];
      var l :| 0 <= l < |a| && a[l] == b[j];
      assert b[i] != b[j];
      assert k != l;
    }
  }

  /** The prefix tied with the leader is the set of leaders, listed in name order. */
  lemma TiedPrefixIsLeaders(cands: seq<Candidate>, tied: nat, loads: map<string, Load>)
    requires Ordered(cands, Before) && Represents(cands, loads)
    requires 1 <= tied <= |cands|
    requires forall j | 0 <= j < tied :: cands[j].Score() == cands[0].Score()
    requires tied < |cands| ==> cands[tied].Score() != cands[0].Score()
    ensures |Leaders(loads)| == tied
    ensures forall i | 0 <= i < tied :: Names.Nth(Leaders(loads), i) == cands[i].target.node
  {
    var ns := NodesOf(cands[..tied]);
    forall i, j | 0 <= i < j < |ns| ensures Names.Less(ns[i], ns[j]) {
      Names.LessTotal(ns[i], ns[j]);
      assert !Before(cands[j], cands[i]);
    }
    LaterScoresAreWorse(cands, tied);
    forall n ensures n in ns <==> n in Leaders(loads) {
      LeadersAreTied(cands, tied, loads, n);
    }
    assert (set n | n in ns) == Leaders(loads);
    forall i | 0 <= i < tied ensures |Leaders(loads)| == tied && Names.Nth(Leaders(loads), i) == cands[i].target.node {
      Names.AscendingPositionIsRank(ns, i);
    }
    assert |Leaders(loads)| == tied by { Names.AscendingPositionIsRank(ns, 0); }
  }

  lemma LeadersAreTied(cands: seq<Candidate>, tied: nat, loads: map<string, Load>, n: string)
    requires Covers(cands, loads)
    requires 1 <= tied <= |cands|
    requires forall j | 0 <= j < tied :: cands[j].Score() == cands[0].Score()
    requires forall j | tied <= j < |cands| :: Better(cands[0].Score(), cands[j].Score())
    ensures n in NodesOf(cands[..tied]) <==> n in Leaders(loads)
  {
    var ns := NodesOf(cands[..tied]);
    if n in ns {
      var i :| 0 <= i < tied && ns[i] == n;
      assert cands[i] in cands;
      forall m | m in loads ensures !Better(loads[m], loads[n]) {
        var c :| c in cands && c.target.node == m;
      }
    }
    if n in Leaders(loads) {
      var c :| c in cands && c.target.node == n;
      var j :| 0 <= j < |cands| && cands[j] == c;
      assert cands[0] in cands;
      assert !Better(loads[cands[0].target.node], loads[n]);
      assert j < tied;
      assert ns[j] == n;
    }
  }

  lemma ChargedMember(held: map<nat, Reservation>, node: string, model: string, received: int, id: nat)
    ensures id in Charged(held, node, model, received) <==>
              id in held && held[id].node == node && held[id].model == model && held[id].at > received
    ensures Charged(held, node, model, received) <= held.Keys
  {
  }

  lemma CountOneMore(all: set<nat>, seen: set<nat>, id: nat)
    requires id !in seen
    ensures |all * (seen + {id})| == |all * seen| + if id in all then 1 else 0
  {
    if id in all {
      assert all * (seen + {id}) == (all * seen) + {id};
    } else {
      assert all * (seen + {id}) == all * seen;
    }
  }

  lemma LaterScoresAreWorse(cands: seq<Candidate>, tied: nat)
    requires Ordered(cands, Before) && 1 <= tied <= |cands|
    requires forall j | 0 <= j < tied :: cands[j].Score() == cands[0].Score()
    requires tied < |cands| ==> cands[tied].Score() != cands[0].Score()
    ensures forall j | tied <= j < |cands| :: Better(cands[0].Score(), cands[j].Score())
  {
    forall j | tied <= j < |cands| ensures Better(cands[0].Score(), cands[j].Score()) {
      assert !Before(cands[j], cands[0]) && !Before(cands[tied], cands[0]);
      assert j == tied || !Before(cands[j], cands[tied]);
    }
  }

  lemma TiedAreLeaders(cands: seq<Candidate>, tied: nat, loads: map<string, Load>)
    requires Ordered(cands, Before) && Covers(cands, loads) && 1 <= tied <= |cands|
    requires forall j | 0 <= j < tied :: cands[j].Score() == cands[0].Score()
    requires tied < |cands| ==> cands[tied].Score() != cands[0].Score()
    ensures forall i | 0 <= i < tied :: cands[i].target.node in Leaders(loads)
  {
    LaterScoresAreWorse(cands, tied);
    forall i | 0 <= i < tied ensures cands[i].target.node in Leaders(loads) {
      assert NodesOf(cands[..tied])[i] == cands[i].target.node;
      LeadersAreTied(cands, tied, loads, cands[i].target.node);
    }
  }

  /** Sorts the candidates and measures the prefix tied with the leader. */
  method Arrange(cands: seq<Candidate>, ghost loads: map<string, Load>) returns (sorted: seq<Candidate>, tied: nat)
    requires Covers(cands, loads) && |cands| > 0
    ensures 1 <= tied <= |sorted|
    ensures forall i | 0 <= i < tied :: sorted[i] in cands && sorted[i].target.node in Leaders(loads)
    ensures Represents(cands, loads) ==>
              tied == |Leaders(loads)|
              && forall i | 0 <= i < tied :: sorted[i].target.node == Names.Nth(Leaders(loads), i)
  {
    hide Covers, Represents, Leaders, Before;
    BeforeIsStrictWeakOrder();
    sorted := Sort(cands, Before);
    PermutationRepresents(cands, sorted, loads);
    SameElements(cands, sorted);
    tied := 1;
    while tied < |sorted| && sorted[tied].free == sorted[0].free && sorted[tied].rtt == sorted[0].rtt
      invariant 1 <= tied <= |sorted|
      invariant forall j | 0 <= j < tied :: sorted[j].Score() == sorted[0].Score()
    {
      tied := tied + 1;
    }
    TiedAreLeaders(sorted, tied, loads);
    if Represents(cands, loads) {
      TiedPrefixIsLeaders(sorted, tied, loads);
    }
  }

  /** The function Pick returns, as the object it is: a closure over one id, guarded by a sync.Once. */
  class Release {
    const picker: Picker
    const armed: bool
    const id: nat
    var done: bool

    constructor (picker: Picker, id: nat, armed: bool)
      ensures this.picker == picker && this.id == id && this.armed == armed && !done
    {
      this.picker, this.id, this.armed, done := picker, id, armed, false;
    }

    method Call()
      modifies this`done, picker`held
      ensures picker.State() == if armed && !old(done) then AfterRelease(old(picker.State()), id)
                                else old(picker.State())
      ensures done
    {
      if armed && !done {
        picker.held := picker.held - {id};
      }
      done := true;
    }
  }

  class Picker {
    const isFresh: Freshness
    const viewNodes: seq<string>
    var held: map<nat, Reservation>
    var nextID: nat
    var rotate: map<string, nat>
    var view: string

    constructor (isFresh: Freshness, viewNodes: seq<string>)
      ensures State() == INITIAL && this.isFresh == isFresh && this.viewNodes == viewNodes
    {
      this.isFresh, this.viewNodes := isFresh, viewNodes;
      held, nextID, rotate, view := map[], 0, map[], "";
    }

    ghost function State(): PickerState
      reads this
    {
      PickerState(held, nextID, rotate, view)
    }

    /** reservedLocked: counts by walking the whole table. */
    method Reserved(node: string, model: string, received: int) returns (n: nat)
      ensures n == |Charged(held, node, model, received)|
    {
      hide Charged;
      n := 0;
      var rest := held.Keys;
      ghost var seen: set<nat> := {};
      while rest != {}
        invariant rest <= held.Keys && seen == held.Keys - rest
        invariant n == |Charged(held, node, model, received) * seen|
        decreases |rest|
      {
        var id :| id in rest;
        var r := held[id];
        CountOneMore(Charged(held, node, model, received), seen, id);
        ChargedMember(held, node, model, received, id);
        if r.node == node && r.model == model && r.at > received {
          n := n + 1;
        }
        rest, seen := rest - {id}, seen + {id};
      }
      ChargedMember(held, node, model, received, 0);
      assert Charged(held, node, model, received) * seen == Charged(held, node, model, received);
    }

    method Collect(model: string, exclude: set<string>, snap: Snapshot) returns (cands: seq<Candidate>)
      ensures Covers(cands, Loads(isFresh, held, model, exclude, snap))
      ensures DistinctNames(snap.members) ==> Represents(cands, Loads(isFresh, held, model, exclude, snap))
      ensures cands == [] <==> Loads(isFresh, held, model, exclude, snap) == map[]
      ensures forall c | c in cands :: c.target.node in snap.reports
                                       && c.target.apiAddr == snap.reports[c.target.node].apiAddr
    {
      cands := [];
      for i := 0 to |snap.members|
        invariant NodesOf(cands) == AcceptedNames(isFresh, model, exclude, snap, snap.members[..i])
        invariant forall c | c in cands :: FromReport(held, model, snap, c)
      {
        var m := snap.members[i];
        assert snap.members[..i + 1][..i] == snap.members[..i];
        if Accepts(isFresh, model, exclude, snap, m) {
          var rep := snap.reports[m.name];
          var reserved := Reserved(m.name, model, rep.received);
          var free := rep.models[model].Free() - reserved;
          if free < 0 {
            free := 0;
          }
          cands := cands + [Candidate(Target(m.name, rep.apiAddr), free, rep.rtt)];
        }
      }
      assert snap.members[..|snap.members|] == snap.members;
      CollectedRepresents(isFresh, held, model, exclude, snap, cands);
      EmptyTogether(cands, Loads(isFresh, held, model, exclude, snap));
    }

    /** For any member table; where a name is listed twice, the rotation counts it twice. */
    method Pick(model: string, exclude: set<string>, snap: Snapshot)
      returns (target: Target, release: Release, ok: bool)
      modifies this
      ensures ok <==> PickChoice(isFresh, old(State()), model, exclude, snap).Chose?
      ensures !ok ==> State() == old(State())
      ensures ok ==> target.node in Leaders(Loads(isFresh, old(held), model, exclude, snap))
      ensures ok ==> target.node in snap.reports && target.apiAddr == snap.reports[target.node].apiAddr
      ensures ok ==> release.id == old(nextID) && nextID == old(nextID) + 1 && view == old(view)
      ensures ok ==> held == old(held)[old(nextID) := Reservation(target.node, model, snap.now)]
      ensures rotate - {model} == old(rotate) - {model}
      ensures DistinctNames(snap.members) ==>
                && State() == AfterPick(isFresh, old(State()), model, exclude, snap)
                && (ok ==> PickChoice(isFresh, old(State()), model, exclude, snap) == Chose(target, release.id))
      ensures fresh(release) && release.picker == this && release.armed == ok && !release.done
    {
      hide Loads, Leaders, Represents, Covers, DistinctNames;
      var cands := Collect(model, exclude, snap);
      ghost var loads := Loads(isFresh, held, model, exclude, snap);
      if |cands| == 0 {
        release := new Release(this, 0, false);
        return Target("", ""), release, false;
      }
      var sorted, tied := Arrange(cands, loads);
      ghost var n := PickUnfolds(isFresh, State(), model, exclude, snap);
      var i := if tied > 1 then Rotation(rotate, model) % tied else 0;
      assert DistinctNames(snap.members) ==> sorted[i].target.node == n;
      target := sorted[i].target;
      Commit(target.node, model, snap.now, tied);
      release := new Release(this, nextID - 1, true);
      ok := true;
    }

    /** The bookkeeping of a successful Pick: the rotation moves on only past a tie. */
    method Commit(node: string, model: string, now: int, tied: nat)
      requires tied > 0
      modifies this
      ensures State() == PickerState(
                old(held)[old(nextID) := Reservation(node, model, now)], old(nextID) + 1,
                if tied > 1 then old(rotate)[model := (Rotation(old(rotate), model) + 1) % tied] else old(rotate),
                old(view))
    {
      if tied > 1 {
        rotate := rotate[model := (Rotation(rotate, model) + 1) % tied];
      }
      var id := nextID;
      nextID := nextID + 1;
      held := held[id := Reservation(node, model, now)];
    }

    method View(snap: Snapshot) returns (target: Target, ok: bool)
      modifies this`view
      ensures ok <==> ViewChoice(viewNodes, isFresh, old(State()), snap).Some?
      ensures ok ==> ViewChoice(viewNodes, isFresh, old(State()), snap) == Some(target)
      ensures State() == AfterView(viewNodes, isFresh, old(State()), snap)
    {
      var eligible := FindEligible(snap);
      if |eligible| == 0 {
        view := "";
        return Target("", ""), false;
      }
      if |viewNodes| > 0 {
        for i := 0 to |viewNodes|
          invariant Listed(viewNodes, eligible.Keys) == Listed(viewNodes[i..], eligible.Keys)
          invariant view == old(view)
        {
          if viewNodes[i] in eligible {
            view := viewNodes[i];
            return eligible[view], true;
          }
        }
        view := "";
        return Target("", ""), false;
      }
      if view in eligible {
        return eligible[view], true;
      }
      view := LeastName(eligible.Keys);
      return eligible[view], true;
    }

    method FindEligible(snap: Snapshot) returns (eligible: map<string, Target>)
      ensures eligible == Eligible(isFresh, snap) && eligible.Keys == Reachable(isFresh, snap)
    {
      eligible := map[];
      for i := 0 to |snap.members|
        invariant eligible == Eligible(isFresh, snap.(members := snap.members[..i]))
      {
        var m := snap.members[i];
        assert snap.members[..i + 1] == snap.members[..i] + [m];
        if Routable(m) && m.name in snap.reports && isFresh(snap.reports[m.name], snap.now) {
          eligible := eligible[m.name := Target(m.name, snap.reports[m.name].apiAddr)];
          assert Reachable(isFresh, snap.(members := snap.members[..i + 1]))
              == Reachable(isFresh, snap.(members := snap.members[..i])) + {m.name};
        } else {
          assert Reachable(isFresh, snap.(members := snap.members[..i + 1]))
              == Reachable(isFresh, snap.(members := snap.members[..i]));
        }
      }
      assert snap.members[..|snap.members|] == snap.members;
    }
  }

  /** Copies the names out of the map, sorts them, takes the first. */
  method LeastName(names: set<string>) returns (n: string)
    requires names != {}
    ensures n == Names.Least(names)
    ensures forall m | m in names && m != n ::
              n < m || exists k :: 0 <= k < |n| && k < |m| && n[..k] == m[..k] && n[k] < m[k]
  {
    var list: seq<string> := [];
    var rest := names;
    while rest != {}
      invariant rest <= names
      invariant forall m :: m in names <==> m in rest || m in list
      decreases |rest|
    {
      var m :| m in rest;
      list, rest := list + [m], rest - {m};
    }
    Names.LessIsStrictWeakOrder();
    var sorted := Sort(list, Names.Less);
    SameElements(list, sorted);
    assert |sorted| > 0 by { var m :| m in names; assert m in sorted; }
    n := sorted[0];
    forall m | m in names && m != n ensures Names.Less(n, m) {
      var k :| 0 <= k < |sorted| && sorted[k] == m;
      assert !Names.Less(m, n);
      Names.LessTotal(n, m);
    }
    var l := Names.Least(names);
    assert n in names;
    Names.LessTotal(l, n);
    forall m | m in names && m != n
      ensures n < m || exists k :: 0 <= k < |n| && k < |m| && n[..k] == m[..k] && n[k] < m[k]
    {
      Names.LessIsLexicographic(n, m);
    }
  }
}
