/** What reservations are for: a burst between two capacity reports spreads level. */
module Burst {
  import opened PickerModel
  import opened PickerRuns

  /** A burst of Picks of one model at the given times, over reports that do not change. */
  ghost function Ops(model: string, exclude: set<string>, snap: Snapshot, times: seq<int>): seq<Op> {
    if times == [] then []
    else [Pick(model, exclude, snap.(now := times[0]))] + Ops(model, exclude, snap, times[1..])
  }

  /** Every Pick of the burst comes after every report was received and before any goes stale. */
  ghost predicate Between(isFresh: Freshness, snap: Snapshot, times: seq<int>) {
    forall k, n | 0 <= k < |times| && n in snap.reports ::
      && times[k] > snap.reports[n].received
      && (isFresh(snap.reports[n], times[k]) <==> isFresh(snap.reports[n], snap.now))
  }

  ghost function LoadsIn(c: Config, s: PickerState, model: string, exclude: set<string>, snap: Snapshot): map<string,
                         Load> {
    Loads(c.isFresh, s.held, model, exclude, snap)
  }

  /** The nodes that the Picks of the burst choose, in order. */
  ghost function Chosen(c: Config, s: PickerState, model: string, exclude: set<string>, snap: Snapshot,
                        times: seq<int>): seq<string> {
    Nodes(Choices(c, s, Ops(model, exclude, snap, times), model))
  }

  ghost function Total(loads: map<string, Load>): nat
    decreases |loads|
  {
    if loads == map[] then 0
    else
      var n :| n in loads;
      loads[n].free + Total(loads - {n})
  }

  lemma {:induction false} TotalSplits(loads: map<string, Load>, n: string)
    requires n in loads
    ensures Total(loads) == loads[n].free + Total(loads - {n})
    decreases |loads|
  {
    var m :| m in loads && Total(loads) == loads[m].free + Total(loads - {m});
    if m != n {
      TotalSplits(loads - {m}, n);
      TotalSplits(loads - {n}, m);
      assert loads - {m} - {n} == loads - {n} - {m};
    }
  }

  lemma TotalAfterUpdate(loads: map<string, Load>, n: string, l: Load)
    requires n in loads
    ensures Total(loads[n := l]) == Total(loads) - loads[n].free + l.free
  {
    TotalSplits(loads, n);
    TotalSplits(loads[n := l], n);
    assert loads[n := l] - {n} == loads - {n};
  }

  lemma {:induction false} NoFreeNoTotal(loads: map<string, Load>)
    requires forall n | n in loads :: loads[n].free == 0
    ensures Total(loads) == 0
    decreases |loads|
  {
    if loads != map[] {
      var n :| n in loads;
      TotalSplits(loads, n);
      NoFreeNoTotal(loads - {n});
    }
  }

  /** One Pick takes one effective slot from the node it chooses and changes no other node's load. */
  ghost function Taken(loads: map<string, Load>, n: string): map<string, Load>
    requires n in loads
  {
    loads[n := Load(Clamp(loads[n].free - 1), loads[n].rtt)]
  }

  lemma OneMoreCharged(held: map<nat, Reservation>, id: nat, n: string, m: string, model: string, now: int,
                       received: int)
    requires id !in held && now > received
    ensures |Charged(held[id := Reservation(n, model, now)], m, model, received)|
         == |Charged(held, m, model, received)| + if m == n then 1 else 0
  {
    assert Charged(held[id := Reservation(n, model, now)], m, model, received)
        == Charged(held, m, model, received) + if m == n then {id} else {};
  }

  lemma LoadsAfterReserve(isFresh: Freshness, held: map<nat, Reservation>, id: nat, n: string, model: string,
                          exclude: set<string>, snap: Snapshot, now: int)
    requires id !in held && forall m | m in snap.reports :: now > snap.reports[m].received
    requires n in Loads(isFresh, held, model, exclude, snap)
    ensures Loads(isFresh, held[id := Reservation(n, model, now)], model, exclude, snap)
         == Taken(Loads(isFresh, held, model, exclude, snap), n)
  {
    forall m | m in Serving(isFresh, model, exclude, snap)
      ensures LoadOf(held[id := Reservation(n, model, now)], m, model, snap.reports[m])
           == Taken(Loads(isFresh, held, model, exclude, snap), n)[m]
    {
      OneMoreCharged(held, id, n, m, model, now, snap.reports[m].received);
    }
  }

  lemma ClockDoesNotMatter(isFresh: Freshness, held: map<nat, Reservation>, model: string, exclude: set<string>,
                           snap: Snapshot, now: int)
    requires forall n | n in snap.reports :: isFresh(snap.reports[n], now) <==> isFresh(snap.reports[n], snap.now)
    ensures Loads(isFresh, held, model, exclude, snap.(now := now)) == Loads(isFresh, held, model, exclude, snap)
  {
    assert Reachable(isFresh, snap.(now := now)) == Reachable(isFresh, snap);
  }

  lemma PickTakesOne(c: Config, s: PickerState, model: string, exclude: set<string>, snap: Snapshot, now: int)
    requires IdsBelow(s) && Between(c.isFresh, snap, [now])
    requires LoadsIn(c, s, model, exclude, snap) != map[]
    ensures var n := Selected(LoadsIn(c, s, model, exclude, snap), Rotation(s.rotate, model));
            var after := Step(c, s, Pick(model, exclude, snap.(now := now)));
            && n in LoadsIn(c, s, model, exclude, snap)
            && LoadsIn(c, after, model, exclude, snap) == Taken(LoadsIn(c, s, model, exclude, snap), n)
            && IdsBelow(after)
            && PickChoice(c.isFresh, s, model, exclude, snap.(now := now))
               == Chose(Target(n, snap.reports[n].apiAddr), s.nextID)
  {
    forall n | n in snap.reports
      ensures now > snap.reports[n].received
      ensures c.isFresh(snap.reports[n], now) <==> c.isFresh(snap.reports[n], snap.now)
    {
      assert now == [now][0];
    }
    ClockDoesNotMatter(c.isFresh, s.held, model, exclude, snap, now);
    var n := PickUnfolds(c.isFresh, s, model, exclude, snap.(now := now));
    LoadsAfterReserve(c.isFresh, s.held, s.nextID, n, model, exclude, snap, now);
  }

  /** Each node taken from is a leader at the time. */
  ghost predicate Greedy(loads: map<string, Load>, picks: seq<string>)
    decreases |picks|
  {
    picks == [] || (picks[0] in Leaders(loads) && Greedy(Taken(loads, picks[0]), picks[1..]))
  }

  ghost function Play(loads: map<string, Load>, picks: seq<string>): map<string, Load>
    requires Greedy(loads, picks)
    decreases |picks|
  {
    if picks == [] then loads else Play(Taken(loads, picks[0]), picks[1..])
  }

  /** A burst of Picks is a greedy walk over the loads it starts from. */
  lemma {:induction false} BurstIsGreedy(c: Config, s: PickerState, model: string, exclude: set<string>,
                                         snap: Snapshot, times: seq<int>)
    requires IdsBelow(s) && Between(c.isFresh, snap, times)
    requires LoadsIn(c, s, model, exclude, snap) != map[]
    ensures var chosen := Chosen(c, s, model, exclude, snap, times);
            var loads := LoadsIn(c, s, model, exclude, snap);
            && |chosen| == |times| && Greedy(loads, chosen)
            && LoadsIn(c, Run(c, s, Ops(model, exclude, snap, times)), model, exclude, snap) == Play(loads, chosen)
    decreases |times|
  {
    if times != [] {
      var op := Pick(model, exclude, snap.(now := times[0]));
      BetweenHead(c.isFresh, snap, times);
      PickTakesOne(c, s, model, exclude, snap, times[0]);
      BurstIsGreedy(c, Step(c, s, op), model, exclude, snap, times[1..]);
      OpsHead(c, s, model, exclude, snap, times);
      var rest := Choices(c, Step(c, s, op), Ops(model, exclude, snap, times[1..]), model);
      assert Choices(c, s, Ops(model, exclude, snap, times), model)[1..] == rest;
      assert Chosen(c, s, model, exclude, snap, times)[1..] == Nodes(rest);
    }
  }

  /** A chosen node is left no more than one slot short of the best node. */
  ghost predicate Level(loads: map<string, Load>, chosen: set<string>) {
    forall n, m | n in chosen && n in loads && m in loads :: loads[m].free <= loads[n].free + 1
  }

  lemma TakingKeepsLevel(loads: map<string, Load>, chosen: set<string>, n: string)
    requires n in Leaders(loads) && Level(loads, chosen)
    ensures Level(Taken(loads, n), chosen + {n})
  {
    forall a, b | a in chosen + {n} && a in loads && b in loads
      ensures Taken(loads, n)[b].free <= Taken(loads, n)[a].free + 1
    {
      assert !Better(loads[b], loads[n]);
    }
  }

  /** A leader has a free slot as long as any node has. */
  lemma LeaderHasRoom(loads: map<string, Load>, n: string)
    requires n in Leaders(loads) && Total(loads) > 0
    ensures loads[n].free > 0
  {
    if loads[n].free == 0 {
      forall m | m in loads ensures loads[m].free == 0 {
        assert !Better(loads[m], loads[n]);
      }
      NoFreeNoTotal(loads);
    }
  }

  ghost function SetOf(w: seq<string>): set<string> {
    set n | n in w
  }

  lemma {:induction false} GreedyStaysLevel(loads: map<string, Load>, picks: seq<string>, before: set<string>)
    requires Greedy(loads, picks) && Level(loads, before)
    ensures Level(Play(loads, picks), before + SetOf(picks)) && Play(loads, picks).Keys == loads.Keys
    decreases |picks|
  {
    if picks == [] {
      assert before + SetOf([]) == before;
    } else {
      TakingKeepsLevel(loads, before, picks[0]);
      GreedyStaysLevel(Taken(loads, picks[0]), picks[1..], before + {picks[0]});
      assert before + SetOf(picks) == (before + {picks[0]}) + SetOf(picks[1..]);
    }
  }

  lemma {:induction false} GreedyTakesShares(loads: map<string, Load>, picks: seq<string>, node: string)
    requires Greedy(loads, picks) && |picks| <= Total(loads) && node in loads
    ensures var after := Play(loads, picks);
            && node in after && Count(picks, node) + after[node].free == loads[node].free
            && Total(after) + |picks| == Total(loads)
    decreases |picks|
  {
    if picks != [] {
      LeaderHasRoom(loads, picks[0]);
      TotalAfterUpdate(loads, picks[0], Taken(loads, picks[0])[picks[0]]);
      GreedyTakesShares(Taken(loads, picks[0]), picks[1..], node);
    }
  }

  /**
   Levelling. However many Picks arrive between two reports, each of them finds a node, and in the
   end no node has more than one effective slot more than any node that was chosen.
   */
  lemma BurstIsLevel(c: Config, s: PickerState, model: string, exclude: set<string>, snap: Snapshot, times: seq<int>)
    requires IdsBelow(s) && Between(c.isFresh, snap, times)
    requires LoadsIn(c, s, model, exclude, snap) != map[]
    ensures var chosen := Chosen(c, s, model, exclude, snap, times);
            var after := LoadsIn(c, Run(c, s, Ops(model, exclude, snap, times)), model, exclude, snap);
            && |chosen| == |times| && after.Keys == LoadsIn(c, s, model, exclude, snap).Keys
            && forall n, m | n in chosen && n in after && m in after :: after[m].free <= after[n].free + 1
  {
    BurstIsGreedy(c, s, model, exclude, snap, times);
    GreedyStaysLevel(LoadsIn(c, s, model, exclude, snap), Chosen(c, s, model, exclude, snap, times), {});
  }

  lemma BetweenHead(isFresh: Freshness, snap: Snapshot, times: seq<int>)
    requires Between(isFresh, snap, times) && times != []
    ensures Between(isFresh, snap, [times[0]]) && Between(isFresh, snap, times[1..])
  {
    forall n | n in snap.reports
      ensures times[0] > snap.reports[n].received
      ensures isFresh(snap.reports[n], times[0]) <==> isFresh(snap.reports[n], snap.now)
    {
    }
  }

  lemma OpsHead(c: Config, s: PickerState, model: string, exclude: set<string>, snap: Snapshot, times: seq<int>)
    requires times != []
    ensures Choices(c, s, Ops(model, exclude, snap, times), model)
         == [PickChoice(c.isFresh, s, model, exclude, snap.(now := times[0]))]
            + Choices(c, Step(c, s, Pick(model, exclude, snap.(now := times[0]))),
                      Ops(model, exclude, snap, times[1..]), model)
    ensures Run(c, s, Ops(model, exclude, snap, times))
         == Run(c, Step(c, s, Pick(model, exclude, snap.(now := times[0]))), Ops(model, exclude, snap, times[1..]))
  {
    assert Ops(model, exclude, snap, times)[1..] == Ops(model, exclude, snap, times[1..]);
  }

  /**
   Shares. While the burst is no longer than the effective slots it started with, each Pick takes
   exactly one of them: a node's effective free falls by the number of times it was chosen, so no
   node is sent more than it had room for, and the total falls by one per Pick.
   */
  lemma BurstTakesShares(c: Config, s: PickerState, model: string, exclude: set<string>, snap: Snapshot,
                         times: seq<int>, node: string)
    requires IdsBelow(s) && Between(c.isFresh, snap, times)
    requires |times| <= Total(LoadsIn(c, s, model, exclude, snap))
    requires node in LoadsIn(c, s, model, exclude, snap)
    ensures var chosen := Chosen(c, s, model, exclude, snap, times);
            var loads := LoadsIn(c, s, model, exclude, snap);
            var after := LoadsIn(c, Run(c, s, Ops(model, exclude, snap, times)), model, exclude, snap);
            && |chosen| == |times| && node in after
            && Count(chosen, node) + after[node].free == loads[node].free
            && Total(after) + |times| == Total(loads)
  {
    BurstIsGreedy(c, s, model, exclude, snap, times);
    GreedyTakesShares(LoadsIn(c, s, model, exclude, snap), Chosen(c, s, model, exclude, snap, times), node);
  }
}
