/** The fairness of the tie-breaking rotation. */
module Rotation {
  import Names
  import opened PickerModel
  import opened PickerRuns

  /** Every Pick of this model in the run finds the same set of nodes tied for the lead. */
  ghost predicate AlwaysTied(c: Config, s: PickerState, ops: seq<Op>, model: string, tie: set<string>)
    decreases |ops|
  {
    ops == [] ||
    (&& (ops[0].Pick? && ops[0].model == model ==>
           var loads := Loads(c.isFresh, s.held, model, ops[0].exclude, ops[0].snap);
           loads != map[] && Leaders(loads) == tie)
     && AlwaysTied(c, Step(c, s, ops[0]), ops[1..], model, tie))
  }

  function Next(k: nat, x: nat): nat
    requires x < k
  {
    if x + 1 == k then 0 else x + 1
  }

  lemma MulMonotone(a: int, b: int, k: nat)
    ensures a <= b ==> a * k <= b * k
  {
  }

  lemma DivModUnique(a: int, q: int, m: nat, k: nat)
    requires a == q * k + m && m < k
    ensures a / k == q && a % k == m
  {
    MulMonotone(a / k + 1, q, k);
    MulMonotone(q + 1, a / k, k);
    assert a == (a / k) * k + a % k;
  }

  lemma ModStep(r: nat, k: nat)
    requires k > 0
    ensures r % k < k && ((r + 1) % k) % k == Next(k, r % k)
  {
    var q, m := r / k, r % k;
    assert r == q * k + m;
    if m + 1 == k {
      assert r + 1 == (q + 1) * k + 0;
      DivModUnique(r + 1, q + 1, 0, k);
    } else {
      DivModUnique(r + 1, q, m + 1, k);
    }
    DivModUnique((r + 1) % k, 0, (r + 1) % k, k);
  }

  /** The nodes visited by n steps around a cycle of k places, starting at place x. */
  ghost function Walk(tie: set<string>, x: nat, n: nat): (w: seq<string>)
    requires x < |tie|
    ensures |w| == n
    decreases n
  {
    if n == 0 then [] else [Names.Nth(tie, x)] + Walk(tie, Next(|tie|, x), n - 1)
  }

  lemma {:induction false} OtherOpsKeepRotation(c: Config, s: PickerState, op: Op, model: string)
    requires !(op.Pick? && op.model == model)
    ensures Rotation(Step(c, s, op).rotate, model) == Rotation(s.rotate, model)
  {
  }

  /**
   From any starting index, whatever else happens between them, Picks of one model that all find the
   same tie walk round it in name order: the index wraps at the tie's size and never leaves it.
   */
  lemma {:induction false} PicksWalkTheTie(c: Config, s: PickerState, ops: seq<Op>, model: string, tie: set<string>)
    requires tie != {} && AlwaysTied(c, s, ops, model, tie)
    ensures Rotation(s.rotate, model) % |tie| < |tie|
    ensures var chosen := Choices(c, s, ops, model);
            && (forall j | 0 <= j < |chosen| :: chosen[j].Chose?)
            && Nodes(chosen) == Walk(tie, Rotation(s.rotate, model) % |tie|, |chosen|)
    decreases |ops|
  {
    if ops != [] {
      var after := Step(c, s, ops[0]);
      PicksWalkTheTie(c, after, ops[1..], model, tie);
      if ops[0].Pick? && ops[0].model == model {
        TieStep(c, s, ops[0], tie);
        assert Choices(c, s, ops, model)[1..] == Choices(c, after, ops[1..], model);
      } else {
        OtherOpsKeepRotation(c, s, ops[0], model);
        assert Choices(c, s, ops, model) == Choices(c, after, ops[1..], model);
      }
    }
  }

  lemma TieStep(c: Config, s: PickerState, op: Op, tie: set<string>)
    requires op.Pick? && tie != {}
    requires var loads := Loads(c.isFresh, s.held, op.model, op.exclude, op.snap);
             loads != map[] && Leaders(loads) == tie
    ensures var choice := PickChoice(c.isFresh, s, op.model, op.exclude, op.snap);
            var x := Rotation(s.rotate, op.model) % |tie|;
            && choice.Chose? && choice.target.node == Names.Nth(tie, x)
            && Rotation(Step(c, s, op).rotate, op.model) % |tie| == Next(|tie|, x)
  {
    var n := PickUnfolds(c.isFresh, s, op.model, op.exclude, op.snap);
    ModStep(Rotation(s.rotate, op.model), |tie|);
  }

  /** Steps from place x to place i, going forward round the cycle. */
  function Distance(k: nat, x: nat, i: nat): nat
    requires x < k && i < k
  {
    if i >= x then i - x else i + k - x
  }

  /** n times k, by repeated addition. */
  function Rounds(n: nat, k: nat): nat {
    if n == 0 then 0 else k + Rounds(n - 1, k)
  }

  lemma {:induction false} RoundsMonotone(a: nat, b: nat, k: nat)
    requires a <= b
    ensures Rounds(a, k) <= Rounds(b, k)
    decreases b
  {
    if 0 < a {
      RoundsMonotone(a - 1, b - 1, k);
    }
  }

  ghost predicate HitBetween(hits: nat, n: nat, k: nat, d: nat) {
    d < k && Rounds(hits, k) <= n + k - 1 - d < Rounds(hits, k) + k
  }

  lemma {:induction false} WalkCounts(tie: set<string>, x: nat, n: nat, i: nat)
    requires x < |tie| && i < |tie|
    ensures HitBetween(Count(Walk(tie, x, n), Names.Nth(tie, i)), n, |tie|, Distance(|tie|, x, i))
    decreases n
  {
    var k := |tie|;
    if n > 0 {
      WalkCounts(tie, Next(k, x), n - 1, i);
      assert Walk(tie, x, n)[1..] == Walk(tie, Next(k, x), n - 1);
      assert Names.Rank(tie, Names.Nth(tie, x)) == x && Names.Rank(tie, Names.Nth(tie, i)) == i;
    }
  }

  lemma HitsOf(tie: set<string>, x: nat, n: nat, node: string) returns (d: nat)
    requires x < |tie| && node in tie
    ensures HitBetween(Count(Walk(tie, x, n), node), n, |tie|, d)
  {
    Names.RankBounded(tie, node);
    WalkCounts(tie, x, n, Names.Rank(tie, node));
    d := Distance(|tie|, x, Names.Rank(tie, node));
  }

  lemma HitsAreLevel(a: nat, b: nat, n: nat, k: nat, da: nat, db: nat)
    requires HitBetween(a, n, k, da) && HitBetween(b, n, k, db)
    ensures a <= b + 1
  {
    if a > b + 1 {
      RoundsMonotone(b + 2, a, k);
    }
  }

  lemma OneHitATurn(hits: nat, k: nat, d: nat)
    requires HitBetween(hits, k, k, d)
    ensures hits == 1
  {
    if hits > 1 {
      RoundsMonotone(2, hits, k);
    }
  }

  /** However many Picks share one tie, no two of its nodes are ever more than one request apart. */
  lemma RotationIsFair(c: Config, s: PickerState, ops: seq<Op>, model: string, tie: set<string>, a: string, b: string)
    requires tie != {} && AlwaysTied(c, s, ops, model, tie) && a in tie && b in tie
    ensures Count(Nodes(Choices(c, s, ops, model)), a) <= Count(Nodes(Choices(c, s, ops, model)), b) + 1
  {
    PicksWalkTheTie(c, s, ops, model, tie);
    var x, n := Rotation(s.rotate, model) % |tie|, |Choices(c, s, ops, model)|;
    var da := HitsOf(tie, x, n, a);
    var db := HitsOf(tie, x, n, b);
    HitsAreLevel(Count(Walk(tie, x, n), a), Count(Walk(tie, x, n), b), n, |tie|, da, db);
  }

  lemma WalkTurn(tie: set<string>, x: nat, n: nat, from: nat, node: string)
    requires x < |tie| && node in tie && from + |tie| <= n
    ensures Count(Walk(tie, x, n)[from..from + |tie|], node) == 1
  {
    var y := WalkWindow(tie, x, n, from, |tie|);
    var d := HitsOf(tie, y, |tie|, node);
    OneHitATurn(Count(Walk(tie, y, |tie|), node), |tie|, d);
  }

  /** Any k Picks in a row choose each of the k tied nodes exactly once. */
  lemma EveryTurnVisitsAll(c: Config, s: PickerState, ops: seq<Op>, model: string, tie: set<string>, from: nat,
                           node: string)
    requires tie != {} && AlwaysTied(c, s, ops, model, tie) && node in tie
    requires from + |tie| <= |Choices(c, s, ops, model)|
    ensures |Nodes(Choices(c, s, ops, model))| == |Choices(c, s, ops, model)|
    ensures Count(Nodes(Choices(c, s, ops, model))[from..from + |tie|], node) == 1
  {
    PicksWalkTheTie(c, s, ops, model, tie);
    WalkTurn(tie, Rotation(s.rotate, model) % |tie|, |Choices(c, s, ops, model)|, from, node);
  }

  lemma {:induction false} WalkWindow(tie: set<string>, x: nat, n: nat, from: nat, len: nat) returns (y: nat)
    requires x < |tie| && from + len <= n
    ensures y < |tie| && Walk(tie, x, n)[from..from + len] == Walk(tie, y, len)
    decreases from
  {
    if from == 0 {
      y := x;
      WalkPrefix(tie, x, n, len);
    } else {
      y := WalkWindow(tie, Next(|tie|, x), n - 1, from - 1, len);
      assert Walk(tie, x, n)[from..from + len] == Walk(tie, Next(|tie|, x), n - 1)[from - 1..from - 1 + len];
    }
  }

  lemma {:induction false} WalkPrefix(tie: set<string>, x: nat, n: nat, len: nat)
    requires x < |tie| && len <= n
    ensures Walk(tie, x, n)[..len] == Walk(tie, x, len)
    decreases n
  {
    if len > 0 {
      WalkPrefix(tie, Next(|tie|, x), n - 1, len - 1);
      assert Walk(tie, x, n)[..len] == [Names.Nth(tie, x)] + Walk(tie, Next(|tie|, x), n - 1)[..len - 1];
    }
  }
}
