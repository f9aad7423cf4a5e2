/** The sticky view over runs, and its agreement with Pick. */
module Views {
  import opened Options
  import Names
  import opened PickerModel
  import opened PickerRuns

  /** The names answered by successive View calls, given what each call found eligible. */
  ghost function Sights(viewNodes: seq<string>, view: string, eligible: seq<set<string>>): seq<Option<string>>
    decreases |eligible|
  {
    if eligible == [] then []
    else
      var next := NextView(viewNodes, view, eligible[0]);
      [next] + Sights(viewNodes, if next.None? then "" else next.value, eligible[1..])
  }

  /** What the View calls of a run answer, whatever Picks and releases come between them. */
  ghost function ViewAnswers(c: Config, s: PickerState, ops: seq<Op>): seq<Option<Target>>
    decreases |ops|
  {
    if ops == [] then []
    else
      (if ops[0].View? then [ViewChoice(c.viewNodes, c.isFresh, s, ops[0].snap)] else [])
      + ViewAnswers(c, Step(c, s, ops[0]), ops[1..])
  }

  ghost function EligibleAtViews(c: Config, ops: seq<Op>): seq<set<string>> {
    if ops == [] then []
    else (if ops[0].View? then [Reachable(c.isFresh, ops[0].snap)] else []) + EligibleAtViews(c, ops[1..])
  }

  ghost function NamesOf(answers: seq<Option<Target>>): seq<Option<string>> {
    if answers == [] then []
    else [if answers[0].None? then None else Some(answers[0].value.node)] + NamesOf(answers[1..])
  }

  /** Picks and releases leave the view alone: a run's answers depend on what its View calls saw. */
  lemma {:induction false} RunShowsSights(c: Config, s: PickerState, ops: seq<Op>)
    ensures NamesOf(ViewAnswers(c, s, ops)) == Sights(c.viewNodes, s.view, EligibleAtViews(c, ops))
    decreases |ops|
  {
    if ops != [] {
      RunShowsSights(c, Step(c, s, ops[0]), ops[1..]);
      if ops[0].View? {
        assert ViewAnswers(c, s, ops)[1..] == ViewAnswers(c, Step(c, s, ops[0]), ops[1..]);
        assert EligibleAtViews(c, ops)[1..] == EligibleAtViews(c, ops[1..]);
      } else {
        assert ViewAnswers(c, s, ops) == ViewAnswers(c, Step(c, s, ops[0]), ops[1..]);
        assert EligibleAtViews(c, ops) == EligibleAtViews(c, ops[1..]);
      }
    }
  }

  /** A name "" cannot be told from "no view", but it would be the least name anyway. */
  lemma EmptyNameIsLeast(eligible: set<string>)
    requires "" in eligible
    ensures Names.Least(eligible) == ""
  {
  }

  /**
   With no allowlist the answer is the least eligible name as it was when the present choice was
   made: at some call j the choice before it was ineligible (or there was none), the least name
   eligible then was taken, and from j on it has been eligible and the answer at every call.
   */
  lemma {:induction false} ViewSticks(view: string, eligible: seq<set<string>>, k: nat) returns (j: nat)
    requires k < |eligible| && eligible[k] != {} && view == ""
    ensures |Sights([], view, eligible)| == |eligible| && j <= k && eligible[j] != {}
    ensures forall i | j <= i <= k ::
              Names.Least(eligible[j]) in eligible[i] && Sights([], view, eligible)[i] == Some(Names.Least(eligible[j]))
    ensures j == 0 || Sights([], view, eligible)[j - 1].None? || Sights([], view, eligible)[j - 1].value !in eligible[j]
  {
    SightsUnroll([], view, eligible);
    var sights := Sights([], view, eligible);
    if k == 0 {
      j := 0;
      SightAt(view, eligible, 0);
    } else {
      SightAt(view, eligible, k);
      if sights[k - 1].Some? && sights[k - 1].value in eligible[k] {
        SightAt(view, eligible, k - 1);
        j := ViewSticks(view, eligible, k - 1);
      } else {
        j := k;
      }
    }
  }

  lemma {:induction false} SightsUnroll(viewNodes: seq<string>, view: string, eligible: seq<set<string>>)
    ensures |Sights(viewNodes, view, eligible)| == |eligible|
    decreases |eligible|
  {
    if eligible != [] {
      SightsUnroll(viewNodes, OrNone(NextView(viewNodes, view, eligible[0])), eligible[1..]);
    }
  }

  function OrNone(o: Option<string>): string { if o.None? then "" else o.value }

  lemma {:induction false} SightAtFrom(viewNodes: seq<string>, view: string, eligible: seq<set<string>>, k: nat)
    requires k < |eligible|
    ensures |Sights(viewNodes, view, eligible)| == |eligible|
    ensures Sights(viewNodes, view, eligible)[k]
         == NextView(viewNodes, if k == 0 then view else OrNone(Sights(viewNodes, view, eligible)[k - 1]), eligible[k])
    decreases k
  {
    SightsUnroll(viewNodes, view, eligible);
    if k > 0 {
      SightAtFrom(viewNodes, OrNone(NextView(viewNodes, view, eligible[0])), eligible[1..], k - 1);
    }
  }

  lemma SightAt(view: string, eligible: seq<set<string>>, k: nat)
    requires k < |eligible| && view == ""
    ensures |Sights([], view, eligible)| == |eligible|
    ensures var s := Sights([], view, eligible);
            && (s[k].None? <==> eligible[k] == {})
            && (eligible[k] != {} ==>
                  s[k] == (if k > 0 && s[k - 1].Some? && s[k - 1].value in eligible[k] then s[k - 1]
                           else Some(Names.Least(eligible[k]))))
  {
    SightAtFrom([], view, eligible, k);
    if "" in eligible[k] {
      EmptyNameIsLeast(eligible[k]);
    }
  }

  /** How often an answer names another node than the last answer that named one. */
  ghost function Switches(last: Option<string>, sights: seq<Option<string>>): nat
    decreases |sights|
  {
    if sights == [] then 0
    else if sights[0].None? then Switches(last, sights[1..])
    else (if last.Some? && sights[0] != last then 1 else 0) + Switches(sights[0], sights[1..])
  }

  /** How often a call found the node of the answer before it ineligible. */
  ghost function Losses(choice: Option<string>, sights: seq<Option<string>>, eligible: seq<set<string>>): nat
    requires |sights| == |eligible|
    decreases |sights|
  {
    if sights == [] then 0
    else (if choice.Some? && choice.value !in eligible[0] then 1 else 0) + Losses(sights[0], sights[1..], eligible[1..])
  }

  /** Call k found the node of the answer before it ineligible. */
  ghost predicate LostAt(choice: Option<string>, sights: seq<Option<string>>, eligible: seq<set<string>>, k: nat)
    requires |sights| == |eligible| && k < |sights|
  {
    var before := if k == 0 then choice else sights[k - 1];
    before.Some? && before.value !in eligible[k]
  }

  /** The calls that found the node of the answer before them ineligible. */
  ghost function LossesAt(choice: Option<string>, sights: seq<Option<string>>, eligible: seq<set<string>>): set<nat>
    requires |sights| == |eligible|
  {
    set k: nat | k < |sights| && LostAt(choice, sights, eligible, k)
  }

  lemma {:induction false} LossesByTheLast(choice: Option<string>, sights: seq<Option<string>>,
                                           eligible: seq<set<string>>)
    requires |sights| == |eligible| > 0
    ensures var n := |sights| - 1;
            Losses(choice, sights, eligible)
            == Losses(choice, sights[..n], eligible[..n]) + if LostAt(choice, sights, eligible, n) then 1 else 0
    decreases |sights|
  {
    var n := |sights| - 1;
    if n > 0 {
      LossesByTheLast(sights[0], sights[1..], eligible[1..]);
      assert sights[1..][..n - 1] == sights[..n][1..] && eligible[1..][..n - 1] == eligible[..n][1..];
      assert sights[..n][0] == sights[0] && eligible[..n][0] == eligible[0];
    }
  }

  lemma LostAtPrefix(choice: Option<string>, sights: seq<Option<string>>, eligible: seq<set<string>>, n: nat, k: nat)
    requires |sights| == |eligible| && k < n <= |sights|
    ensures LostAt(choice, sights[..n], eligible[..n], k) <==> LostAt(choice, sights, eligible, k)
  {
  }

  lemma LossesAtGrow(choice: Option<string>, sights: seq<Option<string>>, eligible: seq<set<string>>)
    requires |sights| == |eligible| > 0
    ensures var n := |sights| - 1;
            var front := LossesAt(choice, sights[..n], eligible[..n]);
            && n !in front
            && LossesAt(choice, sights, eligible) == front + if LostAt(choice, sights, eligible, n) then {n} else {}
  {
    hide LostAt;
    var n := |sights| - 1;
    forall k: nat | k < n
      ensures LostAt(choice, sights[..n], eligible[..n], k) <==> LostAt(choice, sights, eligible, k)
    {
      LostAtPrefix(choice, sights, eligible, n, k);
    }
  }

  lemma {:induction false} LossesAreCounted(choice: Option<string>, sights: seq<Option<string>>,
                                            eligible: seq<set<string>>)
    requires |sights| == |eligible|
    ensures Losses(choice, sights, eligible) == |LossesAt(choice, sights, eligible)|
    decreases |sights|
  {
    if sights == [] {
      assert LossesAt(choice, sights, eligible) == {};
    } else {
      hide Losses, LossesAt, LostAt;
      var n := |sights| - 1;
      LossesByTheLast(choice, sights, eligible);
      LossesAtGrow(choice, sights, eligible);
      LossesAreCounted(choice, sights[..n], eligible[..n]);
    }
  }

  /** No switch is counted exactly when every answer that names a node names the last one named. */
  lemma {:induction false} NoSwitchExactlyWhen(last: string, sights: seq<Option<string>>)
    ensures Switches(Some(last), sights) == 0 <==>
              forall k | 0 <= k < |sights| && sights[k].Some? :: sights[k].value == last
  {
    if sights != [] {
      NoSwitchExactlyWhen(last, sights[1..]);
      assert forall k | 0 < k < |sights| :: sights[k] == sights[1..][k - 1];
    }
  }

  /** A browser is moved to another node no more often than its node was found to be gone. */
  lemma {:induction false} SwitchesAreForced(last: Option<string>, choice: Option<string>, eligible: seq<set<string>>)
    requires choice == last || choice == None
    ensures |Sights([], OrNone(choice), eligible)| == |eligible|
    ensures Switches(last, Sights([], OrNone(choice), eligible))
         <= Losses(choice, Sights([], OrNone(choice), eligible), eligible) + if choice == last then 0 else 1
    decreases |eligible|
  {
    SightsUnroll([], OrNone(choice), eligible);
    if eligible != [] {
      var next := NextView([], OrNone(choice), eligible[0]);
      SwitchesAreForced(if next.Some? then next else last, next, eligible[1..]);
      assert Sights([], OrNone(choice), eligible)[1..] == Sights([], OrNone(next), eligible[1..]);
    }
  }

  /** With an allowlist the first eligible listed name is the answer, whatever was answered before. */
  lemma {:induction false} AllowlistDecides(viewNodes: seq<string>, view: string, eligible: set<string>, n: string)
    requires viewNodes != []
    ensures NextView(viewNodes, view, eligible) == Some(n) <==>
              exists i :: 0 <= i < |viewNodes| && viewNodes[i] == n && n in eligible
                          && forall j | 0 <= j < i :: viewNodes[j] !in eligible
    ensures NextView(viewNodes, view, eligible).None? <==> forall i | 0 <= i < |viewNodes| :: viewNodes[i] !in eligible
  {
    FirstListed(viewNodes, eligible);
    ListedSound(viewNodes, eligible);
    if i: nat :| i < |viewNodes| && viewNodes[i] in eligible {
      assert viewNodes[i] in Listed(viewNodes, eligible);
    }
  }

  lemma {:induction false} FirstListed(viewNodes: seq<string>, eligible: set<string>)
    ensures var listed := Listed(viewNodes, eligible);
            listed != [] ==>
              exists i :: 0 <= i < |viewNodes| && viewNodes[i] == listed[0] && listed[0] in eligible
                          && forall j | 0 <= j < i :: viewNodes[j] !in eligible
  {
    if viewNodes != [] && viewNodes[0] !in eligible {
      FirstListed(viewNodes[1..], eligible);
      var listed := Listed(viewNodes, eligible);
      if listed != [] {
        var i :| 0 <= i < |viewNodes[1..]| && viewNodes[1..][i] == listed[0] && listed[0] in eligible
                 && forall j | 0 <= j < i :: viewNodes[1..][j] !in eligible;
        assert viewNodes[i + 1] == listed[0];
        forall j | 0 <= j < i + 1 ensures viewNodes[j] !in eligible {
          if j > 0 { assert viewNodes[1..][j - 1] !in eligible; }
        }
      }
    } else if viewNodes != [] {
      assert viewNodes[0] == Listed(viewNodes, eligible)[0];
    }
  }

  /** On one snapshot every node Pick can choose is eligible to serve the view, at the same address. */
  lemma PickChoosesEligible(isFresh: Freshness, s: PickerState, model: string, exclude: set<string>, snap: Snapshot)
    ensures var choice := PickChoice(isFresh, s, model, exclude, snap);
            choice.Chose? ==>
              choice.target.node in Eligible(isFresh, snap)
                  && Eligible(isFresh, snap)[choice.target.node] == choice.target
  {
    PickChoiceServes(isFresh, s, model, exclude, snap);
  }

  /** So with no allowlist the model route finds no node at all exactly when no member qualifies. */
  lemma NoHealthyNodeExactlyWhen(isFresh: Freshness, s: PickerState, model: string, snap: Snapshot)
    ensures PickChoice(isFresh, s, model, {}, snap).NoNode? && ViewChoice([], isFresh, s, snap).None? <==>
              forall m | m in snap.members ::
                !(m.state == MemberAlive && !m.local && m.role == RoleNode && m.name in snap.reports
                  && isFresh(snap.reports[m.name], snap.now))
  {
    PickChoosesEligible(isFresh, s, model, {}, snap);
    if m: Member :| m in snap.members && Routable(m) && m.name in snap.reports
                    && isFresh(snap.reports[m.name], snap.now) {
      assert m.name in Reachable(isFresh, snap);
    }
  }

  /** The least name, spelled out: it is eligible, and it comes before every other eligible name. */
  lemma LeastComesFirst(eligible: set<string>)
    requires eligible != {}
    ensures var n := Names.Least(eligible);
            && n in eligible
            && forall m | m in eligible && m != n ::
                 n < m || exists k :: 0 <= k < |n| && k < |m| && n[..k] == m[..k] && n[k] < m[k]
  {
    var n := Names.Least(eligible);
    forall m | m in eligible && m != n
      ensures n < m || exists k :: 0 <= k < |n| && k < |m| && n[..k] == m[..k] && n[k] < m[k]
    {
      Names.LessIsLexicographic(n, m);
    }
  }

  /** With no allowlist and no view yet, the node answered for is the first eligible one in name order. */
  lemma FirstViewIsFirstName(isFresh: Freshness, s: PickerState, snap: Snapshot)
    requires s.view == "" && ViewChoice([], isFresh, s, snap).Some?
    ensures var n := ViewChoice([], isFresh, s, snap).value.node;
            forall m | m in Reachable(isFresh, snap) && m != n ::
              n < m || exists k :: 0 <= k < |n| && k < |m| && n[..k] == m[..k] && n[k] < m[k]
  {
    var eligible := Reachable(isFresh, snap);
    LeastComesFirst(eligible);
    if "" in eligible {
      EmptyNameIsLeast(eligible);
    }
  }
}
