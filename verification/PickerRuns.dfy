/** Runs of a Picker: any sequence of Pick, release and View calls, each with its own inputs. */
module PickerRuns {
  import opened PickerModel

  datatype Config = Config(isFresh: Freshness, viewNodes: seq<string>)

  /** Release(id) is one call of the function that the Pick of that id returned. */
  datatype Op =
    | Pick(model: string, exclude: set<string>, snap: Snapshot)
    | Release(id: nat)
    | View(snap: Snapshot)

  ghost function Step(c: Config, s: PickerState, op: Op): PickerState {
    match op
    case Pick(model, exclude, snap) => AfterPick(c.isFresh, s, model, exclude, snap)
    case Release(id) => AfterRelease(s, id)
    case View(snap) => AfterView(c.viewNodes, c.isFresh, s, snap)
  }

  ghost function Run(c: Config, s: PickerState, ops: seq<Op>): PickerState
    decreases |ops|
  {
    if ops == [] then s else Run(c, Step(c, s, ops[0]), ops[1..])
  }

  /** A closure exists only for an id that was handed out, so only those ids are ever released. */
  ghost predicate Legal(c: Config, s: PickerState, ops: seq<Op>)
    decreases |ops|
  {
    ops == [] ||
    ((ops[0].Release? ==> ops[0].id < s.nextID) && Legal(c, Step(c, s, ops[0]), ops[1..]))
  }

  ghost predicate IdsBelow(s: PickerState) {
    forall id | id in s.held :: id < s.nextID
  }

  /** Every reservation a run makes, by id, whether or not it was released since. */
  ghost function Issued(c: Config, s: PickerState, ops: seq<Op>): map<nat, Reservation>
    decreases |ops|
  {
    if ops == [] then map[]
    else
      var after := Step(c, s, ops[0]);
      (if ops[0].Pick? && s.nextID in after.held && s.nextID < after.nextID
       then map[s.nextID := after.held[s.nextID]] else map[])
      + Issued(c, after, ops[1..])
  }

  /** The ids whose release function a run calls at least once. */
  ghost function Released(ops: seq<Op>): set<nat> {
    if ops == [] then {}
    else (if ops[0].Release? then {ops[0].id} else {}) + Released(ops[1..])
  }

  lemma StepKeepsIdsBelow(c: Config, s: PickerState, op: Op)
    requires IdsBelow(s)
    ensures IdsBelow(Step(c, s, op)) && s.nextID <= Step(c, s, op).nextID <= s.nextID + 1
    ensures op.Pick? ==>
              (Step(c, s, op).nextID == s.nextID + 1 <==>
               PickChoice(c.isFresh, s, op.model, op.exclude, op.snap).Chose?)
    ensures var after := Step(c, s, op);
            op.Pick? && after.nextID == s.nextID + 1 ==>
              s.nextID in after.held && after.held == s.held[s.nextID := after.held[s.nextID]]
    ensures !(op.Pick? && Step(c, s, op).nextID == s.nextID + 1) ==>
              Step(c, s, op).held == s.held - (if op.Release? then {op.id} else {})
  {
    if op.Pick? && Loads(c.isFresh, s.held, op.model, op.exclude, op.snap) != map[] {
      var n := PickUnfolds(c.isFresh, s, op.model, op.exclude, op.snap);
    }
  }

  lemma {:induction false} IssuedAreNew(c: Config, s: PickerState, ops: seq<Op>)
    requires IdsBelow(s)
    ensures forall id | id in Issued(c, s, ops) :: s.nextID <= id < Run(c, s, ops).nextID
    ensures s.nextID <= Run(c, s, ops).nextID
    decreases |ops|
  {
    if ops != [] {
      StepKeepsIdsBelow(c, s, ops[0]);
      IssuedAreNew(c, Step(c, s, ops[0]), ops[1..]);
    }
  }

  lemma ReleaseThenIssue<V>(held: map<nat, V>, id: nat, later: map<nat, V>, released: set<nat>)
    requires id !in later
    ensures ((held - {id}) + later) - released == (held + later) - ({id} + released)
  {
  }

  lemma IssueThenIssue<V>(held: map<nat, V>, id: nat, r: V, later: map<nat, V>)
    ensures held[id := r] + later == held + (map[id := r] + later)
  {
  }

  /** One call more at the front of a run. */
  lemma HeldUnrolls(c: Config, s: PickerState, op: Op, later: map<nat, Reservation>, released: set<nat>)
    requires IdsBelow(s) && (op.Release? ==> op.id < s.nextID)
    requires forall id | id in later :: Step(c, s, op).nextID <= id
    ensures var after := Step(c, s, op);
            var issued := (if op.Pick? && s.nextID in after.held && s.nextID < after.nextID
                           then map[s.nextID := after.held[s.nextID]] else map[]) + later;
            var freed := (if op.Release? then {op.id} else {}) + released;
            (after.held + later) - released == (s.held + issued) - freed
  {
    StepKeepsIdsBelow(c, s, op);
    var after := Step(c, s, op);
    if op.Release? {
      ReleaseThenIssue(s.held, op.id, later, released);
      assert map[] + later == later;
    } else if op.Pick? && after.nextID == s.nextID + 1 {
      IssueThenIssue(s.held, s.nextID, after.held[s.nextID], later);
      assert {} + released == released;
    } else {
      assert map[] + later == later && {} + released == released;
    }
  }

  /**
   Whatever the order of calls and however often each release function is called, what is held is
   what was held or issued less what was released: ids are never reused, so a release removes its
   own reservation and no other, and a second call removes nothing.
   */
  lemma {:induction false} ReleasesRemoveTheirOwn(c: Config, s: PickerState, ops: seq<Op>)
    requires IdsBelow(s) && Legal(c, s, ops)
    ensures IdsBelow(Run(c, s, ops))
    ensures Run(c, s, ops).held == (s.held + Issued(c, s, ops)) - Released(ops)
    decreases |ops|
  {
    if ops != [] {
      var after := Step(c, s, ops[0]);
      StepKeepsIdsBelow(c, s, ops[0]);
      ReleasesRemoveTheirOwn(c, after, ops[1..]);
      IssuedAreNew(c, after, ops[1..]);
      HeldUnrolls(c, s, ops[0], Issued(c, after, ops[1..]), Released(ops[1..]));
    }
  }

  /** The choices a run makes for one model, in order. */
  ghost function Choices(c: Config, s: PickerState, ops: seq<Op>, model: string): seq<Choice>
    decreases |ops|
  {
    if ops == [] then []
    else
      (if ops[0].Pick? && ops[0].model == model
       then [PickChoice(c.isFresh, s, model, ops[0].exclude, ops[0].snap)] else [])
      + Choices(c, Step(c, s, ops[0]), ops[1..], model)
  }

  /** The nodes chosen, in order; "" where there was none. */
  ghost function Nodes(choices: seq<Choice>): seq<string> {
    if choices == [] then []
    else [if choices[0].Chose? then choices[0].target.node else ""] + Nodes(choices[1..])
  }

  /** How often a node was chosen. */
  ghost function Count(w: seq<string>, n: string): nat {
    if w == [] then 0 else (if w[0] == n then 1 else 0) + Count(w[1..], n)
  }
}
