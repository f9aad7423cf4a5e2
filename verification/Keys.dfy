/** internal/keys/keys.go: loading labelled keys from the environment, and looking them up. */
module Keys {
  import opened Options
  import Names
  import Sorting
  import opened Text

  const ENV_PREFIX: Str := "VIIWORK_KEY_"
  const MIN_KEY_LENGTH := 24

  datatype LoadError =
    | NoLabel
    | TooShort(owner: Str)
    | SameSecret(other: Str, owner: Str)
    | NoKeys

  datatype Result<+T> = Ok(value: T) | Err(error: LoadError)

  datatype KeySet = KeySet(byLabel: map<Str, Str>, labels: seq<Str>)

  datatype Entry = Entry(owner: Str, secret: Str)

  /** What one environment string configures, if it is a key variable with a value. */
  function EntryOf(kv: Str): Option<Entry> {
    if !(ENV_PREFIX <= kv) then None
    else
      var cut := Cut(kv, '=');
      if cut.None? then None
      else
        PrefixSurvivesCut(kv);
        Some(Entry(cut.value.0[|ENV_PREFIX|..], cut.value.1))
  }

  lemma PrefixSurvivesCut(kv: Str)
    requires ENV_PREFIX <= kv
    ensures Cut(kv, '=').Some? ==> ENV_PREFIX <= Cut(kv, '=').value.0
  {
    if Cut(kv, '=').Some? {
      assert forall i | 0 <= i < |ENV_PREFIX| :: kv[i] == ENV_PREFIX[i] != '=';
      var name := Cut(kv, '=').value.0;
      assert kv[|name|] == '=';
      assert ENV_PREFIX == kv[..|ENV_PREFIX|] == name[..|ENV_PREFIX|];
    }
  }

  /** What a variable configures: its name past the prefix is the label, its value the secret. */
  lemma VariableIsEntry(l: Str, v: Str)
    requires '=' !in l
    ensures EntryOf("VIIWORK_KEY_" + l + "=" + v) == Some(Entry(l, v))
  {
    var kv, name: Str := "VIIWORK_KEY_" + l + "=" + v, "VIIWORK_KEY_" + l;
    assert kv == name + ['='] + v;
    CutUnique(name, '=', v);
    assert name[|ENV_PREFIX|..] == l;
    assert kv[..|ENV_PREFIX|] == ENV_PREFIX;
  }

  /** And nothing else configures anything. */
  lemma EntryIsVariable(kv: Str)
    requires EntryOf(kv).Some?
    ensures '=' !in EntryOf(kv).value.owner
    ensures kv == "VIIWORK_KEY_" + EntryOf(kv).value.owner + "=" + EntryOf(kv).value.secret
  {
    PrefixSurvivesCut(kv);
    var name := Cut(kv, '=').value.0;
    assert name == name[..|ENV_PREFIX|] + name[|ENV_PREFIX|..];
    assert name[..|ENV_PREFIX|] == "VIIWORK_KEY_";
  }

  function Entries(environ: seq<Str>): seq<Entry> {
    if environ == [] then []
    else
      var front := Entries(environ[..|environ| - 1]);
      var last := EntryOf(environ[|environ| - 1]);
      if last.None? then front else front + [last.value]
  }

  /** What is wrong with entry k, in the order in which it is checked. */
  ghost function Fault(es: seq<Entry>, k: nat): Option<LoadError>
    requires k < |es|
  {
    if es[k].owner == [] then Some(NoLabel)
    else if |es[k].secret| < MIN_KEY_LENGTH then Some(TooShort(es[k].owner))
    else if j: nat :| j < k && es[j].secret == es[k].secret then
      Some(SameSecret(es[FirstWith(es, es[k].secret)].owner, es[k].owner))
    else None
  }

  ghost function FirstWith(es: seq<Entry>, secret: Str): (j: nat)
    requires exists j :: 0 <= j < |es| && es[j].secret == secret
    ensures j < |es| && es[j].secret == secret && forall i | 0 <= i < j :: es[i].secret != secret
  {
    if es[0].secret == secret then 0
    else
      assert exists j :: 0 <= j < |es[1..]| && es[1..][j].secret == secret by {
        var j :| 0 <= j < |es| && es[j].secret == secret;
        assert es[1..][j - 1].secret == secret;
      }
      FirstWith(es[1..], secret) + 1
  }

  /** Every entry is labelled and long enough, and no two have the same secret. */
  ghost predicate Sound(es: seq<Entry>) {
    && (forall k | 0 <= k < |es| :: es[k].owner != [] && |es[k].secret| >= MIN_KEY_LENGTH)
    && (forall j, k | 0 <= j < k < |es| :: es[j].secret != es[k].secret)
  }

  /** A label that is set twice keeps the later secret. */
  ghost function ByLabel(es: seq<Entry>): map<Str, Str> {
    if es == [] then map[] else ByLabel(es[..|es| - 1])[es[|es| - 1].owner := es[|es| - 1].secret]
  }

  ghost function Seen(es: seq<Entry>): map<Str, Str> {
    if es == [] then map[] else Seen(es[..|es| - 1])[es[|es| - 1].secret := es[|es| - 1].owner]
  }

  lemma {:induction false} SeenSound(es: seq<Entry>, secret: Str)
    requires Sound(es)
    ensures secret in Seen(es) <==> exists j :: 0 <= j < |es| && es[j].secret == secret
    ensures secret in Seen(es) ==> Seen(es)[secret] == es[FirstWith(es, secret)].owner
  {
    if es != [] {
      var front, z := es[..|es| - 1], es[|es| - 1];
      assert Sound(front);
      SeenSound(front, secret);
      if j :| 0 <= j < |es| && es[j].secret == secret {
        assert j == |es| - 1 || front[j].secret == secret;
        var f := FirstWith(es, secret);
        assert f == j;
        if secret in Seen(front) {
          var g := FirstWith(front, secret);
          assert es[g].secret == secret;
        }
      }
      if j :| 0 <= j < |front| && front[j].secret == secret {
        assert es[j].secret == secret;
      }
    }
  }

  lemma {:induction false} ByLabelComesFromEntries(es: seq<Entry>, l: Str)
    ensures l in ByLabel(es) <==> exists k :: 0 <= k < |es| && es[k].owner == l
    ensures l in ByLabel(es) ==> exists k :: 0 <= k < |es| && es[k] == Entry(l, ByLabel(es)[l])
  {
    if es != [] {
      var front, z := es[..|es| - 1], es[|es| - 1];
      ByLabelComesFromEntries(front, l);
      if z.owner == l {
        assert es[|es| - 1].owner == l;
      } else {
        if k :| 0 <= k < |front| && l in ByLabel(es) && front[k] == Entry(l, ByLabel(es)[l]) {
          assert es[k] == Entry(l, ByLabel(es)[l]);
        }
        if k :| 0 <= k < |es| && es[k].owner == l {
          assert front[k].owner == l;
        }
      }
    }
  }

  ghost predicate OneSecretEach(byLabel: map<Str, Str>) {
    forall a, b | a in byLabel && b in byLabel && byLabel[a] == byLabel[b] :: a == b
  }

  lemma SoundMeansOneSecretEach(es: seq<Entry>)
    requires Sound(es)
    ensures OneSecretEach(ByLabel(es))
  {
    forall a, b | a in ByLabel(es) && b in ByLabel(es) && ByLabel(es)[a] == ByLabel(es)[b] ensures a == b {
      ByLabelComesFromEntries(es, a);
      ByLabelComesFromEntries(es, b);
      var j :| 0 <= j < |es| && es[j] == Entry(a, ByLabel(es)[a]);
      var k :| 0 <= k < |es| && es[k] == Entry(b, ByLabel(es)[b]);
      assert j == k;
    }
  }

  /** No later entry sets this entry's label again. */
  ghost predicate Survives(es: seq<Entry>, k: nat)
    requires k < |es|
  {
    forall j | k < j < |es| :: es[j].owner != es[k].owner
  }

  lemma {:induction false} SurvivorIsInTable(es: seq<Entry>, k: nat)
    requires k < |es| && Survives(es, k)
    ensures es[k].owner in ByLabel(es) && ByLabel(es)[es[k].owner] == es[k].secret
    decreases |es|
  {
    if k < |es| - 1 {
      assert es[|es| - 1].owner != es[k].owner;
      SurvivorIsInTable(es[..|es| - 1], k);
    }
  }

  lemma {:induction false} TableHasSurvivor(es: seq<Entry>, l: Str) returns (k: nat)
    requires l in ByLabel(es)
    ensures k < |es| && Survives(es, k) && es[k] == Entry(l, ByLabel(es)[l])
    decreases |es|
  {
    k := |es| - 1;
    if es[k].owner != l {
      k := TableHasSurvivor(es[..|es| - 1], l);
    }
  }

  /** Two entries from j and k on share a secret. */
  ghost predicate Share(es: seq<Entry>, j: nat, k: nat) {
    j < k < |es| && es[j].secret == es[k].secret
  }

  /** Two labels of the table share a secret exactly when two entries that survive in it do. */
  lemma TableSharesExactlyWhen(es: seq<Entry>)
    ensures OneSecretEach(ByLabel(es)) <==>
              !exists j: nat, k: nat :: Share(es, j, k) && Survives(es, j) && Survives(es, k)
  {
    if OneSecretEach(ByLabel(es)) {
      forall j: nat, k: nat | Share(es, j, k) ensures !(Survives(es, j) && Survives(es, k)) {
        if Survives(es, j) && Survives(es, k) {
          SurvivorIsInTable(es, j);
          SurvivorIsInTable(es, k);
        }
      }
    } else {
      var a, b :| a in ByLabel(es) && b in ByLabel(es) && ByLabel(es)[a] == ByLabel(es)[b] && a != b;
      var j := TableHasSurvivor(es, a);
      var k := TableHasSurvivor(es, b);
      assert Share(es, j, k) || Share(es, k, j);
    }
  }

  ghost predicate WellFormed(es: seq<Entry>) {
    forall k | 0 <= k < |es| :: es[k].owner != [] && |es[k].secret| >= MIN_KEY_LENGTH
  }

  /**
   Load refuses more than tables in which two labels share a secret: it refuses a list for a secret
   that its table would not share exactly when two entries share one and no two that survive do.
   */
  lemma OverRefusesExactlyWhen(es: seq<Entry>)
    requires WellFormed(es)
    ensures !Sound(es) && OneSecretEach(ByLabel(es)) <==>
              && (exists j: nat, k: nat :: Share(es, j, k))
              && !(exists j: nat, k: nat :: Share(es, j, k) && Survives(es, j) && Survives(es, k))
  {
    TableSharesExactlyWhen(es);
    if !Sound(es) {
      var j, k :| 0 <= j < k < |es| && es[j].secret == es[k].secret;
      assert Share(es, j, k);
    }
  }

  /** Such a list: b is refused for sharing a secret with a, although a no longer has it. */
  lemma ReplacedSecretStaysTaken(old_: Str, new_: Str)
    requires |old_| >= MIN_KEY_LENGTH && |new_| >= MIN_KEY_LENGTH && old_ != new_
    ensures var es := [Entry("a", old_), Entry("a", new_), Entry("b", old_)];
            && OneSecretEach(ByLabel(es)) && ByLabel(es) == map["a" := new_, "b" := old_]
            && !Sound(es) && Fault(es, 2) == Some(SameSecret("a", "b"))
  {
    var es := [Entry("a", old_), Entry("a", new_), Entry("b", old_)];
    assert Share(es, 0, 2);
    assert es[0].owner == es[1].owner && !Survives(es, 0);
    OverRefusesExactlyWhen(es);
    SurvivorIsInTable(es, 1);
    SurvivorIsInTable(es, 2);
    ByLabelComesFromEntries(es, "a");
    assert ByLabel(es).Keys == {"a", "b"} by {
      forall l | l in ByLabel(es) ensures l == "a" || l == "b" {
        ByLabelComesFromEntries(es, l);
      }
    }
    assert FirstWith(es, old_) == 0;
  }

  /** Where every label is set once, what Load requires of the secrets is that no two labels share one. */
  lemma DistinctLabelsShareNothing(es: seq<Entry>)
    requires WellFormed(es)
    requires forall j, k | 0 <= j < k < |es| :: es[j].owner != es[k].owner
    ensures Sound(es) <==> OneSecretEach(ByLabel(es))
  {
    OverRefusesExactlyWhen(es);
    if Sound(es) {
      SoundMeansOneSecretEach(es);
    }
    assert forall k: nat | k < |es| :: Survives(es, k);
  }

  /** Every variable is listed once, as in the environment of a process. */
  ghost predicate NamesOnce(environ: seq<Str>) {
    forall i, j | 0 <= i < j < |environ| && Cut(environ[i], '=').Some? && Cut(environ[j], '=').Some? ::
      Cut(environ[i], '=').value.0 != Cut(environ[j], '=').value.0
  }

  /** One variable more: it has no name, or one that was not there. */
  lemma OneNameMore(environ: seq<Str>, kv: Str)
    ensures NamesOnce(environ + [kv]) <==>
              && NamesOnce(environ)
              && (Cut(kv, '=').Some? ==>
                    forall k | k in environ && Cut(k, '=').Some? :: Cut(k, '=').value.0 != Cut(kv, '=').value.0)
  {
    hide Cut;
    var all := environ + [kv];
    assert forall i | 0 <= i < |environ| :: all[i] == environ[i] && environ[i] in environ;
    if NamesOnce(all) && Cut(kv, '=').Some? {
      forall k | k in environ && Cut(k, '=').Some? ensures Cut(k, '=').value.0 != Cut(kv, '=').value.0 {
        var i: nat :| i < |environ| && environ[i] == k;
        assert all[i] == k && all[|environ|] == kv;
      }
    }
  }

  lemma {:induction false} EntriesComeFromNames(environ: seq<Str>, e: Entry) returns (i: nat)
    requires e in Entries(environ)
    ensures i < |environ| && EntryOf(environ[i]) == Some(e)
    decreases |environ|
  {
    i := |environ| - 1;
    if EntryOf(environ[i]) != Some(e) {
      i := EntriesComeFromNames(environ[..|environ| - 1], e);
    }
  }

  lemma {:induction false} NamesOnceLabelsOnce(environ: seq<Str>)
    requires NamesOnce(environ)
    ensures forall j, k | 0 <= j < k < |Entries(environ)| :: Entries(environ)[j].owner != Entries(environ)[k].owner
    decreases |environ|
  {
    if environ != [] {
      var front, kv := environ[..|environ| - 1], environ[|environ| - 1];
      assert forall i | 0 <= i < |front| :: front[i] == environ[i];
      NamesOnceLabelsOnce(front);
      hide EntryOf;
      if EntryOf(kv).Some? {
        forall e | e in Entries(front) ensures e.owner != EntryOf(kv).value.owner {
          var i := EntriesComeFromNames(front, e);
          assert front[i] == environ[i];
          OtherNameOtherLabel(environ[i], kv);
        }
      }
    }
  }

  lemma OtherNameOtherLabel(a: Str, b: Str)
    requires EntryOf(a).Some? && EntryOf(b).Some?
    ensures Cut(a, '=').Some? && Cut(b, '=').Some?
    ensures Cut(a, '=').value.0 != Cut(b, '=').value.0 ==> EntryOf(a).value.owner != EntryOf(b).value.owner
  {
    PrefixSurvivesCut(a);
    PrefixSurvivesCut(b);
    var x, y := Cut(a, '=').value.0, Cut(b, '=').value.0;
    assert x == ENV_PREFIX + x[|ENV_PREFIX|..] && y == ENV_PREFIX + y[|ENV_PREFIX|..];
  }

  lemma {:induction false} NamesMakeEntries(environ: seq<Str>, i: nat)
    requires i < |environ| && EntryOf(environ[i]).Some?
    ensures EntryOf(environ[i]).value in Entries(environ)
    decreases |environ|
  {
    if i < |environ| - 1 {
      NamesMakeEntries(environ[..|environ| - 1], i);
    }
  }

  /** On the environment of a process the table holds exactly the variables of the program's prefix. */
  lemma TableIsTheEnvironment(environ: seq<Str>, l: Str, v: Str)
    requires NamesOnce(environ) && '=' !in l
    ensures var table := ByLabel(Entries(environ));
            l in table && table[l] == v <==> "VIIWORK_KEY_" + l + "=" + v in environ
  {
    var es, kv := Entries(environ), "VIIWORK_KEY_" + l + "=" + v;
    if l in ByLabel(es) && ByLabel(es)[l] == v {
      var k := TableHasSurvivor(es, l);
      var i := EntriesComeFromNames(environ, es[k]);
      EntryIsVariable(environ[i]);
    }
    if i: nat :| i < |environ| && environ[i] == kv {
      VariableIsEntry(l, v);
      NamesMakeEntries(environ, i);
      NamesOnceLabelsOnce(environ);
      var k: nat :| k < |es| && es[k] == Entry(l, v);
      SurvivorIsInTable(es, k);
    }
  }

  /**
   On the environment of a process the check is exact: what Load requires of well-formed keys is
   that no two labels end up with one secret.
   */
  lemma ExactOnEnvironments(environ: seq<Str>)
    requires NamesOnce(environ) && WellFormed(Entries(environ))
    ensures Sound(Entries(environ)) <==> OneSecretEach(ByLabel(Entries(environ)))
  {
    NamesOnceLabelsOnce(environ);
    DistinctLabelsShareNothing(Entries(environ));
  }

  ghost predicate Valid(set_: KeySet) {
    && OneSecretEach(set_.byLabel)
    && (forall l :: l in set_.labels <==> l in set_.byLabel)
    && Names.StrictlyAscending(set_.labels)
  }

  /**
   Load succeeds exactly when there is a key and every key is labelled, long enough and has a secret
   of its own; otherwise it reports the first entry at fault. On success no two labels share a
   secret, and the labels are listed in order.
   */
  method Load(environ: seq<Str>) returns (r: Result<KeySet>)
    ensures r.Ok? <==> Entries(environ) != [] && Sound(Entries(environ))
    ensures r.Ok? ==> r.value.byLabel == ByLabel(Entries(environ)) && Valid(r.value)
    ensures r.Ok? ==> forall i, j | 0 <= i < j < |r.value.labels| :: Names.Less(r.value.labels[i], r.value.labels[j])
    ensures r.Ok? ==> forall l :: l in r.value.labels <==> l in r.value.byLabel
    ensures r.Ok? && NamesOnce(environ) ==>
              forall l: Str, v: Str | '=' !in l ::
                Secret(r.value, l) == Some(v) <==> "VIIWORK_KEY_" + l + "=" + v in environ
    ensures forall l: Str, v: Str | '=' !in l && "VIIWORK_KEY_" + l + "=" + v in environ ::
              l == [] || |v| < 24 ==> r.Err?
    ensures r.Err? && r.error == NoKeys ==> Entries(environ) == []
    ensures r.Err? && r.error != NoKeys ==>
              exists k :: 0 <= k < |Entries(environ)| && Fault(Entries(environ), k) == Some(r.error)
                          && forall j | 0 <= j < k :: Fault(Entries(environ), j) == None
  {
    var byLabel: map<Str, Str> := map[];
    var seen: map<Str, Str> := map[];
    assert Sound([]) && ByLabel([]) == map[] && Seen([]) == map[];
    hide Sound, Fault, Seen, ByLabel, EntryOf, Valid;
    ghost var all := Entries(environ);
    ghost var es: seq<Entry> := [];
    for i := 0 to |environ|
      invariant es == Entries(environ[..i]) && es <= all && Sound(es)
      invariant byLabel == ByLabel(es) && seen == Seen(es)
    {
      var entry := EntryOf(environ[i]);
      assert environ[..i + 1][..i] == environ[..i];
      EntriesArePrefix(environ, i + 1);
      if entry.None? {
        continue;
      }
      var e := entry.value;
      ghost var next := es + [e];
      ghost var k := |es|;
      assert next <= all && all[k] == e;
      SeenSound(es, e.secret);
      SoundHasNoFault(es, all);
      if e.owner == [] || |e.secret| < MIN_KEY_LENGTH || e.secret in seen {
        FaultIs(es, e, all);
        return Err(if e.owner == [] then NoLabel else if |e.secret| < MIN_KEY_LENGTH then TooShort(e.owner)
                   else SameSecret(seen[e.secret], e.owner));
      }
      SoundGrows(es, e);
      TablesGrow(es, e);
      seen := seen[e.secret := e.owner];
      byLabel := byLabel[e.owner := e.secret];
      es := next;
    }
    assert environ[..|environ|] == environ;
    if |byLabel| == 0 {
      assert es == [] by { if es != [] { ByLabelComesFromEntries(es, es[0].owner); } }
      return Err(NoKeys);
    }
    var labels := SortedKeys(byLabel);
    SoundMeansOneSecretEach(es);
    r := Ok(KeySet(byLabel, labels));
    assert Valid(r.value) by {
      TableIsValid(r.value);
    }
    LoadedIsConfigured(environ, r.value);
  }

  lemma {:induction false} EntriesArePrefix(environ: seq<Str>, i: nat)
    requires i <= |environ|
    ensures Entries(environ[..i]) <= Entries(environ)
    decreases |environ|
  {
    if i < |environ| {
      EntriesArePrefix(environ[..|environ| - 1], i);
      assert environ[..|environ| - 1][..i] == environ[..i];
    } else {
      assert environ[..i] == environ;
    }
  }

  lemma TablesGrow(es: seq<Entry>, e: Entry)
    ensures ByLabel(es + [e]) == ByLabel(es)[e.owner := e.secret] && Seen(es + [e]) == Seen(es)[e.secret := e.owner]
  {
    assert (es + [e])[..|es + [e]| - 1] == es;
  }

  lemma TableIsValid(table: KeySet)
    requires OneSecretEach(table.byLabel) && Names.StrictlyAscending(table.labels)
    requires forall l :: l in table.labels <==> l in table.byLabel
    ensures Valid(table)
  {
  }

  lemma SoundGrows(es: seq<Entry>, e: Entry)
    requires Sound(es) && e.owner != [] && |e.secret| >= MIN_KEY_LENGTH
    requires forall j | 0 <= j < |es| :: es[j].secret != e.secret
    ensures Sound(es + [e])
  {
  }

  lemma SoundHasNoFault(es: seq<Entry>, all: seq<Entry>)
    requires Sound(es) && es <= all
    ensures forall j | 0 <= j < |es| :: Fault(all, j) == None
  {
    forall j | 0 <= j < |es| ensures Fault(all, j) == None {
      assert all[j] == es[j];
      assert forall i | 0 <= i < j :: all[i] == es[i];
    }
  }

  lemma FaultIs(es: seq<Entry>, e: Entry, all: seq<Entry>)
    requires Sound(es) && es + [e] <= all
    requires e.owner == [] || |e.secret| < MIN_KEY_LENGTH || exists j :: 0 <= j < |es| && es[j].secret == e.secret
    ensures !Sound(all)
    ensures Fault(all, |es|) ==
              Some(if e.owner == [] then NoLabel else if |e.secret| < MIN_KEY_LENGTH then TooShort(e.owner)
                   else SameSecret(es[FirstWith(es, e.secret)].owner, e.owner))
  {
    var k := |es|;
    assert all[k] == e;
    if j :| 0 <= j < |es| && es[j].secret == e.secret {
      assert all[j] == es[j];
      var f, g := FirstWith(es, e.secret), FirstWith(all, e.secret);
      assert all[f] == es[f] && g <= f && all[g] == es[g];
      assert f == g;
    }
  }

  /** What a loaded set answers, and what cannot have been loaded. */
  lemma LoadedIsConfigured(environ: seq<Str>, table: KeySet)
    requires table.byLabel == ByLabel(Entries(environ)) && Sound(Entries(environ))
    ensures NamesOnce(environ) ==>
              forall l: Str, v: Str | '=' !in l ::
                Secret(table, l) == Some(v) <==> "VIIWORK_KEY_" + l + "=" + v in environ
    ensures forall l: Str, v: Str | '=' !in l && "VIIWORK_KEY_" + l + "=" + v in environ :: l != [] && |v| >= 24
  {
    if NamesOnce(environ) {
      forall l: Str, v: Str | '=' !in l
        ensures Secret(table, l) == Some(v) <==> "VIIWORK_KEY_" + l + "=" + v in environ
      {
        TableIsTheEnvironment(environ, l, v);
      }
    }
    forall l: Str, v: Str | '=' !in l && "VIIWORK_KEY_" + l + "=" + v in environ ensures l != [] && |v| >= 24 {
      VariableIsEntry(l, v);
      var i: nat :| i < |environ| && environ[i] == "VIIWORK_KEY_" + l + "=" + v;
      NamesMakeEntries(environ, i);
      var k: nat :| k < |Entries(environ)| && Entries(environ)[k] == Entry(l, v);
    }
  }

  method SortedKeys(byLabel: map<Str, Str>) returns (labels: seq<Str>)
    ensures (forall l :: l in labels <==> l in byLabel) && Names.StrictlyAscending(labels)
  {
    var list: seq<string> := [];
    var rest: set<Str> := byLabel.Keys;
    while rest != {}
      invariant rest <= byLabel.Keys
      invariant forall l :: l in list ==> l in byLabel
      invariant forall l :: l in byLabel ==> l in rest || l in list
      invariant Sorting.Distinct(list) && forall l | l in list :: l !in rest
      decreases |rest|
    {
      var l: Str :| l in rest;
      list, rest := list + [l], rest - {l};
    }
    Names.LessIsStrictWeakOrder();
    var sorted := Sorting.Sort<string>(list, Names.Less);
    Sorting.SameElements(list, sorted);
    Sorting.PermutationKeepsDistinct(list, sorted);
    forall i, j | 0 <= i < j < |sorted| ensures Names.Less(sorted[i], sorted[j]) {
      Names.LessTotal(sorted[i], sorted[j]);
    }
    assert forall i | 0 <= i < |sorted| :: sorted[i] in byLabel.Keys by {
      forall i | 0 <= i < |sorted| ensures sorted[i] in byLabel.Keys { assert sorted[i] in list; }
    }
    labels := sorted;
  }

  function Secret(s: KeySet, owner: Str): Option<Str> {
    if owner in s.byLabel then Some(s.byLabel[owner]) else None
  }

  /** Compares against every key and never stops early; the last match stands. */
  method Lookup(s: KeySet, secret: Str) returns (r: Option<Str>)
    requires Valid(s)
    ensures forall l :: r == Some(l) <==> Secret(s, l) == Some(secret)
  {
    r := None;
    for i := 0 to |s.labels|
      invariant r.Some? ==> r.value in s.byLabel && s.byLabel[r.value] == secret
      invariant r.None? ==> forall j | 0 <= j < i :: s.byLabel[s.labels[j]] != secret
    {
      assert s.labels[i] in s.labels;
      if secret == s.byLabel[s.labels[i]] {
        r := Some(s.labels[i]);
      }
    }
    forall l ensures r == Some(l) <==> Secret(s, l) == Some(secret) {
      if Secret(s, l) == Some(secret) {
        assert l in s.labels;
      }
    }
  }
}
