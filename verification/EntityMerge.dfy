module EntityMerge {
  /**
   `MergeEntities` of `pkg/relationships/repository.go`: the statements of one transaction on the rows
   of `team_members`, `project_members`, `person_aliases` and `people`, and what a run of merges does.
   */

  import opened Wrappers
  import opened GoStrings

  /** A row: who belongs to which team or project.  The schema keeps such pairs unique. */
  type Membership = (int, int)

  /** The other columns; a row of `project_members` may name a team beside the person. */
  datatype Details = Details(role: string, team: Option<int>)

  /** `team_members`, or the rows of `project_members` that name a person. */
  type Memberships = map<Membership, Details>

  datatype Alias = Alias(person: int, value: string)

  datatype Person = Person(tenant: string, name: string, needsReview: bool)

  datatype Tables = Tables(teams: Memberships, projects: Memberships, aliases: map<int, Alias>,
                           people: map<int, Person>)

  function Groups(t: Memberships, person: int): (r: set<int>)
    ensures forall g :: g in r <==> (person, g) in t
  {
    set k | k in t && k.0 == person :: k.1
  }

  // ---------- the statements ----------

  /** The rows the first UPDATE changes: those of `merged` in groups `primary` is not in. */
  function Moving(t: Memberships, primary: int, merged: int): set<Membership> {
    set k | k in t && k.0 == merged && (primary, k.1) !in t
  }

  /** UPDATE ... SET person_id = primary WHERE person_id = merged AND ... NOT IN (SELECT ...). */
  function Transfer(t: Memberships, primary: int, merged: int): Memberships {
    var moving := Moving(t, primary, merged);
    var moved := set k | k in moving :: (primary, k.1);
    map k | k in t.Keys - moving + moved :: if k in moved then t[(merged, k.1)] else t[k]
  }

  /** DELETE ... WHERE person_id = person. */
  function WithoutPerson(t: Memberships, person: int): Memberships {
    map k | k in t && k.0 != person :: t[k]
  }

  /** UPDATE person_aliases SET person_id = primary WHERE person_id = merged. */
  function MoveAliases(a: map<int, Alias>, primary: int, merged: int): map<int, Alias> {
    map id | id in a :: if a[id].person == merged then a[id].(person := primary) else a[id]
  }

  function MarkMerged(people: map<int, Person>, tenant: string, primaryText: string, merged: int): map<int, Person> {
    if merged in people && people[merged].tenant == tenant then
      var p := people[merged];
      people[merged := p.(name := p.name + " (merged into " + primaryText + ")", needsReview := false)]
    else people
  }

  // ---------- one merge ----------

  /** What a merge makes of the memberships, row by row. */
  ghost predicate IsMerged(t: Memberships, primary: int, merged: int, r: Memberships) {
    && (forall y, g :: y != primary && y != merged ==> ((y, g) in r <==> (y, g) in t))
    && (forall g :: (merged, g) !in r)
    && (primary != merged ==> forall g :: (primary, g) in r <==> (primary, g) in t || (merged, g) in t)
    && (forall k :: k in r ==> if k in t then r[k] == t[k] else (merged, k.1) in t && r[k] == t[(merged, k.1)])
  }

  function Merged(t: Memberships, primary: int, merged: int): (r: Memberships)
    ensures IsMerged(t, primary, merged, r)
  {
    WithoutPerson(Transfer(t, primary, merged), merged)
  }

  /** The number of rows the UPDATE reports. */
  lemma MovingSize(t: Memberships, primary: int, merged: int)
    ensures |Moving(t, primary, merged)| == |Groups(t, merged) - Groups(t, primary)|
  {
    PairingSize(merged, Groups(t, merged) - Groups(t, primary), Moving(t, primary, merged));
  }

  lemma NothingIn(s: set<int>)
    requires forall x :: x !in s
    ensures s == {}
  {
    assert forall x :: x in s <==> x in {};
  }

  lemma {:induction false} PairingSize(person: int, groups: set<int>, rows: set<Membership>)
    requires forall k :: k in rows <==> k.0 == person && k.1 in groups
    ensures |rows| == |groups|
    decreases groups
  {
    if g :| g in groups {
      assert (person, g) in rows;
      PairingSize(person, groups - {g}, rows - {(person, g)});
    } else {
      NothingIn(groups);
      assert rows == {};
    }
  }

  /** A merge loses no membership exactly when it is of two people, or the one had none. */
  lemma MergeLosesNothing(t: Memberships, primary: int, merged: int)
    ensures (forall g :: g in Groups(t, merged) ==> g in Groups(Merged(t, primary, merged), primary))
       <==> primary != merged || Groups(t, merged) == {}
  {
    if primary == merged {
      if g :| g in Groups(t, merged) {
        assert (merged, g) !in Merged(t, primary, merged);
      } else {
        NothingIn(Groups(t, merged));
      }
    }
  }

  /** Merging a person with itself drops the membership it had. */
  lemma SelfMergeDrops(details: Details)
    ensures Merged(map[(1, 7) := details], 1, 1) == map[]
  {
    var t: Memberships := map[(1, 7) := details];
    var r := Merged(t, 1, 1);
    forall k ensures k !in r {
      assert k == (k.0, k.1) && (k in t ==> k.0 == 1);
    }
    assert r == map[];
  }

  // ---------- runs of merges ----------

  /** The people of one merge, and the text by which the request named the first. */
  datatype Step = Step(primary: int, merged: int, text: string)

  function RunMemberships(t: Memberships, steps: seq<Step>): Memberships {
    if steps == [] then t
    else
      var s := steps[|steps| - 1];
      Merged(RunMemberships(t, steps[..|steps| - 1]), s.primary, s.merged)
  }

  /** Where the memberships of a person are after the run; a merge of a person with itself drops them. */
  function Label(steps: seq<Step>, person: int): Option<int> {
    if steps == [] then Some(person)
    else
      var s := steps[|steps| - 1];
      var before := Label(steps[..|steps| - 1], person);
      if before != Some(s.merged) then before
      else if s.primary == s.merged then None
      else Some(s.primary)
  }

  /** Some person whose label is `y` was in group `g` with these details. */
  ghost predicate CameFrom(t: Memberships, steps: seq<Step>, y: int, g: int, details: Details) {
    exists x :: Label(steps, x) == Some(y) && (x, g) in t && t[(x, g)] == details
  }

  /**
   After any run of merges a person is in exactly the groups of the people whose label it is, and
   has there the role, and the team if any, one of them had.
   */
  lemma {:induction false} RunIsRelabelling(t: Memberships, steps: seq<Step>, y: int, g: int)
    ensures forall x :: Label(steps, x) == Some(y) && (x, g) in t ==> (y, g) in RunMemberships(t, steps)
    ensures (y, g) in RunMemberships(t, steps) ==> CameFrom(t, steps, y, g, RunMemberships(t, steps)[(y, g)])
  {
    if steps == [] {
      assert Label(steps, y) == Some(y);
    } else {
      var n := |steps| - 1;
      RunIsRelabelling(t, steps[..n], y, g);
      RunIsRelabelling(t, steps[..n], steps[n].merged, g);
      StepRelabels(t, steps, y, g);
    }
  }

  lemma StepRelabels(t: Memberships, steps: seq<Step>, y: int, g: int)
    requires steps != []
    requires var before, m := steps[..|steps| - 1], steps[|steps| - 1].merged;
      var r := RunMemberships(t, before);
      && ((y, g) in r ==> CameFrom(t, before, y, g, r[(y, g)]))
      && ((m, g) in r ==> CameFrom(t, before, m, g, r[(m, g)]))
    ensures (y, g) in RunMemberships(t, steps) ==> CameFrom(t, steps, y, g, RunMemberships(t, steps)[(y, g)])
  {
    hide Merged;
    var n := |steps| - 1;
    var s, r := steps[n], RunMemberships(t, steps[..n]);
    var now := Merged(r, s.primary, s.merged);
    if (y, g) in now {
      var from := if (y, g) in r then y else s.merged;
      assert CameFrom(t, steps[..n], from, g, now[(y, g)]);
      var x :| Label(steps[..n], x) == Some(from) && (x, g) in t && t[(x, g)] == now[(y, g)];
      assert Label(steps, x) == Some(y);
    }
  }

  /** The label without the special case of a merge of a person with itself. */
  function AliasLabel(steps: seq<Step>, person: int): int {
    if steps == [] then person
    else
      var s := steps[|steps| - 1];
      var before := AliasLabel(steps[..|steps| - 1], person);
      if before == s.merged then s.primary else before
  }

  function RunAliases(a: map<int, Alias>, steps: seq<Step>): map<int, Alias> {
    if steps == [] then a
    else
      var s := steps[|steps| - 1];
      MoveAliases(RunAliases(a, steps[..|steps| - 1]), s.primary, s.merged)
  }

  /** No alias is lost, made up or changed by any run; each belongs to the label of its person. */
  lemma {:induction false} AliasesAreConserved(a: map<int, Alias>, steps: seq<Step>)
    ensures RunAliases(a, steps).Keys == a.Keys
    ensures forall id :: id in a ==>
      RunAliases(a, steps)[id] == Alias(AliasLabel(steps, a[id].person), a[id].value)
  {
    if steps != [] {
      AliasesAreConserved(a, steps[..|steps| - 1]);
    }
  }

  function RunPeople(people: map<int, Person>, tenant: string, steps: seq<Step>): map<int, Person> {
    if steps == [] then people
    else
      var s := steps[|steps| - 1];
      MarkMerged(RunPeople(people, tenant, steps[..|steps| - 1]), tenant, s.text, s.merged)
  }

  ghost predicate MergedAway(steps: seq<Step>, person: int) {
    exists i :: 0 <= i < |steps| && steps[i].merged == person
  }

  /** A run deletes nobody; it only adds to the names of merged people of its own tenant. */
  lemma {:induction false} PeopleAreOnlyMarked(people: map<int, Person>, tenant: string, steps: seq<Step>, id: int)
    ensures RunPeople(people, tenant, steps).Keys == people.Keys
    ensures id in people ==>
      && people[id].name <= RunPeople(people, tenant, steps)[id].name
      && RunPeople(people, tenant, steps)[id].tenant == people[id].tenant
      && (people[id].tenant != tenant || !MergedAway(steps, id) ==> RunPeople(people, tenant, steps)[id] == people[id])
  {
    if steps != [] {
      var n := |steps| - 1;
      PeopleAreOnlyMarked(people, tenant, steps[..n], id);
      if !MergedAway(steps, id) {
        assert steps[n].merged != id;
        forall i | 0 <= i < n ensures steps[..n][i].merged != id {
          assert steps[i].merged != id;
        }
      }
    }
  }

  /** What a run adds to the name of a person, one mark for every merge into another. */
  ghost function Marks(steps: seq<Step>, person: int): string {
    if steps == [] then ""
    else
      var s, before := steps[|steps| - 1], Marks(steps[..|steps| - 1], person);
      if s.merged == person then before + " (merged into " + s.text + ")" else before
  }

  /** A merged person of the tenant gets the marks of its merges, in order, and is no longer up for review. */
  lemma {:induction false} MergedAreMarked(people: map<int, Person>, tenant: string, steps: seq<Step>, id: int)
    requires id in people && people[id].tenant == tenant
    ensures id in RunPeople(people, tenant, steps)
    ensures RunPeople(people, tenant, steps)[id] ==
      Person(tenant, people[id].name + Marks(steps, id), people[id].needsReview && !MergedAway(steps, id))
  {
    if steps == [] {
      assert people[id].name + "" == people[id].name;
    } else {
      var n := |steps| - 1;
      MergedAreMarked(people, tenant, steps[..n], id);
      MergedAwaySnoc(steps, id);
      hide MergedAway;
      var name, before, text := people[id].name, Marks(steps[..n], id), steps[n].text;
      assert (name + before) + " (merged into " + text + ")" == name + (before + " (merged into " + text + ")");
    }
  }

  lemma MergedAwaySnoc(steps: seq<Step>, id: int)
    requires steps != []
    ensures MergedAway(steps, id) <==> MergedAway(steps[..|steps| - 1], id) || steps[|steps| - 1].merged == id
  {
    var n := |steps| - 1;
    if i :| 0 <= i < |steps| && steps[i].merged == id {
      assert i == n || steps[..n][i].merged == id;
    }
    if i :| 0 <= i < n && steps[..n][i].merged == id {
      assert steps[i].merged == id;
    }
  }

  ghost predicate NoSelfMerge(steps: seq<Step>) {
    forall i :: 0 <= i < |steps| ==> steps[i].primary != steps[i].merged
  }

  /** Without self-merges memberships and aliases of a person stay together, and nobody has no label. */
  lemma {:induction false} LabelsAgree(steps: seq<Step>, person: int)
    requires NoSelfMerge(steps)
    ensures Label(steps, person) == Some(AliasLabel(steps, person))
  {
    if steps != [] {
      LabelsAgree(steps[..|steps| - 1], person);
    }
  }

  /** Without self-merges no run loses a membership: it is found under the label of its person. */
  lemma {:induction false} RunLosesNothing(t: Memberships, steps: seq<Step>, x: int, g: int)
    requires NoSelfMerge(steps) && (x, g) in t
    ensures (AliasLabel(steps, x), g) in RunMemberships(t, steps)
  {
    LabelsAgree(steps, x);
    RunIsRelabelling(t, steps, AliasLabel(steps, x), g);
  }

  // ---------- who holds the memberships in the end ----------

  /** The people whose memberships are all gone elsewhere: merged, and nothing merged into them since. */
  function Vacated(steps: seq<Step>): set<int> {
    if steps == [] then {}
    else
      var s, before := steps[|steps| - 1], Vacated(steps[..|steps| - 1]);
      if s.primary == s.merged then before
      else (if s.merged in before then before else before - {s.primary}) + {s.merged}
  }

  ghost predicate Unlabelled(steps: seq<Step>, y: int) {
    forall x :: AliasLabel(steps, x) != y
  }

  /** A person is vacated exactly when it is nobody's label. */
  lemma {:induction false} VacatedIsUnlabelled(steps: seq<Step>, y: int)
    ensures y in Vacated(steps) <==> Unlabelled(steps, y)
  {
    if steps == [] {
      assert AliasLabel(steps, y) == y;
    } else {
      var before, s := steps[..|steps| - 1], steps[|steps| - 1];
      VacatedIsUnlabelled(before, y);
      VacatedIsUnlabelled(before, s.merged);
      hide Unlabelled;
      LabelMoves(steps, y);
    }
  }

  /** Who has label `y` after the last step. */
  lemma {:induction false} LabelMoves(steps: seq<Step>, y: int)
    requires steps != []
    ensures var before, s := steps[..|steps| - 1], steps[|steps| - 1];
      Unlabelled(steps, y) <==>
        (if y == s.merged && s.primary != s.merged then true
         else Unlabelled(before, y) && (y == s.primary ==> Unlabelled(before, s.merged)))
  {
    var before, s := steps[..|steps| - 1], steps[|steps| - 1];
    forall x
      ensures AliasLabel(steps, x) == if AliasLabel(before, x) == s.merged then s.primary else AliasLabel(before, x)
    {
    }
    if Unlabelled(steps, y) && !(y == s.merged && s.primary != s.merged) {
      forall x ensures AliasLabel(before, x) != y && (y == s.primary ==> AliasLabel(before, x) != s.merged) {
        assert AliasLabel(steps, x) != y;
      }
    }
  }

  /** Everybody's memberships and aliases end at somebody who was never merged away. */
  ghost predicate EndsWithTheUnmerged(steps: seq<Step>) {
    forall x :: !MergedAway(steps, AliasLabel(steps, x))
  }

  /** That is so exactly when everybody merged is vacated, which the steps alone decide. */
  lemma EndsExactly(steps: seq<Step>)
    ensures EndsWithTheUnmerged(steps) <==>
            forall i :: 0 <= i < |steps| ==> steps[i].merged in Vacated(steps)
  {
    if EndsWithTheUnmerged(steps) {
      forall i | 0 <= i < |steps| ensures steps[i].merged in Vacated(steps) {
        assert MergedAway(steps, steps[i].merged);
        VacatedIsUnlabelled(steps, steps[i].merged);
      }
    } else {
      var x :| MergedAway(steps, AliasLabel(steps, x));
      var i :| 0 <= i < |steps| && steps[i].merged == AliasLabel(steps, x);
      VacatedIsUnlabelled(steps, steps[i].merged);
    }
  }

  /** No step merges into somebody merged away by an earlier one. */
  ghost predicate NoMergedPrimary(steps: seq<Step>) {
    forall i, j :: 0 <= i < j < |steps| ==> steps[j].primary != steps[i].merged
  }

  /** It is enough that no step merges into somebody merged away before. */
  lemma {:induction false} NoMergedPrimaryIsEnough(steps: seq<Step>, i: nat)
    requires NoSelfMerge(steps) && NoMergedPrimary(steps) && i < |steps|
    ensures steps[i].merged in Vacated(steps)
  {
    var n := |steps| - 1;
    var before := steps[..n];
    if i < n {
      assert NoSelfMerge(before) && NoMergedPrimary(before) && before[i] == steps[i];
      NoMergedPrimaryIsEnough(before, i);
    }
  }

  /** Then every membership of a table ends at somebody who was never merged away. */
  lemma MembershipsEndWithTheUnmerged(t: Memberships, steps: seq<Step>, y: int, g: int)
    requires NoSelfMerge(steps) && EndsWithTheUnmerged(steps) && (y, g) in RunMemberships(t, steps)
    ensures !MergedAway(steps, y)
  {
    RunIsRelabelling(t, steps, y, g);
    var x :| Label(steps, x) == Some(y) && (x, g) in t && t[(x, g)] == RunMemberships(t, steps)[(y, g)];
    LabelsAgree(steps, x);
  }

  lemma LabelSnoc(steps: seq<Step>, s: Step, x: int)
    ensures AliasLabel(steps + [s], x) == if AliasLabel(steps, x) == s.merged then s.primary else AliasLabel(steps, x)
  {
    assert (steps + [s])[..|steps|] == steps;
  }

  /** 2 is merged into 1, then 3 into 2: what 3 had ends at 2, who was merged away. */
  lemma MergedPersonMayReceive(details: Details)
    ensures var steps, t := [Step(1, 2, "1"), Step(2, 3, "2")], map[(3, 7) := details];
      && NoSelfMerge(steps)
      && (2, 7) in RunMemberships(t, steps) && MergedAway(steps, 2)
      && !EndsWithTheUnmerged(steps)
  {
    var steps, t: Memberships := [Step(1, 2, "1"), Step(2, 3, "2")], map[(3, 7) := details];
    assert steps == [] + [Step(1, 2, "1")] + [Step(2, 3, "2")];
    LabelSnoc([], Step(1, 2, "1"), 3);
    LabelSnoc([] + [Step(1, 2, "1")], Step(2, 3, "2"), 3);
    assert steps[0].merged == 2 && AliasLabel(steps, 3) == 2;
    RunLosesNothing(t, steps, 3, 7);
  }

  // ---------- the method ----------

  /** Where the database fails, if it does. */
  datatype Fault = NoFault | InTransaction | AfterCommit

  datatype MergeError = InvalidFormat | NotPersons | DatabaseError

  /** The person an id `ent-person-N` names. */
  function PersonText(entityID: string): Result<string, MergeError> {
    var parts := Split(entityID, "-");
    if |parts| < 3 then Err(InvalidFormat)
    else if parts[1] != "person" then Err(NotPersons)
    else Ok(parts[2])
  }

  /** An id of the form the repository gives people names the person. */
  lemma PersonTextOf(n: string)
    requires '-' !in n
    ensures PersonText("ent-person-" + n) == Ok(n)
  {
    assert "ent-person-" + n == "ent" + "-" + ("person" + "-" + n);
    SplitHead("ent", '-', "person" + "-" + n);
    SplitHead("person", '-', n);
    SplitWhole(n, '-');
    hide Split;
  }

  /** The second of three parts is the kind: any other than `person` is refused, whatever stands around it. */
  lemma KindDecides(prefix: string, kind: string, n: string)
    requires '-' !in prefix && '-' !in kind && '-' !in n
    ensures PersonText(prefix + "-" + kind + "-" + n) == if kind == "person" then Ok(n) else Err(NotPersons)
  {
    assert prefix + "-" + kind + "-" + n == prefix + "-" + (kind + "-" + n);
    SplitHead(prefix, '-', kind + "-" + n);
    SplitHead(kind, '-', n);
    SplitWhole(n, '-');
    hide Split;
  }

  /** What follows a third hyphen is not looked at, and with fewer than two there is no id. */
  lemma PartsDecide(prefix: string, n: string, more: string)
    requires '-' !in prefix && '-' !in n
    ensures PersonText(prefix + "-person-" + n + "-" + more) == Ok(n)
    ensures PersonText(prefix) == PersonText(prefix + "-" + n) == Err(InvalidFormat)
  {
    assert prefix + "-person-" + n + "-" + more == prefix + "-" + ("person" + "-" + (n + "-" + more));
    SplitHead(prefix, '-', "person" + "-" + (n + "-" + more));
    SplitHead("person", '-', n + "-" + more);
    SplitHead(n, '-', more);
    SplitHead(prefix, '-', n);
    SplitWhole(n, '-');
    SplitWhole(prefix, '-');
    hide Split;
  }

  /** The error the ids alone give, in the order the checks are made. */
  function IdError(primaryEntityID: string, mergedEntityID: string): Option<MergeError> {
    var primary, merged := PersonText(primaryEntityID), PersonText(mergedEntityID);
    if primary == Err(InvalidFormat) || merged == Err(InvalidFormat) then Some(InvalidFormat)
    else if primary.Err? || merged.Err? then Some(NotPersons)
    else None
  }

  /** How the database reads a parameter as a number. */
  type Reader = string -> Option<int>

  /** The step a request stands for. */
  function StepOf(primaryEntityID: string, mergedEntityID: string, bigint: Reader): Option<Step> {
    if IdError(primaryEntityID, mergedEntityID).Some? then None
    else
      match (bigint(PersonText(primaryEntityID).value), bigint(PersonText(mergedEntityID).value))
      case (Some(p), Some(m)) => Some(Step(p, m, PersonText(primaryEntityID).value))
      case _ => None
  }

  /** The tables after one committed merge. */
  ghost predicate IsMergeOf(before: Tables, s: Step, tenant: string, after: Tables) {
    && after.teams == Merged(before.teams, s.primary, s.merged)
    && after.projects == Merged(before.projects, s.primary, s.merged)
    && after.aliases == MoveAliases(before.aliases, s.primary, s.merged)
    && after.people == MarkMerged(before.people, tenant, s.text, s.merged)
  }

  /** The tables after a run of committed merges. */
  ghost predicate IsRunOf(before: Tables, tenant: string, steps: seq<Step>, after: Tables) {
    && after.teams == RunMemberships(before.teams, steps)
    && after.projects == RunMemberships(before.projects, steps)
    && after.aliases == RunAliases(before.aliases, steps)
    && after.people == RunPeople(before.people, tenant, steps)
  }

  lemma RunGrows(t: Tables, tenant: string, steps: seq<Step>, s: Step, before: Tables, after: Tables)
    requires IsRunOf(t, tenant, steps, before) && IsMergeOf(before, s, tenant, after)
    ensures IsRunOf(t, tenant, steps + [s], after)
  {
    assert (steps + [s])[..|steps|] == steps;
  }

  /** What a merge moves: the groups only the merged person is in. */
  function Transferred(t: Tables, s: Step): nat {
    |Groups(t.teams, s.merged) - Groups(t.teams, s.primary)|
    + |Groups(t.projects, s.merged) - Groups(t.projects, s.primary)|
  }

  /** These are the rows of the merged person for teams and projects the other one is not in. */
  lemma TransferredRows(t: Tables, s: Step)
    ensures Transferred(t, s) ==
      |set k | k in t.teams && k.0 == s.merged && (s.primary, k.1) !in t.teams|
      + |set k | k in t.projects && k.0 == s.merged && (s.primary, k.1) !in t.projects|
  {
    MovingSize(t.teams, s.primary, s.merged);
    MovingSize(t.projects, s.primary, s.merged);
    hide Groups;
    assert Moving(t.teams, s.primary, s.merged) ==
           set k | k in t.teams && k.0 == s.merged && (s.primary, k.1) !in t.teams;
    assert Moving(t.projects, s.primary, s.merged) ==
           set k | k in t.projects && k.0 == s.merged && (s.primary, k.1) !in t.projects;
  }

  /** A row of `entity_merge_log`. */
  datatype MergeRecord = MergeRecord(tenant: string, primary: string, merged: string, similarity: real, trigger: string)

  class Repository {
    var tables: Tables
    var mergeLog: seq<MergeRecord>

    constructor (t: Tables)
      ensures tables == t && mergeLog == []
    {
      tables, mergeLog := t, [];
    }

    /** `recordMerge`: one row, or none when the database fails. */
    method RecordMerge(record: MergeRecord, fails: bool)
      modifies this`mergeLog
      ensures mergeLog == if fails then old(mergeLog) else old(mergeLog) + [record]
    {
      if !fails {
        mergeLog := mergeLog + [record];
      }
    }

    method MergeEntities(tenant: string, primaryEntityID: string, mergedEntityID: string,
                         bigint: Reader, fault: Fault) returns (r: Result<nat, MergeError>)
      modifies this`tables
      ensures var e := IdError(primaryEntityID, mergedEntityID);
        e.Some? ==> r == Err(e.value) && tables == old(tables)
      ensures var p, m := PersonText(primaryEntityID), PersonText(mergedEntityID);
        && (p == Err(InvalidFormat) || m == Err(InvalidFormat) ==> r == Err(InvalidFormat))
        && (p != Err(InvalidFormat) && m != Err(InvalidFormat) && (p.Err? || m.Err?) ==> r == Err(NotPersons))
      ensures var s := StepOf(primaryEntityID, mergedEntityID, bigint);
        if s.None? || fault == InTransaction then r.Err? && tables == old(tables)
        else
          && IsMergeOf(old(tables), s.value, tenant, tables)
          && r == if fault == AfterCommit then Err(DatabaseError) else Ok(Transferred(old(tables), s.value))
    {
      hide Split, Transfer, WithoutPerson, IsMerged, Groups, Moving, MarkMerged, MoveAliases;
      var primaryParts := Split(primaryEntityID, "-");
      var mergedParts := Split(mergedEntityID, "-");
      if |primaryParts| < 3 || |mergedParts| < 3 {
        return Err(InvalidFormat);
      }
      if primaryParts[1] != "person" || mergedParts[1] != "person" {
        return Err(NotPersons);
      }
      var primaryID, mergedID := bigint(primaryParts[2]), bigint(mergedParts[2]);
      if primaryID.None? || mergedID.None? || fault == InTransaction {
        return Err(DatabaseError);
      }
      var p, m := primaryID.value, mergedID.value;
      var tx := tables;
      MovingSize(tx.teams, p, m);
      MovingSize(tx.projects, p, m);
      var transferred := |Moving(tx.teams, p, m)|;
      tx := tx.(teams := Transfer(tx.teams, p, m));
      transferred := transferred + |Moving(tx.projects, p, m)|;
      tx := tx.(projects := Transfer(tx.projects, p, m));
      tx := tx.(aliases := MoveAliases(tx.aliases, p, m));
      tx := tx.(teams := WithoutPerson(tx.teams, m));
      tx := tx.(projects := WithoutPerson(tx.projects, m));
      tx := tx.(people := MarkMerged(tx.people, tenant, primaryParts[2], m));
      tables := tx;
      if fault == AfterCommit {
        return Err(DatabaseError);
      }
      return Ok(transferred);
    }
  }
}
