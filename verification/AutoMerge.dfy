module AutoMerge {
  /**
   `AutoMergeDuplicates` of `pkg/relationships/repository.go`: every pair of the duplicate search is
   merged in turn, a failed merge is skipped.
   */

  import opened DuplicateSearch
  import opened EntityMerge
  import opened Wrappers

  datatype AutoMergeResult =
    AutoMergeResult(mergedCount: nat, mergedPairs: seq<DuplicatePair>, skippedPairs: seq<DuplicatePair>)

  const MIN_SIMILARITY := 0.90

  /** What the database does with the request for the pair at some place. */
  type Faults = nat -> Fault

  function PairStep(p: DuplicatePair, bigint: Reader): Option<Step> {
    StepOf(p.id1, p.id2, bigint)
  }

  /** The merge of the pair is committed. */
  predicate Commits(p: DuplicatePair, bigint: Reader, fault: Fault) {
    PairStep(p, bigint).Some? && fault != InTransaction
  }

  /** The merge is also reported as done. */
  predicate Succeeds(p: DuplicatePair, bigint: Reader, fault: Fault) {
    PairStep(p, bigint).Some? && fault == NoFault
  }

  /** The merges that are committed, in order. */
  function StepsOf(pairs: seq<DuplicatePair>, bigint: Reader, faults: Faults): seq<Step> {
    if pairs == [] then []
    else
      var n := |pairs| - 1;
      var steps := StepsOf(pairs[..n], bigint, faults);
      if Commits(pairs[n], bigint, faults(n)) then steps + [PairStep(pairs[n], bigint).value] else steps
  }

  /** The pairs whose merge is reported as `done`. */
  function ReportedAs(pairs: seq<DuplicatePair>, bigint: Reader, faults: Faults, done: bool): seq<DuplicatePair> {
    if pairs == [] then []
    else
      var n := |pairs| - 1;
      var before := ReportedAs(pairs[..n], bigint, faults, done);
      if Succeeds(pairs[n], bigint, faults(n)) == done then before + [pairs[n]] else before
  }

  /** Every pair is reported once, as merged or as skipped. */
  lemma {:induction false} ReportsConserve(pairs: seq<DuplicatePair>, bigint: Reader, faults: Faults,
                                           p: DuplicatePair)
    ensures multiset(ReportedAs(pairs, bigint, faults, true))[p] + multiset(ReportedAs(pairs, bigint, faults, false))[p]
         == multiset(pairs)[p]
  {
    hide Succeeds;
    if pairs != [] {
      var n := |pairs| - 1;
      ReportsConserve(pairs[..n], bigint, faults, p);
      assert pairs == pairs[..n] + [pairs[n]];
    }
  }

  ghost predicate Unreported(pairs: seq<DuplicatePair>, bigint: Reader, faults: Faults) {
    exists i :: 0 <= i < |pairs| && PairStep(pairs[i], bigint).Some? && faults(i) == AfterCommit
  }

  /** More pairs are merged than are reported as merged exactly when a merge failed after its commit. */
  lemma {:induction false} SkippedMayBeMerged(pairs: seq<DuplicatePair>, bigint: Reader, faults: Faults)
    ensures |ReportedAs(pairs, bigint, faults, true)| <= |StepsOf(pairs, bigint, faults)|
    ensures |ReportedAs(pairs, bigint, faults, true)| < |StepsOf(pairs, bigint, faults)| <==>
            Unreported(pairs, bigint, faults)
  {
    if pairs != [] {
      var n := |pairs| - 1;
      SkippedMayBeMerged(pairs[..n], bigint, faults);
      if Unreported(pairs[..n], bigint, faults) {
        var i :| 0 <= i < n && PairStep(pairs[..n][i], bigint).Some? && faults(i) == AfterCommit;
        assert pairs[i] == pairs[..n][i];
      }
      if Unreported(pairs, bigint, faults) {
        var i :| 0 <= i < |pairs| && PairStep(pairs[i], bigint).Some? && faults(i) == AfterCommit;
        assert i == n || pairs[..n][i] == pairs[i];
      }
    }
  }

  /** The request of one person into another, and what the similarity search says of it. */
  function PersonPair(n1: string, n2: string): DuplicatePair {
    DuplicatePair("ent-person-" + n1, "ent-person-" + n2, "", "", 1.0, [])
  }

  lemma PersonPairIs(n1: string, n2: string, bigint: Reader)
    requires '-' !in n1 && '-' !in n2 && bigint(n1).Some? && bigint(n2).Some?
    ensures PairStep(PersonPair(n1, n2), bigint) == Some(Step(bigint(n1).value, bigint(n2).value, n1))
  {
    PersonTextOf(n1);
    PersonTextOf(n2);
    hide PersonText;
  }

  /** A pair whose merge fails after its commit is merged, and reported as skipped. */
  lemma MergedAndSkipped(bigint: Reader)
    requires bigint("1") == Some(1) && bigint("2") == Some(2)
    ensures var pairs, faults: Faults := [PersonPair("1", "2")], (i: nat) => AfterCommit;
      && StepsOf(pairs, bigint, faults) == [Step(1, 2, "1")]
      && ReportedAs(pairs, bigint, faults, false) == pairs
      && ReportedAs(pairs, bigint, faults, true) == []
  {
    PersonPairIs("1", "2", bigint);
    hide PairStep;
    var pairs, faults: Faults := [PersonPair("1", "2")], (i: nat) => AfterCommit;
    assert pairs[..0] == [];
    assert StepsOf(pairs[..0], bigint, faults) == [];
    assert ReportedAs(pairs[..0], bigint, faults, false) == [];
    assert ReportedAs(pairs[..0], bigint, faults, true) == [];
  }

  // ---------- the audit log ----------

  function RecordOf(tenant: string, p: DuplicatePair): MergeRecord {
    MergeRecord(tenant, p.id1, p.id2, p.similarity, "auto_merge")
  }

  /** The record of the pair at some place is written. */
  predicate Recorded(pairs: seq<DuplicatePair>, bigint: Reader, faults: Faults, logFails: nat -> bool, i: nat)
    requires i < |pairs|
  {
    Succeeds(pairs[i], bigint, faults(i)) && !logFails(i)
  }

  /** The records written, in order. */
  function LogOf(tenant: string, pairs: seq<DuplicatePair>, bigint: Reader, faults: Faults,
                 logFails: nat -> bool): seq<MergeRecord> {
    if pairs == [] then []
    else
      var n := |pairs| - 1;
      var before := LogOf(tenant, pairs[..n], bigint, faults, logFails);
      if Recorded(pairs, bigint, faults, logFails, n) then before + [RecordOf(tenant, pairs[n])] else before
  }

  function RecordsOf(tenant: string, pairs: seq<DuplicatePair>): seq<MergeRecord> {
    if pairs == [] then []
    else RecordsOf(tenant, pairs[..|pairs| - 1]) + [RecordOf(tenant, pairs[|pairs| - 1])]
  }

  ghost predicate Unrecorded(pairs: seq<DuplicatePair>, bigint: Reader, faults: Faults, logFails: nat -> bool) {
    exists i :: 0 <= i < |pairs| && Succeeds(pairs[i], bigint, faults(i)) && logFails(i)
  }

  /** The log is the list of the pairs reported as merged, in order, exactly when no record failed. */
  lemma {:induction false} LogIsTheReport(tenant: string, pairs: seq<DuplicatePair>, bigint: Reader,
                                          faults: Faults, logFails: nat -> bool)
    ensures var log := LogOf(tenant, pairs, bigint, faults, logFails);
            var merged := ReportedAs(pairs, bigint, faults, true);
      && |log| <= |merged| == |RecordsOf(tenant, merged)|
      && (log == RecordsOf(tenant, merged) <==> !Unrecorded(pairs, bigint, faults, logFails))
      && (|log| < |merged| <==> Unrecorded(pairs, bigint, faults, logFails))
  {
    if pairs != [] {
      var n := |pairs| - 1;
      LogIsTheReport(tenant, pairs[..n], bigint, faults, logFails);
      UnrecordedGrows(pairs, bigint, faults, logFails);
      var merged := ReportedAs(pairs[..n], bigint, faults, true);
      hide Unrecorded;
      assert (merged + [pairs[n]])[..|merged|] == merged;
    }
  }

  lemma UnrecordedGrows(pairs: seq<DuplicatePair>, bigint: Reader, faults: Faults, logFails: nat -> bool)
    requires pairs != []
    ensures var n := |pairs| - 1;
      Unrecorded(pairs, bigint, faults, logFails) <==>
        Unrecorded(pairs[..n], bigint, faults, logFails) || (Succeeds(pairs[n], bigint, faults(n)) && logFails(n))
  {
    hide Succeeds;
    var n := |pairs| - 1;
    var rest := pairs[..n];
    assert forall i :: 0 <= i < n ==> rest[i] == pairs[i];
    if Unrecorded(pairs, bigint, faults, logFails) {
      var i :| 0 <= i < |pairs| && Succeeds(pairs[i], bigint, faults(i)) && logFails(i);
      assert i == n || Succeeds(rest[i], bigint, faults(i));
    }
  }

  // ---------- nothing is lost ----------

  /** Different entities of the list are different people. */
  ghost predicate DistinctPersons(entities: seq<Entity>, bigint: Reader) {
    forall a, b :: 0 <= a < b < |entities| ==>
      var s := StepOf(entities[a].id, entities[b].id, bigint);
      s.Some? ==> s.value.primary != s.value.merged
  }

  /** A number as the repository writes it into an id. */
  function Decimal(n: nat): string {
    if n < 10 then [('0' as int + n) as char] else Decimal(n / 10) + [('0' as int + n % 10) as char]
  }

  /** One digit more stands behind the others. */
  lemma DecimalDigits(n: nat, d: nat)
    requires d < 10
    ensures Decimal(d) == [('0' as int + d) as char]
    ensures n > 0 ==> Decimal(10 * n + d) == Decimal(n) + Decimal(d)
  {
  }

  lemma {:induction false} DecimalHasDigits(n: nat, c: char)
    ensures c in Decimal(n) ==> '0' <= c <= '9'
  {
    if n >= 10 {
      DecimalHasDigits(n / 10, c);
    }
  }

  /** The entities the listing makes of people with these numbers, which are their primary keys. */
  ghost predicate AreEntitiesOf(entities: seq<Entity>, people: seq<nat>) {
    && |people| == |entities|
    && (forall i :: 0 <= i < |entities| ==> entities[i].id == "ent-person-" + Decimal(people[i]))
    && (forall i, j :: 0 <= i < j < |people| ==> people[i] != people[j])
  }

  /** The database reads these numbers as they were written. */
  ghost predicate ReadsBack(bigint: Reader, people: seq<nat>) {
    forall i :: 0 <= i < |people| ==> bigint(Decimal(people[i])) == Some(people[i])
  }

  lemma IdIs(entities: seq<Entity>, people: seq<nat>, bigint: Reader, i: nat)
    requires AreEntitiesOf(entities, people) && ReadsBack(bigint, people) && i < |entities|
    ensures PersonText(entities[i].id) == Ok(Decimal(people[i])) && bigint(Decimal(people[i])) == Some(people[i])
    ensures ':' !in entities[i].id
  {
    DecimalHasDigits(people[i], '-');
    DecimalHasDigits(people[i], ':');
    PersonTextOf(Decimal(people[i]));
    hide PersonText;
  }

  /** So the ids are distinct and without colon, and the ids of two entities name two people. */
  lemma EntitiesAreDistinct(entities: seq<Entity>, people: seq<nat>, bigint: Reader)
    requires AreEntitiesOf(entities, people) && ReadsBack(bigint, people)
    ensures GoodIds(entities) && DistinctPersons(entities, bigint)
  {
    hide Decimal, PersonText, AreEntitiesOf, ReadsBack;
    NumbersDiffer(entities, people);
    forall i | 0 <= i < |entities|
      ensures PersonText(entities[i].id) == Ok(Decimal(people[i]))
      ensures bigint(Decimal(people[i])) == Some(people[i]) && ':' !in entities[i].id
    {
      IdIs(entities, people, bigint, i);
    }
  }

  lemma NumbersDiffer(entities: seq<Entity>, people: seq<nat>)
    requires AreEntitiesOf(entities, people)
    ensures |people| == |entities| && forall i, j :: 0 <= i < j < |people| ==> people[i] != people[j]
  {
    hide Decimal;
  }

  lemma {:induction false} StepsDiffer(entities: seq<Entity>, pairs: seq<DuplicatePair>, bigint: Reader,
                                       faults: Faults)
    requires DistinctPersons(entities, bigint)
    requires forall p :: p in pairs ==> IdsOfTwo(entities, p)
    ensures NoSelfMerge(StepsOf(pairs, bigint, faults))
  {
    if pairs != [] {
      var n := |pairs| - 1;
      StepsDiffer(entities, pairs[..n], bigint, faults);
      var p := pairs[n];
      assert IdsOfTwo(entities, p);
      var a, b :| 0 <= a < b < |entities| && entities[a].id == p.id1 && entities[b].id == p.id2;
    }
  }

  ghost predicate IdsOfTwo(entities: seq<Entity>, p: DuplicatePair) {
    exists a, b :: 0 <= a < b < |entities| && entities[a].id == p.id1 && entities[b].id == p.id2
  }

  lemma AnswersAreOfTwo(entities: seq<Entity>, lower: string -> string, score: Scoring, minSimilarity: real,
                        pairs: seq<DuplicatePair>)
    requires IsLimitedAnswer(entities, lower, score, minSimilarity, pairs)
    ensures forall p :: p in pairs ==> IdsOfTwo(entities, p)
  {
    var found :| IsAnswer(entities, lower, score, minSimilarity, found) &&
                 pairs == if |found| > 100 then found[..100] else found;
    forall p | p in pairs ensures IdsOfTwo(entities, p) {
      assert IsDue(entities, lower, score, minSimilarity, p);
    }
  }

  /** Merging what the duplicate search found loses no membership, whatever fails on the way. */
  lemma AutoMergeLosesNothing(entities: seq<Entity>, lower: string -> string, score: Scoring,
                              minSimilarity: real, pairs: seq<DuplicatePair>,
                              people: seq<nat>, bigint: Reader, faults: Faults, t: Memberships, x: int, g: int)
    requires IsLimitedAnswer(entities, lower, score, minSimilarity, pairs)
    requires AreEntitiesOf(entities, people) && ReadsBack(bigint, people) && (x, g) in t
    ensures var steps := StepsOf(pairs, bigint, faults);
      (AliasLabel(steps, x), g) in RunMemberships(t, steps)
  {
    EntitiesAreDistinct(entities, people, bigint);
    AnswersAreOfTwo(entities, lower, score, minSimilarity, pairs);
    StepsDiffer(entities, pairs, bigint, faults);
    RunLosesNothing(t, StepsOf(pairs, bigint, faults), x, g);
  }

  // ---------- who holds the memberships in the end ----------

  /** No merge that is committed is into somebody merged away by an earlier pair. */
  ghost predicate NoMergedFirst(pairs: seq<DuplicatePair>, bigint: Reader, faults: Faults) {
    forall i, j ::
      0 <= i < j < |pairs| && Commits(pairs[i], bigint, faults(i)) && Commits(pairs[j], bigint, faults(j)) ==>
      PairStep(pairs[j], bigint).value.primary != PairStep(pairs[i], bigint).value.merged
  }

  ghost predicate ComesFrom(pairs: seq<DuplicatePair>, bigint: Reader, faults: Faults, s: Step) {
    exists i :: 0 <= i < |pairs| && Commits(pairs[i], bigint, faults(i)) && PairStep(pairs[i], bigint).value == s
  }

  lemma {:induction false} StepsComeFrom(pairs: seq<DuplicatePair>, bigint: Reader, faults: Faults, s: Step)
    ensures s in StepsOf(pairs, bigint, faults) <==> ComesFrom(pairs, bigint, faults, s)
  {
    hide PairStep;
    if pairs != [] {
      var n := |pairs| - 1;
      var rest := pairs[..n];
      StepsComeFrom(rest, bigint, faults, s);
      hide StepsOf;
      assert forall i :: 0 <= i < n ==> rest[i] == pairs[i];
      if ComesFrom(pairs, bigint, faults, s) {
        var i :| 0 <= i < |pairs| && Commits(pairs[i], bigint, faults(i)) && PairStep(pairs[i], bigint).value == s;
        assert i == n || Commits(rest[i], bigint, faults(i));
      }
    }
  }

  lemma {:induction false} StepsKeepOrder(pairs: seq<DuplicatePair>, bigint: Reader, faults: Faults)
    requires NoMergedFirst(pairs, bigint, faults)
    ensures NoMergedPrimary(StepsOf(pairs, bigint, faults))
  {
    hide PairStep;
    if pairs != [] {
      var n := |pairs| - 1;
      var rest := pairs[..n];
      assert forall i :: 0 <= i < n ==> rest[i] == pairs[i];
      StepsKeepOrder(rest, bigint, faults);
      if Commits(pairs[n], bigint, faults(n)) {
        var before, s := StepsOf(rest, bigint, faults), PairStep(pairs[n], bigint).value;
        forall i | 0 <= i < |before| ensures s.primary != before[i].merged {
          StepsComeFrom(rest, bigint, faults, before[i]);
        }
      }
    }
  }

  /**
   Everything ends at somebody never merged away exactly when every person merged is vacated in the
   end, and that is so if no pair is merged into the second person of an earlier one.
   */
  lemma AutoMergeEnds(pairs: seq<DuplicatePair>, bigint: Reader, faults: Faults)
    requires NoSelfMerge(StepsOf(pairs, bigint, faults))
    ensures var steps := StepsOf(pairs, bigint, faults);
      && (EndsWithTheUnmerged(steps) <==>
          forall i :: 0 <= i < |pairs| && Commits(pairs[i], bigint, faults(i)) ==>
            PairStep(pairs[i], bigint).value.merged in Vacated(steps))
      && (NoMergedFirst(pairs, bigint, faults) ==> EndsWithTheUnmerged(steps))
  {
    hide PairStep;
    var steps := StepsOf(pairs, bigint, faults);
    EndsExactly(steps);
    hide EndsWithTheUnmerged, NoSelfMerge;
    forall i | 0 <= i < |pairs| && Commits(pairs[i], bigint, faults(i))
      ensures PairStep(pairs[i], bigint).value in steps
    {
      StepsComeFrom(pairs, bigint, faults, PairStep(pairs[i], bigint).value);
    }
    forall s | s in steps ensures ComesFrom(pairs, bigint, faults, s) {
      StepsComeFrom(pairs, bigint, faults, s);
    }
    assert forall i :: 0 <= i < |steps| ==> steps[i] in steps;
    if NoMergedFirst(pairs, bigint, faults) {
      StepsKeepOrder(pairs, bigint, faults);
      forall i: nat | i < |steps| ensures steps[i].merged in Vacated(steps) {
        NoMergedPrimaryIsEnough(steps, i);
      }
    }
  }

  /** Then no membership of what the search found is left with a person it merged away. */
  lemma AutoMergeEndsWithTheUnmerged(entities: seq<Entity>, lower: string -> string, score: Scoring,
                                     minSimilarity: real, pairs: seq<DuplicatePair>, people: seq<nat>,
                                     bigint: Reader, faults: Faults, t: Memberships, y: int, g: int)
    requires IsLimitedAnswer(entities, lower, score, minSimilarity, pairs)
    requires AreEntitiesOf(entities, people) && ReadsBack(bigint, people) && NoMergedFirst(pairs, bigint, faults)
    requires (y, g) in RunMemberships(t, StepsOf(pairs, bigint, faults))
    ensures !MergedAway(StepsOf(pairs, bigint, faults), y)
  {
    EntitiesAreDistinct(entities, people, bigint);
    AnswersAreOfTwo(entities, lower, score, minSimilarity, pairs);
    StepsDiffer(entities, pairs, bigint, faults);
    AutoMergeEnds(pairs, bigint, faults);
    MembershipsEndWithTheUnmerged(t, StepsOf(pairs, bigint, faults), y, g);
  }

  /** The search may find the pairs (1, 2) and (2, 3); what 3 had then ends at 2, who was merged away. */
  lemma AutoMergeMayEndAtMerged(lower: string -> string, score: Scoring, bigint: Reader, details: Details)
    requires Chained(score, Nameless("1"), Nameless("2"), Nameless("3"))
    requires bigint("1") == Some(1) && bigint("2") == Some(2) && bigint("3") == Some(3)
    ensures var pairs, faults: Faults := [PersonPair("1", "2"), PersonPair("2", "3")], (i: nat) => NoFault;
            var steps, t := StepsOf(pairs, bigint, faults), map[(3, 7) := details];
      && IsLimitedAnswer([Nameless("1"), Nameless("2"), Nameless("3")], lower, score, 0.90, pairs)
      && (2, 7) in RunMemberships(t, steps) && MergedAway(steps, 2) && !EndsWithTheUnmerged(steps)
  {
    SearchFindsChain(lower, score);
    hide IsLimitedAnswer, Chained;
    PersonPairIs("1", "2", bigint);
    PersonPairIs("2", "3", bigint);
    MergedPersonMayReceive(details);
    hide PairStep, RunMemberships, EndsWithTheUnmerged, PersonPair;
    StepsOfTwo(PersonPair("1", "2"), PersonPair("2", "3"), bigint, Step(1, 2, "1"), Step(2, 3, "2"));
  }

  /** A person with a number and an address of one domain, and no name. */
  function Nameless(n: string): Entity {
    Entity("ent-person-" + n, "", Some(n + "@" + "example.org"))
  }

  lemma NamelessDomain(n: string, lower: string -> string)
    requires '@' !in n
    ensures DomainKey(Nameless(n), lower) == Some(lower("example.org"))
  {
    assert '@' !in "example.org";
    SplitAtSign(n, "example.org");
  }

  /** The first two of three are alike, and the last two, and the first and the last are not. */
  ghost predicate Chained(score: Scoring, e1: Entity, e2: Entity, e3: Entity) {
    && score(e1, e2) == score(e2, e3) == Assessment(1.0, [])
    && score(e1, e3).similarity < 0.90
  }

  /** Such a chain is what the search finds for three people of one domain. */
  lemma SearchFindsChain(lower: string -> string, score: Scoring)
    requires Chained(score, Nameless("1"), Nameless("2"), Nameless("3"))
    ensures IsLimitedAnswer([Nameless("1"), Nameless("2"), Nameless("3")], lower, score, 0.90,
                            [PersonPair("1", "2"), PersonPair("2", "3")])
  {
    NamelessDomain("1", lower);
    NamelessDomain("2", lower);
    NamelessDomain("3", lower);
    var e1, e2, e3 := Nameless("1"), Nameless("2"), Nameless("3");
    assert e1.id == "ent-person-1" && e2.id == "ent-person-2" && e1.id[11] != e2.id[11];
    hide DomainKey;
    assert PersonPair("1", "2") == Report((e1, e2), score) && PersonPair("2", "3") == Report((e2, e3), score);
    hide Nameless;
    ChainIsAnswer(e1, e2, e3, lower, score);
    hide *;
    LimitedAnswerIs([e1, e2, e3], lower, score, 0.90, [Report((e1, e2), score), Report((e2, e3), score)]);
  }

  lemma BeforeOfThree(e1: Entity, e2: Entity, e3: Entity, a: Entity, b: Entity)
    ensures Before([e1, e2, e3], a, b) <==> (a == e1 && b == e2) || (a == e1 && b == e3) || (a == e2 && b == e3)
  {
    var es := [e1, e2, e3];
    assert es[0] == e1 && es[1] == e2 && es[2] == e3;
  }

  lemma ChainIsAnswer(e1: Entity, e2: Entity, e3: Entity, lower: string -> string, score: Scoring)
    requires Chained(score, e1, e2, e3) && e1.id != e2.id
    requires DomainKey(e1, lower).Some? && DomainKey(e1, lower) == DomainKey(e2, lower) == DomainKey(e3, lower)
    ensures IsAnswer([e1, e2, e3], lower, score, 0.90, [Report((e1, e2), score), Report((e2, e3), score)])
  {
    hide DomainKey, NameKey, Before;
    var entities, found := [e1, e2, e3], [Report((e1, e2), score), Report((e2, e3), score)];
    BeforeOfThree(e1, e2, e3, e1, e2);
    BeforeOfThree(e1, e2, e3, e2, e3);
    assert found[0] == Report((e1, e2), score) && found[1] == Report((e2, e3), score);
    forall a, b | Before(entities, a, b) && SameBlock(a, b, lower) && score(a, b).similarity >= 0.90
      ensures Report((a, b), score) in found
    {
      BeforeOfThree(e1, e2, e3, a, b);
    }
    forall d | d in found ensures IsDue(entities, lower, score, 0.90, d) {
      assert d == Report((e1, e2), score) || d == Report((e2, e3), score);
    }
  }

  lemma StepsOfTwo(p: DuplicatePair, q: DuplicatePair, bigint: Reader, s: Step, t: Step)
    requires PairStep(p, bigint) == Some(s) && PairStep(q, bigint) == Some(t)
    ensures StepsOf([p, q], bigint, (i: nat) => NoFault) == [s, t]
  {
    hide PairStep;
    var faults: Faults := (i: nat) => NoFault;
    assert [p, q][..1] == [p] && [p][..0] == [];
    assert StepsOf([p][..0], bigint, faults) == [];
    assert StepsOf([p, q][..1], bigint, faults) == [s];
  }

  // ---------- the loop ----------

  /** The report on the pairs. */
  function Outcome(pairs: seq<DuplicatePair>, bigint: Reader, faults: Faults): AutoMergeResult {
    var merged := ReportedAs(pairs, bigint, faults, true);
    AutoMergeResult(|merged|, merged, ReportedAs(pairs, bigint, faults, false))
  }

  lemma OutcomeStarts(tenant: string, t: Tables, bigint: Reader, faults: Faults)
    ensures Outcome([], bigint, faults) == AutoMergeResult(0, [], [])
    ensures IsRunOf(t, tenant, StepsOf([], bigint, faults), t)
  {
  }

  lemma OutcomeGrows(pairs: seq<DuplicatePair>, i: nat, bigint: Reader, faults: Faults)
    requires i < |pairs|
    ensures var o := Outcome(pairs[..i], bigint, faults);
      Outcome(pairs[..i + 1], bigint, faults) ==
      if Succeeds(pairs[i], bigint, faults(i)) then
        o.(mergedPairs := o.mergedPairs + [pairs[i]], mergedCount := o.mergedCount + 1)
      else o.(skippedPairs := o.skippedPairs + [pairs[i]])
  {
    assert pairs[..i + 1][..i] == pairs[..i];
  }

  lemma RunContinues(pairs: seq<DuplicatePair>, i: nat, bigint: Reader, faults: Faults,
                     tenant: string, t: Tables, before: Tables, after: Tables)
    requires i < |pairs| && IsRunOf(t, tenant, StepsOf(pairs[..i], bigint, faults), before)
    requires if Commits(pairs[i], bigint, faults(i))
      then IsMergeOf(before, PairStep(pairs[i], bigint).value, tenant, after) else after == before
    ensures IsRunOf(t, tenant, StepsOf(pairs[..i + 1], bigint, faults), after)
  {
    hide IsRunOf, IsMergeOf, StepOf, PairStep;
    assert pairs[..i + 1][..i] == pairs[..i];
    if Commits(pairs[i], bigint, faults(i)) {
      RunGrows(t, tenant, StepsOf(pairs[..i], bigint, faults), PairStep(pairs[i], bigint).value, before, after);
    }
  }

  lemma CommitsIs(p: DuplicatePair, bigint: Reader, fault: Fault)
    ensures PairStep(p, bigint) == StepOf(p.id1, p.id2, bigint)
    ensures Commits(p, bigint, fault) <==> PairStep(p, bigint).Some? && fault != InTransaction
    ensures Succeeds(p, bigint, fault) <==> PairStep(p, bigint).Some? && fault == NoFault
    ensures IdError(p.id1, p.id2).Some? ==> PairStep(p, bigint) == None
  {
  }

  /** The log after the loop, when it was `log` before. */
  function Logged(log: seq<MergeRecord>, tenant: string, pairs: seq<DuplicatePair>, bigint: Reader,
                  faults: Faults, logFails: nat -> bool): seq<MergeRecord> {
    log + LogOf(tenant, pairs, bigint, faults, logFails)
  }

  lemma LogStarts(log: seq<MergeRecord>, tenant: string, bigint: Reader, faults: Faults,
                  logFails: nat -> bool)
    ensures Logged(log, tenant, [], bigint, faults, logFails) == log
  {
  }

  lemma LogGrows(log: seq<MergeRecord>, tenant: string, pairs: seq<DuplicatePair>, i: nat, bigint: Reader,
                 faults: Faults, logFails: nat -> bool)
    requires i < |pairs|
    ensures var before := Logged(log, tenant, pairs[..i], bigint, faults, logFails);
            var p := pairs[i];
      Logged(log, tenant, pairs[..i + 1], bigint, faults, logFails) ==
      if Succeeds(p, bigint, faults(i)) && !logFails(i)
      then before + [MergeRecord(tenant, p.id1, p.id2, p.similarity, "auto_merge")] else before
  {
    hide Succeeds;
    assert pairs[..i + 1][..i] == pairs[..i];
  }

  /** Tables, log and report after these pairs. */
  ghost predicate IsAfter(tables0: Tables, log0: seq<MergeRecord>, tenant: string, pairs: seq<DuplicatePair>,
                          bigint: Reader, faults: Faults, logFails: nat -> bool,
                          tables: Tables, log: seq<MergeRecord>, result: AutoMergeResult) {
    && IsRunOf(tables0, tenant, StepsOf(pairs, bigint, faults), tables)
    && log == Logged(log0, tenant, pairs, bigint, faults, logFails)
    && result == Outcome(pairs, bigint, faults)
  }

  /** One pair more. */
  lemma IsAfterNext(tables0: Tables, log0: seq<MergeRecord>, tenant: string, pairs: seq<DuplicatePair>, i: nat,
                    bigint: Reader, faults: Faults, logFails: nat -> bool,
                    tables: Tables, log: seq<MergeRecord>, result: AutoMergeResult, after: Tables)
    requires i < |pairs| && IsAfter(tables0, log0, tenant, pairs[..i], bigint, faults, logFails, tables, log, result)
    requires if Commits(pairs[i], bigint, faults(i))
      then IsMergeOf(tables, PairStep(pairs[i], bigint).value, tenant, after) else after == tables
    ensures var p := pairs[i];
      if Succeeds(p, bigint, faults(i)) then
        IsAfter(tables0, log0, tenant, pairs[..i + 1], bigint, faults, logFails, after,
                if logFails(i) then log else log + [MergeRecord(tenant, p.id1, p.id2, p.similarity, "auto_merge")],
                result.(mergedPairs := result.mergedPairs + [p], mergedCount := result.mergedCount + 1))
      else
        IsAfter(tables0, log0, tenant, pairs[..i + 1], bigint, faults, logFails, after, log,
                result.(skippedPairs := result.skippedPairs + [p]))
  {
    hide IsRunOf, IsMergeOf, Logged, Outcome, StepsOf, Succeeds, PairStep;
    OutcomeGrows(pairs, i, bigint, faults);
    LogGrows(log0, tenant, pairs, i, bigint, faults, logFails);
    RunContinues(pairs, i, bigint, faults, tenant, tables0, tables, after);
  }

  /** The loop over the pairs. */
  method MergePairs(repo: Repository, tenant: string, pairs: seq<DuplicatePair>, bigint: Reader, faults: Faults,
                    logFails: nat -> bool)
      returns (result: AutoMergeResult)
    modifies repo
    ensures IsRunOf(old(repo.tables), tenant, StepsOf(pairs, bigint, faults), repo.tables)
    ensures repo.mergeLog == Logged(old(repo.mergeLog), tenant, pairs, bigint, faults, logFails)
    ensures result == Outcome(pairs, bigint, faults)
  {
    result := AutoMergeResult(0, [], []);
    OutcomeStarts(tenant, repo.tables, bigint, faults);
    LogStarts(repo.mergeLog, tenant, bigint, faults, logFails);
    hide *;
    assert pairs[..0] == [];
    ghost var tables0, log0 := repo.tables, repo.mergeLog;
    assert IsAfter(tables0, log0, tenant, pairs[..0], bigint, faults, logFails, repo.tables, repo.mergeLog, result);
    for i := 0 to |pairs|
      invariant IsAfter(tables0, log0, tenant, pairs[..i], bigint, faults, logFails, repo.tables, repo.mergeLog, result)
    {
      var pair := pairs[i];
      CommitsIs(pair, bigint, faults(i));
      ghost var tables, log := repo.tables, repo.mergeLog;
      var merge := repo.MergeEntities(tenant, pair.id1, pair.id2, bigint, faults(i));
      IsAfterNext(tables0, log0, tenant, pairs, i, bigint, faults, logFails, tables, log, result, repo.tables);
      if merge.Err? {
        result := result.(skippedPairs := result.skippedPairs + [pair]);
        continue;
      }
      repo.RecordMerge(MergeRecord(tenant, pair.id1, pair.id2, pair.similarity, "auto_merge"), logFails(i));
      result := result.(mergedPairs := result.mergedPairs + [pair], mergedCount := result.mergedCount + 1);
    }
    assert pairs[..|pairs|] == pairs;
  }

  method AutoMergeDuplicates(repo: Repository, tenant: string, entities: seq<Entity>, lower: string -> string,
                             score: Scoring, bigint: Reader, minSimilarity: real,
                             dryRun: bool, faults: Faults, logFails: nat -> bool)
      returns (r: Result<AutoMergeResult, string>, ghost pairs: seq<DuplicatePair>)
    requires GoodIds(entities)
    modifies repo
    ensures minSimilarity < 0.90 ==>
      r.Err? && repo.tables == old(repo.tables) && repo.mergeLog == old(repo.mergeLog)
    ensures minSimilarity >= 0.90 ==> IsLimitedAnswer(entities, lower, score, minSimilarity, pairs)
    ensures minSimilarity >= 0.90 && dryRun ==>
      && r == Ok(AutoMergeResult(|pairs|, pairs, []))
      && repo.tables == old(repo.tables) && repo.mergeLog == old(repo.mergeLog)
    ensures minSimilarity >= 0.90 && !dryRun ==>
      && IsRunOf(old(repo.tables), tenant, StepsOf(pairs, bigint, faults), repo.tables)
      && repo.mergeLog == Logged(old(repo.mergeLog), tenant, pairs, bigint, faults, logFails)
      && r == Ok(Outcome(pairs, bigint, faults))
  {
    pairs := [];
    if minSimilarity < MIN_SIMILARITY {
      return Err("minimum similarity threshold for auto-merge is 0.90"), pairs;
    }
    var duplicates := FindDuplicateEntities(entities, lower, score, minSimilarity);
    pairs := duplicates;
    if dryRun {
      return Ok(AutoMergeResult(|duplicates|, duplicates, [])), pairs;
    }
    var result := MergePairs(repo, tenant, duplicates, bigint, faults, logFails);
    return Ok(result), pairs;
  }
}
