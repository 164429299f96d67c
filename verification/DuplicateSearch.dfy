module DuplicateSearch {
  /**
   `FindDuplicateEntities` of `pkg/relationships/repository.go`: blocking by first letter and by email
   domain, against the definition over all pairs.  Lower-casing and scoring are parameters.
   */

  import opened Wrappers
  import opened GoStrings

  datatype Entity = Entity(id: string, name: string, email: Option<string>)

  datatype DuplicatePair = DuplicatePair(id1: string, id2: string, name1: string, name2: string, similarity: real,
                                         signals: seq<string>)

  /** How alike two entities are, and what shows it. */
  datatype Assessment = Assessment(similarity: real, signals: seq<string>)

  type Scoring = (Entity, Entity) -> Assessment

  type Pair = (Entity, Entity)

  type Blocks = map<string, seq<Entity>>

  // ---------- what is to be found ----------

  /** The block of the first letter; an entity without a name is in none. */
  function NameKey(e: Entity, lower: string -> string): Option<string> {
    if e.name == "" then None else Some(lower([e.name[0]]))
  }

  /** The block of the email domain; an address without exactly one `@` has none. */
  function DomainKey(e: Entity, lower: string -> string): Option<string> {
    match e.email
    case None => None
    case Some(email) =>
      if email == "" then None
      else
        var parts := Split(email, "@");
        if |parts| == 2 then Some(lower(parts[1])) else None
  }

  lemma SplitAtSign(name: string, domain: string)
    requires '@' !in name && '@' !in domain
    ensures Split(name + "@" + domain, "@") == [name, domain]
  {
    SplitHead(name, '@', domain);
    SplitWhole(domain, '@');
    assert "@" == ['@'];
    hide Split;
  }

  ghost predicate SameBlock(e1: Entity, e2: Entity, lower: string -> string) {
    || (NameKey(e1, lower).Some? && NameKey(e1, lower) == NameKey(e2, lower))
    || (DomainKey(e1, lower).Some? && DomainKey(e1, lower) == DomainKey(e2, lower))
  }

  /** Named entities share a block by the first letter of their names, and by nothing else of them. */
  lemma FirstLetterDecides(a: char, rest: string, id: string, b: char, other: string, id': string,
                           lower: string -> string)
    ensures SameBlock(Entity(id, [a] + rest, None), Entity(id', [b] + other, None), lower) <==>
            lower([a]) == lower([b])
    ensures !SameBlock(Entity(id, "", None), Entity(id', [b] + other, None), lower)
  {
  }

  /** Entities with addresses share a block by what stands behind the only `@`. */
  lemma DomainDecides(name: string, domain: string, id: string, name': string, domain': string, id': string,
                      lower: string -> string)
    requires '@' !in name && '@' !in domain && '@' !in name' && '@' !in domain'
    ensures SameBlock(Entity(id, "", Some(name + "@" + domain)), Entity(id', "", Some(name' + "@" + domain')), lower)
       <==> lower(domain) == lower(domain')
    ensures !SameBlock(Entity(id, "", Some(name)), Entity(id', "", Some(name' + "@" + domain')), lower)
  {
    SplitAtSign(name, domain);
    SplitAtSign(name', domain');
    SplitWhole(name, '@');
    assert "@" == ['@'];
    hide Split;
  }

  ghost predicate Before(entities: seq<Entity>, e1: Entity, e2: Entity) {
    exists a, b :: 0 <= a < b < |entities| && entities[a] == e1 && entities[b] == e2
  }

  function Report(pr: Pair, score: Scoring): DuplicatePair {
    var a := score(pr.0, pr.1);
    DuplicatePair(pr.0.id, pr.1.id, pr.0.name, pr.1.name, a.similarity, a.signals)
  }

  /** The ids as the repository makes them: distinct, and without the separator of pair keys. */
  ghost predicate GoodIds(entities: seq<Entity>) {
    && (forall a, b :: 0 <= a < b < |entities| ==> entities[a].id != entities[b].id)
    && (forall a :: 0 <= a < |entities| ==> ':' !in entities[a].id)
  }

  /** `found` is what the definition over all pairs says, each pair once. */
  ghost predicate IsAnswer(entities: seq<Entity>, lower: string -> string, score: Scoring,
                           minSimilarity: real, found: seq<DuplicatePair>) {
    && (forall e1, e2 ::
          Before(entities, e1, e2) && SameBlock(e1, e2, lower) && score(e1, e2).similarity >= minSimilarity ==>
            Report((e1, e2), score) in found)
    && (forall d :: d in found ==> IsDue(entities, lower, score, minSimilarity, d))
    && (forall i, j :: 0 <= i < j < |found| ==> (found[i].id1, found[i].id2) != (found[j].id1, found[j].id2))
  }

  ghost predicate IsDue(entities: seq<Entity>, lower: string -> string, score: Scoring,
                        minSimilarity: real, d: DuplicatePair) {
    exists e1, e2 :: && Before(entities, e1, e2) && SameBlock(e1, e2, lower)
                     && score(e1, e2).similarity >= minSimilarity && d == Report((e1, e2), score)
  }

  // ---------- keys of pairs ----------

  function PairKey(pr: Pair): string {
    pr.0.id + ":" + pr.1.id
  }

  lemma SeparatorPlace(s: string, t: string, n: nat)
    requires ':' !in s && n < |s + ":" + t|
    ensures n <= |s| ==> ((s + ":" + t)[n] == ':' <==> n == |s|)
  {
  }

  /** A key tells both ids. */
  lemma SeparatorAt(s: string, t: string, u: string, v: string)
    requires ':' !in s && ':' !in u && s + ":" + t == u + ":" + v
    ensures s == u && t == v
  {
    var w := s + ":" + t;
    assert w == u + ":" + v;
    SeparatorPlace(s, t, if |s| < |u| then |s| else |u|);
    SeparatorPlace(u, v, if |s| < |u| then |s| else |u|);
    assert s == w[..|s|] && u == w[..|u|];
    assert t == w[|s| + 1..] && v == w[|u| + 1..];
  }

  ghost predicate FromList(entities: seq<Entity>, pr: Pair) {
    pr.0 in entities && pr.1 in entities
  }

  /** A pair of the list is known by its key. */
  lemma KeyIsInjective(entities: seq<Entity>, p: Pair, q: Pair)
    requires GoodIds(entities) && FromList(entities, p) && FromList(entities, q)
    requires PairKey(p) == PairKey(q) || (p.0.id == q.0.id && p.1.id == q.1.id)
    ensures p == q
  {
    if PairKey(p) == PairKey(q) {
      SeparatorAt(p.0.id, p.1.id, q.0.id, q.1.id);
    }
    SameEntity(entities, p.0, q.0);
    SameEntity(entities, p.1, q.1);
  }

  lemma SameEntity(entities: seq<Entity>, e: Entity, f: Entity)
    requires GoodIds(entities) && e in entities && f in entities && e.id == f.id
    ensures e == f
  {
    var a :| 0 <= a < |entities| && entities[a] == e;
    var b :| 0 <= b < |entities| && entities[b] == f;
  }

  // ---------- the search over a set of pairs ----------

  /** `compared` and `found` are what comparing exactly the pairs `seen` leaves. */
  ghost predicate Tracks(entities: seq<Entity>, score: Scoring, minSimilarity: real,
                         seen: set<Pair>, compared: set<string>, found: seq<DuplicatePair>) {
    && (forall pr :: pr in seen ==> FromList(entities, pr))
    && (forall pr :: pr in seen ==> PairKey(pr) in compared)
    && (forall key :: key in compared ==> HasKey(seen, key))
    && (forall pr :: pr in seen && score(pr.0, pr.1).similarity >= minSimilarity ==> Report(pr, score) in found)
    && (forall d :: d in found ==> Reported(seen, score, minSimilarity, d))
    && (forall i, j :: 0 <= i < j < |found| ==> (found[i].id1, found[i].id2) != (found[j].id1, found[j].id2))
  }

  ghost predicate HasKey(seen: set<Pair>, key: string) {
    exists pr :: pr in seen && PairKey(pr) == key
  }

  ghost predicate Reported(seen: set<Pair>, score: Scoring, minSimilarity: real, d: DuplicatePair) {
    exists pr :: pr in seen && score(pr.0, pr.1).similarity >= minSimilarity && d == Report(pr, score)
  }

  /** A pair whose key was met has been compared itself. */
  lemma SkippedIsSeen(entities: seq<Entity>, score: Scoring, minSimilarity: real,
                      seen: set<Pair>, compared: set<string>, found: seq<DuplicatePair>, pr: Pair)
    requires GoodIds(entities) && Tracks(entities, score, minSimilarity, seen, compared, found)
    requires FromList(entities, pr) && PairKey(pr) in compared
    ensures pr in seen
  {
    assert HasKey(seen, PairKey(pr));
    var q :| q in seen && PairKey(q) == PairKey(pr);
    KeyIsInjective(entities, pr, q);
  }

  lemma KeysGrow(seen: set<Pair>, pr: Pair, key: string)
    requires HasKey(seen, key) || key == PairKey(pr)
    ensures HasKey(seen + {pr}, key)
  {
    if key == PairKey(pr) {
      assert pr in seen + {pr};
    } else {
      var q :| q in seen && PairKey(q) == key;
      assert q in seen + {pr};
    }
  }

  lemma ReportsGrow(seen: set<Pair>, score: Scoring, minSimilarity: real, pr: Pair, d: DuplicatePair)
    requires || Reported(seen, score, minSimilarity, d)
             || (score(pr.0, pr.1).similarity >= minSimilarity && d == Report(pr, score))
    ensures Reported(seen + {pr}, score, minSimilarity, d)
  {
    if Reported(seen, score, minSimilarity, d) {
      var q :| q in seen && score(q.0, q.1).similarity >= minSimilarity && d == Report(q, score);
      assert q in seen + {pr};
    } else {
      assert pr in seen + {pr};
    }
  }

  /** A pair not compared before has not been reported before. */
  lemma NotYetReported(entities: seq<Entity>, score: Scoring, minSimilarity: real,
                       seen: set<Pair>, compared: set<string>, found: seq<DuplicatePair>, pr: Pair, d: DuplicatePair)
    requires GoodIds(entities) && Tracks(entities, score, minSimilarity, seen, compared, found)
    requires FromList(entities, pr) && PairKey(pr) !in compared && d in found
    ensures (d.id1, d.id2) != (pr.0.id, pr.1.id)
  {
    assert Reported(seen, score, minSimilarity, d);
    var q :| q in seen && score(q.0, q.1).similarity >= minSimilarity && d == Report(q, score);
    assert PairKey(q) in compared && FromList(entities, q);
    hide Tracks, GoodIds;
    if (d.id1, d.id2) == (pr.0.id, pr.1.id) {
      KeyIsInjective(entities, pr, q);
    }
  }

  lemma NewPairIsTracked(entities: seq<Entity>, score: Scoring, minSimilarity: real,
                         seen: set<Pair>, compared: set<string>, found: seq<DuplicatePair>, pr: Pair)
    requires GoodIds(entities) && Tracks(entities, score, minSimilarity, seen, compared, found)
    requires FromList(entities, pr) && PairKey(pr) !in compared
    ensures Tracks(entities, score, minSimilarity, seen + {pr}, compared + {PairKey(pr)},
                   if score(pr.0, pr.1).similarity >= minSimilarity then found + [Report(pr, score)] else found)
  {
    hide GoodIds, HasKey, Reported, FromList, PairKey;
    var now := if score(pr.0, pr.1).similarity >= minSimilarity then found + [Report(pr, score)] else found;
    forall d | d in now ensures Reported(seen + {pr}, score, minSimilarity, d) {
      ReportsGrow(seen, score, minSimilarity, pr, d);
    }
    forall key | key in compared + {PairKey(pr)} ensures HasKey(seen + {pr}, key) {
      KeysGrow(seen, pr, key);
    }
    forall i | 0 <= i < |found| ensures (found[i].id1, found[i].id2) != (pr.0.id, pr.1.id) {
      NotYetReported(entities, score, minSimilarity, seen, compared, found, pr, found[i]);
    }
  }

  // ---------- blocks ----------

  /** The entities with this key, in order. */
  function Members(entities: seq<Entity>, key: Entity -> Option<string>, k: string): seq<Entity> {
    if entities == [] then []
    else
      var n := |entities| - 1;
      var e := entities[n];
      Members(entities[..n], key, k) + if key(e) == Some(k) then [e] else []
  }

  function PairsIn(block: seq<Entity>): set<Pair> {
    set i, j | 0 <= i < j < |block| :: (block[i], block[j])
  }

  /** The pairs of a block are the pairs of the list with its key. */
  lemma {:induction false} BlockMembers(entities: seq<Entity>, key: Entity -> Option<string>, k: string, e: Entity)
    ensures e in Members(entities, key, k) <==> e in entities && key(e) == Some(k)
  {
    if entities != [] {
      BlockMembers(entities[..|entities| - 1], key, k, e);
    }
  }

  lemma BeforeSnoc(s: seq<Entity>, last: Entity, e1: Entity, e2: Entity)
    ensures Before(s + [last], e1, e2) <==> Before(s, e1, e2) || (e1 in s && e2 == last)
  {
    var t := s + [last];
    if Before(s, e1, e2) {
      var a, b :| 0 <= a < b < |s| && s[a] == e1 && s[b] == e2;
      assert t[a] == e1 && t[b] == e2;
    }
    if e1 in s && e2 == last {
      var a :| 0 <= a < |s| && s[a] == e1;
      assert t[a] == e1 && t[|s|] == e2;
    }
    if Before(t, e1, e2) {
      var a, b :| 0 <= a < b < |t| && t[a] == e1 && t[b] == e2;
      assert s[a] == e1;
      if b < |s| {
        assert s[b] == e2;
      }
    }
  }

  lemma {:induction false} BlockPairs(entities: seq<Entity>, key: Entity -> Option<string>, k: string,
                                      e1: Entity, e2: Entity)
    ensures Before(Members(entities, key, k), e1, e2) <==>
            Before(entities, e1, e2) && key(e1) == Some(k) && key(e2) == Some(k)
  {
    if entities != [] {
      var n := |entities| - 1;
      var rest, last := entities[..n], entities[n];
      assert entities == rest + [last];
      BlockPairs(rest, key, k, e1, e2);
      BlockMembers(rest, key, k, e1);
      BeforeSnoc(rest, last, e1, e2);
      BeforeSnoc(Members(rest, key, k), last, e1, e2);
      if key(last) != Some(k) {
        assert Members(entities, key, k) == Members(rest, key, k);
      }
    }
  }

  lemma PairsInAre(block: seq<Entity>, e1: Entity, e2: Entity)
    ensures (e1, e2) in PairsIn(block) <==> Before(block, e1, e2)
  {
  }

  /** `blocks` holds the members of every key that has any. */
  ghost predicate AreBlocks(blocks: Blocks, entities: seq<Entity>, key: Entity -> Option<string>) {
    forall k :: Members(entities, key, k) == if k in blocks then blocks[k] else []
  }

  /** One more entity goes into the block of its key. */
  function Filed(blocks: Blocks, k: string, e: Entity): Blocks {
    blocks[k := (if k in blocks then blocks[k] else []) + [e]]
  }

  lemma FiledAreBlocks(blocks: Blocks, entities: seq<Entity>, i: nat, key: Entity -> Option<string>)
    requires i < |entities| && AreBlocks(blocks, entities[..i], key)
    ensures AreBlocks(match key(entities[i]) case None => blocks case Some(k) => Filed(blocks, k, entities[i]),
                      entities[..i + 1], key)
  {
    assert entities[..i + 1][..i] == entities[..i];
  }

  method BlockByName(entities: seq<Entity>, lower: string -> string) returns (blocked: Blocks)
    ensures AreBlocks(blocked, entities, e => NameKey(e, lower))
  {
    hide AreBlocks, Members;
    blocked := map[];
    ghost var key := (e: Entity) => NameKey(e, lower);
    NoBlocks(entities, key);
    for i := 0 to |entities|
      invariant AreBlocks(blocked, entities[..i], key)
    {
      var ent := entities[i];
      FiledAreBlocks(blocked, entities, i, key);
      if ent.name == "" {
        continue;
      }
      var k := lower([ent.name[0]]);
      blocked := Filed(blocked, k, ent);
    }
    assert entities[..|entities|] == entities;
  }

  method BlockByDomain(entities: seq<Entity>, lower: string -> string) returns (domainBlocked: Blocks)
    ensures AreBlocks(domainBlocked, entities, e => DomainKey(e, lower))
  {
    hide AreBlocks, Members, Split;
    domainBlocked := map[];
    ghost var key := (e: Entity) => DomainKey(e, lower);
    NoBlocks(entities, key);
    for i := 0 to |entities|
      invariant AreBlocks(domainBlocked, entities[..i], key)
    {
      var ent := entities[i];
      FiledAreBlocks(domainBlocked, entities, i, key);
      if ent.email.Some? && ent.email.value != "" {
        var parts := Split(ent.email.value, "@");
        if |parts| == 2 {
          var domain := lower(parts[1]);
          domainBlocked := Filed(domainBlocked, domain, ent);
        }
      }
    }
    assert entities[..|entities|] == entities;
  }

  lemma NoBlocks(entities: seq<Entity>, key: Entity -> Option<string>)
    ensures AreBlocks(map[], entities[..0], key)
  {
  }

  // ---------- the search ----------

  /** The pairs of a block compared before `(i, j)`. */
  function PairsUpTo(block: seq<Entity>, i: nat, j: nat): set<Pair> {
    set x, y | 0 <= x < y < |block| && (x < i || (x == i && y < j)) :: (block[x], block[y])
  }

  lemma NextPair(block: seq<Entity>, i: nat, j: nat)
    requires i < j < |block|
    ensures PairsUpTo(block, i, j + 1) == PairsUpTo(block, i, j) + {(block[i], block[j])}
  {
  }

  lemma NextRow(block: seq<Entity>, i: nat)
    requires i < |block|
    ensures PairsUpTo(block, i, |block|) == PairsUpTo(block, i + 1, i + 2)
    ensures PairsUpTo(block, 0, 1) == {}
  {
  }

  lemma AllPairs(block: seq<Entity>)
    ensures PairsUpTo(block, |block|, |block| + 1) == PairsIn(block)
  {
  }

  method CompareBlock(ghost entities: seq<Entity>, block: seq<Entity>, score: Scoring,
                      minSimilarity: real, compared0: set<string>, found0: seq<DuplicatePair>, ghost seen0: set<Pair>)
      returns (compared: set<string>, found: seq<DuplicatePair>, ghost seen: set<Pair>)
    requires GoodIds(entities) && (forall e :: e in block ==> e in entities)
    requires Tracks(entities, score, minSimilarity, seen0, compared0, found0)
    ensures Tracks(entities, score, minSimilarity, seen, compared, found)
    ensures seen == seen0 + PairsIn(block)
  {
    hide Tracks, GoodIds, PairsUpTo, PairsIn, Report, PairKey;
    compared, found, seen := compared0, found0, seen0;
    if |block| > 0 {
      NextRow(block, 0);
    } else {
      assert PairsUpTo(block, 0, 1) == {} by { NoRows(block); }
    }
    for i := 0 to |block|
      invariant Tracks(entities, score, minSimilarity, seen, compared, found)
      invariant seen == seen0 + PairsUpTo(block, i, i + 1)
    {
      for j := i + 1 to |block|
        invariant Tracks(entities, score, minSimilarity, seen, compared, found)
        invariant seen == seen0 + PairsUpTo(block, i, j)
      {
        var e1, e2 := block[i], block[j];
        assert e1 in block && e2 in block;
        NextPair(block, i, j);
        var pairKey := PairKey((e1, e2));
        if pairKey in compared {
          SkippedIsSeen(entities, score, minSimilarity, seen, compared, found, (e1, e2));
          assert seen == seen + {(e1, e2)};
          continue;
        }
        NewPairIsTracked(entities, score, minSimilarity, seen, compared, found, (e1, e2));
        compared := compared + {pairKey};
        var assessed := score(e1, e2);
        if assessed.similarity >= minSimilarity {
          found := found + [Report((e1, e2), score)];
        }
        seen := seen + {(e1, e2)};
      }
      NextRow(block, i);
    }
    AllPairs(block);
  }

  lemma NoRows(block: seq<Entity>)
    requires |block| == 0
    ensures PairsUpTo(block, 0, 1) == {}
  {
  }

  ghost predicate SharesKey(entities: seq<Entity>, key: Entity -> Option<string>, among: set<string>, pr: Pair) {
    Before(entities, pr.0, pr.1) && key(pr.0) == key(pr.1) && key(pr.0).Some? && key(pr.0).value in among
  }

  /** Of the blocks with these keys all pairs have been compared. */
  ghost predicate Covers(entities: seq<Entity>, key: Entity -> Option<string>, among: set<string>,
                         seen0: set<Pair>, seen: set<Pair>) {
    forall pr :: pr in seen <==> pr in seen0 || SharesKey(entities, key, among, pr)
  }

  lemma BlockIsCovered(entities: seq<Entity>, key: Entity -> Option<string>, among: set<string>, k: string,
                       block: seq<Entity>, seen0: set<Pair>, seen: set<Pair>)
    requires Covers(entities, key, among, seen0, seen) && block == Members(entities, key, k)
    ensures Covers(entities, key, among + {k}, seen0, seen + PairsIn(block))
  {
    forall pr: Pair
      ensures pr in seen + PairsIn(block) <==> pr in seen0 || SharesKey(entities, key, among + {k}, pr)
    {
      PairsInAre(block, pr.0, pr.1);
      BlockPairs(entities, key, k, pr.0, pr.1);
    }
  }

  lemma BlockIsFromList(entities: seq<Entity>, key: Entity -> Option<string>, k: string)
    ensures forall e :: e in Members(entities, key, k) ==> e in entities
  {
    forall e | e in Members(entities, key, k) ensures e in entities {
      BlockMembers(entities, key, k, e);
    }
  }

  /** The loops over one map of blocks; the order in which the map is walked does not matter. */
  method CompareBlocks(ghost entities: seq<Entity>, ghost key: Entity -> Option<string>, blocks: Blocks,
                       score: Scoring, minSimilarity: real,
                       compared0: set<string>, found0: seq<DuplicatePair>, ghost seen0: set<Pair>)
      returns (compared: set<string>, found: seq<DuplicatePair>, ghost seen: set<Pair>)
    requires GoodIds(entities) && AreBlocks(blocks, entities, key)
    requires Tracks(entities, score, minSimilarity, seen0, compared0, found0)
    ensures Tracks(entities, score, minSimilarity, seen, compared, found)
    ensures Covers(entities, key, blocks.Keys, seen0, seen)
  {
    compared, found, seen := compared0, found0, seen0;
    var left := blocks.Keys;
    assert Covers(entities, key, {}, seen0, seen);
    ghost var done: set<string> := {};
    hide Tracks, GoodIds, Covers, Members, PairsIn;
    while left != {}
      invariant left + done == blocks.Keys
      invariant Tracks(entities, score, minSimilarity, seen, compared, found)
      invariant Covers(entities, key, done, seen0, seen)
      decreases |left|
    {
      var k :| k in left;
      left := left - {k};
      var block := blocks[k];
      assert block == Members(entities, key, k);
      BlockIsFromList(entities, key, k);
      BlockIsCovered(entities, key, done, k, block, seen0, seen);
      compared, found, seen := CompareBlock(entities, block, score, minSimilarity, compared, found, seen);
      done := done + {k};
    }
    assert done == blocks.Keys;
  }

  /** A pair that shares a key shares one that has a block. */
  lemma SharedKeyHasBlock(entities: seq<Entity>, key: Entity -> Option<string>, blocks: Blocks, e1: Entity, e2: Entity)
    requires AreBlocks(blocks, entities, key) && Before(entities, e1, e2) && key(e1).Some? && key(e1) == key(e2)
    ensures SharesKey(entities, key, blocks.Keys, (e1, e2))
  {
    var k := key(e1).value;
    BlockMembers(entities, key, k, e1);
    assert e1 in Members(entities, key, k);
  }

  lemma SearchIsComplete(entities: seq<Entity>, lower: string -> string, score: Scoring,
                         minSimilarity: real, byName: Blocks, byDomain: Blocks, names: set<Pair>,
                         seen: set<Pair>, compared: set<string>, found: seq<DuplicatePair>)
    requires AreBlocks(byName, entities, e => NameKey(e, lower))
    requires AreBlocks(byDomain, entities, e => DomainKey(e, lower))
    requires Covers(entities, e => NameKey(e, lower), byName.Keys, {}, names)
    requires Covers(entities, e => DomainKey(e, lower), byDomain.Keys, names, seen)
    requires Tracks(entities, score, minSimilarity, seen, compared, found)
    ensures IsAnswer(entities, lower, score, minSimilarity, found)
  {
    forall e1, e2 | Before(entities, e1, e2) && SameBlock(e1, e2, lower) ensures (e1, e2) in seen {
      if NameKey(e1, lower).Some? && NameKey(e1, lower) == NameKey(e2, lower) {
        SharedKeyHasBlock(entities, e => NameKey(e, lower), byName, e1, e2);
        assert (e1, e2) in names;
      } else {
        SharedKeyHasBlock(entities, e => DomainKey(e, lower), byDomain, e1, e2);
      }
    }
    forall pr | pr in seen ensures Before(entities, pr.0, pr.1) && SameBlock(pr.0, pr.1, lower) {
      if pr !in names {
        assert SharesKey(entities, e => DomainKey(e, lower), byDomain.Keys, pr);
      } else {
        assert SharesKey(entities, e => NameKey(e, lower), byName.Keys, pr);
      }
    }
    forall d | d in found ensures IsDue(entities, lower, score, minSimilarity, d) {
      var pr :| pr in seen && score(pr.0, pr.1).similarity >= minSimilarity && d == Report(pr, score);
      assert d == Report((pr.0, pr.1), score);
    }
  }

  const LIMIT := 100

  /** The first hundred of what the definition asks for, in some order. */
  ghost predicate IsLimitedAnswer(entities: seq<Entity>, lower: string -> string, score: Scoring,
                                  minSimilarity: real, pairs: seq<DuplicatePair>) {
    exists found :: IsAnswer(entities, lower, score, minSimilarity, found) &&
                    pairs == if |found| > 100 then found[..100] else found
  }

  lemma LimitedAnswerIs(entities: seq<Entity>, lower: string -> string, score: Scoring,
                        minSimilarity: real, found: seq<DuplicatePair>)
    requires IsAnswer(entities, lower, score, minSimilarity, found)
    ensures IsLimitedAnswer(entities, lower, score, minSimilarity, if |found| > 100 then found[..100] else found)
  {
  }

  method FindDuplicateEntities(entities: seq<Entity>, lower: string -> string, score: Scoring,
                               minSimilarity: real) returns (duplicatePairs: seq<DuplicatePair>)
    requires GoodIds(entities)
    ensures IsLimitedAnswer(entities, lower, score, minSimilarity, duplicatePairs)
  {
    var blocked := BlockByName(entities, lower);
    var domainBlocked := BlockByDomain(entities, lower);
    var compared: set<string> := {};
    duplicatePairs := [];
    ghost var seen: set<Pair> := {};
    assert Tracks(entities, score, minSimilarity, seen, compared, duplicatePairs);
    hide *;
    ghost var names: set<Pair>;
    compared, duplicatePairs, names := CompareBlocks(entities, e => NameKey(e, lower), blocked, score, minSimilarity,
                                                     compared, duplicatePairs, seen);
    compared, duplicatePairs, seen := CompareBlocks(entities, e => DomainKey(e, lower), domainBlocked, score,
                                                    minSimilarity, compared, duplicatePairs, names);
    SearchIsComplete(entities, lower, score, minSimilarity, blocked, domainBlocked, names, seen, compared,
                     duplicatePairs);
    LimitedAnswerIs(entities, lower, score, minSimilarity, duplicatePairs);
    if |duplicatePairs| > LIMIT {
      duplicatePairs := duplicatePairs[..LIMIT];
    }
  }
}
