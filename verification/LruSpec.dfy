/**
 The cache of `pkg/embeddings/cache.go` as a list of entries in order of use, the most recent
 one first: the specification the class `MemoryCache` is proved against, and what is proved of
 whole runs of it.
 */
module LruSpec {
  import opened Wrappers

  datatype Item = Item(key: string, value: seq<real>, expiresAt: int)

  /** `MaxSize` and `TTL`; a TTL that is not positive means no expiry. */
  datatype Config = Config(maxSize: int, ttl: int)

  datatype Op =
    | Get(key: string, now: int)
    | Set(key: string, value: seq<real>, now: int)
    | Delete(key: string)
    | Clear

  // ---------- lists of entries ----------

  function Keys(l: seq<Item>): set<string> {
    if l == [] then {} else {l[0].key} + Keys(l[1..])
  }

  predicate Distinct(l: seq<Item>) {
    l == [] || (l[0].key !in Keys(l[1..]) && Distinct(l[1..]))
  }

  function Lookup(l: seq<Item>, k: string): (r: Option<Item>)
    ensures r.Some? <==> k in Keys(l)
    ensures r.Some? ==> r.value.key == k
  {
    if l == [] then None else if l[0].key == k then Some(l[0]) else Lookup(l[1..], k)
  }

  function Without(l: seq<Item>, k: string): (r: seq<Item>)
    ensures Keys(r) == Keys(l) - {k}
  {
    if l == [] then []
    else if l[0].key == k then Without(l[1..], k)
    else
      var r := Without(l[1..], k);
      assert ([l[0]] + r)[1..] == r;
      [l[0]] + r
  }

  // ---------- operations ----------

  function NewItem(cfg: Config, k: string, v: seq<real>, now: int): Item {
    Item(k, v, if cfg.ttl > 0 then now + cfg.ttl else 0)
  }

  predicate Expired(cfg: Config, it: Item, now: int) {
    cfg.ttl > 0 && now > it.expiresAt
  }

  /** What `Get` returns: the value of an entry that is there and not expired. */
  function GetResult(cfg: Config, l: seq<Item>, k: string, now: int): Option<seq<real>> {
    match Lookup(l, k)
    case None => None
    case Some(it) => if Expired(cfg, it, now) then None else Some(it.value)
  }

  function AfterGet(cfg: Config, l: seq<Item>, k: string, now: int): seq<Item> {
    match Lookup(l, k)
    case None => l
    case Some(it) => if Expired(cfg, it, now) then Without(l, k) else [it] + Without(l, k)
  }

  /** Room for one more: the least recently used entries go. */
  function Evict(l: seq<Item>, maxSize: int): seq<Item> {
    if |l| >= maxSize > 0 then l[..maxSize - 1] else l
  }

  function AfterSet(cfg: Config, l: seq<Item>, k: string, v: seq<real>, now: int): seq<Item> {
    [NewItem(cfg, k, v, now)] + if k in Keys(l) then Without(l, k) else Evict(l, cfg.maxSize)
  }

  function Step(cfg: Config, l: seq<Item>, op: Op): seq<Item> {
    match op
    case Get(k, now) => AfterGet(cfg, l, k, now)
    case Set(k, v, now) => AfterSet(cfg, l, k, v, now)
    case Delete(k) => Without(l, k)
    case Clear => []
  }

  function Run(cfg: Config, l: seq<Item>, ops: seq<Op>): seq<Item>
    decreases |ops|
  {
    if ops == [] then l else Run(cfg, Step(cfg, l, ops[0]), ops[1..])
  }

  // ---------- facts about the list functions ----------

  lemma ConsKeys(it: Item, l: seq<Item>)
    ensures Keys([it] + l) == {it.key} + Keys(l)
    ensures Distinct([it] + l) <==> it.key !in Keys(l) && Distinct(l)
  {
    assert ([it] + l)[1..] == l;
  }

  lemma {:induction false} KeysAppend(a: seq<Item>, b: seq<Item>)
    ensures Keys(a + b) == Keys(a) + Keys(b)
  {
    if a == [] {
      assert a + b == b;
    } else {
      assert a + b == [a[0]] + (a[1..] + b);
      ConsKeys(a[0], a[1..] + b);
      KeysAppend(a[1..], b);
    }
  }

  lemma {:induction false} DistinctAppend(a: seq<Item>, b: seq<Item>)
    ensures Distinct(a + b) <==> Distinct(a) && Distinct(b) && Keys(a) !! Keys(b)
  {
    if a == [] {
      assert a + b == b;
    } else {
      assert a + b == [a[0]] + (a[1..] + b);
      ConsKeys(a[0], a[1..] + b);
      KeysAppend(a[1..], b);
      DistinctAppend(a[1..], b);
    }
  }

  lemma {:induction false} WithoutAppend(a: seq<Item>, b: seq<Item>, k: string)
    ensures Without(a + b, k) == Without(a, k) + Without(b, k)
  {
    if a == [] {
      assert a + b == b;
    } else {
      assert (a + b)[0] == a[0] && (a + b)[1..] == a[1..] + b;
      WithoutAppend(a[1..], b, k);
    }
  }

  lemma {:induction false} WithoutAbsent(l: seq<Item>, k: string)
    requires k !in Keys(l)
    ensures Without(l, k) == l
  {
    if l != [] {
      WithoutAbsent(l[1..], k);
    }
  }

  lemma {:induction false} WithoutSize(l: seq<Item>, k: string)
    requires Distinct(l)
    ensures |Without(l, k)| == if k in Keys(l) then |l| - 1 else |l|
    ensures Distinct(Without(l, k))
  {
    if l != [] {
      WithoutSize(l[1..], k);
      if l[0].key == k {
        WithoutAbsent(l[1..], k);
      } else {
        ConsKeys(l[0], Without(l[1..], k));
      }
    }
  }

  lemma {:induction false} KeysSize(l: seq<Item>)
    requires Distinct(l)
    ensures |Keys(l)| == |l|
  {
    if l != [] {
      KeysSize(l[1..]);
    }
  }

  lemma PrefixDistinct(l: seq<Item>, n: nat)
    requires n <= |l| && Distinct(l)
    ensures Distinct(l[..n]) && Keys(l[..n]) <= Keys(l)
  {
    assert l == l[..n] + l[n..];
    DistinctAppend(l[..n], l[n..]);
    KeysAppend(l[..n], l[n..]);
  }

  lemma KeyAt(l: seq<Item>, k: string)
    ensures k in Keys(l) <==> exists i :: 0 <= i < |l| && l[i].key == k
  {
    if l != [] {
      KeyAt(l[1..], k);
      assert l[0].key == k || forall i :: 0 < i < |l| ==> l[i] == l[1..][i - 1];
      if k in Keys(l[1..]) {
        var i :| 0 <= i < |l[1..]| && l[1..][i].key == k;
        assert l[i + 1].key == k;
      }
    }
  }

  /** The entry at index `i` is what its key finds, and taking the key out takes that entry out. */
  lemma EntryAt(l: seq<Item>, i: nat)
    requires Distinct(l) && i < |l|
    ensures Lookup(l, l[i].key) == Some(l[i])
    ensures Without(l, l[i].key) == l[..i] + l[i + 1..]
  {
    hide *;
    CutAt(l, i);
    EntryBetween(l[..i], l[i], l[i + 1..]);
  }

  lemma CutAt(l: seq<Item>, i: nat)
    requires i < |l|
    ensures l == l[..i] + ([l[i]] + l[i + 1..])
  {
  }

  lemma EntryBetween(a: seq<Item>, it: Item, b: seq<Item>)
    requires Distinct(a + ([it] + b))
    ensures Lookup(a + ([it] + b), it.key) == Some(it)
    ensures Without(a + ([it] + b), it.key) == a + b
  {
    DistinctAppend(a, [it] + b);
    ConsKeys(it, b);
    WithoutAppend(a, [it] + b, it.key);
    WithoutAppend([it], b, it.key);
    WithoutAbsent(a, it.key);
    WithoutAbsent(b, it.key);
    LookupAppend(a, [it] + b, it.key);
  }

  lemma {:induction false} LookupAppend(a: seq<Item>, b: seq<Item>, k: string)
    requires k !in Keys(a)
    ensures Lookup(a + b, k) == Lookup(b, k)
  {
    if a == [] {
      assert a + b == b;
    } else {
      assert (a + b)[1..] == a[1..] + b;
      LookupAppend(a[1..], b, k);
    }
  }

  lemma {:induction false} LookupWithout(l: seq<Item>, k: string, j: string)
    requires j != k
    ensures Lookup(Without(l, k), j) == Lookup(l, j)
  {
    if l != [] {
      LookupWithout(l[1..], k, j);
      assert ([l[0]] + Without(l[1..], k))[1..] == Without(l[1..], k);
    }
  }

  lemma {:induction false} LookupPrefix(l: seq<Item>, n: nat, j: string)
    requires n <= |l| && j in Keys(l[..n])
    ensures Lookup(l[..n], j) == Lookup(l, j)
  {
    if l[0].key != j {
      assert l[..n][1..] == l[1..][..n - 1];
      LookupPrefix(l[1..], n - 1, j);
    }
  }

  // ---------- every step keeps the cache a cache ----------

  ghost predicate Bounded(cfg: Config, l: seq<Item>) {
    Distinct(l) && |l| <= if cfg.maxSize > 0 then cfg.maxSize else 0
  }

  lemma StepBounded(cfg: Config, l: seq<Item>, op: Op)
    requires cfg.maxSize >= 1 && Bounded(cfg, l)
    ensures Bounded(cfg, Step(cfg, l, op))
  {
    match op
    case Get(k, now) =>
      WithoutSize(l, k);
      if Lookup(l, k).Some? {
        ConsKeys(Lookup(l, k).value, Without(l, k));
      }
    case Set(k, v, now) =>
      WithoutSize(l, k);
      if |l| >= cfg.maxSize {
        PrefixDistinct(l, cfg.maxSize - 1);
      }
      ConsKeys(NewItem(cfg, k, v, now), if k in Keys(l) then Without(l, k) else Evict(l, cfg.maxSize));
    case Delete(k) =>
      WithoutSize(l, k);
    case Clear =>
  }

  /** In every run from the empty cache no key is there twice and the size stays within the limit. */
  lemma {:induction false} RunBounded(cfg: Config, l: seq<Item>, ops: seq<Op>)
    requires cfg.maxSize >= 1 && Bounded(cfg, l)
    ensures Bounded(cfg, Run(cfg, l, ops))
    decreases |ops|
  {
    if ops != [] {
      StepBounded(cfg, l, ops[0]);
      RunBounded(cfg, Step(cfg, l, ops[0]), ops[1..]);
    }
  }
}
