module LruRuns {
  /**
   Whole runs of the cache: a smaller cache holds part of what a larger one holds, an entry
   survives while few other keys are used, and that many is exact.
   */

  import opened Wrappers
  import opened LruSpec

  // ---------- a smaller cache is part of a larger one ----------

  /** `a` is `b` with some entries left out. */
  predicate SubList(a: seq<Item>, b: seq<Item>)
    decreases |b|
  {
    if a == [] then true
    else if b == [] then false
    else (a[0] == b[0] && SubList(a[1..], b[1..])) || SubList(a, b[1..])
  }

  lemma {:induction false} SubListKeys(a: seq<Item>, b: seq<Item>)
    requires SubList(a, b)
    ensures Keys(a) <= Keys(b)
    decreases |b|
  {
    if a != [] {
      if a[0] == b[0] && SubList(a[1..], b[1..]) {
        SubListKeys(a[1..], b[1..]);
      } else {
        SubListKeys(a, b[1..]);
      }
    }
  }

  lemma SubListSkip(a: seq<Item>, b: seq<Item>)
    requires b != [] && SubList(a, b[1..])
    ensures SubList(a, b)
  {
  }

  lemma SubListCons(it: Item, a: seq<Item>, b: seq<Item>)
    requires SubList(a, b)
    ensures SubList([it] + a, [it] + b)
    ensures SubList(a, [it] + b)
  {
    assert ([it] + a)[1..] == a && ([it] + b)[1..] == b;
  }

  lemma {:induction false} SubListWithout(a: seq<Item>, b: seq<Item>, k: string)
    requires SubList(a, b)
    ensures SubList(Without(a, k), Without(b, k))
    decreases |b|
  {
    if a != [] {
      var a', b' := Without(a[1..], k), Without(b[1..], k);
      if a[0] == b[0] && SubList(a[1..], b[1..]) {
        SubListWithout(a[1..], b[1..], k);
        SubListCons(a[0], a', b');
      } else {
        SubListWithout(a, b[1..], k);
        SubListCons(b[0], Without(a, k), b');
      }
    }
  }

  /** Dropping the last entry of both keeps the relation. */
  lemma {:induction false} SubListInit(a: seq<Item>, b: seq<Item>)
    requires SubList(a, b) && a != []
    ensures b != [] && SubList(a[..|a| - 1], b[..|b| - 1])
    decreases |b|
  {
    var a', b' := a[..|a| - 1], b[..|b| - 1];
    if a[0] == b[0] && SubList(a[1..], b[1..]) {
      if |a| > 1 {
        SubListInit(a[1..], b[1..]);
        assert a' == [a[0]] + a[1..][..|a| - 2];
        assert b' == [b[0]] + b[1..][..|b| - 2];
        SubListCons(a[0], a[1..][..|a| - 2], b[1..][..|b| - 2]);
      }
    } else {
      SubListInit(a, b[1..]);
      assert b' == [b[0]] + b[1..][..|b| - 2];
      SubListCons(b[0], a', b[1..][..|b| - 2]);
    }
  }

  lemma {:induction false} SubListPrefix(a: seq<Item>, b: seq<Item>)
    requires SubList(a, b) && a != []
    ensures SubList(a[..|a| - 1], b)
    decreases |b|
  {
    var a' := a[..|a| - 1];
    if a[0] == b[0] && SubList(a[1..], b[1..]) {
      if |a| > 1 {
        SubListPrefix(a[1..], b[1..]);
        assert a' == [a[0]] + a[1..][..|a| - 2];
        SubListCons(a[0], a[1..][..|a| - 2], b[1..]);
        assert b == [b[0]] + b[1..];
      }
    } else {
      SubListPrefix(a, b[1..]);
      SubListSkip(a', b);
    }
  }

  lemma {:induction false} SubListLookup(a: seq<Item>, b: seq<Item>, k: string)
    requires SubList(a, b) && Distinct(b) && k in Keys(a)
    ensures Lookup(a, k) == Lookup(b, k)
    decreases |b|
  {
    if a[0] == b[0] && SubList(a[1..], b[1..]) {
      if a[0].key != k {
        SubListLookup(a[1..], b[1..], k);
      }
    } else {
      SubListLookup(a, b[1..], k);
      SubListKeys(a, b[1..]);
    }
  }

  /**
   The invariant of two caches run side by side: the small one is a sub-list of the large one,
   and the large one is ahead by no more than its larger limit allows.
   */
  ghost predicate Included(small: seq<Item>, big: seq<Item>, m: int, n: int) {
    && 1 <= m <= n
    && Distinct(small) && Distinct(big)
    && |small| <= m && |big| <= n
    && SubList(small, big)
    && |big| - |small| <= n - m
  }

  lemma GetKeepsInclusion(small: seq<Item>, big: seq<Item>, m: int, n: int, ttl: int, k: string, now: int)
    requires Included(small, big, m, n)
    ensures SubList(AfterGet(Config(m, ttl), small, k, now), AfterGet(Config(n, ttl), big, k, now))
    ensures |AfterGet(Config(n, ttl), big, k, now)| - |AfterGet(Config(m, ttl), small, k, now)| <= n - m
    ensures GetResult(Config(m, ttl), small, k, now).Some? ==>
              GetResult(Config(n, ttl), big, k, now) == GetResult(Config(m, ttl), small, k, now)
  {
    WithoutSize(small, k);
    WithoutSize(big, k);
    SubListKeys(small, big);
    SubListWithout(small, big, k);
    if k in Keys(small) {
      SubListLookup(small, big, k);
      SubListCons(Lookup(big, k).value, Without(small, k), Without(big, k));
    } else if k in Keys(big) {
      WithoutAbsent(small, k);
      SubListCons(Lookup(big, k).value, small, Without(big, k));
    }
  }

  lemma SetKeepsInclusion(small: seq<Item>, big: seq<Item>, m: int, n: int, ttl: int, k: string, v: seq<real>, now: int)
    requires Included(small, big, m, n)
    ensures SubList(AfterSet(Config(m, ttl), small, k, v, now), AfterSet(Config(n, ttl), big, k, v, now))
    ensures |AfterSet(Config(n, ttl), big, k, v, now)| - |AfterSet(Config(m, ttl), small, k, v, now)| <= n - m
  {
    var it := NewItem(Config(m, ttl), k, v, now);
    var small' := if k in Keys(small) then Without(small, k) else Evict(small, m);
    var big' := if k in Keys(big) then Without(big, k) else Evict(big, n);
    WithoutSize(small, k);
    WithoutSize(big, k);
    SubListKeys(small, big);
    SubListWithout(small, big, k);
    if k in Keys(small) {
    } else if k in Keys(big) {
      WithoutAbsent(small, k);
      if |small| >= m {
        SubListPrefix(small, Without(big, k));
      }
    } else if |small| >= m {
      if |big| >= n {
        SubListInit(small, big);
      } else {
        SubListPrefix(small, big);
      }
    }
    SubListCons(it, small', big');
  }

  lemma StepKeepsInclusion(small: seq<Item>, big: seq<Item>, m: int, n: int, ttl: int, op: Op)
    requires Included(small, big, m, n)
    ensures Included(Step(Config(m, ttl), small, op), Step(Config(n, ttl), big, op), m, n)
  {
    StepBounded(Config(m, ttl), small, op);
    StepBounded(Config(n, ttl), big, op);
    match op
    case Get(k, now) => GetKeepsInclusion(small, big, m, n, ttl, k, now);
    case Set(k, v, now) => SetKeepsInclusion(small, big, m, n, ttl, k, v, now);
    case Delete(k) =>
      WithoutSize(small, k);
      WithoutSize(big, k);
      SubListKeys(small, big);
      SubListWithout(small, big, k);
    case Clear =>
  }

  lemma {:induction false} RunKeepsInclusion(small: seq<Item>, big: seq<Item>, m: int, n: int, ttl: int, ops: seq<Op>)
    requires Included(small, big, m, n)
    ensures Included(Run(Config(m, ttl), small, ops), Run(Config(n, ttl), big, ops), m, n)
    decreases |ops|
  {
    if ops != [] {
      StepKeepsInclusion(small, big, m, n, ttl, ops[0]);
      RunKeepsInclusion(Step(Config(m, ttl), small, ops[0]), Step(Config(n, ttl), big, ops[0]), m, n, ttl, ops[1..]);
    }
  }

  /**
   The inclusion property of LRU: after any run the cache of size `m` is a sub-list of the cache
   of size `n >= m`, with equal values, and every hit of the small one is a hit of the large one.
   */
  lemma LruInclusion(m: int, n: int, ttl: int, ops: seq<Op>, k: string, now: int)
    requires 1 <= m <= n
    ensures var small, big := Run(Config(m, ttl), [], ops), Run(Config(n, ttl), [], ops);
            && SubList(small, big)
            && |big| - |small| <= n - m
            && (GetResult(Config(m, ttl), small, k, now).Some? ==>
                  GetResult(Config(n, ttl), big, k, now) == GetResult(Config(m, ttl), small, k, now))
  {
    RunKeepsInclusion([], [], m, n, ttl, ops);
    GetKeepsInclusion(Run(Config(m, ttl), [], ops), Run(Config(n, ttl), [], ops), m, n, ttl, k, now);
  }

  // ---------- how long an entry stays ----------

  /** The key a step sets or hits. */
  function Touched(cfg: Config, l: seq<Item>, op: Op): set<string> {
    match op
    case Get(k, now) => if GetResult(cfg, l, k, now).Some? then {k} else {}
    case Set(k, _, _) => {k}
    case Delete(_) => {}
    case Clear => {}
  }

  function AllTouched(cfg: Config, l: seq<Item>, ops: seq<Op>): set<string>
    decreases |ops|
  {
    if ops == [] then {}
    else Touched(cfg, l, ops[0]) + AllTouched(cfg, Step(cfg, l, ops[0]), ops[1..])
  }

  predicate Leaves(op: Op, k: string) {
    op != Clear && op.key != k
  }

  /** `it` is in the cache, behind entries with keys in `used` only. */
  ghost predicate Behind(l: seq<Item>, it: Item, used: set<string>) {
    exists pre, post :: l == pre + [it] + post && Keys(pre) <= used
  }

  lemma BehindIntro(l: seq<Item>, pre: seq<Item>, it: Item, post: seq<Item>, used: set<string>)
    requires l == pre + [it] + post && Keys(pre) <= used
    ensures Behind(l, it, used)
  {
  }

  lemma {:induction false} LookupSplit(pre: seq<Item>, it: Item, post: seq<Item>)
    requires Distinct(pre + [it] + post)
    ensures Lookup(pre + [it] + post, it.key) == Some(it)
  {
    if pre == [] {
      assert (pre + [it] + post)[0] == it;
    } else {
      var rest := pre[1..] + [it] + post;
      assert (pre + [it] + post)[1..] == rest;
      LookupSplit(pre[1..], it, post);
    }
  }

  lemma WithoutSplit(pre: seq<Item>, it: Item, post: seq<Item>, k: string)
    requires k != it.key
    ensures Without(pre + [it] + post, k) == Without(pre, k) + [it] + Without(post, k)
  {
    WithoutAppend(pre + [it], post, k);
    WithoutAppend(pre, [it], k);
    assert Without([it], k) == [it];
  }

  lemma ConsSplit(x: Item, pre: seq<Item>, it: Item, post: seq<Item>)
    ensures [x] + (pre + [it] + post) == ([x] + pre) + [it] + post
  {
  }

  lemma BehindCons(x: Item, pre: seq<Item>, it: Item, post: seq<Item>, used: set<string>)
    requires Keys(pre) <= used + {x.key}
    ensures Behind([x] + (pre + [it] + post), it, used + {x.key})
  {
    hide Behind;
    ConsKeys(x, pre);
    ConsSplit(x, pre, it, post);
    BehindIntro([x] + (pre + [it] + post), [x] + pre, it, post, used + {x.key});
  }

  /** A use of another key moves that key to the front and leaves `it` behind one key more at most. */
  lemma UseOther(pre: seq<Item>, it: Item, post: seq<Item>, used: set<string>, x: Item)
    requires x.key != it.key && Keys(pre) <= used
    ensures Behind([x] + Without(pre + [it] + post, x.key), it, used + {x.key})
  {
    hide Behind;
    WithoutSplit(pre, it, post, x.key);
    BehindCons(x, Without(pre, x.key), it, Without(post, x.key), used);
  }

  lemma DropOther(pre: seq<Item>, it: Item, post: seq<Item>, used: set<string>, k: string)
    requires k != it.key && Keys(pre) <= used
    ensures Behind(Without(pre + [it] + post, k), it, used)
  {
    hide Behind;
    WithoutSplit(pre, it, post, k);
    BehindIntro(Without(pre + [it] + post, k), Without(pre, k), it, Without(post, k), used);
  }

  lemma FewAhead(pre: seq<Item>, it: Item, post: seq<Item>, used: set<string>, k: string)
    requires Distinct(pre + [it] + post) && k !in Keys(pre + [it] + post)
    requires Keys(pre) <= used
    ensures |pre| + 1 <= |used + {k}|
  {
    DistinctAppend(pre + [it], post);
    DistinctAppend(pre, [it]);
    KeysAppend(pre + [it], post);
    KeysAppend(pre, [it]);
    KeysSize(pre);
    SubsetSize(Keys(pre) + {k}, used + {k});
  }

  lemma EvictBehind(pre: seq<Item>, it: Item, post: seq<Item>, maxSize: int) returns (kept: seq<Item>)
    requires |pre| + 2 <= maxSize
    ensures Evict(pre + [it] + post, maxSize) == pre + [it] + kept
  {
    if |pre + [it] + post| >= maxSize {
      kept := post[..maxSize - 1 - |pre| - 1];
    } else {
      kept := post;
    }
  }

  /** A new key in front: with fewer than `maxSize` other keys used, eviction does not reach `it`. */
  lemma InsertOther(cfg: Config, pre: seq<Item>, it: Item, post: seq<Item>, used: set<string>, x: Item)
    requires Distinct(pre + [it] + post) && x.key !in Keys(pre + [it] + post)
    requires Keys(pre) <= used && |used + {x.key}| < cfg.maxSize
    ensures Behind([x] + Evict(pre + [it] + post, cfg.maxSize), it, used + {x.key})
  {
    hide *;
    FewAhead(pre, it, post, used, x.key);
    var kept := EvictBehind(pre, it, post, cfg.maxSize);
    BehindCons(x, pre, it, kept, used);
  }

  lemma GetSurvives(cfg: Config, l: seq<Item>, it: Item, used: set<string>, op: Op, pre: seq<Item>, post: seq<Item>)
    requires op.Get? && op.key != it.key
    requires Bounded(cfg, l) && l == pre + [it] + post && Keys(pre) <= used
    ensures Behind(Step(cfg, l, op), it, used + Touched(cfg, l, op))
  {
    hide Behind, Keys, Distinct, Without, Evict, Lookup;
    assert used + {} == used;
    match Lookup(l, op.key)
    case None =>
      BehindIntro(l, pre, it, post, used);
    case Some(found) =>
      if Expired(cfg, found, op.now) {
        DropOther(pre, it, post, used, op.key);
      } else {
        UseOther(pre, it, post, used, found);
      }
  }

  lemma SetSurvives(cfg: Config, l: seq<Item>, it: Item, used: set<string>, op: Op, pre: seq<Item>, post: seq<Item>)
    requires op.Set? && op.key != it.key && cfg.maxSize >= 1 && |used + {op.key}| < cfg.maxSize
    requires Bounded(cfg, l) && l == pre + [it] + post && Keys(pre) <= used
    ensures Behind(Step(cfg, l, op), it, used + Touched(cfg, l, op))
  {
    hide Behind, Keys, Distinct, Without, Evict, Lookup;
    if op.key in Keys(l) {
      UseOther(pre, it, post, used, NewItem(cfg, op.key, op.value, op.now));
    } else {
      InsertOther(cfg, pre, it, post, used, NewItem(cfg, op.key, op.value, op.now));
    }
  }

  lemma StepSurvives(cfg: Config, l: seq<Item>, it: Item, used: set<string>, op: Op)
    requires cfg.maxSize >= 1 && Bounded(cfg, l) && Behind(l, it, used)
    requires Leaves(op, it.key) && |used + Touched(cfg, l, op)| < cfg.maxSize
    ensures Behind(Step(cfg, l, op), it, used + Touched(cfg, l, op))
  {
    var pre, post :| l == pre + [it] + post && Keys(pre) <= used;
    hide Behind, Keys, Distinct, Without, Evict, Lookup, Bounded;
    match op
    case Get(_, _) => GetSurvives(cfg, l, it, used, op, pre, post);
    case Set(_, _, _) => SetSurvives(cfg, l, it, used, op, pre, post);
    case Delete(k) =>
      assert used + {} == used;
      DropOther(pre, it, post, used, k);
  }

  lemma {:induction false} RunSurvives(cfg: Config, l: seq<Item>, it: Item, used: set<string>, ops: seq<Op>)
    requires cfg.maxSize >= 1 && Bounded(cfg, l) && Behind(l, it, used)
    requires forall i :: 0 <= i < |ops| ==> Leaves(ops[i], it.key)
    requires |used + AllTouched(cfg, l, ops)| < cfg.maxSize
    ensures Lookup(Run(cfg, l, ops), it.key) == Some(it)
    decreases |ops|
  {
    if ops == [] {
      var pre, post :| l == pre + [it] + post && Keys(pre) <= used;
      LookupSplit(pre, it, post);
    } else {
      var l', t := Step(cfg, l, ops[0]), Touched(cfg, l, ops[0]);
      var rest := AllTouched(cfg, l', ops[1..]);
      assert used + AllTouched(cfg, l, ops) == (used + t) + rest;
      SubsetSize(used + t, used + AllTouched(cfg, l, ops));
      StepSurvives(cfg, l, it, used, ops[0]);
      StepBounded(cfg, l, ops[0]);
      RunSurvives(cfg, l', it, used + t, ops[1..]);
    }
  }

  /**
   An entry just used or set (it is in front) is still there, unchanged, after any run that does
   not name its key and sets or hits fewer than `maxSize` distinct other keys; a later `Get`
   returns its value unless it has expired by then.
   */
  lemma {:induction false} EntrySurvives(cfg: Config, l: seq<Item>, ops: seq<Op>, now: int)
    requires cfg.maxSize >= 1 && Bounded(cfg, l) && l != []
    requires forall i :: 0 <= i < |ops| ==> Leaves(ops[i], l[0].key)
    requires |AllTouched(cfg, l, ops)| < cfg.maxSize
    ensures Lookup(Run(cfg, l, ops), l[0].key) == Some(l[0])
    ensures GetResult(cfg, Run(cfg, l, ops), l[0].key, now) ==
            if Expired(cfg, l[0], now) then None else Some(l[0].value)
  {
    assert l == [] + [l[0]] + l[1..];
    BehindIntro(l, [], l[0], l[1..], {});
    assert {} + AllTouched(cfg, l, ops) == AllTouched(cfg, l, ops);
    RunSurvives(cfg, l, l[0], {}, ops);
  }

  // ---------- the bound is exact ----------

  function Sets(keys: seq<string>, v: seq<real>, now: int): seq<Op> {
    seq(|keys|, i requires 0 <= i < |keys| => Set(keys[i], v, now))
  }

  function KeySet(keys: seq<string>): set<string> {
    set i | 0 <= i < |keys| :: keys[i]
  }

  lemma {:induction false} SetsTouch(cfg: Config, l: seq<Item>, keys: seq<string>, v: seq<real>, now: int)
    ensures AllTouched(cfg, l, Sets(keys, v, now)) == KeySet(keys)
    decreases |keys|
  {
    var ops := Sets(keys, v, now);
    if keys != [] {
      assert ops[1..] == Sets(keys[1..], v, now);
      SetsTouch(cfg, Step(cfg, l, ops[0]), keys[1..], v, now);
      KeySetCons(keys);
    }
  }

  lemma KeySetCons(keys: seq<string>)
    requires keys != []
    ensures KeySet(keys) == {keys[0]} + KeySet(keys[1..])
  {
    forall x | x in KeySet(keys) ensures x in {keys[0]} + KeySet(keys[1..]) {
      var i :| 0 <= i < |keys| && keys[i] == x;
      if i > 0 {
        assert keys[1..][i - 1] == x;
      }
    }
    forall x | x in KeySet(keys[1..]) ensures x in KeySet(keys) {
      var i :| 0 <= i < |keys[1..]| && keys[1..][i] == x;
      assert keys[i + 1] == x;
    }
  }

  lemma {:induction false} KeySetSize(keys: seq<string>)
    requires forall i, j :: 0 <= i < j < |keys| ==> keys[i] != keys[j]
    ensures |KeySet(keys)| == |keys|
  {
    if keys != [] {
      KeySetCons(keys);
      KeySetSize(keys[1..]);
    }
  }

  /** Every key of a run of at most `maxSize` sets of distinct keys is there at the end. */
  lemma {:induction false} SetsStay(cfg: Config, l: seq<Item>, keys: seq<string>, v: seq<real>, now: int)
    requires cfg.maxSize >= 1 && Bounded(cfg, l) && |keys| <= cfg.maxSize
    requires forall i, j :: 0 <= i < j < |keys| ==> keys[i] != keys[j]
    ensures KeySet(keys) <= Keys(Run(cfg, l, Sets(keys, v, now)))
    decreases |keys|
  {
    if keys != [] {
      var ops, rest := Sets(keys, v, now), keys[1..];
      var l' := Step(cfg, l, ops[0]);
      assert ops[1..] == Sets(rest, v, now);
      StepBounded(cfg, l, ops[0]);
      SetsStay(cfg, l', rest, v, now);
      SetsTouch(cfg, l', rest, v, now);
      KeySetSize(rest);
      forall i | 0 <= i < |ops[1..]| ensures Leaves(ops[1..][i], l'[0].key) {
        assert ops[1..][i] == Set(rest[i], v, now) && keys[i + 1] == rest[i];
      }
      EntrySurvives(cfg, l', ops[1..], now);
      KeySetCons(keys);
    }
  }

  /** Setting `maxSize` distinct other keys pushes every other entry out. */
  lemma MaxSizeSetsEvict(cfg: Config, l: seq<Item>, keys: seq<string>, v: seq<real>, now: int, k: string)
    requires cfg.maxSize >= 1 && Bounded(cfg, l) && |keys| == cfg.maxSize
    requires forall i, j :: 0 <= i < j < |keys| ==> keys[i] != keys[j]
    requires k !in KeySet(keys)
    ensures Lookup(Run(cfg, l, Sets(keys, v, now)), k) == None
  {
    var l' := Run(cfg, l, Sets(keys, v, now));
    SetsStay(cfg, l, keys, v, now);
    RunBounded(cfg, l, Sets(keys, v, now));
    KeySetSize(keys);
    KeysSize(l');
    if k in Keys(l') {
      assert KeySet(keys) + {k} <= Keys(l');
      SubsetSize(KeySet(keys) + {k}, Keys(l'));
    }
  }

  // ---------- what a `Get` returns, and until when ----------

  /** A value set at time `t` is read back up to `t + ttl`, that moment included, and not after it. */
  lemma SetThenGet(cfg: Config, l: seq<Item>, k: string, v: seq<real>, t: int, now: int)
    ensures cfg.ttl > 0 ==>
      GetResult(cfg, AfterSet(cfg, l, k, v, t), k, now) == if now <= t + cfg.ttl then Some(v) else None
    ensures cfg.ttl <= 0 ==> GetResult(cfg, AfterSet(cfg, l, k, v, t), k, now) == Some(v)
  {
  }

  /** And so after any run that leaves the key alone and sets or hits fewer than `maxSize` others. */
  lemma SetStaysUntilExpiry(cfg: Config, l: seq<Item>, k: string, v: seq<real>, t: int, ops: seq<Op>, now: int)
    requires cfg.maxSize >= 1 && Bounded(cfg, l)
    requires forall i :: 0 <= i < |ops| ==> Leaves(ops[i], k)
    requires |AllTouched(cfg, AfterSet(cfg, l, k, v, t), ops)| < cfg.maxSize
    ensures var r := GetResult(cfg, Run(cfg, AfterSet(cfg, l, k, v, t), ops), k, now);
      && (cfg.ttl > 0 ==> r == if now <= t + cfg.ttl then Some(v) else None)
      && (cfg.ttl <= 0 ==> r == Some(v))
  {
    var l' := AfterSet(cfg, l, k, v, t);
    StepBounded(cfg, l, Set(k, v, t));
    EntrySurvives(cfg, l', ops, now);
    SetThenGet(cfg, l, k, v, t, now);
    hide Run, Bounded, AllTouched;
  }

  /** An entry that is hit becomes the last to go: it is as safe as one just set, and lives no longer. */
  lemma HitIsRefreshed(cfg: Config, l: seq<Item>, k: string, t: int, ops: seq<Op>)
    requires cfg.maxSize >= 1 && Bounded(cfg, l) && GetResult(cfg, l, k, t).Some?
    requires forall i :: 0 <= i < |ops| ==> Leaves(ops[i], k)
    requires |AllTouched(cfg, AfterGet(cfg, l, k, t), ops)| < cfg.maxSize
    ensures Lookup(Run(cfg, AfterGet(cfg, l, k, t), ops), k) == Lookup(l, k)
  {
    StepBounded(cfg, l, Get(k, t));
    EntrySurvives(cfg, AfterGet(cfg, l, k, t), ops, t);
    hide Run, Bounded, AllTouched;
  }

  /** A new value for a key that is there costs no other entry. */
  lemma UpdateEvictsNothing(cfg: Config, l: seq<Item>, k: string, v: seq<real>, t: int)
    requires k in Keys(l)
    ensures Keys(AfterSet(cfg, l, k, v, t)) == Keys(l)
  {
    ConsKeys(NewItem(cfg, k, v, t), Without(l, k));
  }

  /** The step does not set, delete or clear the key. */
  predicate KeepsValue(op: Op, k: string) {
    op.Get? || (!op.Clear? && op.key != k)
  }

  /** Step `i` set the value at time `t`, and no later one touched it. */
  ghost predicate IsLastSet(ops: seq<Op>, i: nat, k: string, v: seq<real>, t: int) {
    && i < |ops| && ops[i] == Set(k, v, t)
    && forall j :: i < j < |ops| ==> KeepsValue(ops[j], k)
  }

  lemma LookupRest(l: seq<Item>, k: string, j: string)
    ensures Lookup(Without(l, k), j) == if j == k then None else Lookup(l, j)
  {
    if j != k {
      LookupWithout(l, k, j);
    }
  }

  lemma LookupCons(it: Item, l: seq<Item>, j: string)
    ensures Lookup([it] + l, j) == if it.key == j then Some(it) else Lookup(l, j)
  {
    assert ([it] + l)[1..] == l;
  }

  /** An entry found after a step was there before it, or the step set it. */
  lemma EntryComesFrom(cfg: Config, l: seq<Item>, op: Op, k: string)
    requires Lookup(Step(cfg, l, op), k).Some?
    ensures var it := Lookup(Step(cfg, l, op), k).value;
      || (KeepsValue(op, k) && Lookup(l, k) == Some(it))
      || (op.Set? && op.key == k && it == NewItem(cfg, k, op.value, op.now))
  {
    match op
    case Get(j, now) =>
      LookupRest(l, j, k);
      if Lookup(l, j).Some? {
        LookupCons(Lookup(l, j).value, Without(l, j), k);
      }
    case Set(j, v, now) =>
      LookupRest(l, j, k);
      LookupCons(NewItem(cfg, j, v, now), if j in Keys(l) then Without(l, j) else Evict(l, cfg.maxSize), k);
      if j != k && j !in Keys(l) && |l| >= cfg.maxSize > 0 {
        LookupPrefix(l, cfg.maxSize - 1, k);
      }
    case Delete(j) => LookupRest(l, j, k);
    case Clear =>
  }

  lemma {:induction false} EntryWasSet(cfg: Config, l: seq<Item>, ops: seq<Op>, k: string) returns (i: int, t: int)
    requires Lookup(Run(cfg, l, ops), k).Some?
    ensures var it := Lookup(Run(cfg, l, ops), k).value;
      if i < 0 then Lookup(l, k) == Some(it) && forall j :: 0 <= j < |ops| ==> KeepsValue(ops[j], k)
      else IsLastSet(ops, i, k, it.value, t) && it == NewItem(cfg, k, it.value, t)
    decreases |ops|
  {
    hide Step, Lookup, KeepsValue;
    if ops == [] {
      i, t := -1, 0;
    } else {
      var next := Step(cfg, l, ops[0]);
      i, t := EntryWasSet(cfg, next, ops[1..], k);
      if i < 0 {
        EntryComesFrom(cfg, l, ops[0], k);
        if !(KeepsValue(ops[0], k) && Lookup(l, k) == Lookup(next, k)) {
          i, t := 0, ops[0].now;
        }
      } else {
        i := i + 1;
      }
      assert forall j :: 0 < j < |ops| ==> ops[j] == ops[1..][j - 1];
    }
  }

  /**
   Whatever a `Get` returns after any run from an empty cache is the value of the last `Set` of its
   key, with no `Delete` or `Clear` since, and not older than the TTL: what expired is never returned.
   */
  lemma HitIsLastSet(cfg: Config, ops: seq<Op>, k: string, now: int) returns (i: nat, t: int)
    requires GetResult(cfg, Run(cfg, [], ops), k, now).Some?
    ensures IsLastSet(ops, i, k, GetResult(cfg, Run(cfg, [], ops), k, now).value, t)
    ensures cfg.ttl > 0 ==> now <= t + cfg.ttl
  {
    var n;
    n, t := EntryWasSet(cfg, [], ops, k);
    i := n;
  }
}
