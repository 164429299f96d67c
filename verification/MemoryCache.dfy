module MemoryCache {
  /**
   `MemoryCache` of `pkg/embeddings/cache.go`: a map of list elements and a recency list that must
   agree, arrays that are copied on the way in and out, and counters.  Each method is proved
   against the list operations of `LruSpec`.  Keys are the texts themselves: the hash of the
   source is taken to be injective.  The clock is a parameter.
   */

  import opened Wrappers
  import opened LruSpec

  datatype CacheError = CacheMiss

  /** An entry; a new one replaces it as a whole, its fields never change. */
  datatype CacheEntry = CacheEntry(embedding: array<real>, expiresAt: int, key: string)

  /** An element of the recency list. */
  class Element {
    var entry: CacheEntry

    constructor (entry: CacheEntry)
      ensures this.entry == entry
    {
      this.entry := entry;
    }
  }

  function ItemOf(e: CacheEntry): Item
    reads e.embedding
  {
    Item(e.key, e.embedding[..], e.expiresAt)
  }

  /** `container/list`: the position of an element. */
  function Position(els: seq<Element>, e: Element): (i: nat)
    requires e in els
    ensures i < |els| && els[i] == e
  {
    if els[0] == e then 0 else 1 + Position(els[1..], e)
  }

  /** The map has exactly the keys of the list and leads from each to its element. */
  ghost predicate Linked(l: seq<Item>, els: seq<Element>, m: map<string, Element>) {
    && |l| == |els|
    && m.Keys == Keys(l)
    && forall i :: 0 <= i < |l| ==> l[i].key in m && m[l[i].key] == els[i]
  }

  lemma LinkedCut(l: seq<Item>, els: seq<Element>, m: map<string, Element>, i: nat)
    requires Distinct(l) && Linked(l, els, m) && i < |l|
    ensures Linked(l[..i] + l[i + 1..], els[..i] + els[i + 1..], m - {l[i].key})
  {
    EntryAt(l, i);
    var l', k := l[..i] + l[i + 1..], l[i].key;
    assert Keys(l') == Keys(l) - {k};
    KeyAt(l', k);
    forall j | 0 <= j < |l'| ensures l'[j].key in m - {k} && (m - {k})[l'[j].key] == (els[..i] + els[i + 1..])[j] {
      if j < i {
        assert l'[j] == l[j];
      } else {
        assert l'[j] == l[j + 1];
      }
    }
  }

  lemma LinkedCons(l: seq<Item>, els: seq<Element>, m: map<string, Element>, x: Item, e: Element)
    requires Linked(l, els, m) && x.key !in Keys(l)
    ensures Linked([x] + l, [e] + els, m[x.key := e])
  {
    ConsKeys(x, l);
  }

  lemma LinkedFront(l: seq<Item>, els: seq<Element>, m: map<string, Element>, i: nat, x: Item)
    requires Distinct(l) && Linked(l, els, m) && i < |l| && x.key == l[i].key
    ensures Linked([x] + (l[..i] + l[i + 1..]), [els[i]] + (els[..i] + els[i + 1..]), m)
  {
    LinkedCut(l, els, m, i);
    EntryAt(l, i);
    LinkedCons(l[..i] + l[i + 1..], els[..i] + els[i + 1..], m - {l[i].key}, x, els[i]);
    assert (m - {l[i].key})[x.key := els[i]] == m;
  }

  /** The elements, all of them in the store, hold the entries. */
  ghost predicate Holds(els: seq<Element>, l: seq<Item>, store: set<object>)
    reads store
  {
    && |l| == |els|
    && forall i :: 0 <= i < |els| ==>
         els[i] in store && els[i].entry.embedding in store && l[i] == ItemOf(els[i].entry)
  }

  lemma HoldsCut(els: seq<Element>, l: seq<Item>, store: set<object>, i: nat)
    requires Holds(els, l, store) && i < |els|
    ensures Holds(els[..i] + els[i + 1..], l[..i] + l[i + 1..], store)
    ensures l[i] == ItemOf(els[i].entry)
  {
    var els', l' := els[..i] + els[i + 1..], l[..i] + l[i + 1..];
    forall j | 0 <= j < |els'|
      ensures els'[j] in store && els'[j].entry.embedding in store && l'[j] == ItemOf(els'[j].entry)
    {
      var j' := if j < i then j else j + 1;
      assert els'[j] == els[j'] && l'[j] == l[j'];
    }
  }

  lemma HoldsCons(els: seq<Element>, l: seq<Item>, store: set<object>, e: Element)
    requires Holds(els, l, store) && e in store && e.entry.embedding in store
    ensures Holds([e] + els, [ItemOf(e.entry)] + l, store)
  {
  }

  /** A copy, so that nobody shares an array with the cache. */
  method CopyOf(a: array<real>) returns (b: array<real>)
    ensures fresh(b) && b[..] == a[..]
  {
    b := new real[a.Length];
    forall i | 0 <= i < a.Length {
      b[i] := a[i];
    }
    assert b[..] == a[..];
  }

  lemma UseBounded(cfg: Config, l: seq<Item>, it: Item)
    requires Bounded(cfg, l) && it.key in Keys(l)
    ensures Bounded(cfg, [it] + Without(l, it.key))
  {
    WithoutSize(l, it.key);
    ConsKeys(it, Without(l, it.key));
  }

  lemma WithoutBounded(cfg: Config, l: seq<Item>, k: string)
    requires Bounded(cfg, l)
    ensures Bounded(cfg, Without(l, k))
  {
    WithoutSize(l, k);
  }

  /** What does not depend on the front element, and what still fits when its entry is replaced. */
  lemma NewFront(cfg: Config, els: seq<Element>, l: seq<Item>, m: map<string, Element>, store: set<object>, it: Item)
    requires Holds(els, l, store) && Linked(l, els, m) && Bounded(cfg, l)
    requires |l| > 0 && it.key == l[0].key
    ensures Holds(els[1..], l[1..], store - {els[0]})
    ensures Linked([it] + l[1..], els, m) && Bounded(cfg, [it] + l[1..])
  {
    assert Linked([it] + l[1..], els, m) && Bounded(cfg, [it] + l[1..]) by {
      hide Holds;
      ConsKeys(it, l[1..]);
    }
    assert Holds(els[1..], l[1..], store - {els[0]}) by {
      hide Linked;
      HoldsWithout(els, l, store, 0);
      assert els[..0] + els[0 + 1..] == els[1..] && l[..0] + l[0 + 1..] == l[1..];
    }
    hide *;
  }

  class MemoryCache {
    const config: Config
    var cache: map<string, Element>
    var lruList: seq<Element>
    var hitCount: int
    var missCount: int
    /** The cache as a list of entries, the most recently used first. */
    ghost var Contents: seq<Item>
    /** The elements and arrays that belong to the cache. */
    ghost var Store: set<object>

    /** The list holds the contents, map and list agree, no key twice and not too many of them. */
    ghost predicate Valid()
      reads this, Store
    {
      && this !in Store
      && Holds(lruList, Contents, Store)
      && Linked(Contents, lruList, cache)
      && Bounded(config, Contents)
    }

    constructor (config: Config)
      ensures Valid() && Store == {} && this.config == config
      ensures Contents == [] && hitCount == missCount == 0
    {
      this.config := config;
      cache := map[];
      lruList := [];
      hitCount, missCount := 0, 0;
      Contents := [];
      Store := {};
    }

    /** Taking an element out of the list and its key out of the map. */
    method RemoveElement(elem: Element)
      requires Valid() && elem in lruList
      modifies this`cache, this`lruList, this`Contents
      ensures Valid()
      ensures Contents == Without(old(Contents), elem.entry.key)
    {
      var i := Position(lruList, elem);
      HoldsCut(lruList, Contents, Store, i);
      LinkedCut(Contents, lruList, cache, i);
      EntryAt(Contents, i);
      WithoutBounded(config, Contents, elem.entry.key);
      hide Holds, Linked, Bounded, Without, Position;
      lruList := lruList[..i] + lruList[i + 1..];
      cache := cache - {elem.entry.key};
      Contents := Contents[..i] + Contents[i + 1..];
    }

    method MoveToFront(elem: Element)
      requires Valid() && elem in lruList
      modifies this`lruList, this`Contents
      ensures Valid() && |lruList| > 0 && lruList[0] == elem
      ensures Contents == [ItemOf(elem.entry)] + Without(old(Contents), elem.entry.key)
      ensures ItemOf(elem.entry) == old(ItemOf(elem.entry))
    {
      var i := Position(lruList, elem);
      HoldsCut(lruList, Contents, Store, i);
      LinkedFront(Contents, lruList, cache, i, Contents[i]);
      EntryAt(Contents, i);
      UseBounded(config, Contents, Contents[i]);
      HoldsCons(lruList[..i] + lruList[i + 1..], Contents[..i] + Contents[i + 1..], Store, elem);
      hide Holds, Linked, Bounded, Without, Position;
      lruList := [elem] + (lruList[..i] + lruList[i + 1..]);
      Contents := [Contents[i]] + (Contents[..i] + Contents[i + 1..]);
    }

    method Get(text: string, now: int) returns (r: Result<array<real>, CacheError>)
      requires Valid()
      modifies this
      ensures Valid() && Store == old(Store)
      ensures Contents == AfterGet(config, old(Contents), text, now)
      ensures match GetResult(config, old(Contents), text, now)
              case None => r == Err(CacheMiss) && hitCount == old(hitCount) && missCount == old(missCount) + 1
              case Some(v) => r.Ok? && fresh(r.value) && r.value[..] == v &&
                              hitCount == old(hitCount) + 1 && missCount == old(missCount)
    {
      assert text in cache <==> text in Keys(Contents);
      hide Holds, Linked, Bounded, Without, Keys;
      if text !in cache {
        missCount := missCount + 1;
        return Err(CacheMiss);
      }
      var elem := Find(text);
      if config.ttl > 0 && now > elem.entry.expiresAt {
        RemoveElement(elem);
        missCount := missCount + 1;
        return Err(CacheMiss);
      }
      var result := Hit(elem);
      r := Ok(result);
    }

    method Hit(elem: Element) returns (result: array<real>)
      requires Valid() && elem in lruList
      modifies this`lruList, this`Contents, this`hitCount
      ensures Valid() && hitCount == old(hitCount) + 1
      ensures Contents == [old(ItemOf(elem.entry))] + Without(old(Contents), elem.entry.key)
      ensures fresh(result) && result[..] == old(elem.entry.embedding[..])
    {
      hide Linked, Bounded, Without;
      MoveToFront(elem);
      hitCount := hitCount + 1;
      result := CopyOf(elem.entry.embedding);
    }

    /** The element the map has for a key. */
    method Find(text: string) returns (elem: Element)
      requires Valid() && text in cache
      ensures elem == cache[text] && elem in lruList
      ensures elem.entry.key == text && elem in Store && elem.entry.embedding in Store
      ensures Lookup(Contents, text) == Some(ItemOf(elem.entry))
    {
      elem := cache[text];
      KeyAt(Contents, text);
      ghost var i :| 0 <= i < |Contents| && Contents[i].key == text;
      EntryAt(Contents, i);
      assert lruList[i] == elem;
    }

    method Delete(text: string)
      requires Valid()
      modifies this
      ensures Valid() && Store == old(Store)
      ensures Contents == Without(old(Contents), text)
      ensures hitCount == old(hitCount) && missCount == old(missCount)
    {
      if text in cache {
        var elem := Find(text);
        RemoveElement(elem);
      } else {
        WithoutAbsent(Contents, text);
      }
    }

    method Clear()
      requires Valid()
      modifies this
      ensures Valid() && Store == old(Store)
      ensures Contents == [] && hitCount == missCount == 0
    {
      cache := map[];
      lruList := [];
      hitCount := 0;
      missCount := 0;
      Contents := [];
    }

    /** The least recently used entry goes, if there is any. */
    method EvictOldest()
      requires Valid()
      modifies this`cache, this`lruList, this`Contents
      ensures Valid()
      ensures Contents == if old(Contents) == [] then [] else old(Contents)[..|old(Contents)| - 1]
    {
      if lruList != [] {
        ghost var last := |Contents| - 1;
        EntryAt(Contents, last);
        assert Contents[last] == ItemOf(lruList[last].entry);
        assert Contents[..last] + Contents[last + 1..] == Contents[..last];
        RemoveElement(lruList[|lruList| - 1]);
      }
    }

    /** A new value for a key that is there: its element moves to the front and takes the entry. */
    method Replace(entry: CacheEntry)
      requires Valid() && entry.key in cache
      requires entry.embedding !in Store
      modifies this, Store
      ensures Valid() && Store == old(Store) + {entry.embedding}
      ensures Contents == [ItemOf(entry)] + Without(old(Contents), entry.key)
      ensures hitCount == old(hitCount) && missCount == old(missCount)
    {
      var elem := Find(entry.key);
      hide Holds, Linked, Bounded, Without;
      MoveToFront(elem);
      ReplaceFront(elem, entry);
    }

    /** The front element takes a new entry for its key. */
    method ReplaceFront(elem: Element, entry: CacheEntry)
      requires Valid() && |lruList| > 0 && elem == lruList[0] && elem.entry.key == entry.key
      requires entry.embedding !in Store
      modifies this`Contents, this`Store, elem
      ensures Valid() && Store == old(Store) + {entry.embedding}
      ensures Contents == [ItemOf(entry)] + old(Contents)[1..]
    {
      ghost var l, els := Contents[1..], lruList[1..];
      NewFront(config, lruList, Contents, cache, Store, ItemOf(entry));
      assert lruList == [elem] + els;
      ghost var inner := Store - {elem};
      hide Linked, Bounded, Holds;
      elem.entry := entry;
      Contents := [ItemOf(entry)] + l;
      Store := Store + {entry.embedding};
      HoldsMore(els, l, inner, Store);
      HoldsCons(els, l, Store, elem);
    }

    /** A new key: room is made first. */
    method Insert(entry: CacheEntry)
      requires Valid() && entry.key !in cache && config.maxSize >= 1
      requires entry.embedding !in Store
      modifies this
      ensures Valid() && fresh(Store - old(Store) - {entry.embedding})
      ensures Contents == [ItemOf(entry)] + Evict(old(Contents), config.maxSize)
      ensures hitCount == old(hitCount) && missCount == old(missCount)
    {
      ghost var was := Contents;
      while |lruList| >= config.maxSize
        invariant Valid() && Store == old(Store)
        invariant hitCount == old(hitCount) && missCount == old(missCount)
        invariant Contents == if |lruList| >= config.maxSize then was else Evict(was, config.maxSize)
        decreases |lruList|
      {
        EvictOldest();
      }
      EvictKeys(was, config.maxSize);
      var elem := new Element(entry);
      AddFront(elem);
    }

    method AddFront(elem: Element)
      requires Valid() && elem !in Store
      requires elem.entry.key !in Keys(Contents) && |Contents| < config.maxSize
      modifies this
      ensures Valid() && Store == old(Store) + {elem, elem.entry.embedding}
      ensures Contents == [ItemOf(elem.entry)] + old(Contents)
      ensures hitCount == old(hitCount) && missCount == old(missCount)
    {
      ghost var more := Store + {elem, elem.entry.embedding};
      HoldsMore(lruList, Contents, Store, more);
      HoldsCons(lruList, Contents, more, elem);
      LinkedCons(Contents, lruList, cache, ItemOf(elem.entry), elem);
      ConsKeys(ItemOf(elem.entry), Contents);
      hide Linked, Holds;
      cache := cache[elem.entry.key := elem];
      lruList := [elem] + lruList;
      Contents := [ItemOf(elem.entry)] + Contents;
      Store := more;
    }

    method Set(text: string, embedding: array<real>, now: int)
      requires Valid() && config.maxSize >= 1
      modifies this, Store
      ensures Valid() && fresh(Store - old(Store))
      ensures Contents == AfterSet(config, old(Contents), text, old(embedding[..]), now)
      ensures hitCount == old(hitCount) && missCount == old(missCount)
    {
      var embeddingCopy := CopyOf(embedding);
      var entry := CacheEntry(embeddingCopy, if config.ttl > 0 then now + config.ttl else 0, text);
      hide Holds, Bounded, Without, Evict;
      if text in cache {
        Replace(entry);
      } else {
        Insert(entry);
      }
    }
  }

  /** The other elements do not share the element at `i`. */
  lemma HoldsWithout(els: seq<Element>, l: seq<Item>, store: set<object>, i: nat)
    requires Holds(els, l, store) && Distinct(l) && i < |els|
    ensures Holds(els[..i] + els[i + 1..], l[..i] + l[i + 1..], store - {els[i]})
  {
    HoldsCut(els, l, store, i);
    EntryAt(l, i);
    var els', l' := els[..i] + els[i + 1..], l[..i] + l[i + 1..];
    KeyAt(l', l[i].key);
    assert l[i].key !in Keys(l');
    forall j | 0 <= j < |els'| ensures els'[j] != els[i] {
      assert l'[j] == ItemOf(els'[j].entry) && l[i] == ItemOf(els[i].entry);
    }
  }

  lemma HoldsMore(els: seq<Element>, l: seq<Item>, store: set<object>, more: set<object>)
    requires Holds(els, l, store) && store <= more
    ensures Holds(els, l, more)
  {
  }

  lemma EvictKeys(l: seq<Item>, maxSize: int)
    ensures Keys(Evict(l, maxSize)) <= Keys(l)
  {
    if |l| >= maxSize > 0 {
      assert l == l[..maxSize - 1] + l[maxSize - 1..];
      KeysAppend(l[..maxSize - 1], l[maxSize - 1..]);
    }
  }

  /** Writing anywhere in an array that is not the cache's changes nothing in the cache. */
  method WriteOutside(c: MemoryCache, a: array<real>, i: nat, x: real)
    requires c.Valid() && a !in c.Store && i < a.Length
    modifies a
    ensures c.Valid() && a[..] == old(a[..])[i := x]
  {
    a[i] := x;
  }

  /** What a call of `Get` gives when the cache holds `l`. */
  ghost predicate Answers(cfg: Config, l: seq<Item>, key: string, now: int, r: Result<array<real>, CacheError>)
    reads if r.Ok? then {r.value} else {}
  {
    match GetResult(cfg, l, key, now)
    case None => r == Err(CacheMiss)
    case Some(v) => r.Ok? && r.value[..] == v
  }

  /**
   The caller's array and the array handed out are not the cache's: after a `Set`, a write anywhere
   into the array given, a `Get` and a write anywhere into the array taken, a `Get` of any key gives
   what it gives without the writes.
   */
  method CallerMayWrite(c: MemoryCache, text: string, embedding: array<real>, key: string, i: nat, x: real,
                        now: int, later: int)
    returns (first: Result<array<real>, CacheError>, second: Result<array<real>, CacheError>)
    requires c.Valid() && c.config.maxSize >= 1
    requires embedding !in c.Store && i < embedding.Length
    modifies c, c.Store, embedding
    ensures c.Valid()
    ensures embedding[..] == old(embedding[..])[i := x]
    ensures var l := AfterSet(c.config, old(c.Contents), text, old(embedding[..]), now);
      && (match GetResult(c.config, l, text, later)
          case None => first == Err(CacheMiss)
          case Some(v) => first.Ok? && first.value[..] == if i < |v| then v[i := x] else v)
      && Answers(c.config, AfterGet(c.config, l, text, later), key, later, second)
      && c.Contents == AfterGet(c.config, AfterGet(c.config, l, text, later), key, later)
  {
    hide Holds, Linked, Bounded, AfterGet, AfterSet, GetResult;
    c.Set(text, embedding, now);
    WriteOutside(c, embedding, i, x);
    first := c.Get(text, later);
    if first.Ok? && i < first.value.Length {
      WriteOutside(c, first.value, i, x);
    }
    second := c.Get(key, later);
  }

  function EvictTimes(l: seq<Item>, n: nat): seq<Item> {
    if n == 0 || l == [] then l else EvictTimes(l[..|l| - 1], n - 1)
  }

  lemma {:induction false} EvictAll(l: seq<Item>)
    ensures EvictTimes(l, |l|) == []
  {
    if l != [] {
      EvictAll(l[..|l| - 1]);
    }
  }

  /** The eviction loop of `Set` gets to its end exactly when the capacity is positive. */
  lemma EvictionEnds(l: seq<Item>, maxSize: int)
    ensures (exists n: nat :: |EvictTimes(l, n)| < maxSize) <==> maxSize >= 1
  {
    if maxSize >= 1 {
      EvictAll(l);
    }
  }

  /** With a capacity of 0 the loop never ends, not even on an empty cache. */
  lemma ZeroCapacity(n: nat)
    ensures !(|EvictTimes([], n)| < 0)
  {
  }
}
