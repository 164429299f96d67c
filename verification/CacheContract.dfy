module CacheContract {
  /**
   The memory cache meets the contract the embedding client relies on: no operation makes a value
   appear that was not set for its key.
   */

  import opened LruSpec
  import EmbeddingClient

  function AsMap(l: seq<Item>): map<string, seq<real>> {
    map k | k in Keys(l) :: Lookup(l, k).value.value
  }

  lemma WithoutShrinks(l: seq<Item>, k: string)
    ensures EmbeddingClient.SubMap(AsMap(Without(l, k)), AsMap(l))
  {
    forall j | j in AsMap(Without(l, k)) ensures j in AsMap(l) && AsMap(Without(l, k))[j] == AsMap(l)[j] {
      LookupWithout(l, k, j);
    }
  }

  lemma EvictShrinks(l: seq<Item>, maxSize: int)
    ensures EmbeddingClient.SubMap(AsMap(Evict(l, maxSize)), AsMap(l))
  {
    var kept := Evict(l, maxSize);
    forall j | j in AsMap(kept) ensures j in AsMap(l) && AsMap(kept)[j] == AsMap(l)[j] {
      if |l| >= maxSize > 0 {
        LookupPrefix(l, maxSize - 1, j);
      }
    }
  }

  lemma FrontMap(it: Item, l: seq<Item>, m: map<string, seq<real>>)
    requires EmbeddingClient.SubMap(AsMap(l), m)
    ensures EmbeddingClient.SubMap(AsMap([it] + l), m[it.key := it.value])
  {
    ConsKeys(it, l);
    assert ([it] + l)[1..] == l;
    forall j | j in AsMap([it] + l)
      ensures j in m[it.key := it.value] && AsMap([it] + l)[j] == m[it.key := it.value][j]
    {
      if j != it.key {
        assert j in AsMap(l) && AsMap([it] + l)[j] == AsMap(l)[j];
      }
    }
  }

  lemma GetShrinks(cfg: Config, l: seq<Item>, k: string, now: int)
    ensures EmbeddingClient.SubMap(AsMap(AfterGet(cfg, l, k, now)), AsMap(l))
    ensures GetResult(cfg, l, k, now).Some? ==> k in AsMap(l) && GetResult(cfg, l, k, now).value == AsMap(l)[k]
  {
    WithoutShrinks(l, k);
    if Lookup(l, k).Some? {
      var it := Lookup(l, k).value;
      FrontMap(it, Without(l, k), AsMap(l));
      assert AsMap(l)[it.key := it.value] == AsMap(l);
    }
  }

  lemma SetAddsOne(cfg: Config, l: seq<Item>, k: string, v: seq<real>, now: int)
    ensures EmbeddingClient.SubMap(AsMap(AfterSet(cfg, l, k, v, now)), AsMap(l)[k := v])
  {
    WithoutShrinks(l, k);
    EvictShrinks(l, cfg.maxSize);
    FrontMap(NewItem(cfg, k, v, now), if k in Keys(l) then Without(l, k) else Evict(l, cfg.maxSize), AsMap(l));
    hide AsMap, Keys, Without, Evict, EmbeddingClient.SubMap;
  }

  /** `Get`, `Set` and `Delete` of the memory cache do what the client allows a cache to do. */
  lemma MemoryCacheIsACache(cfg: Config, l: seq<Item>, k: string, v: seq<real>, now: int)
    ensures EmbeddingClient.SubMap(AsMap(AfterGet(cfg, l, k, now)), AsMap(l))
    ensures GetResult(cfg, l, k, now).Some? ==> k in AsMap(l) && GetResult(cfg, l, k, now).value == AsMap(l)[k]
    ensures EmbeddingClient.SubMap(AsMap(AfterSet(cfg, l, k, v, now)), AsMap(l)[k := v])
    ensures EmbeddingClient.SubMap(AsMap(Without(l, k)), AsMap(l))
  {
    GetShrinks(cfg, l, k, now);
    SetAddsOne(cfg, l, k, v, now);
    WithoutShrinks(l, k);
    hide *;
  }
}
