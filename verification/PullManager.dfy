/** getRepositoryClient of pullman/pullman.go: one client per repository type and key, cached
    under "type|key". */
module PullManagers {
  import opened ClientCaches
  import opened ClientCacheHeap
  import opened Wrappers

  datatype RepoConfig = RepoConfig(kind: string, settings: map<string, string>)

  /** A client, with the provider that built it and the config it was built from. */
  datatype Client = Client(id: int, kind: string, config: RepoConfig)

  /** StorageProvider.GetKey of each registered type. */
  type Providers = map<string, RepoConfig -> string>

  /** fmt.Sprintf("%s|%s", repoType, k) */
  function CacheKey(kind: string, key: string): string {
    kind + "|" + key
  }

  function KeyOf(providers: Providers, config: RepoConfig): string
    requires config.kind in providers
  {
    CacheKey(config.kind, providers[config.kind](config))
  }

  /* ---------- when two pairs share a cache key ---------- */

  /** One type continues another after a bar. */
  predicate Continues(longer: string, shorter: string) {
    shorter + "|" <= longer
  }

  lemma SharedKey(t1: string, k1: string, t2: string, k2: string)
    requires CacheKey(t1, k1) == CacheKey(t2, k2) && |t1| <= |t2|
    ensures if t1 == t2 then k1 == k2 else Continues(t2, t1)
  {
    var s := CacheKey(t1, k1);
    assert t1 == s[..|t1|] && t2 == s[..|t2|];
    if |t1| == |t2| {
      assert k1 == s[|t1| + 1..] && k2 == s[|t2| + 1..];
    } else {
      assert t1 + "|" == s[..|t1| + 1] && s[..|t1| + 1] <= s[..|t2|];
    }
  }

  /** Distinct pairs of registered types and keys have distinct cache keys exactly when no
      registered type continues another after a bar. */
  lemma KeysApartExactly(kinds: set<string>)
    ensures (forall t1, k1, t2, k2 | t1 in kinds && t2 in kinds && CacheKey(t1, k1) == CacheKey(t2, k2) ::
               t1 == t2 && k1 == k2)
      <==> (forall t1, t2 | t1 in kinds && t2 in kinds :: !Continues(t2, t1))
  {
    if t1, t2 :| t1 in kinds && t2 in kinds && Continues(t2, t1) {
      var k1 := t2[|t1| + 1..] + "|";
      assert t2 == t1 + "|" + t2[|t1| + 1..];
      assert CacheKey(t1, k1) == CacheKey(t2, "");
    } else {
      forall t1, k1, t2, k2 | t1 in kinds && t2 in kinds && CacheKey(t1, k1) == CacheKey(t2, k2)
        ensures t1 == t2 && k1 == k2
      {
        if |t1| <= |t2| {
          SharedKey(t1, k1, t2, k2);
        } else {
          SharedKey(t2, k2, t1, k1);
        }
      }
    }
  }

  lemma HasBar(longer: string, shorter: string)
    requires Continues(longer, shorter)
    ensures '|' in longer
  {
    assert (shorter + "|")[|shorter|] == '|' == longer[|shorter|];
  }

  /** In particular when no registered type has a bar in it. */
  lemma NoBarNoSharing(kinds: set<string>)
    requires forall t | t in kinds :: '|' !in t
    ensures forall t1, t2 | t1 in kinds && t2 in kinds :: !Continues(t2, t1)
  {
    forall t1, t2 | t1 in kinds && t2 in kinds ensures !Continues(t2, t1) {
      if Continues(t2, t1) {
        HasBar(t2, t1);
        assert false;
      }
    }
  }

  /* ---------- runs of the cache under getRepositoryClient ---------- */

  /** Every client stored was built by the provider of its config's type, is stored under that
      config's key, and fills a gap. */
  ghost predicate Managed(providers: Providers, ttl: int, run: seq<Step<Client>>)
    requires Legal(Empty(ttl), run)
    decreases |run|
  {
    run != [] ==>
      && Managed(providers, ttl, Front(run))
      && match run[|run| - 1]
         case Put(key, client, _) =>
           && client.kind == client.config.kind && client.kind in providers
           && key == KeyOf(providers, client.config)
           && key !in Exec(Empty(ttl), Front(run)).entries
         case _ => true
  }

  /** A cached client is the last one built for its key, by the provider of its config's type. */
  lemma {:induction false} CachedClient(providers: Providers, ttl: int, run: seq<Step<Client>>, key: string)
    requires Legal(Empty(ttl), run) && Managed(providers, ttl, run) && key in Exec(Empty(ttl), run).entries
    ensures var client := Exec(Empty(ttl), run).entries[key].client;
            && client.kind == client.config.kind && client.kind in providers
            && key == KeyOf(providers, client.config)
            && LastPut(run, key) == Some(client)
    decreases |run|
  {
    var c, s := Exec(Empty<Client>(ttl), Front(run)), run[|run| - 1];
    assert Exec(Empty(ttl), run) == Apply(c, s);
    EntriesAre(ttl, run, key);
    if key in c.entries {
      CachedClient(providers, ttl, Front(run), key);
    }
  }

  /** Transparency: what a lookup finds was built by the provider of the type asked for, from a
      config with the key asked for. */
  lemma FoundClient(providers: Providers, ttl: int, run: seq<Step<Client>>, config: RepoConfig)
    requires Legal(Empty(ttl), run) && Managed(providers, ttl, run)
    requires config.kind in providers && KeyOf(providers, config) in Exec(Empty(ttl), run).entries
    requires forall t1, t2 | t1 in providers && t2 in providers :: !Continues(t2, t1)
    ensures var client := Exec(Empty(ttl), run).entries[KeyOf(providers, config)].client;
            && client.kind == config.kind == client.config.kind
            && providers[config.kind](client.config) == providers[config.kind](config)
  {
    CachedClient(providers, ttl, run, KeyOf(providers, config));
    KeysApartExactly(providers.Keys);
  }

  /** The condition is needed: a type that continues another can be given its client. */
  lemma WrongClient(t1: string, t2: string, ttl: int)
    requires Continues(t2, t1)
    ensures exists providers: Providers, run: seq<Step<Client>>, config: RepoConfig ::
              && providers.Keys == {t1, t2}
              && Legal(Empty(ttl), run) && Managed(providers, ttl, run)
              && config.kind == t1 && KeyOf(providers, config) in Exec(Empty(ttl), run).entries
              && Exec(Empty<Client>(ttl), run).entries[KeyOf(providers, config)].client.kind == t2
  {
    var k1 := t2[|t1| + 1..] + "|";
    assert t2 == t1 + "|" + t2[|t1| + 1..];
    assert CacheKey(t1, k1) == CacheKey(t2, "");
    var f1, f2 := (c: RepoConfig) => k1, (c: RepoConfig) => "";
    var providers: Providers := map[t1 := f1, t2 := f2];
    var c1, c2 := RepoConfig(t1, map[]), RepoConfig(t2, map[]);
    var put := Put(KeyOf(providers, c2), Client(0, t2, c2), 0);
    ExecMore(Empty<Client>(ttl), [], put);
    assert [] + [put] == [put] && Front([put]) == [];
    assert KeyOf(providers, c1) == KeyOf(providers, c2);
    assert Managed(providers, ttl, [put]);
    assert Exec(Empty<Client>(ttl), [put]).entries[KeyOf(providers, c1)].client.kind == t2;
  }

  /* ---------- builds and evictions ---------- */

  function Builds(run: seq<Step<Client>>, key: string): nat
    decreases |run|
  {
    if run == [] then 0
    else
      var s := run[|run| - 1];
      Builds(Front(run), key) + if s.Put? && s.key == key then 1 else 0
  }

  ghost function Evictions(ttl: int, run: seq<Step<Client>>, key: string): nat
    requires Legal(Empty(ttl), run)
    decreases |run|
  {
    if run == [] then 0
    else
      Evictions(ttl, Front(run), key) +
      if key in Exec(Empty(ttl), Front(run)).entries && key !in Exec(Empty(ttl), run).entries then 1 else 0
  }

  /** One client at most is built for a key between two evictions. */
  lemma {:induction false} BuildsAndEvictions(providers: Providers, ttl: int, run: seq<Step<Client>>, key: string)
    requires Legal(Empty(ttl), run) && Managed(providers, ttl, run)
    ensures Builds(run, key) == Evictions(ttl, run, key) + if key in Exec(Empty(ttl), run).entries then 1 else 0
    decreases |run|
  {
    if run != [] {
      BuildsAndEvictions(providers, ttl, Front(run), key);
      var c, s := Exec(Empty<Client>(ttl), Front(run)), run[|run| - 1];
      assert Exec(Empty(ttl), run) == Apply(c, s);
      if !s.Recheck? {
        OnlyRecheckEvicts(c, s);
      }
    }
  }

  lemma ManagedMore(providers: Providers, ttl: int, run: seq<Step<Client>>, s: Step<Client>)
    requires Legal(Empty(ttl), run) && Managed(providers, ttl, run) && Legal(Empty(ttl), run + [s])
    requires s.Put? ==>
               && s.client.kind == s.client.config.kind && s.client.kind in providers
               && s.key == KeyOf(providers, s.client.config)
               && s.key !in Exec(Empty(ttl), run).entries
    ensures Managed(providers, ttl, run + [s])
  {
    assert Front(run + [s]) == run;
  }

  /** Whatever a cleanup does in between, the run stays managed. */
  lemma {:induction false} CleanupKeepsManaged(providers: Providers, ttl: int, run: seq<Step<Client>>,
                                               more: seq<Step<Client>>)
    requires Legal(Empty(ttl), run) && Managed(providers, ttl, run) && Legal(Empty(ttl), more)
    requires NoPutSince(run, more)
    ensures Managed(providers, ttl, more)
    decreases |more|
  {
    if |more| > |run| {
      assert run <= Front(more) && forall i | |run| <= i < |Front(more)| :: Front(more)[i] == more[i];
      CleanupKeepsManaged(providers, ttl, run, Front(more));
    } else {
      assert more == run;
    }
  }

  datatype Lookup = Unknown | Found(client: Client) | Missing

  class PullManager {
    const storageProviders: Providers
    const clientCache: ClientCache<Client>
    /** The config that the holder of the lock is building a client for. */
    ghost var building: Option<RepoConfig>

    ghost predicate Valid()
      reads this, clientCache, clientCache.cache.Values
    {
      && clientCache.Valid()
      && Managed(storageProviders, clientCache.ttl, clientCache.run)
      && (building.Some? ==>
            building.value.kind in storageProviders && KeyOf(storageProviders, building.value) !in clientCache.cache)
    }

    constructor (storageProviders: Providers, ttl: int)
      ensures Valid() && building == None && fresh(clientCache)
      ensures this.storageProviders == storageProviders && clientCache.ttl == ttl && clientCache.cache == map[]
    {
      this.storageProviders := storageProviders;
      clientCache := new ClientCache(ttl);
      building := None;
    }

    /** Up to the cache lookup. */
    method FindClient(config: RepoConfig, now: int) returns (r: Lookup)
      requires Valid() && building == None && !clientCache.locked
      modifies this`building, clientCache`run, clientCache.cache.Values
      ensures Valid()
      ensures r.Unknown? <==> config.kind !in storageProviders
      ensures r.Unknown? ==> clientCache.run == old(clientCache.run)
      ensures !r.Unknown? ==> clientCache.run == old(clientCache.run) + [Get(KeyOf(storageProviders, config), now)]
      ensures r.Missing? ==> building == Some(config)
      ensures !r.Missing? ==> building == None
      ensures r.Found? ==>
                && r.client.kind == r.client.config.kind && r.client.kind in storageProviders
                && KeyOf(storageProviders, r.client.config) == KeyOf(storageProviders, config)
                && LastPut(old(clientCache.run), KeyOf(storageProviders, config)) == Some(r.client)
      ensures r.Found? && (forall t1, t2 | t1 in storageProviders && t2 in storageProviders :: !Continues(t2, t1)) ==>
                && r.client.kind == config.kind
                && storageProviders[config.kind](r.client.config) == storageProviders[config.kind](config)
    {
      if config.kind !in storageProviders {
        return Unknown;
      }
      var cacheKey := KeyOf(storageProviders, config);
      ghost var run := clientCache.run;
      if cacheKey in clientCache.cache {
        assert cacheKey in Exec(Empty(clientCache.ttl), run).entries;
        CachedClient(storageProviders, clientCache.ttl, run, cacheKey);
        if forall t1, t2 | t1 in storageProviders && t2 in storageProviders :: !Continues(t2, t1) {
          FoundClient(storageProviders, clientCache.ttl, run, config);
        }
      }
      var rc := clientCache.GetClient(cacheKey, now);
      ManagedMore(storageProviders, clientCache.ttl, run, Get(cacheKey, now));
      if rc.Some? {
        r := Found(rc.value);
      } else {
        building := Some(config);
        r := Missing;
      }
    }

    /** After NewRepository, which gives a client or an error; a cleanup may have run meanwhile. */
    method KeepClient(config: RepoConfig, made: Option<int>, now: int) returns (client: Option<Client>)
      requires Valid() && building == Some(config) && !clientCache.locked
      modifies this`building, clientCache`run, clientCache`cache, clientCache.cache.Values
      ensures Valid() && building == None
      ensures made == None ==> client == None && clientCache.run == old(clientCache.run)
      ensures made.Some? ==>
                && client == Some(Client(made.value, config.kind, config))
                && clientCache.run == old(clientCache.run) + [Put(KeyOf(storageProviders, config), client.value, now)]
                && KeyOf(storageProviders, config) in clientCache.cache
    {
      building := None;
      if made == None {
        return None;
      }
      var cacheKey := KeyOf(storageProviders, config);
      var newClient := Client(made.value, config.kind, config);
      ghost var run := clientCache.run;
      assert cacheKey !in Exec(Empty(clientCache.ttl), run).entries;
      clientCache.SetClient(cacheKey, newClient, now);
      ManagedMore(storageProviders, clientCache.ttl, run, Put(cacheKey, newClient, now));
      client := Some(newClient);
    }

    /** The scan of a cleanup looks at an entry, also while the manager is between its two halves. */
    method Scan(ce: CacheEntry<Client>, now: int)
      requires Valid() && !clientCache.locked && ce !in clientCache.entriesToCheck
      requires ce.key in clientCache.cache && clientCache.cache[ce.key] == ce
      modifies clientCache`run, clientCache`entriesToCheck
      ensures Valid() && clientCache.run == old(clientCache.run) + [Visit(ce.key, now)]
    {
      ghost var run := clientCache.run;
      clientCache.Look(ce, now);
      ManagedMore(storageProviders, clientCache.ttl, run, Visit(ce.key, now));
    }

    /** So does the half of a cleanup that holds the lock. */
    method CleanUp(times: seq<int>)
      requires Valid() && !clientCache.locked && |times| == |clientCache.entriesToCheck|
      modifies clientCache`run, clientCache`entriesToCheck, clientCache`cache, clientCache`locked
      ensures Valid() && !clientCache.locked && clientCache.entriesToCheck == []
      ensures clientCache.Entries() ==
                Sweep(clientCache.ttl, old(clientCache.Entries()), old(clientCache.Candidates()), times)
      ensures forall k | k in clientCache.cache :: k in old(clientCache.cache)
                                                   && clientCache.cache[k] == old(clientCache.cache)[k]
    {
      ghost var run := clientCache.run;
      clientCache.ExpireCandidates(times);
      CleanupKeepsManaged(storageProviders, clientCache.ttl, run, clientCache.run);
    }
  }
}
