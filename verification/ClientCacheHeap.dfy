/** clientCache of pullman/cache.go: entries on the heap, updated in place, and a cleanup that
    keeps pointers to them while it does not hold the lock. */
module ClientCacheHeap {
  import opened ClientCaches
  import opened Wrappers

  class CacheEntry<C> {
    const key: string
    var client: C
    const ttl: int
    var expiry: int

    constructor (key: string, client: C, ttl: int)
      ensures this.key == key && this.client == client && this.ttl == ttl && expiry == 0
    {
      this.key, this.client, this.ttl := key, client, ttl;
      expiry := 0;
    }

    method ResetExpiry(now: int)
      modifies this`expiry
      ensures expiry == if ttl > 0 then now + ttl else old(expiry)
    {
      if ttl > 0 {
        expiry := now + ttl;
      }
    }

    predicate IsExpired(now: int)
      reads this
    {
      if ttl <= 0 then false else expiry < now
    }
  }

  class ClientCache<C(==)> {
    var cache: map<string, CacheEntry<C>>
    const ttl: int
    /** What the running cleanup has collected. */
    var entriesToCheck: seq<CacheEntry<C>>
    var locked: bool
    /** Every step so far. */
    ghost var run: seq<Step<C>>

    /** The entries as values. */
    ghost function Entries(): map<string, Entry<C>>
      reads this, cache.Values
    {
      map k | k in cache :: Entry(cache[k].client, cache[k].expiry)
    }

    ghost function Candidates(): seq<string>
      reads this
    {
      seq(|entriesToCheck|, i requires 0 <= i < |entriesToCheck| reads this => entriesToCheck[i].key)
    }

    ghost function State(): Cache<C>
      reads this, cache.Values
    {
      Cache(ttl, Entries(), Candidates(), locked)
    }

    /** Every candidate is the very entry that its key leads to. */
    ghost predicate Linked()
      reads this
    {
      && (forall k | k in cache :: cache[k].key == k && cache[k].ttl == ttl)
      && (forall ce | ce in entriesToCheck :: ce.key in cache && cache[ce.key] == ce)
    }

    ghost predicate RunLeadsTo(s: Cache<C>)
      reads this
    {
      Legal(Empty(ttl), run) && Exec(Empty(ttl), run) == s
    }

    ghost predicate Valid()
      reads this, cache.Values
    {
      Linked() && RunLeadsTo(State())
    }

    ghost method Note(step: Step<C>, before: Cache<C>)
      requires RunLeadsTo(before) && Enabled(before, step) && State() == Apply(before, step)
      modifies this`run
      ensures run == old(run) + [step] && RunLeadsTo(State())
    {
      ExecMore(Empty(ttl), run, step);
      run := run + [step];
    }

    lemma CandidatesDiffer()
      requires Valid()
      ensures forall i, j | 0 <= i < j < |entriesToCheck| :: entriesToCheck[i].key != entriesToCheck[j].key
    {
      forall i, j | 0 <= i < j < |entriesToCheck| ensures entriesToCheck[i].key != entriesToCheck[j].key {
        assert Candidates()[i] != Candidates()[j];
      }
    }

    constructor (ttl: int)
      ensures Valid() && run == [] && this.ttl == ttl && cache == map[]
    {
      this.ttl := ttl;
      cache, entriesToCheck, locked, run := map[], [], false, [];
    }

    method GetClient(key: string, now: int) returns (client: Option<C>)
      requires Valid() && !locked
      modifies this`run, cache.Values
      ensures Valid() && run == old(run) + [Get(key, now)]
      ensures client == if key in old(Entries()) then Some(old(Entries())[key].client) else None
      ensures State() == Apply(old(State()), Get(key, now))
      ensures key in cache && ttl > 0 ==> cache[key].expiry == now + ttl
    {
      ghost var before := State();
      if key !in cache {
        client := None;
      } else {
        var ce := cache[key];
        ce.ResetExpiry(now);
        client := Some(ce.client);
      }
      Note(Get(key, now), before);
    }

    /** An existing entry is updated in place: a cleanup that holds a pointer to it sees the change. */
    method SetClient(key: string, client: C, now: int)
      requires Valid() && !locked
      modifies this`run, this`cache, cache.Values
      ensures Valid() && run == old(run) + [Put(key, client, now)]
      ensures State() == Apply(old(State()), Put(key, client, now))
      ensures key in cache && cache[key].client == client && (ttl > 0 ==> cache[key].expiry == now + ttl)
      ensures key in old(cache) ==> cache == old(cache)
      ensures key !in old(cache) ==> key in cache && fresh(cache[key])
    {
      ghost var before := State();
      if key in cache {
        var existingEntry := cache[key];
        Update(existingEntry, client, now);
      } else {
        Add(key, client, now);
      }
      Note(Put(key, client, now), before);
    }

    method Add(key: string, client: C, now: int)
      requires Linked() && key !in cache
      modifies this`cache
      ensures Linked() && State() == PutStep(old(State()), key, client, now)
      ensures cache.Keys == old(cache).Keys + {key} && fresh(cache[key])
      ensures cache[key].client == client && (ttl > 0 ==> cache[key].expiry == now + ttl)
      ensures forall k | k in old(cache) :: cache[k] == old(cache)[k]
    {
      var newEntry := new CacheEntry(key, client, ttl);
      newEntry.ResetExpiry(now);
      cache := cache[key := newEntry];
    }

    method Update(ce: CacheEntry<C>, client: C, now: int)
      requires Linked() && ce.key in cache && cache[ce.key] == ce
      modifies ce
      ensures State() == PutStep(old(State()), ce.key, client, now)
      ensures ce.client == client && (ttl > 0 ==> ce.expiry == now + ttl)
    {
      ce.client := client;
      ce.ResetExpiry(now);
    }

    /** One entry of the unlocked scan of runCleanup. */
    method Look(ce: CacheEntry<C>, now: int)
      requires Valid() && !locked && ce.key in cache && cache[ce.key] == ce && ce !in entriesToCheck
      modifies this`run, this`entriesToCheck
      ensures Valid() && run == old(run) + [Visit(ce.key, now)]
      ensures entriesToCheck == if ce.IsExpired(now) then old(entriesToCheck) + [ce] else old(entriesToCheck)
    {
      ghost var before := State();
      NotYetCandidate(ce);
      if ce.IsExpired(now) {
        entriesToCheck := entriesToCheck + [ce];
      }
      Note(Visit(ce.key, now), before);
    }

    lemma NotYetCandidate(ce: CacheEntry<C>)
      requires Valid() && ce.key in cache && cache[ce.key] == ce && ce !in entriesToCheck
      ensures ce.key !in Candidates()
    {
      forall i | 0 <= i < |entriesToCheck| ensures Candidates()[i] != ce.key {
        assert entriesToCheck[i] in entriesToCheck;
      }
    }

    method TakeLock()
      requires Valid() && !locked && entriesToCheck != []
      modifies this`run, this`locked
      ensures Valid() && locked && run == old(run) + [Lock]
    {
      ghost var before := State();
      locked := true;
      Note(Lock, before);
    }

    /** One candidate, checked again with the lock held. */
    method CheckAgain(now: int)
      requires Valid() && locked && entriesToCheck != []
      modifies this`run, this`entriesToCheck, this`cache
      ensures Valid() && run == old(run) + [Recheck(now)]
      ensures var ce := old(entriesToCheck[0]);
              && entriesToCheck == old(entriesToCheck[1..])
              && cache == if ce.IsExpired(now) then old(cache) - {ce.key} else old(cache)
      ensures State() == Apply(old(State()), Recheck(now))
    {
      ghost var before := State();
      var ce := entriesToCheck[0];
      assert Candidates()[0] == ce.key && ce in entriesToCheck;
      CandidatesDiffer();
      entriesToCheck := entriesToCheck[1..];
      if ce.IsExpired(now) {
        cache := cache - {ce.key};
      }
      assert Candidates() == before.candidates[1..];
      Note(Recheck(now), before);
    }

    method GiveLock()
      requires Valid() && locked && entriesToCheck == []
      modifies this`run, this`locked
      ensures Valid() && !locked && run == old(run) + [Unlock]
    {
      ghost var before := State();
      locked := false;
      Note(Unlock, before);
    }

    /** Every candidate, each at the time read for it. */
    method CheckAll(times: seq<int>)
      requires Valid() && locked && |times| == |entriesToCheck|
      modifies this`run, this`entriesToCheck, this`cache
      ensures Valid() && entriesToCheck == [] && NoPutSince(old(run), run)
      ensures Entries() == Sweep(ttl, old(Entries()), old(Candidates()), times)
      ensures forall k | k in cache :: k in old(cache) && cache[k] == old(cache[k])
    {
      var i := 0;
      assert times[0..] == times;
      while i < |times|
        invariant Valid() && 0 <= i <= |times| && |entriesToCheck| == |times| - i
        invariant forall k | k in cache :: k in old(cache) && cache[k] == old(cache[k])
        invariant NoPutSince(old(run), run)
        invariant SweepFrom(State(), times[i..]) == Sweep(ttl, old(Entries()), old(Candidates()), times)
      {
        ghost var before := State();
        CheckAgain(times[i]);
        SweepOne(before, times, i);
        i := i + 1;
      }
    }

    /** The second half of runCleanup: with the lock held, every candidate is checked once more,
        and an entry goes exactly when it is expired then. */
    method ExpireCandidates(times: seq<int>)
      requires Valid() && !locked && |times| == |entriesToCheck|
      modifies this`run, this`entriesToCheck, this`cache, this`locked
      ensures Valid() && !locked && entriesToCheck == [] && NoPutSince(old(run), run)
      ensures Entries() == Sweep(ttl, old(Entries()), old(Candidates()), times)
      ensures forall k | k in cache :: k in old(cache) && cache[k] == old(cache[k])
    {
      if |entriesToCheck| == 0 {
        return;
      }
      TakeLock();
      CheckAll(times);
      GiveLock();
    }
  }
}
