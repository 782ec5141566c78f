/** The client cache of pullman/cache.go on values.  A cleanup reads the entries one by one
    without the lock, so its steps mix with the lookups; it then takes the lock and checks
    each candidate once more before it deletes it. */
module ClientCaches {
  import opened Wrappers

  datatype Entry<C> = Entry(client: C, expiry: int)

  /** `candidates` is what the running cleanup has still to check; `locked` says that it holds the lock. */
  datatype Cache<C> = Cache(ttl: int, entries: map<string, Entry<C>>, candidates: seq<string>, locked: bool)

  /** Each step carries the time it reads from the clock. */
  datatype Step<C> =
    | Get(key: string, now: int)
    | Put(key: string, client: C, now: int)
    | Visit(key: string, now: int)
    | Lock
    | Recheck(now: int)
    | Unlock

  function Empty<C>(ttl: int): Cache<C> {
    Cache(ttl, map[], [], false)
  }

  predicate IsExpired(ttl: int, expiry: int, now: int) {
    ttl > 0 && expiry < now
  }

  function ResetExpiry<C>(ttl: int, e: Entry<C>, now: int): Entry<C> {
    if ttl > 0 then e.(expiry := now + ttl) else e
  }

  function GetStep<C>(c: Cache<C>, key: string, now: int): Cache<C> {
    if key in c.entries then c.(entries := c.entries[key := ResetExpiry(c.ttl, c.entries[key], now)]) else c
  }

  function PutStep<C>(c: Cache<C>, key: string, client: C, now: int): Cache<C> {
    var e := if key in c.entries then c.entries[key].(client := client) else Entry(client, 0);
    c.(entries := c.entries[key := ResetExpiry(c.ttl, e, now)])
  }

  function VisitStep<C>(c: Cache<C>, key: string, now: int): Cache<C>
    requires key in c.entries
  {
    if IsExpired(c.ttl, c.entries[key].expiry, now) then c.(candidates := c.candidates + [key]) else c
  }

  function RecheckStep<C>(c: Cache<C>, now: int): Cache<C>
    requires c.candidates != [] && c.candidates[0] in c.entries
  {
    var key := c.candidates[0];
    var d := c.(candidates := c.candidates[1..]);
    if IsExpired(c.ttl, c.entries[key].expiry, now) then d.(entries := c.entries - {key}) else d
  }

  /** Lookups wait for the lock.  A scan sees each entry of the map at most once. */
  predicate Enabled<C(==)>(c: Cache<C>, s: Step<C>) {
    match s
    case Get(_, _) => !c.locked
    case Put(_, _, _) => !c.locked
    case Visit(key, _) => !c.locked && key in c.entries && key !in c.candidates
    case Lock => !c.locked && c.candidates != []
    case Recheck(_) => c.locked && c.candidates != []
    case Unlock => c.locked && c.candidates == []
  }

  /** What makes it sound to look at the candidates again: each is still the entry of its key. */
  ghost predicate Current<C>(c: Cache<C>) {
    && (forall i | 0 <= i < |c.candidates| :: c.candidates[i] in c.entries)
    && (forall i, j | 0 <= i < j < |c.candidates| :: c.candidates[i] != c.candidates[j])
    && (c.ttl <= 0 ==> c.candidates == [])
  }

  ghost function Apply<C>(c: Cache<C>, s: Step<C>): (d: Cache<C>)
    requires Enabled(c, s) && Current(c)
    ensures Current(d) && d.ttl == c.ttl
  {
    match s
    case Get(key, now) => GetStep(c, key, now)
    case Put(key, client, now) => PutStep(c, key, client, now)
    case Visit(key, now) => VisitStep(c, key, now)
    case Lock => c.(locked := true)
    case Recheck(now) => RecheckStep(c, now)
    case Unlock => c.(locked := false)
  }

  /* ---------- runs ---------- */

  ghost predicate Legal<C>(c: Cache<C>, run: seq<Step<C>>)
    requires Current(c)
    decreases |run|, 0
  {
    run == [] || (Legal(c, Front(run)) && Enabled(Exec(c, Front(run)), run[|run| - 1]))
  }

  ghost function Exec<C>(c: Cache<C>, run: seq<Step<C>>): (d: Cache<C>)
    requires Current(c) && Legal(c, run)
    ensures Current(d) && d.ttl == c.ttl
    decreases |run|, 1
  {
    if run == [] then c else Apply(Exec(c, Front(run)), run[|run| - 1])
  }

  function Front<T>(s: seq<T>): seq<T>
    requires s != []
  {
    s[..|s| - 1]
  }

  lemma ExecMore<C>(c: Cache<C>, run: seq<Step<C>>, s: Step<C>)
    requires Current(c) && Legal(c, run) && Enabled(Exec(c, run), s)
    ensures Legal(c, run + [s]) && Exec(c, run + [s]) == Apply(Exec(c, run), s)
  {
    assert Front(run + [s]) == run;
  }

  /** Nothing was stored in a part of a run: all a cleanup does. */
  ghost predicate NoPutSince<C>(run: seq<Step<C>>, more: seq<Step<C>>) {
    run <= more && forall i | |run| <= i < |more| :: !more[i].Put?
  }

  /** When a client was last asked for or stored under a key. */
  function LastTouch<C>(run: seq<Step<C>>, key: string): Option<int>
    decreases |run|
  {
    if run == [] then None
    else match run[|run| - 1]
      case Get(k, now) => if k == key then Some(now) else LastTouch(Front(run), key)
      case Put(k, _, now) => if k == key then Some(now) else LastTouch(Front(run), key)
      case _ => LastTouch(Front(run), key)
  }

  /** The client last stored under a key. */
  function LastPut<C>(run: seq<Step<C>>, key: string): Option<C>
    decreases |run|
  {
    if run == [] then None
    else match run[|run| - 1]
      case Put(k, client, _) => if k == key then Some(client) else LastPut(Front(run), key)
      case _ => LastPut(Front(run), key)
  }

  predicate Uses<C>(s: Step<C>, key: string) {
    match s
    case Get(k, _) => k == key
    case Put(k, _, _) => k == key
    case _ => false
  }

  /** The last use of a key is its last lookup or store, and the last client the one of its last store. */
  lemma {:induction false} LastUse<C>(run: seq<Step<C>>, key: string)
    ensures LastTouch(run, key).None? <==> forall i | 0 <= i < |run| :: !Uses(run[i], key)
    ensures forall i | 0 <= i < |run| && Uses(run[i], key) && (forall j | i < j < |run| :: !Uses(run[j], key)) ::
              LastTouch(run, key) == Some(run[i].now)
    ensures LastPut(run, key).None? <==> forall i | 0 <= i < |run| :: !(run[i].Put? && run[i].key == key)
    ensures forall i | 0 <= i < |run| && run[i].Put? && run[i].key == key &&
                       (forall j | i < j < |run| :: !(run[j].Put? && run[j].key == key)) ::
              LastPut(run, key) == Some(run[i].client)
    decreases |run|
  {
    if run != [] {
      LastUse(Front(run), key);
      assert forall i | 0 <= i < |run| - 1 :: Front(run)[i] == run[i];
    }
  }

  /** Every cached entry has the client last stored, and a full time to live from its last use. */
  lemma {:induction false} EntriesAre<C>(ttl: int, run: seq<Step<C>>, key: string)
    requires Legal(Empty(ttl), run) && key in Exec(Empty(ttl), run).entries
    ensures LastPut(run, key) == Some(Exec(Empty(ttl), run).entries[key].client)
    ensures LastTouch(run, key).Some?
    ensures ttl > 0 ==> Exec(Empty(ttl), run).entries[key].expiry == LastTouch(run, key).value + ttl
    decreases |run|
  {
    if run != [] {
      var c, s := Exec(Empty<C>(ttl), Front(run)), run[|run| - 1];
      if key in c.entries {
        EntriesAre(ttl, Front(run), key);
      }
      assert Exec(Empty(ttl), run) == Apply(c, s);
    }
  }

  /** A candidate is still the entry of its key when it is checked under the lock.  It is deleted
      exactly when its last use is more than a full time to live ago, whatever was read in the
      scan, and no other entry is touched. */
  lemma NeverEvictsFresh<C>(ttl: int, run: seq<Step<C>>, now: int)
    requires Legal(Empty(ttl), run) && Enabled(Exec(Empty(ttl), run), Recheck(now))
    ensures var c := Exec(Empty(ttl), run);
            var d := Apply(c, Recheck(now));
            var key := c.candidates[0];
            && ttl > 0 && key in c.entries && LastTouch(run, key).Some?
            && (key !in d.entries <==> LastTouch(run, key).value + ttl < now)
            && (forall k | k != key :: k in c.entries <==> k in d.entries)
            && (forall k | k in d.entries :: d.entries[k] == c.entries[k])
  {
    var c := Exec(Empty<C>(ttl), run);
    EntriesAre(ttl, run, c.candidates[0]);
  }

  /** No other step takes a client out of the cache. */
  lemma OnlyRecheckEvicts<C>(c: Cache<C>, s: Step<C>)
    requires Current(c) && Enabled(c, s) && !s.Recheck?
    ensures forall k | k in c.entries :: k in Apply(c, s).entries
  {
  }

  /** Without a time to live nothing is ever evicted: a key is cached from its first Put on. */
  lemma {:induction false} NoTtlNoEviction<C>(ttl: int, run: seq<Step<C>>, key: string)
    requires ttl <= 0 && Legal(Empty(ttl), run)
    ensures Exec(Empty(ttl), run).candidates == []
    ensures key in Exec(Empty(ttl), run).entries <==> LastPut(run, key).Some?
    decreases |run|
  {
    if run != [] {
      NoTtlNoEviction(ttl, Front(run), key);
    }
  }

  /* ---------- a whole sweep under the lock ---------- */

  /** The entries left when candidate i is checked at times[i]. */
  function Sweep<C>(ttl: int, entries: map<string, Entry<C>>, candidates: seq<string>, times: seq<int>)
    : map<string, Entry<C>>
    requires |times| == |candidates|
    decreases |times|
  {
    if times == [] then entries
    else
      var key := candidates[0];
      var gone := key in entries && IsExpired(ttl, entries[key].expiry, times[0]);
      Sweep(ttl, if gone then entries - {key} else entries, candidates[1..], times[1..])
  }

  function SweepFrom<C>(c: Cache<C>, times: seq<int>): map<string, Entry<C>>
    requires |times| == |c.candidates|
  {
    Sweep(c.ttl, c.entries, c.candidates, times)
  }

  lemma SweepOne<C>(c: Cache<C>, times: seq<int>, i: nat)
    requires Current(c) && i < |times| && |times| - i == |c.candidates|
    ensures SweepFrom(c, times[i..]) == SweepFrom(RecheckStep(c, times[i]), times[i + 1..])
  {
    assert times[i..][1..] == times[i + 1..];
  }

  /** An entry goes exactly when it is expired at the check of its own key. */
  lemma {:induction false} SweepLeaves<C>(ttl: int, entries: map<string, Entry<C>>, candidates: seq<string>,
                                          times: seq<int>, k: string)
    requires |times| == |candidates| && k in entries
    requires forall i, j | 0 <= i < j < |candidates| :: candidates[i] != candidates[j]
    ensures var left := Sweep(ttl, entries, candidates, times);
            && (k !in left <==>
                  exists i | 0 <= i < |times| :: candidates[i] == k && IsExpired(ttl, entries[k].expiry, times[i]))
            && (k in left ==> left[k] == entries[k])
    decreases |times|
  {
    if times != [] {
      var key := candidates[0];
      var gone := key in entries && IsExpired(ttl, entries[key].expiry, times[0]);
      var rest := if gone then entries - {key} else entries;
      if k in rest {
        SweepLeaves(ttl, rest, candidates[1..], times[1..], k);
        forall i | 1 <= i < |times| ensures candidates[1..][i - 1] == candidates[i] && times[1..][i - 1] == times[i] {
        }
      } else {
        SweepSmaller(ttl, rest, candidates[1..], times[1..], k);
      }
    }
  }

  lemma {:induction false} SweepSmaller<C>(ttl: int, entries: map<string, Entry<C>>, candidates: seq<string>,
                                           times: seq<int>, k: string)
    requires |times| == |candidates| && k !in entries
    ensures k !in Sweep(ttl, entries, candidates, times)
    decreases |times|
  {
    if times != [] {
      var key := candidates[0];
      var gone := key in entries && IsExpired(ttl, entries[key].expiry, times[0]);
      SweepSmaller(ttl, if gone then entries - {key} else entries, candidates[1..], times[1..], k);
    }
  }
}
