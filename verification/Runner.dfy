/** The TTL cache (crates/data/src/cache.rs) and the cached run of a generator
    (`SandboxedRunner::run` in crates/data/src/runner.rs). Execution and the
    post-processing of its output, which GeneratorOutput models, are parameters; times are in
    ticks. */
module Runner {
  import opened Wrappers
  import opened SpecTypes

  datatype CacheKey = CacheKey(run: seq<string>, cwd: string)

  datatype CacheEntry = CacheEntry(values: seq<string>, expiresAt: nat)

  type Entries = map<CacheKey, CacheEntry>

  function Lookup(entries: Entries, key: CacheKey, now: nat): Option<seq<string>> {
    if key in entries && entries[key].expiresAt > now then Some(entries[key].values) else None
  }

  function Store(entries: Entries, key: CacheKey, values: seq<string>, ttl: nat, now: nat): Entries {
    if ttl == 0 then entries else entries[key := CacheEntry(values, now + ttl)]
  }

  function Ttl(g: Generator): nat {
    if g.cache.Some? then g.cache.value.ttlMs else 0
  }

  /** A stored value is found until its time is up, and storing touches no other key. */
  lemma StoredUntilExpiry(entries: Entries, key: CacheKey, values: seq<string>, ttl: nat, now: nat, other: CacheKey,
                          t: nat)
    ensures ttl > 0 ==>
              Lookup(Store(entries, key, values, ttl, now), key, t) == if t < now + ttl then Some(values) else None
    ensures other != key || ttl == 0 ==>
              Lookup(Store(entries, key, values, ttl, now), other, t) == Lookup(entries, other, t)
  {
  }

  class TtlCache {
    var entries: Entries
    /** Whether a thread panicked while it held the lock. */
    var poisoned: bool

    constructor ()
      ensures entries == map[] && !poisoned
    {
      entries, poisoned := map[], false;
    }

    /** A poisoned lock degrades to a miss. */
    method Get(run: seq<string>, cwd: string, now: nat) returns (r: Option<seq<string>>)
      ensures r == if poisoned then None else Lookup(entries, CacheKey(run, cwd), now)
    {
      if poisoned {
        return None;
      }
      var key := CacheKey(run, cwd);
      if key in entries && entries[key].expiresAt > now {
        return Some(entries[key].values);
      }
      return None;
    }

    /** A zero TTL and a poisoned lock store nothing. */
    method Put(run: seq<string>, cwd: string, values: seq<string>, ttl: nat, now: nat)
      modifies this
      ensures poisoned == old(poisoned)
      ensures entries == if poisoned then old(entries) else Store(old(entries), CacheKey(run, cwd), values, ttl, now)
    {
      if ttl == 0 {
        return;
      }
      if !poisoned {
        entries := entries[CacheKey(run, cwd) := CacheEntry(values, now + ttl)];
      }
    }
  }

  /** What one call returns and does to the entries, when no other call steps in between:
      a warm value and no execution, or else what the execution gives, stored unless it
      failed. A poisoned lock hides the entries and keeps them as they are. */
  ghost predicate RunsTo(before: Entries, poisoned: bool, g: Generator, cwd: string, now: nat,
                         outcome: Result<string, ExecutionError>, post: (Generator, string) -> seq<string>,
                         r: Result<seq<string>, ExecutionError>, after: Entries)
  {
    var warm := if Ttl(g) == 0 || poisoned then None else Lookup(before, CacheKey(g.run, cwd), now);
    if warm.Some? then r == Success(warm.value) && after == before
    else if outcome.Failure? then r == Failure(outcome.error) && after == before
    else
      && r == Success(post(g, outcome.value))
      && after == if poisoned then before else Store(before, CacheKey(g.run, cwd), r.value, Ttl(g), now)
  }

  datatype ExecutionError = NotAllowListed(program: string) | Timeout | ExecutionFailed(message: string) | EmptyRun

  class SandboxedRunner {
    const cache: TtlCache

    constructor ()
      ensures fresh(cache) && cache.entries == map[] && !cache.poisoned
    {
      cache := new TtlCache();
    }

    /** One call with no other between its steps. `outcome` is what executing would give. */
    method Run(g: Generator, cwd: string, now: nat, outcome: Result<string, ExecutionError>,
               post: (Generator, string) -> seq<string>)
      returns (r: Result<seq<string>, ExecutionError>)
      modifies cache
      ensures cache.poisoned == old(cache.poisoned)
      ensures RunsTo(old(cache.entries), old(cache.poisoned), g, cwd, now, outcome, post, r, cache.entries)
    {
      var ttl := Ttl(g);
      if ttl != 0 {
        var warm := cache.Get(g.run, cwd, now);
        if warm.Some? {
          return Success(warm.value);
        }
      }
      if outcome.Failure? {
        return Failure(outcome.error);
      }
      var values := post(g, outcome.value);
      cache.Put(g.run, cwd, values, ttl, now);
      return Success(values);
    }
  }
}
