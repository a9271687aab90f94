/** How long a generator's values are kept, in terms of its own `cache.ttlMs`: for one call
    after another, and for calls that run at once (crates/data/src/runner.rs). */
module RunnerMeaning {
  import opened Wrappers
  import opened SpecTypes
  import opened Runner
  import opened RunnerProtocol

  /** The generator caches, for so many milliseconds. */
  predicate CachesFor(g: Generator, ms: int) {
    g.cache.Some? && g.cache.value.ttlMs == ms && ms > 0
  }

  predicate CachesNothing(g: Generator) {
    g.cache.None? || g.cache.value.ttlMs == 0
  }

  // ----- one call after another

  /** A generator that caches nothing is executed every time and leaves the cache alone. */
  lemma UncachedRunsEveryTime(before: Entries, poisoned: bool, g: Generator, cwd: string, now: nat,
                              outcome: Result<string, ExecutionError>, post: Post,
                              r: Result<seq<string>, ExecutionError>, after: Entries)
    requires CachesNothing(g) && RunsTo(before, poisoned, g, cwd, now, outcome, post, r, after)
    ensures after == before
    ensures r == if outcome.Success? then Success(post(g, outcome.value)) else Failure(outcome.error)
  {
  }

  /** No entry for the argv and directory is still good. */
  predicate NothingFresh(entries: Entries, run: seq<string>, cwd: string, now: nat) {
    var key := CacheKey(run, cwd);
    key in entries ==> entries[key].expiresAt <= now
  }

  /** What a cold call at `t` computes is what a later call with the same argv, directory and a
      positive period returns, whatever its own execution would give, while less than the
      first generator's period has passed; after that it is executed. */
  lemma ValuesLastTheirPeriod(before: Entries, g: Generator, ms: nat, cwd: string, t: nat, stdout: string, post: Post,
                              r: Result<seq<string>, ExecutionError>, mid: Entries,
                              k: Generator, later: nat, u: nat, outcome: Result<string, ExecutionError>,
                              q: Result<seq<string>, ExecutionError>, after: Entries)
    requires CachesFor(g, ms) && CachesFor(k, later) && k.run == g.run
    requires NothingFresh(before, g.run, cwd, t)
    requires RunsTo(before, false, g, cwd, t, Success(stdout), post, r, mid)
    requires RunsTo(mid, false, k, cwd, u, outcome, post, q, after)
    ensures r == Success(post(g, stdout))
    ensures u < t + ms ==> q == r && after == mid
    ensures u >= t + ms ==> q == if outcome.Success? then Success(post(k, outcome.value)) else Failure(outcome.error)
  {
  }

  // ----- calls at once

  /** Under any interleaving: a call of a generator that caches nothing does not end warm. */
  lemma {:induction false} UncachedIsNeverWarm(s: State, gens: set<Generator>, post: Post, id: nat)
    requires Reachable(s, gens, post) && id in s.calls && CachesNothing(s.calls[id].g)
    ensures !s.calls[id].phase.Warm?
  {
    hide Reachable, IsFresh;
    ReturnedValuesAreSound(s, gens, post, id);
  }

  /** And no step of it changes the entries; nor does any failure. */
  lemma {:induction false} EntriesChangeOnlyForCached(s: State, a: Action, post: Post)
    requires Step(s, a, post).Some? && Step(s, a, post).value.entries != s.entries
    ensures a.StoreAndReturn? && a.id in s.calls && exists ms :: CachesFor(s.calls[a.id].g, ms)
  {
    OnlyStoringChangesTheCache(s, a, post);
    assert CachesFor(s.calls[a.id].g, s.calls[a.id].g.cache.value.ttlMs);
  }

  /** A warm value is from an execution, for the same argv and directory, that began less than
      the period of its generator before the time of the call. */
  lemma {:induction false} WarmIsFromThePeriod(s: State, gens: set<Generator>, post: Post, id: nat)
    requires Reachable(s, gens, post) && id in s.calls && s.calls[id].phase.Warm?
    ensures var c := s.calls[id];
            exists x, ms :: x in s.log && CachesFor(x.g, ms) && x.g.run == c.g.run && x.cwd == c.cwd
                            && c.phase.values == post(x.g, x.stdout) && c.now < x.begin + ms
  {
    hide Run, UsesOnly;
    var actions :| UsesOnly(actions, gens) && Run(INITIAL, actions, post) == Some(s);
    RunKeepsInvariant(actions, gens, post);
    var c := s.calls[id];
    assert CallIsSound(c, s, gens, post);
    var x :| x in s.log && Ttl(x.g) > 0 && IsFresh(c, c.phase.values, x, post);
    assert CachesFor(x.g, x.g.cache.value.ttlMs);
  }

  /** The step stores under the key. */
  predicate StoresAt(s: State, a: Action, key: CacheKey) {
    a.StoreAndReturn? && a.id in s.calls && CacheKey(s.calls[a.id].g.run, s.calls[a.id].cwd) == key
  }

  /** No call stores under the key, and no thread poisons the lock. */
  ghost predicate IsQuietFor(s: State, actions: seq<Action>, key: CacheKey, post: Post) {
    forall i :: 0 <= i < |actions| ==>
      !actions[i].Poison? && (Run(s, actions[..i], post).Some? ==> !StoresAt(Run(s, actions[..i], post).value, actions[i], key))
  }

  lemma {:induction false} EntryStays(s: State, actions: seq<Action>, key: CacheKey, post: Post)
    requires Run(s, actions, post).Some? && IsQuietFor(s, actions, key, post)
    requires key in s.entries && !s.poisoned
    ensures var t := Run(s, actions, post).value; key in t.entries && t.entries[key] == s.entries[key] && !t.poisoned
    decreases |actions|
  {
    if actions == [] {
    } else {
      var n := |actions| - 1;
      var t := Run(s, actions[..n], post).value;
      assert forall i :: 0 <= i < n ==> actions[..n][i] == actions[i] && actions[..n][..i] == actions[..i];
      hide Run;
      EntryStays(s, actions[..n], key, post);
      LastStep(s, actions, post);
      hide IsQuietFor;
      StepKeepsEntry(t, actions[n], key, post);
    }
  }

  lemma LastStep(s: State, actions: seq<Action>, post: Post)
    requires actions != [] && Run(s, actions, post).Some?
    ensures var n := |actions| - 1;
            Run(s, actions[..n], post).Some?
            && Step(Run(s, actions[..n], post).value, actions[n], post) == Run(s, actions, post)
  {
  }

  lemma {:induction false} StepKeepsEntry(s: State, a: Action, key: CacheKey, post: Post)
    requires Step(s, a, post).Some? && !a.Poison? && !StoresAt(s, a, key) && key in s.entries && !s.poisoned
    ensures var t := Step(s, a, post).value; key in t.entries && t.entries[key] == s.entries[key] && !t.poisoned
  {
  }

  /** What a call stores is what any call with its argv and directory and a positive period
      finds, if it came less than the storing generator's period after it, until the key is
      stored again; one that came later misses. */
  lemma {:induction false} StoredIsFound(s: State, id: nat, ms: nat, actions: seq<Action>, other: nat, later: nat,
                                         post: Post)
    requires id in s.calls && s.calls[id].phase.Computed? && CachesFor(s.calls[id].g, ms) && !s.poisoned
    requires var c := s.calls[id]; var stored := Step(s, StoreAndReturn(id), post).value;
             && Step(s, StoreAndReturn(id), post).Some?
             && Run(stored, actions, post).Some?
             && IsQuietFor(stored, actions, CacheKey(c.g.run, c.cwd), post)
             && var t := Run(stored, actions, post).value;
                && other in t.calls && t.calls[other].phase.Started? && CachesFor(t.calls[other].g, later)
                && t.calls[other].g.run == c.g.run && t.calls[other].cwd == c.cwd
    ensures var c := s.calls[id]; var t := Run(Step(s, StoreAndReturn(id), post).value, actions, post).value;
            var looked := Step(t, LookUp(other), post);
            && looked.Some?
            && looked.value.calls[other].phase ==
               if t.calls[other].now < c.now + ms then Warm(post(c.phase.x.g, c.phase.x.stdout)) else Missed
  {
    var c := s.calls[id];
    var stored := Step(s, StoreAndReturn(id), post).value;
    var key := CacheKey(c.g.run, c.cwd);
    assert stored.entries[key] == CacheEntry(post(c.phase.x.g, c.phase.x.stdout), c.now + ms) && !stored.poisoned;
    hide Run, IsQuietFor;
    EntryStays(stored, actions, key, post);
  }
}
