/** Concurrent calls of the cached runner, step by step. The lock is taken by the lookup
    and by the store separately, so other calls may step in between. */
module RunnerProtocol {
  import opened Wrappers
  import opened SpecTypes
  import opened Runner

  /** A successful execution: for whom, when it began, and what it printed. */
  datatype Execution = Execution(g: Generator, cwd: string, begin: nat, stdout: string)

  /** How far a call has come. */
  datatype Phase =
    | Started
    | Missed
    | Running(begin: nat)
    | Computed(x: Execution)
    | Warm(values: seq<string>)
    | Cold(x: Execution)
    | Failed(error: ExecutionError)

  /** A call with the time it captured on entry. */
  datatype Call = Call(g: Generator, cwd: string, now: nat, phase: Phase)

  datatype State = State(clock: nat, entries: Entries, poisoned: bool, calls: map<nat, Call>, log: set<Execution>)

  datatype Action =
    | Tick
    | Poison
    | Enter(id: nat, g: Generator, cwd: string)
    | LookUp(id: nat)
    | Spawn(id: nat)
    | Finish(id: nat, outcome: Result<string, ExecutionError>)
    | StoreAndReturn(id: nat)

  type Post = (Generator, string) -> seq<string>

  const INITIAL := State(0, map[], false, map[], {})

  function KeyOf(c: Call): CacheKey {
    CacheKey(c.g.run, c.cwd)
  }

  function Move(s: State, id: nat, phase: Phase): State
    requires id in s.calls
  {
    s.(calls := s.calls[id := s.calls[id].(phase := phase)])
  }

  /** One step of one call, of the clock, or of a thread that poisons the lock. */
  function Step(s: State, a: Action, post: Post): Option<State> {
    match a
    case Tick => Some(s.(clock := s.clock + 1))
    case Poison => Some(s.(poisoned := true))
    case Enter(id, g, cwd) =>
      if id in s.calls then None else Some(s.(calls := s.calls[id := Call(g, cwd, s.clock, Started)]))
    case LookUp(id) =>
      if id !in s.calls || s.calls[id].phase != Started then None
      else
        var c := s.calls[id];
        var hit := if Ttl(c.g) == 0 || s.poisoned then None else Lookup(s.entries, KeyOf(c), c.now);
        Some(Move(s, id, if hit.Some? then Warm(hit.value) else Missed))
    case Spawn(id) =>
      if id !in s.calls || s.calls[id].phase != Missed then None else Some(Move(s, id, Running(s.clock)))
    case Finish(id, outcome) =>
      if id !in s.calls || !s.calls[id].phase.Running? then None
      else if outcome.Failure? then Some(Move(s, id, Failed(outcome.error)))
      else
        var x := Execution(s.calls[id].g, s.calls[id].cwd, s.calls[id].phase.begin, outcome.value);
        Some(Move(s, id, Computed(x)).(log := s.log + {x}))
    case StoreAndReturn(id) =>
      if id !in s.calls || !s.calls[id].phase.Computed? then None
      else
        var c := s.calls[id];
        var x := c.phase.x;
        var entries := if s.poisoned then s.entries else Store(s.entries, KeyOf(c), post(x.g, x.stdout), Ttl(c.g), c.now);
        Some(Move(s, id, Cold(x)).(entries := entries))
  }

  function Run(s: State, actions: seq<Action>, post: Post): Option<State>
    decreases |actions|
  {
    if actions == [] then Some(s)
    else
      var before := Run(s, actions[..|actions| - 1], post);
      if before.None? then None else Step(before.value, actions[|actions| - 1], post)
  }

  /** Reached by calls of these generators only. */
  ghost predicate Reachable(s: State, gens: set<Generator>, post: Post) {
    exists actions :: UsesOnly(actions, gens) && Run(INITIAL, actions, post) == Some(s)
  }

  ghost predicate UsesOnly(actions: seq<Action>, gens: set<Generator>) {
    forall i :: 0 <= i < |actions| && actions[i].Enter? ==> actions[i].g in gens
  }

  // ----- what every step keeps

  /** The execution gave these values, for this key, and not before the value can expire. */
  ghost predicate Backs(x: Execution, key: CacheKey, e: CacheEntry, post: Post) {
    && key == CacheKey(x.g.run, x.cwd)
    && e.values == post(x.g, x.stdout)
    && Ttl(x.g) > 0
    && e.expiresAt <= x.begin + Ttl(x.g)
  }

  ghost predicate EntriesAreBacked(entries: Entries, log: set<Execution>, post: Post) {
    forall key :: key in entries ==> exists x :: x in log && Backs(x, key, entries[key], post)
  }

  /** A warm value came from an execution for the same argv and directory that began less
      than the TTL of the call that stored it before the time of the call that read it. */
  ghost predicate IsFresh(c: Call, values: seq<string>, x: Execution, post: Post) {
    && x.g.run == c.g.run && x.cwd == c.cwd
    && values == post(x.g, x.stdout)
    && c.now < x.begin + Ttl(x.g)
  }

  ghost predicate CallIsSound(c: Call, s: State, gens: set<Generator>, post: Post) {
    && c.g in gens && c.now <= s.clock
    && match c.phase
       case Running(begin) => c.now <= begin <= s.clock
       case Computed(x) => x in s.log && x.g == c.g && x.cwd == c.cwd && c.now <= x.begin
       case Cold(x) => x in s.log && x.g == c.g && x.cwd == c.cwd && c.now <= x.begin
       case Warm(values) => Ttl(c.g) > 0 && exists x :: x in s.log && Ttl(x.g) > 0 && IsFresh(c, values, x, post)
       case _ => true
  }

  ghost predicate Invariant(s: State, gens: set<Generator>, post: Post) {
    && EntriesAreBacked(s.entries, s.log, post)
    && (forall x :: x in s.log ==> x.g in gens)
    && (forall id :: id in s.calls ==> CallIsSound(s.calls[id], s, gens, post))
  }

  /** Soundness of a call survives more time and more executions. */
  lemma CallStaysSound(c: Call, s: State, t: State, gens: set<Generator>, post: Post)
    requires CallIsSound(c, s, gens, post) && s.clock <= t.clock && s.log <= t.log
    ensures CallIsSound(c, t, gens, post)
  {
  }

  lemma {:induction false} OthersStaySound(s: State, t: State, id: nat, gens: set<Generator>, post: Post)
    requires Invariant(s, gens, post) && s.clock <= t.clock && s.log <= t.log
    requires forall i :: i in t.calls && i != id ==> i in s.calls && t.calls[i] == s.calls[i]
    ensures forall i :: i in t.calls && i != id ==> CallIsSound(t.calls[i], t, gens, post)
  {
    hide CallIsSound;
    forall i | i in t.calls && i != id ensures CallIsSound(t.calls[i], t, gens, post) {
      CallStaysSound(s.calls[i], s, t, gens, post);
    }
  }

  lemma {:induction false} HitIsFresh(s: State, c: Call, post: Post)
    requires EntriesAreBacked(s.entries, s.log, post) && Lookup(s.entries, KeyOf(c), c.now).Some?
    ensures exists x :: x in s.log && Ttl(x.g) > 0 && IsFresh(c, Lookup(s.entries, KeyOf(c), c.now).value, x, post)
  {
    hide Ttl;
    var key := KeyOf(c);
    var x :| x in s.log && Backs(x, key, s.entries[key], post);
    assert IsFresh(c, s.entries[key].values, x, post);
  }

  lemma {:induction false} StoreIsBacked(s: State, c: Call, x: Execution, post: Post)
    requires EntriesAreBacked(s.entries, s.log, post)
    requires x in s.log && x.g == c.g && x.cwd == c.cwd && c.now <= x.begin
    ensures EntriesAreBacked(Store(s.entries, KeyOf(c), post(x.g, x.stdout), Ttl(c.g), c.now), s.log, post)
  {
    hide Ttl;
    var stored := Store(s.entries, KeyOf(c), post(x.g, x.stdout), Ttl(c.g), c.now);
    forall key | key in stored ensures exists y :: y in s.log && Backs(y, key, stored[key], post) {
      if key != KeyOf(c) || Ttl(c.g) == 0 {
        assert stored[key] == s.entries[key];
      } else {
        assert Backs(x, key, stored[key], post);
      }
    }
  }

  lemma MoreExecutionsBack(entries: Entries, log: set<Execution>, more: set<Execution>, post: Post)
    requires EntriesAreBacked(entries, log, post) && log <= more
    ensures EntriesAreBacked(entries, more, post)
  {
  }

  /** A step of one call keeps the invariant if it keeps the entries backed, logs only
      executions of these generators, and leaves that call sound. */
  lemma {:induction false} CallStepKeepsInvariant(s: State, t: State, id: nat, gens: set<Generator>, post: Post)
    requires Invariant(s, gens, post) && s.clock <= t.clock && s.log <= t.log
    requires forall i :: i in t.calls && i != id ==> i in s.calls && t.calls[i] == s.calls[i]
    requires EntriesAreBacked(t.entries, t.log, post) && forall x :: x in t.log ==> x.g in gens
    requires id in t.calls && CallIsSound(t.calls[id], t, gens, post)
    ensures Invariant(t, gens, post)
  {
    hide EntriesAreBacked, CallIsSound;
    OthersStaySound(s, t, id, gens, post);
  }

  lemma {:induction false} LookUpKeepsInvariant(s: State, id: nat, gens: set<Generator>, post: Post)
    requires Invariant(s, gens, post) && Step(s, LookUp(id), post).Some?
    ensures Invariant(Step(s, LookUp(id), post).value, gens, post)
  {
    hide EntriesAreBacked, Lookup, IsFresh, Ttl;
    var t := Step(s, LookUp(id), post).value;
    var c := s.calls[id];
    assert CallIsSound(c, s, gens, post);
    if t.calls[id].phase.Warm? {
      HitIsFresh(s, c, post);
      SameFresh(c, t.calls[id], s.log, t.calls[id].phase.values, post);
    }
    CallStepKeepsInvariant(s, t, id, gens, post);
  }

  lemma {:induction false} FinishKeepsInvariant(s: State, id: nat, outcome: Result<string, ExecutionError>,
                                                gens: set<Generator>, post: Post)
    requires Invariant(s, gens, post) && Step(s, Finish(id, outcome), post).Some?
    ensures Invariant(Step(s, Finish(id, outcome), post).value, gens, post)
  {
    hide EntriesAreBacked, IsFresh, Ttl;
    var t := Step(s, Finish(id, outcome), post).value;
    assert CallIsSound(s.calls[id], s, gens, post);
    MoreExecutionsBack(s.entries, s.log, t.log, post);
    CallStepKeepsInvariant(s, t, id, gens, post);
  }

  lemma {:induction false} StoreKeepsInvariant(s: State, id: nat, gens: set<Generator>, post: Post)
    requires Invariant(s, gens, post) && Step(s, StoreAndReturn(id), post).Some?
    ensures Invariant(Step(s, StoreAndReturn(id), post).value, gens, post)
  {
    hide EntriesAreBacked, Store, IsFresh, Ttl;
    assert CallIsSound(s.calls[id], s, gens, post);
    StoreIsBacked(s, s.calls[id], s.calls[id].phase.x, post);
    CallStepKeepsInvariant(s, Step(s, StoreAndReturn(id), post).value, id, gens, post);
  }

  lemma {:induction false} StepKeepsInvariant(s: State, a: Action, gens: set<Generator>, post: Post)
    requires Invariant(s, gens, post) && Step(s, a, post).Some? && (a.Enter? ==> a.g in gens)
    ensures Invariant(Step(s, a, post).value, gens, post)
  {
    match a
    case LookUp(id) => LookUpKeepsInvariant(s, id, gens, post);
    case Finish(id, outcome) => FinishKeepsInvariant(s, id, outcome, gens, post);
    case StoreAndReturn(id) => StoreKeepsInvariant(s, id, gens, post);
    case _ => QuietStepKeepsInvariant(s, a, gens, post);
  }

  /** The steps that touch neither the entries nor the log. */
  lemma {:induction false} QuietStepKeepsInvariant(s: State, a: Action, gens: set<Generator>, post: Post)
    requires Invariant(s, gens, post) && Step(s, a, post).Some? && (a.Enter? ==> a.g in gens)
    requires a.Tick? || a.Poison? || a.Enter? || a.Spawn?
    ensures Invariant(Step(s, a, post).value, gens, post)
  {
    hide EntriesAreBacked, IsFresh, Ttl;
    var t := Step(s, a, post).value;
    if a.Tick? || a.Poison? {
      AllStaySound(s, t, gens, post);
    } else {
      assert a.Spawn? ==> CallIsSound(s.calls[a.id], s, gens, post);
      CallStepKeepsInvariant(s, t, a.id, gens, post);
    }
  }

  lemma {:induction false} AllStaySound(s: State, t: State, gens: set<Generator>, post: Post)
    requires Invariant(s, gens, post) && s.clock <= t.clock && s.log <= t.log && t.calls == s.calls
    ensures forall i :: i in t.calls ==> CallIsSound(t.calls[i], t, gens, post)
  {
    hide CallIsSound;
    forall i | i in t.calls ensures CallIsSound(t.calls[i], t, gens, post) {
      CallStaysSound(s.calls[i], s, t, gens, post);
    }
  }

  lemma SameFresh(c: Call, d: Call, log: set<Execution>, values: seq<string>, post: Post)
    requires d == c.(phase := d.phase)
    requires exists x :: x in log && Ttl(x.g) > 0 && IsFresh(c, values, x, post)
    ensures exists x :: x in log && Ttl(x.g) > 0 && IsFresh(d, values, x, post)
  {
    var x :| x in log && Ttl(x.g) > 0 && IsFresh(c, values, x, post);
    assert IsFresh(d, values, x, post);
  }

  lemma {:induction false} RunKeepsInvariant(actions: seq<Action>, gens: set<Generator>, post: Post)
    requires UsesOnly(actions, gens) && Run(INITIAL, actions, post).Some?
    ensures Invariant(Run(INITIAL, actions, post).value, gens, post)
    decreases |actions|
  {
    hide Step, Invariant;
    if actions == [] {
      InitialInvariant(gens, post);
    } else {
      RunKeepsInvariant(actions[..|actions| - 1], gens, post);
      StepKeepsInvariant(Run(INITIAL, actions[..|actions| - 1], post).value, actions[|actions| - 1], gens, post);
    }
  }

  lemma InitialInvariant(gens: set<Generator>, post: Post)
    ensures Invariant(INITIAL, gens, post)
  {
  }

  // ----- the main results

  /** Under any interleaving: a warm value came from a successful execution for the same
      argv and directory that began less than the storing call's TTL before the reading
      call's captured time, and a cold value is the call's own parse of its execution. */
  lemma {:induction false} ReturnedValuesAreSound(s: State, gens: set<Generator>, post: Post, id: nat)
    requires Reachable(s, gens, post) && id in s.calls
    ensures var c := s.calls[id];
            && (c.phase.Warm? ==> Ttl(c.g) > 0 && exists x :: x in s.log && IsFresh(c, c.phase.values, x, post))
            && (c.phase.Cold? ==> c.phase.x in s.log && c.phase.x.g == c.g && c.phase.x.cwd == c.cwd
                                  && c.now <= c.phase.x.begin)
  {
    hide IsFresh, Ttl, Run, UsesOnly;
    var actions :| UsesOnly(actions, gens) && Run(INITIAL, actions, post) == Some(s);
    RunKeepsInvariant(actions, gens, post);
    assert CallIsSound(s.calls[id], s, gens, post);
  }

  /** Only storing changes the cache, only at the key of the call, and not with a zero TTL;
      in particular no failure does. */
  lemma OnlyStoringChangesTheCache(s: State, a: Action, post: Post)
    requires Step(s, a, post).Some?
    ensures var t := Step(s, a, post).value;
            t.entries != s.entries ==>
              && a.StoreAndReturn? && !s.poisoned && Ttl(s.calls[a.id].g) > 0
              && forall key :: key != KeyOf(s.calls[a.id]) ==>
                   (key in t.entries <==> key in s.entries) && (key in s.entries ==> t.entries[key] == s.entries[key])
  {
  }

  /** Cached generators with one argv post-process every output alike. */
  ghost predicate ShareProcessing(gens: set<Generator>, post: Post) {
    forall g, h, out: string :: g in gens && h in gens && g.run == h.run && Ttl(g) > 0 && Ttl(h) > 0 ==>
      post(g, out) == post(h, out)
  }

  /** In every run, every warm value is the reading generator's own parse of an execution. */
  ghost predicate WarmValuesAreOwn(gens: set<Generator>, post: Post) {
    forall s, id :: Reachable(s, gens, post) && id in s.calls && s.calls[id].phase.Warm? ==>
      IsOwn(s.calls[id], s.log, post)
  }

  ghost predicate IsOwn(c: Call, log: set<Execution>, post: Post)
    requires c.phase.Warm?
  {
    exists x :: x in log && x.g.run == c.g.run && x.cwd == c.cwd && c.phase.values == post(c.g, x.stdout)
  }

  lemma {:induction false} SharingMakesWarmOwn(s: State, gens: set<Generator>, post: Post, id: nat)
    requires ShareProcessing(gens, post) && Reachable(s, gens, post)
    requires id in s.calls && s.calls[id].phase.Warm?
    ensures IsOwn(s.calls[id], s.log, post)
  {
    hide Run, UsesOnly, Ttl;
    var actions :| UsesOnly(actions, gens) && Run(INITIAL, actions, post) == Some(s);
    RunKeepsInvariant(actions, gens, post);
    var c := s.calls[id];
    assert CallIsSound(c, s, gens, post);
    var x :| x in s.log && Ttl(x.g) > 0 && IsFresh(c, c.phase.values, x, post);
    assert post(x.g, x.stdout) == post(c.g, x.stdout);
  }

  // ----- one call alone

  /** What a call that has ended returned. */
  function Returned(phase: Phase, post: Post): Option<Result<seq<string>, ExecutionError>> {
    match phase
    case Warm(values) => Some(Success(values))
    case Cold(x) => Some(Success(post(x.g, x.stdout)))
    case Failed(error) => Some(Failure(error))
    case _ => None
  }

  /** A step, if there is a state to step from. */
  function Then(s: Option<State>, a: Action, post: Post): Option<State> {
    if s.None? then None else Step(s.value, a, post)
  }

  /** The steps of one call until it ends. */
  function CallAlone(s: State, id: nat, g: Generator, cwd: string, outcome: Result<string, ExecutionError>, post: Post)
    : Option<State>
  {
    var looked := Then(Step(s, Enter(id, g, cwd), post), LookUp(id), post);
    if looked.None? || looked.value.calls[id].phase.Warm? then looked
    else
      var finished := Then(Then(looked, Spawn(id), post), Finish(id, outcome), post);
      if outcome.Failure? then finished else Then(finished, StoreAndReturn(id), post)
  }

  lemma UpdateTwice<K, V>(m: map<K, V>, k: K, v: V, w: V)
    ensures m[k := v][k := w] == m[k := w]
  {
  }

  lemma {:induction false} LookedUp(s: State, id: nat, g: Generator, cwd: string, post: Post)
    requires id !in s.calls
    ensures var hit := if Ttl(g) == 0 || s.poisoned then None else Lookup(s.entries, CacheKey(g.run, cwd), s.clock);
            var c := Call(g, cwd, s.clock, if hit.Some? then Warm(hit.value) else Missed);
            Then(Step(s, Enter(id, g, cwd), post), LookUp(id), post) == Some(s.(calls := s.calls[id := c]))
  {
    hide Lookup, Ttl;
    var hit := if Ttl(g) == 0 || s.poisoned then None else Lookup(s.entries, CacheKey(g.run, cwd), s.clock);
    UpdateTwice(s.calls, id, Call(g, cwd, s.clock, Started),
                Call(g, cwd, s.clock, if hit.Some? then Warm(hit.value) else Missed));
  }

  lemma {:induction false} Executed(s: State, id: nat, outcome: Result<string, ExecutionError>, post: Post)
    requires id in s.calls && s.calls[id].phase == Missed
    ensures var c := s.calls[id]; var x := Execution(c.g, c.cwd, s.clock, if outcome.Success? then outcome.value else "");
            Then(Step(s, Spawn(id), post), Finish(id, outcome), post) ==
            if outcome.Failure? then Some(s.(calls := s.calls[id := c.(phase := Failed(outcome.error))]))
            else Some(s.(calls := s.calls[id := c.(phase := Computed(x))], log := s.log + {x}))
  {
    var c := s.calls[id];
    var x := Execution(c.g, c.cwd, s.clock, if outcome.Success? then outcome.value else "");
    UpdateTwice(s.calls, id, c.(phase := Running(s.clock)),
                c.(phase := if outcome.Failure? then Failed(outcome.error) else Computed(x)));
  }

  /** Stepped without interruption, a call does what the runner's method promises. */
  lemma {:induction false} CallAloneRuns(s: State, id: nat, g: Generator, cwd: string,
                                         outcome: Result<string, ExecutionError>, post: Post)
    requires id !in s.calls
    ensures var t := CallAlone(s, id, g, cwd, outcome, post);
            && t.Some? && id in t.value.calls
            && t.value.poisoned == s.poisoned
            && var r := Returned(t.value.calls[id].phase, post);
               r.Some? && RunsTo(s.entries, s.poisoned, g, cwd, s.clock, outcome, post, r.value, t.value.entries)
  {
    hide Lookup, Store, Ttl;
    LookedUp(s, id, g, cwd, post);
    var looked := Then(Step(s, Enter(id, g, cwd), post), LookUp(id), post).value;
    if !looked.calls[id].phase.Warm? {
      Executed(looked, id, outcome, post);
    }
  }

  /** A call of `g` runs to the end and then one of `h` reads what it stored. */
  function TwoCalls(g: Generator, h: Generator, out: string): seq<Action> {
    [Enter(0, g, ""), LookUp(0), Spawn(0), Finish(0, Success(out)), StoreAndReturn(0), Enter(1, h, ""), LookUp(1)]
  }

  lemma {:induction false} RunSnoc(s: State, actions: seq<Action>, a: Action, post: Post)
    ensures Run(s, actions + [a], post) == Then(Run(s, actions, post), a, post)
  {
    assert (actions + [a])[..|actions|] == actions;
  }

  /** The state after the call of `g`, which stored its values. */
  function AfterFirst(g: Generator, out: string, post: Post): State {
    var x := Execution(g, "", 0, out);
    State(0, Store(map[], CacheKey(g.run, ""), post(g, out), Ttl(g), 0), false, map[0 := Call(g, "", 0, Cold(x))], {x})
  }

  lemma {:induction false} FirstCallAlone(g: Generator, out: string, post: Post)
    requires Ttl(g) > 0
    ensures CallAlone(INITIAL, 0, g, "", Success(out), post) == Some(AfterFirst(g, out, post))
  {
    hide Ttl, Store;
    LookedUp(INITIAL, 0, g, "", post);
    var looked := State(0, map[], false, map[0 := Call(g, "", 0, Missed)], {});
    assert Then(Step(INITIAL, Enter(0, g, ""), post), LookUp(0), post) == Some(looked);
    Executed(looked, 0, Success(out), post);
    var x := Execution(g, "", 0, out);
    UpdateTwice(map[], 0, Call(g, "", 0, Missed), Call(g, "", 0, Computed(x)));
    UpdateTwice(map[], 0, Call(g, "", 0, Computed(x)), Call(g, "", 0, Cold(x)));
    assert {} + {x} == {x};
  }

  lemma {:induction false} FirstCall(g: Generator, out: string, post: Post)
    requires Ttl(g) > 0
    ensures Run(INITIAL, TwoCalls(g, g, out)[..5], post) == Some(AfterFirst(g, out, post))
  {
    var a := TwoCalls(g, g, out)[..5];
    assert a[..0] == [] && a[..1] == a[..0] + [a[0]] && a[..2] == a[..1] + [a[1]];
    assert a[..3] == a[..2] + [a[2]] && a[..4] == a[..3] + [a[3]] && a == a[..4] + [a[4]];
    FirstCallAlone(g, out, post);
    LookedUp(INITIAL, 0, g, "", post);
    assert Run(INITIAL, [], post) == Some(INITIAL);
    hide Step, Run, AfterFirst;
    RunSnoc(INITIAL, a[..0], a[0], post);
    RunSnoc(INITIAL, a[..1], a[1], post);
    RunSnoc(INITIAL, a[..2], a[2], post);
    RunSnoc(INITIAL, a[..3], a[3], post);
    RunSnoc(INITIAL, a[..4], a[4], post);
  }

  /** Where sharing fails, some run returns warm values that are not the reader's own. */
  lemma {:induction false} WithoutSharingWarmIsForeign(g: Generator, h: Generator, out: string, gens: set<Generator>,
                                                       post: Post)
    requires g in gens && h in gens && g.run == h.run && Ttl(g) > 0 && Ttl(h) > 0
    requires post(g, out) != post(h, out)
    ensures exists s :: Reachable(s, gens, post) && 1 in s.calls && s.calls[1].phase.Warm?
                        && !IsOwn(s.calls[1], s.log, post)
  {
    var a := TwoCalls(g, h, out);
    FirstCall(g, out, post);
    assert a[..5] == TwoCalls(g, g, out)[..5] && a[..6] == a[..5] + [a[5]] && a == a[..6] + [a[6]];
    hide Run;
    RunSnoc(INITIAL, a[..5], a[5], post);
    RunSnoc(INITIAL, a[..6], a[6], post);
    var s := Run(INITIAL, a, post).value;
    assert UsesOnly(a, gens);
    assert Reachable(s, gens, post);
    assert s.calls[1].phase == Warm(post(g, out));
  }

  /** Warm values are always the reader's own parse exactly when cached generators that
      share an argv share their post-processing. */
  lemma {:induction false} WarmValuesAreOwnIffShared(gens: set<Generator>, post: Post)
    ensures WarmValuesAreOwn(gens, post) <==> ShareProcessing(gens, post)
  {
    hide Reachable, IsOwn, Ttl;
    if ShareProcessing(gens, post) {
      forall s, id | Reachable(s, gens, post) && id in s.calls && s.calls[id].phase.Warm?
        ensures IsOwn(s.calls[id], s.log, post)
      {
        SharingMakesWarmOwn(s, gens, post, id);
      }
    } else {
      var g, h, out: string :|
        g in gens && h in gens && g.run == h.run && Ttl(g) > 0 && Ttl(h) > 0 && post(g, out) != post(h, out);
      WithoutSharingWarmIsForeign(g, h, out, gens, post);
    }
  }
}
