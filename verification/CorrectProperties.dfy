/** What a successful correction run returns: for each distinct command its best origin,
    ranked, whatever the order of the rules; and what a failed one reports. */
module CorrectProperties {
  import opened Wrappers
  import opened Sequences
  import opened Text
  import opened Sorting
  import opened Correct

  /** No candidate for the same command has a better origin. */
  ghost predicate IsBestOrigin(x: Correction, cs: seq<Correction>) {
    x in cs && forall y :: y in cs && y.command == x.command ==> OriginLe(x, y)
  }

  /** Candidates with the same origin agree on its description. */
  ghost predicate Coherent(cs: seq<Correction>) {
    forall x, y :: x in cs && y in cs && x.ruleId == y.ruleId ==> x.description == y.description && x.priority == y.priority
  }

  ghost predicate DistinctCommands(cs: seq<Correction>) {
    forall i, j :: 0 <= i < j < |cs| ==> cs[i].command != cs[j].command
  }

  /** The specification of the whole result before it is cut: the best origin of each
      command, once each, in rank order. */
  ghost predicate IsAnswer(all: seq<Correction>, cs: seq<Correction>) {
    && Sorted(all, ByPriority)
    && DistinctCommands(all)
    && (forall x :: x in all ==> IsBestOrigin(x, cs))
    && (forall x :: IsBestOrigin(x, cs) ==> x in all)
  }

  // ----- dropping adjacent duplicates

  /** What dropping adjacent duplicates of a sorted sequence keeps. */
  ghost predicate Keeps(kept: seq<Correction>, cs: seq<Correction>) {
    && DistinctCommands(kept)
    && (cs != [] ==> kept != [] && kept[|kept| - 1].command == cs[|cs| - 1].command)
    && (forall x :: x in kept ==> IsBestOrigin(x, cs))
    && (forall y :: y in cs ==> exists i :: 0 <= i < |kept| && kept[i].command == y.command)
  }

  /** Among sorted candidates, a command that differs from the last is new. */
  lemma {:induction false} NewCommand(cs: seq<Correction>, z: Correction)
    requires Sorted(cs + [z], ByCommand) && cs != [] && cs[|cs| - 1].command != z.command
    ensures forall y :: y in cs ==> y.command != z.command
  {
    forall i | 0 <= i < |cs| ensures cs[i].command != z.command {
      assert (cs + [z])[i] == cs[i] && (cs + [z])[|cs| - 1] == cs[|cs| - 1] && (cs + [z])[|cs|] == z;
      if cs[i].command == z.command {
        StrLeTotal(cs[i].command, cs[|cs| - 1].command);
      }
    }
  }

  lemma {:induction false} KeepSame(kept: seq<Correction>, cs: seq<Correction>, z: Correction)
    requires Keeps(kept, cs) && Sorted(cs + [z], ByCommand) && cs != [] && cs[|cs| - 1].command == z.command
    ensures Keeps(kept, cs + [z])
  {
    hide OriginLe, StrLe;
    forall x, y | x in kept && y in cs + [z] && y.command == x.command ensures OriginLe(x, y) {
      if y !in cs {
        var i :| 0 <= i < |cs| && cs[i] == x;
        assert (cs + [z])[i] == x && (cs + [z])[|cs|] == z;
        assert ByCommand(x, z);
      }
    }
    forall y | y in cs + [z] ensures exists i :: 0 <= i < |kept| && kept[i].command == y.command {
      if y !in cs {
        assert kept[|kept| - 1].command == y.command;
      }
    }
  }

  lemma {:induction false} KeepNew(kept: seq<Correction>, cs: seq<Correction>, z: Correction)
    requires Keeps(kept, cs) && forall y :: y in cs ==> y.command != z.command
    requires OriginLe(z, z)
    ensures Keeps(kept + [z], cs + [z])
  {
    hide OriginLe;
    var r := kept + [z];
    assert r[|r| - 1] == z && z in cs + [z];
    assert forall x :: x in kept ==> x in cs && x.command != z.command;
    forall x | x in r ensures IsBestOrigin(x, cs + [z]) {
      if x !in kept {
        assert x == z;
      }
    }
    forall y | y in cs + [z] ensures exists i :: 0 <= i < |r| && r[i].command == y.command {
      if y in cs {
        var i :| 0 <= i < |kept| && kept[i].command == y.command;
        assert r[i] == kept[i];
      }
    }
  }

  lemma {:induction false} DedupKeeps(cs: seq<Correction>)
    requires Sorted(cs, ByCommand)
    ensures Keeps(Dedup(cs), cs)
  {
    hide Keeps, ByCommand, OriginLe;
    if cs == [] {
      KeepNone();
    } else if |cs| == 1 {
      KeepNone();
      OriginReflexive(cs[0]);
      KeepNew([], [], cs[0]);
      assert [] + [cs[0]] == cs;
    } else {
      var init, z := cs[..|cs| - 1], cs[|cs| - 1];
      DedupKeeps(init);
      assert init + [z] == cs;
      if z.command == init[|init| - 1].command {
        KeepSame(Dedup(init), init, z);
      } else {
        NewCommand(init, z);
        OriginReflexive(z);
        KeepNew(Dedup(init), init, z);
      }
      LastKept(Dedup(init), init);
    }
  }

  lemma LastKept(kept: seq<Correction>, cs: seq<Correction>)
    requires Keeps(kept, cs) && cs != []
    ensures kept != [] && kept[|kept| - 1].command == cs[|cs| - 1].command
  {
  }

  lemma KeepNone()
    ensures Keeps([], [])
  {
  }

  lemma OriginReflexive(x: Correction)
    ensures OriginLe(x, x)
  {
    StrLeTotal(x.ruleId, x.ruleId);
  }

  // ----- the pipeline

  lemma {:induction false} BestOriginOfSame(x: Correction, cs: seq<Correction>, ds: seq<Correction>)
    requires forall c :: c in cs <==> c in ds
    ensures IsBestOrigin(x, cs) <==> IsBestOrigin(x, ds)
  {
    hide OriginLe;
  }

  /** Sorting by command, dropping adjacent duplicates and sorting by priority leaves the
      best origin of each command. */
  lemma {:induction false} PipelineIsAnswer(cs: seq<Correction>)
    requires Coherent(cs)
    ensures IsAnswer(Pipeline(cs), cs)
  {
    hide StableSort, Dedup, ByCommand, ByPriority, OriginLe;
    OrdersAreTotal();
    var sorted := StableSort(cs, ByCommand);
    SortPermutes(cs, ByCommand);
    SortSorts(cs, ByCommand);
    SameElements(sorted, cs);
    DedupKeeps(sorted);
    var kept := Dedup(sorted);
    SortPermutes(kept, ByPriority);
    SortSorts(kept, ByPriority);
    SameElements(Pipeline(cs), kept);
    CommandsStayDistinct(kept, Pipeline(cs));
    forall x ensures IsBestOrigin(x, cs) <==> x in Pipeline(cs) {
      BestOriginOfSame(x, cs, sorted);
      KeptIffBest(kept, sorted, x);
    }
  }

  lemma {:induction false} KeptIffBest(kept: seq<Correction>, cs: seq<Correction>, x: Correction)
    requires Keeps(kept, cs) && Coherent(cs)
    ensures x in kept <==> IsBestOrigin(x, cs)
  {
    if IsBestOrigin(x, cs) {
      var i :| 0 <= i < |kept| && kept[i].command == x.command;
      var y := kept[i];
      assert IsBestOrigin(y, cs);
      assert OriginLe(x, y) && OriginLe(y, x);
      StrLeTotal(x.ruleId, y.ruleId);
    }
  }

  lemma {:induction false} CommandsStayDistinct(s: seq<Correction>, t: seq<Correction>)
    requires DistinctCommands(s) && multiset(s) == multiset(t)
    ensures DistinctCommands(t)
  {
    assert NoDuplicates(s);
    NoDuplicatesPermuted(s, t);
    SameElements(s, t);
    forall i, j | 0 <= i < j < |t| ensures t[i].command != t[j].command {
      assert t[i] in s && t[j] in s && t[i] != t[j];
    }
  }

  /** The specification has one solution. */
  lemma {:induction false} AnswerIsUnique(a: seq<Correction>, b: seq<Correction>, cs: seq<Correction>,
                                          ds: seq<Correction>)
    requires IsAnswer(a, cs) && IsAnswer(b, ds) && Coherent(cs)
    requires forall c :: c in cs <==> c in ds
    ensures a == b
  {
    hide ByPriority, OriginLe;
    OrdersAreTotal();
    forall x ensures x in a <==> x in b {
      BestOriginOfSame(x, cs, ds);
    }
    assert NoDuplicates(a) && NoDuplicates(b);
    SameElementsSameMultiset(a, b);
    assert Antisymmetric(a, ByPriority);
    SortedUnique(a, b, ByPriority);
  }

  // ----- over the rules

  ghost predicate UniqueIds(rules: seq<Rule>) {
    forall i, j :: 0 <= i < j < |rules| ==> rules[i].id != rules[j].id
  }

  lemma {:induction false} ProposalsName(r: Rule, commands: seq<string>, original: string)
    ensures forall c :: c in Proposals(r, commands, original) <==>
              c.ruleId == r.id && c.description == r.description && c.priority == r.priority
              && c.command in commands && c.command != original && c.command != ""
    decreases |commands|
  {
    if commands == [] {
    } else {
      ProposalsName(r, commands[..|commands| - 1], original);
      assert commands == commands[..|commands| - 1] + [commands[|commands| - 1]];
    }
  }

  /** Gathering succeeds iff every rule does, and collects what the rules propose. */
  lemma {:induction false} GatherIs(rules: seq<Rule>, ctx: Context, h: Host)
    ensures Gather(rules, ctx, h).Success? <==> forall r :: r in rules ==> ProposalsOf(r, ctx, h).Success?
    ensures Gather(rules, ctx, h).Success? ==>
              forall c :: c in Gather(rules, ctx, h).value <==>
                exists r :: r in rules && c in ProposalsOf(r, ctx, h).value
    decreases |rules|
  {
    hide ProposalsOf;
    if rules == [] {
    } else {
      GatherIs(rules[..|rules| - 1], ctx, h);
      assert rules == rules[..|rules| - 1] + [rules[|rules| - 1]];
    }
  }

  lemma {:induction false} GatheredIsCoherent(rules: seq<Rule>, ctx: Context, h: Host)
    requires UniqueIds(rules) && Gather(rules, ctx, h).Success?
    ensures Coherent(Gather(rules, ctx, h).value)
  {
    hide CommandsOf, Proposals, Gather;
    var cs := Gather(rules, ctx, h).value;
    GatherIs(rules, ctx, h);
    forall x, y | x in cs && y in cs && x.ruleId == y.ruleId
      ensures x.description == y.description && x.priority == y.priority
    {
      var r :| r in rules && x in ProposalsOf(r, ctx, h).value;
      var s :| s in rules && y in ProposalsOf(s, ctx, h).value;
      ProposalsName(r, CommandsOf(r, ctx, h).value, Normalized(ctx.script));
      ProposalsName(s, CommandsOf(s, ctx, h).value, Normalized(ctx.script));
    }
  }

  /** A successful run with unique rule ids returns the first `limit` of the ranked best
      origins of what the rules propose, and those are pinned down by their specification. */
  lemma {:induction false} CorrectedIsTopOrigins(rules: seq<Rule>, ctx: Context, h: Host, limit: nat)
    requires UniqueIds(rules) && Corrected(rules, ctx, h, limit).Success?
    ensures Gather(rules, ctx, h).Success?
    ensures exists all ::
              && IsAnswer(all, Gather(rules, ctx, h).value)
              && Corrected(rules, ctx, h, limit).value == Truncate(all, limit)
              && forall other :: IsAnswer(other, Gather(rules, ctx, h).value) ==> other == all
  {
    hide IsAnswer, Gather, Pipeline, Coherent;
    var cs := Gather(rules, ctx, h).value;
    GatheredIsCoherent(rules, ctx, h);
    PipelineIsAnswer(cs);
    forall other | IsAnswer(other, cs) ensures other == Pipeline(cs) {
      AnswerIsUnique(other, Pipeline(cs), cs, cs);
    }
  }

  /** Reordering the rules changes neither whether the run succeeds nor its result. */
  lemma {:induction false} RuleOrderDoesNotMatter(rules: seq<Rule>, rules': seq<Rule>, ctx: Context, h: Host,
                                                  limit: nat)
    requires UniqueIds(rules) && multiset(rules) == multiset(rules')
    ensures Corrected(rules, ctx, h, limit).Success? <==> Corrected(rules', ctx, h, limit).Success?
    ensures Corrected(rules, ctx, h, limit).Success? ==>
              Corrected(rules, ctx, h, limit) == Corrected(rules', ctx, h, limit)
  {
    hide IsAnswer, Gather, Pipeline, Coherent, ProposalsOf;
    SameElements(rules, rules');
    GatherIs(rules, ctx, h);
    GatherIs(rules', ctx, h);
    if Gather(rules, ctx, h).Success? {
      var cs, ds := Gather(rules, ctx, h).value, Gather(rules', ctx, h).value;
      GatheredIsCoherent(rules, ctx, h);
      SameCoherent(cs, ds);
      PipelineIsAnswer(cs);
      PipelineIsAnswer(ds);
      AnswerIsUnique(Pipeline(cs), Pipeline(ds), cs, ds);
    }
  }

  lemma SameCoherent(cs: seq<Correction>, ds: seq<Correction>)
    requires Coherent(cs) && forall c :: c in cs <==> c in ds
    ensures Coherent(ds)
  {
  }

  // ----- errors

  function Patterns(r: Rule): set<string> {
    (if r.match_.Some? && r.match_.value.scriptRegex.Some? then {r.match_.value.scriptRegex.value} else {})
    + (if r.match_.Some? && r.match_.value.stderrRegex.Some? then {r.match_.value.stderrRegex.value} else {})
    + (if r.rewrite.Some? && r.rewrite.value.RegexReplace? then {r.rewrite.value.pattern} else {})
  }

  /** The error names the rule and what is wrong with it. */
  predicate Blames(e: Error, r: Rule, h: Host) {
    match e
    case InvalidRegex(id, pattern) => id == r.id && !r.native && pattern in Patterns(r) && !h.compiles(pattern)
    case UnknownNativeRule(id) => id == r.id && r.native && id !in {"no_command", "subcommand_typo"}
  }

  lemma {:induction false} RuleBlamesItself(r: Rule, ctx: Context, h: Host)
    requires CommandsOf(r, ctx, h).Failure?
    ensures Blames(CommandsOf(r, ctx, h).error, r, h)
  {
    hide SplitWhitespace, Join, Position, Contains;
  }

  lemma {:induction false} GatherStops(rules: seq<Rule>, ctx: Context, h: Host) returns (i: nat)
    requires Gather(rules, ctx, h).Failure?
    ensures i < |rules| && CommandsOf(rules[i], ctx, h) == Failure(Gather(rules, ctx, h).error)
    ensures forall j :: 0 <= j < i ==> CommandsOf(rules[j], ctx, h).Success?
    decreases |rules|
  {
    hide CommandsOf, Proposals;
    var init := rules[..|rules| - 1];
    if Gather(init, ctx, h).Failure? {
      i := GatherStops(init, ctx, h);
    } else {
      i := |rules| - 1;
      GatherIs(init, ctx, h);
      forall j | 0 <= j < i ensures CommandsOf(rules[j], ctx, h).Success? {
        assert rules[j] == init[j] && ProposalsOf(init[j], ctx, h).Success?;
      }
    }
  }

  /** A run fails with the error of the first rule that fails, and that names the rule and
      its pattern that does not compile, or the native rule that does not exist. */
  lemma {:induction false} ErrorBlamesFirstFailure(rules: seq<Rule>, ctx: Context, h: Host, limit: nat)
    requires Corrected(rules, ctx, h, limit).Failure?
    ensures exists i :: 0 <= i < |rules|
                        && CommandsOf(rules[i], ctx, h) == Failure(Corrected(rules, ctx, h, limit).error)
                        && Blames(Corrected(rules, ctx, h, limit).error, rules[i], h)
                        && forall j :: 0 <= j < i ==> CommandsOf(rules[j], ctx, h).Success?
  {
    hide Gather, CommandsOf, Pipeline, Blames;
    var i := GatherStops(rules, ctx, h);
    RuleBlamesItself(rules[i], ctx, h);
  }

  /** A smaller limit gives a prefix. */
  lemma {:induction false} SmallerLimitIsPrefix(rules: seq<Rule>, ctx: Context, h: Host, small: nat, large: nat)
    requires small <= large && Corrected(rules, ctx, h, large).Success?
    ensures Corrected(rules, ctx, h, small).Success?
    ensures Corrected(rules, ctx, h, small).value <= Corrected(rules, ctx, h, large).value
  {
    hide Gather, Pipeline;
  }

  /** No result repeats the script or is empty, and each comes from a rule. */
  lemma {:induction false} CorrectionsAreChanges(rules: seq<Rule>, ctx: Context, h: Host, limit: nat)
    requires UniqueIds(rules) && Corrected(rules, ctx, h, limit).Success?
    ensures forall c :: c in Corrected(rules, ctx, h, limit).value ==>
              && c.command != Normalized(ctx.script) && c.command != ""
              && exists r :: r in rules && c.ruleId == r.id && c.priority == r.priority
                             && CommandsOf(r, ctx, h).Success? && c.command in CommandsOf(r, ctx, h).value
  {
    hide Gather, Pipeline, Coherent, CommandsOf, Proposals, OriginLe, ByPriority;
    var cs := Gather(rules, ctx, h).value;
    GatheredIsCoherent(rules, ctx, h);
    PipelineIsAnswer(cs);
    GatherIs(rules, ctx, h);
    forall c | c in Corrected(rules, ctx, h, limit).value
      ensures c.command != Normalized(ctx.script) && c.command != ""
      ensures exists r :: r in rules && c.ruleId == r.id && c.priority == r.priority
                          && CommandsOf(r, ctx, h).Success? && c.command in CommandsOf(r, ctx, h).value
    {
      assert c in Pipeline(cs) && IsBestOrigin(c, cs);
      var r :| r in rules && c in ProposalsOf(r, ctx, h).value;
      ProposalsName(r, CommandsOf(r, ctx, h).value, Normalized(ctx.script));
    }
  }

  // ----- rewriting twice

  lemma {:induction false} PositionIs(toks: seq<string>, t: string, pos: nat)
    requires pos < |toks| && toks[pos] == t && forall j :: 0 <= j < pos ==> toks[j] != t
    ensures Position(toks, t) == pos
  {
  }

  /** A corrected script is not corrected again: inserting a flag or replacing a token
      twice is doing it once. */
  lemma {:induction false} RewriteIsIdempotent(id: string, rw: Rewrite, ctx: Context, h: Host)
    requires InsertsWord(rw) && !rw.SwapSubcommand? && ApplyRewrite(id, rw, ctx, h).value != []
    ensures var fixed := ApplyRewrite(id, rw, ctx, h).value[0];
            ApplyRewrite(id, rw, ctx.(script := fixed), h) == Success([])
  {
    hide SplitWhitespace, Join, IsWord, ApplyRewrite, Position;
    var toks := SplitWhitespace(ctx.script);
    RewriteEditsTokens(id, rw, ctx, h);
    var fixed := ApplyRewrite(id, rw, ctx, h).value[0];
    RewriteEditsTokens(id, rw, ctx.(script := fixed), h);
    if rw.InsertFlag? {
      var pos := Position(toks, rw.after);
      PositionIs(Edited(toks, rw).value, rw.after, pos);
    }
  }
}
