/** When a correction rule fires, what it proposes, and so what a run returns, said in terms
    of the rules, the failed command and the host alone. */
module CorrectMeaning {
  import opened Wrappers
  import opened Sequences
  import opened Text
  import opened SpecTypes
  import opened Sorting
  import opened Levenshtein
  import opened Native
  import opened Correct
  import opened CorrectProperties

  // ----- native rules

  /** One or two edits away. */
  predicate IsOneOrTwoAway(word: string, name: string) {
    1 <= EditDistance(word, name) <= 2
  }

  /** Nearer, or as near and more frequent, or both alike and lower. */
  predicate ComesBefore(word: string, path: seq<string>, a: string, b: string) {
    var d, e, m, n := EditDistance(word, a), EditDistance(word, b), multiset(path)[a], multiset(path)[b];
    d < e || (d == e && (m > n || (m == n && StrLe(a, b))))
  }

  /** For a command that is on the PATH, or for none, nothing is proposed. For another, each
      name of the listing that is one or two edits away, once, in the first token's place. */
  lemma {:induction false} NoCommandExactly(script: string, onPath: string -> bool, path: seq<string>)
    ensures var toks := SplitWhitespace(script); var out := NoCommandOf(script, onPath, path);
            if toks == [] || onPath(toks[0]) then out == []
            else exists names: seq<string> ::
                   && |names| == |out| && NoDuplicates(names)
                   && (forall i :: 0 <= i < |out| ==> out[i] == Join(toks[0 := names[i]]))
                   && (forall name :: name in names <==> name in path && IsOneOrTwoAway(toks[0], name))
                   && (forall i, j :: 0 <= i < j < |names| ==> ComesBefore(toks[0], path, names[i], names[j]))
  {
    var toks, out := SplitWhitespace(script), NoCommandOf(script, onPath, path);
    hide SplitWhitespace, Join, EditDistance, StrLe, Ranking;
    if toks != [] && !onPath(toks[0]) {
      var ranked := Ranking(toks[0], path);
      RankingIsRanking(toks[0], path);
      var names := seq(|ranked|, i requires 0 <= i < |ranked| => ranked[i].name);
      forall i, j | 0 <= i < j < |names|
        ensures names[i] != names[j] && ComesBefore(toks[0], path, names[i], names[j])
      {
        assert ranked[i] in ranked && ranked[j] in ranked && NearLe(ranked[i], ranked[j]);
      }
      forall name ensures name in names <==> name in path && IsOneOrTwoAway(toks[0], name) {
        NameIsRanked(ranked, names, toks[0], path, name);
      }
    }
  }

  lemma {:induction false} NameIsRanked(ranked: seq<Near>, names: seq<string>, base: string, path: seq<string>,
                                        name: string)
    requires IsRanking(ranked, base, path) && |names| == |ranked|
    requires forall i :: 0 <= i < |ranked| ==> names[i] == ranked[i].name
    ensures name in names <==> name in path && IsOneOrTwoAway(base, name)
  {
    hide EditDistance, NearLe;
    if name in names {
      var i :| 0 <= i < |names| && names[i] == name;
      assert ranked[i] in ranked;
    }
    if name in path && IsOneOrTwoAway(base, name) {
      var x := Near(EditDistance(base, name), multiset(path)[name], name);
      assert x in ranked;
      var i :| 0 <= i < |ranked| && ranked[i] == x;
      assert names[i] == name;
    }
  }

  predicate IsNameAmong(subs: seq<Subcommand>, name: string) {
    exists i :: 0 <= i < |subs| && name in subs[i].name.All()
  }

  /** The spec of the first token is the first that answers to it. */
  ghost predicate IsSpecOf(spec: Subcommand, specs: seq<Subcommand>, name: string) {
    exists i :: 0 <= i < |specs| && specs[i] == spec && name in spec.name.All()
                && forall j :: 0 <= j < i ==> name !in specs[j].name.All()
  }

  lemma {:induction false} KnownIff(subs: seq<Subcommand>, name: string)
    ensures name in KnownNames(subs) <==> IsNameAmong(subs, name)
    decreases |subs|
  {
    if subs == [] {
    } else {
      var init := subs[..|subs| - 1];
      KnownIff(init, name);
      assert forall i :: 0 <= i < |init| ==> init[i] == subs[i];
    }
  }

  lemma {:induction false} SpecOfIs(spec: Subcommand, specs: seq<Subcommand>, name: string)
    ensures SpecFor(specs, name) == Some(spec) <==> IsSpecOf(spec, specs, name)
  {
    if IsSpecOf(spec, specs, name) {
      var i :| 0 <= i < |specs| && specs[i] == spec && name in spec.name.All()
               && forall j :: 0 <= j < i ==> name !in specs[j].name.All();
      SpecFoundIsFirst(specs, name, i);
    }
    if SpecFor(specs, name) == Some(spec) {
      var i := FirstSpec(specs, name);
      SpecFoundIsFirst(specs, name, i);
    }
  }

  lemma {:induction false} FirstSpec(specs: seq<Subcommand>, name: string) returns (i: nat)
    ensures i <= |specs| && (i < |specs| ==> name in specs[i].name.All())
    ensures forall j :: 0 <= j < i ==> name !in specs[j].name.All()
  {
    i := IndexWhere((s: Subcommand) => name in s.name.All(), specs);
  }

  /** The commands that a native rule proposes. */
  ghost predicate NativeProposes(id: string, ctx: Context, h: Host, command: string) {
    var toks := SplitWhitespace(ctx.script);
    || (id == "no_command" && toks != [] && !h.onPath(toks[0]) && exists name ::
          name in h.path && IsOneOrTwoAway(toks[0], name) && command == Join(toks[0 := name]))
    || (id == "subcommand_typo" && |toks| > 1 && exists spec, name ::
          IsSpecOf(spec, ctx.specs, toks[0]) && !IsNameAmong(spec.subcommands, toks[1])
          && IsNameAmong(spec.subcommands, name) && IsOneOrTwoAway(toks[1], name) && command == Join(toks[1 := name]))
  }

  lemma {:induction false} NoCommandProposes(ctx: Context, h: Host, command: string)
    ensures command in NoCommandOf(ctx.script, h.onPath, h.path) <==> NativeProposes("no_command", ctx, h, command)
  {
    hide SplitWhitespace, Join, IsOneOrTwoAway, ComesBefore, NoCommandOf;
    NoCommandExactly(ctx.script, h.onPath, h.path);
    var toks, out := SplitWhitespace(ctx.script), NoCommandOf(ctx.script, h.onPath, h.path);
    if toks != [] && !h.onPath(toks[0]) {
      var names: seq<string> :|
        && |names| == |out| && NoDuplicates(names)
        && (forall i :: 0 <= i < |out| ==> out[i] == Join(toks[0 := names[i]]))
        && (forall name :: name in names <==> name in h.path && IsOneOrTwoAway(toks[0], name));
      if command in out {
        var i :| 0 <= i < |out| && out[i] == command;
        assert names[i] in names;
      }
      if NativeProposes("no_command", ctx, h, command) {
        var name :| name in h.path && IsOneOrTwoAway(toks[0], name) && command == Join(toks[0 := name]);
        var i :| 0 <= i < |names| && names[i] == name;
        assert out[i] == command;
      }
    }
  }

  /** Every known name that is near, nearest first and then by name. */
  ghost predicate AreNearNames(names: seq<string>, sub: string, subs: seq<Subcommand>) {
    && (forall name :: name in names <==> IsNameAmong(subs, name) && IsOneOrTwoAway(sub, name))
    && (forall i, j :: 0 <= i < j < |names| ==>
          var d, e := EditDistance(sub, names[i]), EditDistance(sub, names[j]);
          d < e || (d == e && StrLe(names[i], names[j])))
  }

  ghost predicate IsCloseRanking(ranked: seq<Close>, sub: string, known: seq<string>) {
    && Sorted(ranked, CloseLe)
    && forall x: Close :: x in ranked <==>
         x.name in known && IsNear(sub, x.name) && x.distance == EditDistance(sub, x.name)
  }

  lemma {:induction false} CloseNamesAreNear(ranked: seq<Close>, names: seq<string>, sub: string, subs: seq<Subcommand>)
    requires IsCloseRanking(ranked, sub, KnownNames(subs))
    requires |names| == |ranked| && forall i :: 0 <= i < |ranked| ==> names[i] == ranked[i].name
    ensures AreNearNames(names, sub, subs)
  {
    hide EditDistance, StrLe, KnownNames, IsNameAmong;
    forall i, j | 0 <= i < j < |names|
      ensures var d, e := EditDistance(sub, names[i]), EditDistance(sub, names[j]);
              d < e || (d == e && StrLe(names[i], names[j]))
    {
      assert ranked[i] in ranked && ranked[j] in ranked && CloseLe(ranked[i], ranked[j]);
    }
    forall name ensures name in names <==> IsNameAmong(subs, name) && IsOneOrTwoAway(sub, name) {
      KnownIff(subs, name);
      NameIsClose(ranked, names, sub, KnownNames(subs), name);
    }
  }

  lemma {:induction false} NameIsClose(ranked: seq<Close>, names: seq<string>, sub: string, known: seq<string>,
                                       name: string)
    requires |names| == |ranked| && forall i :: 0 <= i < |ranked| ==> names[i] == ranked[i].name
    requires IsCloseRanking(ranked, sub, known)
    ensures name in names <==> name in known && IsOneOrTwoAway(sub, name)
  {
    hide EditDistance, CloseLe;
    if name in names {
      var i :| 0 <= i < |names| && names[i] == name;
      assert ranked[i] in ranked;
    }
    if name in known && IsOneOrTwoAway(sub, name) {
      var x := Close(EditDistance(sub, name), name);
      assert x in ranked;
      var i :| 0 <= i < |ranked| && ranked[i] == x;
      assert names[i] == name;
    }
  }

  lemma {:induction false} TypoRanking(script: string, specs: seq<Subcommand>, spec: Subcommand)
    returns (ranked: seq<Close>)
    requires |SplitWhitespace(script)| > 1 && SpecFor(specs, SplitWhitespace(script)[0]) == Some(spec)
    requires SplitWhitespace(script)[1] !in KnownNames(spec.subcommands)
    ensures SubcommandTypoOf(script, specs) == WithSubs(SplitWhitespace(script), ranked)
    ensures IsCloseRanking(ranked, SplitWhitespace(script)[1], KnownNames(spec.subcommands))
  {
    hide SplitWhitespace, EditDistance, SpecFor, KnownNames, IsNear, CloseLe, SubcommandTypoOf;
    SubcommandTypoIs(script, specs);
    var toks, known := SplitWhitespace(script), KnownNames(spec.subcommands);
    ranked :| SubcommandTypoOf(script, specs) == WithSubs(toks, ranked) && Sorted(ranked, CloseLe)
              && forall x: Close :: x in ranked <==>
                   x.name in known && IsNear(toks[1], x.name) && x.distance == EditDistance(toks[1], x.name);
  }

  /** For an unknown subcommand of a known command, each name that is one or two edits away
      takes its place. */
  lemma {:induction false} TypoExactly(script: string, specs: seq<Subcommand>, spec: Subcommand)
    requires |SplitWhitespace(script)| > 1 && IsSpecOf(spec, specs, SplitWhitespace(script)[0])
    requires !IsNameAmong(spec.subcommands, SplitWhitespace(script)[1])
    ensures var toks, out := SplitWhitespace(script), SubcommandTypoOf(script, specs);
            exists names: seq<string> ::
              && |names| == |out| && AreNearNames(names, toks[1], spec.subcommands)
              && forall i :: 0 <= i < |out| ==> out[i] == Join(toks[1 := names[i]])
  {
    hide SplitWhitespace, Join, SpecFor, KnownNames, IsSpecOf, IsNameAmong, SubcommandTypoOf, IsCloseRanking,
      AreNearNames;
    var toks := SplitWhitespace(script);
    SpecOfIs(spec, specs, toks[0]);
    KnownIff(spec.subcommands, toks[1]);
    var ranked := TypoRanking(script, specs, spec);
    var names := seq(|ranked|, i requires 0 <= i < |ranked| => ranked[i].name);
    CloseNamesAreNear(ranked, names, toks[1], spec.subcommands);
  }

  lemma {:induction false} TypoProposes(ctx: Context, h: Host, command: string)
    ensures command in SubcommandTypoOf(ctx.script, ctx.specs) <==> NativeProposes("subcommand_typo", ctx, h, command)
  {
    var toks, out := SplitWhitespace(ctx.script), SubcommandTypoOf(ctx.script, ctx.specs);
    if |toks| > 1 {
      var found := SpecFor(ctx.specs, toks[0]);
      hide SplitWhitespace, Join, IsOneOrTwoAway, EditDistance, KnownNames, IsSpecOf, IsNameAmong, SpecFor, CloseTo,
        StableSort;
      if found.Some? {
        SpecOfIs(found.value, ctx.specs, toks[0]);
        KnownIff(found.value.subcommands, toks[1]);
        if !IsNameAmong(found.value.subcommands, toks[1]) {
          TypoExactly(ctx.script, ctx.specs, found.value);
          hide SubcommandTypoOf;
          OnlyOneSpec(ctx, h, command, found.value);
        }
      }
      forall spec | IsSpecOf(spec, ctx.specs, toks[0]) ensures found == Some(spec) {
        SpecOfIs(spec, ctx.specs, toks[0]);
      }
    }
  }

  lemma {:induction false} OnlyOneSpec(ctx: Context, h: Host, command: string, spec: Subcommand)
    requires var toks := SplitWhitespace(ctx.script);
             |toks| > 1 && IsSpecOf(spec, ctx.specs, toks[0]) && !IsNameAmong(spec.subcommands, toks[1])
    ensures command in SubcommandTypoOf(ctx.script, ctx.specs) <==> NativeProposes("subcommand_typo", ctx, h, command)
  {
    var toks, out := SplitWhitespace(ctx.script), SubcommandTypoOf(ctx.script, ctx.specs);
    hide SplitWhitespace, Join, IsOneOrTwoAway, EditDistance, IsSpecOf, IsNameAmong, SubcommandTypoOf;
    TypoExactly(ctx.script, ctx.specs, spec);
    forall other | IsSpecOf(other, ctx.specs, toks[0]) ensures other == spec {
      SpecOfIs(spec, ctx.specs, toks[0]);
      SpecOfIs(other, ctx.specs, toks[0]);
    }
    var names: seq<string> :|
      && |names| == |out| && AreNearNames(names, toks[1], spec.subcommands)
      && forall i :: 0 <= i < |out| ==> out[i] == Join(toks[1 := names[i]]);
    if command in out {
      var i :| 0 <= i < |out| && out[i] == command;
      assert names[i] in names;
    }
    if NativeProposes("subcommand_typo", ctx, h, command) {
      var other, name :|
        IsSpecOf(other, ctx.specs, toks[0]) && !IsNameAmong(other.subcommands, toks[1])
        && IsNameAmong(other.subcommands, name) && IsOneOrTwoAway(toks[1], name) && command == Join(toks[1 := name]);
      var i :| 0 <= i < |names| && names[i] == name;
      assert out[i] == command;
    }
  }

  // ----- declarative rules

  /** The rule's conditions hold of the failed command. */
  predicate Holds(m: Match, ctx: Context, h: Host) {
    && (m.scriptStartsWith.Some? ==> m.scriptStartsWith.value <= ctx.script)
    && (m.scriptRegex.Some? ==> h.isMatch(m.scriptRegex.value, ctx.script))
    && (m.stderrContains == [] || exists i :: 0 <= i < |m.stderrContains| && Contains(ctx.stderr, m.stderrContains[i]))
    && (m.stderrRegex.Some? ==> h.isMatch(m.stderrRegex.value, ctx.stderr))
    && (m.exitCodeIn == [] || (ctx.exitCode.Some? && ctx.exitCode.value in m.exitCodeIn))
    && (m.commandExists.Some? ==> h.onPath(m.commandExists.value))
  }

  predicate IsFirst(toks: seq<string>, t: string, pos: int) {
    0 <= pos < |toks| && toks[pos] == t && t !in toks[..pos]
  }

  /** The rewrite changes the script, to this command. */
  ghost predicate Yields(rw: Rewrite, ctx: Context, h: Host, command: string) {
    var toks := SplitWhitespace(ctx.script);
    match rw
    case InsertFlag(after, flag) =>
      exists pos :: IsFirst(toks, after, pos) && !(pos + 1 < |toks| && toks[pos + 1] == flag)
                    && command == Join(toks[..pos + 1] + [flag] + toks[pos + 1..])
    case ReplaceToken(index, with) => index < |toks| && toks[index] != with && command == Join(toks[index := with])
    case Prefix(prefix) => !(prefix <= ctx.script) && command == prefix + ctx.script
    case SwapSubcommand(from, to) => exists pos :: IsFirst(toks, from, pos) && command == Join(toks[pos := to])
    case RegexReplace(pattern, with) => command != ctx.script && command == h.replace(pattern, ctx.script, with)
  }

  predicate Compiles(r: Rule, h: Host) {
    forall p :: p in Patterns(r) ==> h.compiles(p)
  }

  lemma {:induction false} MatchesIff(id: string, m: Match, ctx: Context, h: Host)
    requires m.scriptRegex.Some? ==> h.compiles(m.scriptRegex.value)
    requires m.stderrRegex.Some? ==> h.compiles(m.stderrRegex.value)
    ensures Matches(id, m, ctx, h).Success?
    ensures Matches(id, m, ctx, h).value && (m.commandExists.Some? ==> h.onPath(m.commandExists.value)) <==> Holds(m, ctx, h)
  {
    hide Contains;
  }

  lemma {:induction false} PositionIff(toks: seq<string>, t: string)
    ensures forall pos :: IsFirst(toks, t, pos) <==> pos == Position(toks, t) < |toks|
  {
    hide Position;
  }

  lemma {:induction false} RewriteIff(id: string, rw: Rewrite, ctx: Context, h: Host, command: string)
    requires rw.RegexReplace? ==> h.compiles(rw.pattern)
    ensures ApplyRewrite(id, rw, ctx, h).Success?
    ensures command in ApplyRewrite(id, rw, ctx, h).value <==> Yields(rw, ctx, h, command)
  {
    hide SplitWhitespace, Join, Position, IsFirst;
    var toks := SplitWhitespace(ctx.script);
    FirstIsIndex();
    match rw
    case InsertFlag(after, flag) =>
      PositionIff(toks, after);
      var pos := Position(toks, after);
      assert pos < |toks| ==> IsFirst(toks, after, pos);
    case SwapSubcommand(from, to) =>
      PositionIff(toks, from);
      var pos := Position(toks, from);
      assert pos < |toks| ==> IsFirst(toks, from, pos);
    case _ =>
  }

  lemma FirstIsIndex()
    ensures forall toks, t, pos :: IsFirst(toks, t, pos) ==> 0 <= pos < |toks|
  {
  }

  /** A declarative rule whose patterns compile proposes a command iff its conditions hold and
      its rewrite yields the command. */
  lemma {:induction false} RuleProposesIff(r: Rule, ctx: Context, h: Host, command: string)
    requires !r.native && Compiles(r, h)
    ensures CommandsOf(r, ctx, h).Success?
    ensures command in CommandsOf(r, ctx, h).value <==>
            (r.match_.Some? ==> Holds(r.match_.value, ctx, h))
            && r.rewrite.Some? && Yields(r.rewrite.value, ctx, h, command)
  {
    PatternsOf(r);
    hide Patterns, Holds, Matches, ApplyRewrite, Yields;
    if r.match_.Some? {
      MatchesIff(r.id, r.match_.value, ctx, h);
      NotOnPath(r.match_.value, ctx, h);
    }
    if r.rewrite.Some? {
      RewriteIff(r.id, r.rewrite.value, ctx, h, command);
    }
  }

  lemma NotOnPath(m: Match, ctx: Context, h: Host)
    ensures Holds(m, ctx, h) ==> (m.commandExists.Some? ==> h.onPath(m.commandExists.value))
  {
  }

  lemma PatternsOf(r: Rule)
    ensures r.match_.Some? && r.match_.value.scriptRegex.Some? ==> r.match_.value.scriptRegex.value in Patterns(r)
    ensures r.match_.Some? && r.match_.value.stderrRegex.Some? ==> r.match_.value.stderrRegex.value in Patterns(r)
    ensures r.rewrite.Some? && r.rewrite.value.RegexReplace? ==> r.rewrite.value.pattern in Patterns(r)
  {
  }

  // ----- runs

  /** What a rule, of either kind, proposes. */
  ghost predicate Proposes(r: Rule, ctx: Context, h: Host, command: string) {
    if r.native then NativeProposes(r.id, ctx, h, command)
    else (r.match_.Some? ==> Holds(r.match_.value, ctx, h))
         && r.rewrite.Some? && Yields(r.rewrite.value, ctx, h, command)
  }

  /** No rule can fail. */
  predicate IsSound(r: Rule, h: Host) {
    if r.native then r.id == "no_command" || r.id == "subcommand_typo" else Compiles(r, h)
  }

  lemma {:induction false} ProposesIff(r: Rule, ctx: Context, h: Host, command: string)
    requires IsSound(r, h)
    ensures CommandsOf(r, ctx, h).Success?
    ensures command in CommandsOf(r, ctx, h).value <==> Proposes(r, ctx, h, command)
  {
    if !r.native {
      RuleProposesIff(r, ctx, h, command);
    } else {
      hide NativeProposes, NoCommandOf, SubcommandTypoOf;
      if r.id == "no_command" {
        NoCommandProposes(ctx, h, command);
      } else {
        assert r.id == "subcommand_typo" && r.id[0] != "no_command"[0];
        TypoProposes(ctx, h, command);
      }
    }
  }

  /** A result: proposed by a rule, a change, and by no rule of higher priority, nor one of
      the same priority and a lower id. */
  ghost predicate IsResult(c: Correction, rules: seq<Rule>, ctx: Context, h: Host) {
    && c.command != "" && c.command != Join(SplitWhitespace(ctx.script))
    && (exists r :: r in rules && Proposes(r, ctx, h, c.command)
                    && c == Correction(c.command, r.id, r.description, r.priority))
    && (forall r :: r in rules && Proposes(r, ctx, h, c.command) ==>
          c.priority > r.priority || (c.priority == r.priority && StrLe(c.ruleId, r.id)))
  }

  /** By priority, then rule id, then command. */
  predicate Precedes(a: Correction, b: Correction) {
    || a.priority > b.priority
    || (a.priority == b.priority && a.ruleId != b.ruleId && StrLe(a.ruleId, b.ruleId))
    || (a.priority == b.priority && a.ruleId == b.ruleId && StrLe(a.command, b.command))
  }

  lemma {:induction false} GatheredIff(rules: seq<Rule>, ctx: Context, h: Host, c: Correction)
    requires forall r :: r in rules ==> IsSound(r, h)
    ensures Gather(rules, ctx, h).Success?
    ensures c in Gather(rules, ctx, h).value <==>
            c.command != "" && c.command != Normalized(ctx.script)
            && exists r :: r in rules && Proposes(r, ctx, h, c.command)
                           && c == Correction(c.command, r.id, r.description, r.priority)
  {
    hide CommandsOf, Proposals, Gather, IsSound, Proposes, Normalized;
    GatherIs(rules, ctx, h);
    forall r | r in rules
      ensures ProposalsOf(r, ctx, h).Success?
      ensures c in ProposalsOf(r, ctx, h).value <==>
              c.command != "" && c.command != Normalized(ctx.script) && Proposes(r, ctx, h, c.command)
              && c == Correction(c.command, r.id, r.description, r.priority)
    {
      ProposesIff(r, ctx, h, c.command);
      ProposalsName(r, CommandsOf(r, ctx, h).value, Normalized(ctx.script));
    }
  }

  lemma {:induction false} BestIsResult(rules: seq<Rule>, ctx: Context, h: Host, c: Correction)
    requires forall r :: r in rules ==> IsSound(r, h)
    ensures Gather(rules, ctx, h).Success?
    ensures IsBestOrigin(c, Gather(rules, ctx, h).value) <==> IsResult(c, rules, ctx, h)
  {
    GatheredIff(rules, ctx, h, c);
    var cs := Gather(rules, ctx, h).value;
    if c in cs {
      NoBetterIff(rules, ctx, h, c);
    }
    hide Gather, IsSound, Proposes, SplitWhitespace, Join, StrLe, OriginLe;
  }

  /** Proposals of one command compare as their rules do. */
  lemma {:induction false} NoBetterIff(rules: seq<Rule>, ctx: Context, h: Host, c: Correction)
    requires forall r :: r in rules ==> IsSound(r, h)
    requires Gather(rules, ctx, h).Success? && c in Gather(rules, ctx, h).value
    ensures (forall y :: y in Gather(rules, ctx, h).value && y.command == c.command ==> OriginLe(c, y)) <==>
            forall r :: r in rules && Proposes(r, ctx, h, c.command) ==>
              c.priority > r.priority || (c.priority == r.priority && StrLe(c.ruleId, r.id))
  {
    var cs := Gather(rules, ctx, h).value;
    hide Gather, IsSound, Proposes, Normalized, StrLe;
    GatheredIff(rules, ctx, h, c);
    if forall y :: y in cs && y.command == c.command ==> OriginLe(c, y) {
      forall r | r in rules && Proposes(r, ctx, h, c.command)
        ensures c.priority > r.priority || (c.priority == r.priority && StrLe(c.ruleId, r.id))
      {
        var y := Correction(c.command, r.id, r.description, r.priority);
        GatheredIff(rules, ctx, h, y);
        assert OriginLe(c, y);
      }
    } else {
      var y :| y in cs && y.command == c.command && !OriginLe(c, y);
      GatheredIff(rules, ctx, h, y);
    }
  }

  /** A run of rules that can not fail returns the first `limit` results: every change that a
      rule proposes, once, from its best origin, in order. */
  lemma {:induction false} CorrectedExactly(rules: seq<Rule>, ctx: Context, h: Host, limit: nat)
    requires UniqueIds(rules) && forall r :: r in rules ==> IsSound(r, h)
    ensures exists all: seq<Correction> ::
              && Corrected(rules, ctx, h, limit) == Success(if limit <= |all| then all[..limit] else all)
              && (forall i, j :: 0 <= i < j < |all| ==> all[i].command != all[j].command && Precedes(all[i], all[j]))
              && (forall c :: c in all <==> IsResult(c, rules, ctx, h))
  {
    GatheredIff(rules, ctx, h, Correction("", "", None, 0));
    var cs := Gather(rules, ctx, h).value;
    hide Gather, IsSound, IsResult, Pipeline, IsBestOrigin, Coherent, StrLe, ByPriority, Precedes;
    GatheredIsCoherent(rules, ctx, h);
    PipelineIsAnswer(cs);
    var all := Pipeline(cs);
    forall c ensures c in all <==> IsResult(c, rules, ctx, h) {
      BestIsResult(rules, ctx, h, c);
    }
    forall i, j | 0 <= i < j < |all| ensures Precedes(all[i], all[j]) {
      PriorityPrecedes(all[i], all[j]);
    }
  }

  lemma PriorityPrecedes(a: Correction, b: Correction)
    requires ByPriority(a, b)
    ensures Precedes(a, b)
  {
  }
}
