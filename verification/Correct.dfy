/** The correction engine (crates/core/src/correct/mod.rs). Regular expressions and the
    PATH are parameters. */
module Correct {
  import opened Wrappers
  import opened Sequences
  import opened Text
  import opened SpecTypes
  import opened Sorting
  import opened Native

  datatype Match = Match(
    scriptStartsWith: Option<string>,
    scriptRegex: Option<string>,
    stderrContains: seq<string>,
    stderrRegex: Option<string>,
    exitCodeIn: seq<int>,
    commandExists: Option<string>)

  datatype Rewrite =
    | InsertFlag(after: string, flag: string)
    | ReplaceToken(index: nat, with: string)
    | Prefix(prefix: string)
    | SwapSubcommand(from: string, to: string)
    | RegexReplace(pattern: string, with: string)

  datatype Rule = Rule(
    id: string,
    description: Option<string>,
    priority: U8,
    native: bool,
    match_: Option<Match>,
    rewrite: Option<Rewrite>)

  datatype Context = Context(script: string, stderr: string, exitCode: Option<int>, specs: seq<Subcommand>)

  /** Regular expressions, which may fail to compile, and the commands on the PATH. */
  datatype Host = Host(
    compiles: string -> bool,
    isMatch: (string, string) -> bool,
    replace: (string, string, string) -> string,
    onPath: string -> bool,
    path: seq<string>)

  datatype Error = InvalidRegex(ruleId: string, pattern: string) | UnknownNativeRule(ruleId: string)

  datatype Correction = Correction(command: string, ruleId: string, description: Option<string>, priority: U8)

  const DEFAULT_LIMIT: nat := 5

  // ----- one rule

  function CompiledMatch(id: string, pattern: string, text: string, h: Host): Result<bool, Error> {
    if h.compiles(pattern) then Success(h.isMatch(pattern, text)) else Failure(InvalidRegex(id, pattern))
  }

  /** The conditions in order; an invalid pattern is an error only if it is reached. */
  function Matches(id: string, m: Match, ctx: Context, h: Host): Result<bool, Error> {
    if m.scriptStartsWith.Some? && !(m.scriptStartsWith.value <= ctx.script) then Success(false)
    else
      var script :- if m.scriptRegex.Some? then CompiledMatch(id, m.scriptRegex.value, ctx.script, h) else Success(true);
      if !script then Success(false)
      else if m.stderrContains != [] && !(exists i :: 0 <= i < |m.stderrContains| && Contains(ctx.stderr, m.stderrContains[i]))
      then Success(false)
      else
        var stderr :- if m.stderrRegex.Some? then CompiledMatch(id, m.stderrRegex.value, ctx.stderr, h) else Success(true);
        if !stderr then Success(false)
        else Success(m.exitCodeIn == [] || (ctx.exitCode.Some? && ctx.exitCode.value in m.exitCodeIn))
  }

  function Position(toks: seq<string>, t: string): (r: nat)
    ensures r <= |toks|
    ensures r < |toks| ==> toks[r] == t
    ensures forall j :: 0 <= j < r ==> toks[j] != t
  {
    if toks == [] || toks[0] == t then 0 else 1 + Position(toks[1..], t)
  }

  function ApplyRewrite(id: string, rw: Rewrite, ctx: Context, h: Host): Result<seq<string>, Error> {
    var toks := SplitWhitespace(ctx.script);
    match rw
    case InsertFlag(after, flag) =>
      var pos := Position(toks, after);
      if pos == |toks| || (pos + 1 < |toks| && toks[pos + 1] == flag) then Success([])
      else Success([Join(toks[..pos + 1] + [flag] + toks[pos + 1..])])
    case ReplaceToken(index, with) =>
      if index >= |toks| || toks[index] == with then Success([])
      else Success([Join(toks[index := with])])
    case Prefix(prefix) =>
      if prefix <= ctx.script then Success([]) else Success([prefix + ctx.script])
    case SwapSubcommand(from, to) =>
      var pos := Position(toks, from);
      if pos == |toks| then Success([]) else Success([Join(toks[pos := to])])
    case RegexReplace(pattern, with) =>
      if !h.compiles(pattern) then Failure(InvalidRegex(id, pattern))
      else
        var replaced := h.replace(pattern, ctx.script, with);
        if replaced == ctx.script then Success([]) else Success([replaced])
  }

  function RunNative(id: string, ctx: Context, h: Host): Result<seq<string>, Error> {
    if id == "no_command" then Success(NoCommandOf(ctx.script, h.onPath, h.path))
    else if id == "subcommand_typo" then Success(SubcommandTypoOf(ctx.script, ctx.specs))
    else Failure(UnknownNativeRule(id))
  }

  function CommandsOf(r: Rule, ctx: Context, h: Host): Result<seq<string>, Error> {
    if r.native then RunNative(r.id, ctx, h)
    else
      var holds :- if r.match_.Some? then Matches(r.id, r.match_.value, ctx, h) else Success(true);
      if !holds then Success([])
      else if r.match_.Some? && r.match_.value.commandExists.Some? && !h.onPath(r.match_.value.commandExists.value)
      then Success([])
      else if r.rewrite.Some? then ApplyRewrite(r.id, r.rewrite.value, ctx, h)
      else Success([])
  }

  function Normalized(script: string): string {
    Join(SplitWhitespace(script))
  }

  /** The candidates of a rule: its commands, but neither the normalized script nor the
      empty string. */
  function Proposals(r: Rule, commands: seq<string>, original: string): seq<Correction> {
    if commands == [] then []
    else
      Proposals(r, commands[..|commands| - 1], original) +
      var c := commands[|commands| - 1];
      if c == original || c == "" then [] else [Correction(c, r.id, r.description, r.priority)]
  }

  function ProposalsOf(r: Rule, ctx: Context, h: Host): Result<seq<Correction>, Error> {
    var commands :- CommandsOf(r, ctx, h);
    Success(Proposals(r, commands, Normalized(ctx.script)))
  }

  /** The candidates of all rules, or the first error. */
  function Gather(rules: seq<Rule>, ctx: Context, h: Host): Result<seq<Correction>, Error> {
    if rules == [] then Success([])
    else
      var before :- Gather(rules[..|rules| - 1], ctx, h);
      var last :- ProposalsOf(rules[|rules| - 1], ctx, h);
      Success(before + last)
  }

  // ----- the two orders

  /** By command, and within a command the best origin first. */
  predicate ByCommand(a: Correction, b: Correction) {
    StrLe(a.command, b.command) && (a.command == b.command ==> OriginLe(a, b))
  }

  /** Higher priority, then lower rule id. */
  predicate OriginLe(a: Correction, b: Correction) {
    a.priority > b.priority || (a.priority == b.priority && StrLe(a.ruleId, b.ruleId))
  }

  predicate ByPriority(a: Correction, b: Correction) {
    || a.priority > b.priority
    || (a.priority == b.priority && StrLe(a.ruleId, b.ruleId) &&
        (a.ruleId == b.ruleId ==> StrLe(a.command, b.command)))
  }

  lemma {:induction false} OrdersAreTotal()
    ensures TotalPreorder(ByCommand) && TotalPreorder(ByPriority)
    ensures forall a, b :: ByPriority(a, b) && ByPriority(b, a) ==>
              a.priority == b.priority && a.ruleId == b.ruleId && a.command == b.command
    ensures forall a, b :: OriginLe(a, b) && OriginLe(b, a) ==> a.priority == b.priority && a.ruleId == b.ruleId
  {
    StrLeIsTotalOrder();
    hide StrLe;
  }

  /** `dedup_by`: drops an element whose command is that of the last one kept. */
  function Dedup(cs: seq<Correction>): (r: seq<Correction>)
    ensures cs != [] ==> r != []
  {
    if |cs| < 2 then cs
    else
      var r, last := Dedup(cs[..|cs| - 1]), cs[|cs| - 1];
      if last.command == r[|r| - 1].command then r else r + [last]
  }

  function Pipeline(cs: seq<Correction>): seq<Correction> {
    StableSort(Dedup(StableSort(cs, ByCommand)), ByPriority)
  }

  function Corrected(rules: seq<Rule>, ctx: Context, h: Host, limit: nat): Result<seq<Correction>, Error> {
    var cs :- Gather(rules, ctx, h);
    Success(Truncate(Pipeline(cs), limit))
  }

  // ----- what a rewrite does to the tokens

  /** The tokens that a token-wise rewrite asks for, if it applies: the flag right after the
      first `after`, the token at the index, or the first `from`. */
  function Edited(toks: seq<string>, rw: Rewrite): Option<seq<string>> {
    match rw
    case InsertFlag(after, flag) =>
      var pos := Position(toks, after);
      if pos == |toks| || (pos + 1 < |toks| && toks[pos + 1] == flag) then None
      else Some(toks[..pos + 1] + [flag] + toks[pos + 1..])
    case ReplaceToken(index, with) =>
      if index >= |toks| || toks[index] == with then None else Some(toks[index := with])
    case SwapSubcommand(from, to) =>
      var pos := Position(toks, from);
      if pos == |toks| then None else Some(toks[pos := to])
    case _ => None
  }

  predicate InsertsWord(rw: Rewrite) {
    match rw
    case InsertFlag(_, flag) => IsWord(flag)
    case ReplaceToken(_, with) => IsWord(with)
    case SwapSubcommand(_, to) => IsWord(to)
    case _ => false
  }

  /** Splitting the rewritten script gives exactly the edited tokens. */
  lemma {:induction false} RewriteEditsTokens(id: string, rw: Rewrite, ctx: Context, h: Host)
    requires InsertsWord(rw)
    ensures var edited := Edited(SplitWhitespace(ctx.script), rw); var r := ApplyRewrite(id, rw, ctx, h);
            && r.Success?
            && (r.value == [] <==> edited == None)
            && (r.value != [] ==> |r.value| == 1 && SplitWhitespace(r.value[0]) == edited.value)
  {
    hide SplitWhitespace, Join, IsWord, Position;
    var toks := SplitWhitespace(ctx.script);
    SplitYieldsWords(ctx.script);
    var edited := Edited(toks, rw);
    if edited.Some? {
      var word := if rw.InsertFlag? then rw.flag else if rw.ReplaceToken? then rw.with else rw.to;
      forall k | 0 <= k < |edited.value| ensures IsWord(edited.value[k]) {
        assert edited.value[k] == word || edited.value[k] in toks;
      }
      SplitJoin(edited.value);
    }
  }

  // ----- the program

  method FindToken(toks: seq<string>, t: string) returns (pos: nat)
    ensures pos == Position(toks, t)
  {
    pos := 0;
    while pos < |toks| && toks[pos] != t
      invariant pos <= |toks| && Position(toks, t) == pos + Position(toks[pos..], t)
    {
      assert toks[pos..][1..] == toks[pos + 1..];
      pos := pos + 1;
    }
  }

  /** `apply_rewrite`: edits the tokens in place and joins them. */
  method RewriteScript(id: string, rw: Rewrite, ctx: Context, h: Host) returns (r: Result<seq<string>, Error>)
    ensures r == ApplyRewrite(id, rw, ctx, h)
    ensures InsertsWord(rw) ==>
              var edited := Edited(SplitWhitespace(ctx.script), rw);
              && r.Success?
              && (r.value == [] <==> edited == None)
              && (r.value != [] ==> |r.value| == 1 && SplitWhitespace(r.value[0]) == edited.value)
  {
    hide SplitWhitespace, Join, InsertsWord, Edited;
    if InsertsWord(rw) {
      RewriteEditsTokens(id, rw, ctx, h);
    }
    var toks := SplitWhitespace(ctx.script);
    match rw
    case InsertFlag(after, flag) =>
      var pos := FindToken(toks, after);
      if pos == |toks| || (pos + 1 < |toks| && toks[pos + 1] == flag) {
        return Success([]);
      }
      toks := toks[..pos + 1] + [flag] + toks[pos + 1..];
      return Success([Join(toks)]);
    case ReplaceToken(index, with) =>
      if index >= |toks| || toks[index] == with {
        return Success([]);
      }
      toks := toks[index := with];
      return Success([Join(toks)]);
    case Prefix(prefix) =>
      if prefix <= ctx.script {
        return Success([]);
      }
      return Success([prefix + ctx.script]);
    case SwapSubcommand(from, to) =>
      var pos := FindToken(toks, from);
      if pos == |toks| {
        return Success([]);
      }
      toks := toks[pos := to];
      return Success([Join(toks)]);
    case RegexReplace(pattern, with) =>
      if !h.compiles(pattern) {
        return Failure(InvalidRegex(id, pattern));
      }
      var replaced := h.replace(pattern, ctx.script, with);
      return Success(if replaced == ctx.script then [] else [replaced]);
  }

  /** The commands of one rule, native or not. */
  method EvaluateRule(r: Rule, ctx: Context, h: Host) returns (commands: Result<seq<string>, Error>)
    ensures commands == CommandsOf(r, ctx, h)
  {
    hide Matches, ApplyRewrite, NoCommandOf, SubcommandTypoOf;
    if r.native {
      if r.id == "no_command" {
        var out := NoCommand(ctx.script, h.onPath, h.path);
        return Success(out);
      }
      if r.id == "subcommand_typo" {
        var out := SubcommandTypo(ctx.script, ctx.specs);
        return Success(out);
      }
      return Failure(UnknownNativeRule(r.id));
    }
    var holds := if r.match_.Some? then Matches(r.id, r.match_.value, ctx, h) else Success(true);
    if holds.Failure? {
      return Failure(holds.error);
    }
    if !holds.value {
      return Success([]);
    }
    if r.match_.Some? && r.match_.value.commandExists.Some? && !h.onPath(r.match_.value.commandExists.value) {
      return Success([]);
    }
    if r.rewrite.None? {
      return Success([]);
    }
    commands := RewriteScript(r.id, r.rewrite.value, ctx, h);
  }

  /** The loop that filters the commands of one rule. */
  method Propose(r: Rule, commands: seq<string>, original: string) returns (cs: seq<Correction>)
    ensures cs == Proposals(r, commands, original)
  {
    cs := [];
    var i := 0;
    assert commands[..0] == [];
    while i < |commands|
      invariant i <= |commands| && cs == Proposals(r, commands[..i], original)
    {
      assert commands[..i + 1][..i] == commands[..i];
      var command := commands[i];
      i := i + 1;
      if command == original || command == "" {
        continue;
      }
      cs := cs + [Correction(command, r.id, r.description, r.priority)];
    }
    assert commands[..|commands|] == commands;
  }

  /** `dedup_by` on the sorted candidates. */
  method DedupByCommand(cs: seq<Correction>) returns (kept: seq<Correction>)
    ensures kept == Dedup(cs)
  {
    kept := [];
    var i := 0;
    assert cs[..0] == [];
    while i < |cs|
      invariant i <= |cs| && kept == Dedup(cs[..i])
    {
      assert cs[..i + 1][..i] == cs[..i];
      if kept == [] || cs[i].command != kept[|kept| - 1].command {
        kept := kept + [cs[i]];
      }
      i := i + 1;
    }
    assert cs[..|cs|] == cs;
  }

  /** `correct_with_limit`. */
  method CorrectWithLimit(rules: seq<Rule>, ctx: Context, h: Host, limit: nat)
    returns (r: Result<seq<Correction>, Error>)
    ensures r == Corrected(rules, ctx, h, limit)
  {
    hide CommandsOf, Proposals, Dedup, StableSort;
    var original := Normalized(ctx.script);
    var candidates: seq<Correction> := [];
    var i := 0;
    assert rules[..0] == [];
    while i < |rules|
      invariant i <= |rules| && Gather(rules[..i], ctx, h) == Success(candidates)
    {
      assert rules[..i + 1][..i] == rules[..i];
      var commands := EvaluateRule(rules[i], ctx, h);
      if commands.Failure? {
        ErrorStays(rules, i + 1, ctx, h);
        return Failure(commands.error);
      }
      var proposals := Propose(rules[i], commands.value, original);
      candidates := candidates + proposals;
      i := i + 1;
    }
    assert rules[..|rules|] == rules;
    candidates := StableSort(candidates, ByCommand);
    candidates := DedupByCommand(candidates);
    candidates := StableSort(candidates, ByPriority);
    return Success(Truncate(candidates, limit));
  }

  /** `correct`. */
  method CorrectByDefault(rules: seq<Rule>, ctx: Context, h: Host) returns (r: Result<seq<Correction>, Error>)
    ensures r == Corrected(rules, ctx, h, DEFAULT_LIMIT)
    ensures r.Success? ==> |r.value| <= 5
  {
    r := CorrectWithLimit(rules, ctx, h, DEFAULT_LIMIT);
  }

  lemma {:induction false} ErrorStays(rules: seq<Rule>, n: nat, ctx: Context, h: Host)
    requires n <= |rules| && Gather(rules[..n], ctx, h).Failure?
    ensures Gather(rules, ctx, h) == Gather(rules[..n], ctx, h)
    decreases |rules|
  {
    hide ProposalsOf;
    if n == |rules| {
      assert rules[..n] == rules;
    } else {
      var init := rules[..|rules| - 1];
      assert init[..n] == rules[..n];
      ErrorStays(init, n, ctx, h);
    }
  }
}
