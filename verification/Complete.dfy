/** Candidate collection (crates/core/src/complete.rs). The filesystem and the
    generator runner are parameters. */
module Complete {
  import opened Wrappers
  import opened Sequences
  import opened SpecTypes
  import opened Parse
  import opened ParseInvariants
  import opened Scanner
  import FlagCluster

  datatype Candidate = Candidate(
    insert: string,
    display: Option<string>,
    desc: Option<string>,
    priority: Option<U8>,
    dangerous: bool,
    deprecated: bool,
    hidden: bool,
    matchNames: seq<string>)

  datatype FsKind = FilesAndDirs | DirsOnly

  datatype FsEntry = FsEntry(insert: string, display: string, isDir: bool)

  /** What the host supplies: directory listings and generator runs, which may fail. */
  datatype Host = Host(list: (string, FsKind) -> seq<FsEntry>, runner: Option<Generator -> Option<seq<string>>>)

  // ----- options

  predicate IsRepeatable(opt: Opt) {
    match opt.isRepeatable
    case Flag(b) => b
    case Max(n) => n > 1
  }

  predicate OptionIsValid(opt: Opt, seen: set<string>) {
    && (opt.name.Canonical() in seen ==> IsRepeatable(opt))
    && (forall i :: 0 <= i < |opt.exclusiveOn| ==> opt.exclusiveOn[i] !in seen)
    && (forall i :: 0 <= i < |opt.dependsOn| ==> opt.dependsOn[i] in seen)
  }

  predicate IsShadowed(opt: Opt, local: seq<Opt>) {
    exists i :: 0 <= i < |local| && local[i].name == opt.name
  }

  /** The inherited options that no local option replaces. */
  function Inherited(persistent: seq<Opt>, local: seq<Opt>): (r: seq<Opt>)
    ensures forall o :: o in r <==> o in persistent && !IsShadowed(o, local)
  {
    if persistent == [] then []
    else (if IsShadowed(persistent[0], local) then [] else [persistent[0]]) + Inherited(persistent[1..], local)
  }

  function ValidOnes(opts: seq<Opt>, seen: set<string>): (r: seq<Opt>)
    ensures forall o :: o in r <==> o in opts && OptionIsValid(o, seen)
  {
    if opts == [] then []
    else
      assert opts == Init(opts) + [Last(opts)];
      ValidOnes(Init(opts), seen) + if OptionIsValid(Last(opts), seen) then [Last(opts)] else []
  }

  /** Local options, then inherited ones, as far as they are valid. */
  function Offered(local: seq<Opt>, persistent: seq<Opt>, seen: set<string>): seq<Opt> {
    ValidOnes(local + Inherited(persistent, local), seen)
  }

  function OptionToCandidate(opt: Opt): Candidate {
    var canonical := opt.name.Canonical();
    var insert :=
      if opt.requiresSeparator && opt.args != [] then canonical + "="
      else if opt.args != [] then canonical + " "
      else canonical;
    Candidate(insert, Some(canonical), opt.description, None, false, false, false, opt.name.All())
  }

  function OptionCandidatesOf(state: ParseState): seq<Candidate> {
    Map(OptionToCandidate, Offered(state.Active().options, state.persistentOptions, state.seenOptions))
  }

  function SubcommandToCandidate(sc: Subcommand): Candidate {
    var canonical := sc.name.Canonical();
    Candidate(canonical + " ", Some(canonical), sc.description, None, false, false, false, sc.name.All())
  }

  // ----- arguments

  function SuggestionToCandidate(s: Suggestion): Candidate {
    var canonical := s.name.Canonical();
    Candidate(s.insertValue.GetOr(canonical),
              if s.displayName.Some? then s.displayName else Some(canonical),
              s.description, s.priority, s.isDangerous.GetOr(false), s.deprecated.GetOr(false), s.hidden.GetOr(false),
              s.name.All())
  }

  function EntryToCandidate(e: FsEntry): Candidate {
    Candidate(e.insert, Some(e.display), None, Some(if e.isDir then 55 else 50), false, false, false, [e.insert])
  }

  function ValueToCandidate(value: string, priority: Option<U8>): Candidate {
    Candidate(value, None, None, priority, false, false, false, [value])
  }

  function GeneratorCandidates(g: Generator, run: Generator -> Option<seq<string>>): seq<Candidate> {
    match run(g)
    case None => []
    case Some(values) => Map(v => ValueToCandidate(v, g.priority), Filter(v => v != "", values))
  }

  function TemplateCandidates(t: Option<Template>, state: ParseState, query: string, host: Host): seq<Candidate> {
    var partial :=
      if state.inlineValuePrefix.Some? && state.inlineValuePrefix.value != "" then state.inlineValuePrefix.value
      else query;
    match t
    case Some(Filepaths) => Map(EntryToCandidate, host.list(partial, FilesAndDirs))
    case Some(Folders) => Map(EntryToCandidate, host.list(partial, DirsOnly))
    case _ => []
  }

  function ArgCandidatesOf(arg: Arg, state: ParseState, query: string, host: Host): seq<Candidate> {
    Map(SuggestionToCandidate, arg.suggestions)
    + TemplateCandidates(arg.template, state, query, host)
    + if arg.generator.Some? && host.runner.Some? then GeneratorCandidates(arg.generator.value, host.runner.value)
      else []
  }

  function Collected(state: ParseState, query: string, host: Host): seq<Candidate> {
    match state.cursor
    case SubcommandSlot => Map(SubcommandToCandidate, state.Active().subcommands) + OptionCandidatesOf(state)
    case OptionSlot => OptionCandidatesOf(state)
    case OptionArgument(opt) => if opt.args == [] then [] else ArgCandidatesOf(opt.args[0], state, query, host)
    case CommandArgument(arg) => ArgCandidatesOf(arg, state, query, host)
    case Empty => []
  }

  // ----- the program

  lemma {:induction false} OfferNext(all: seq<Opt>, i: nat, seen: set<string>)
    requires i < |all|
    ensures Map(OptionToCandidate, ValidOnes(all[..i + 1], seen)) ==
            Map(OptionToCandidate, ValidOnes(all[..i], seen)) +
            if OptionIsValid(all[i], seen) then [OptionToCandidate(all[i])] else []
  {
    hide Map, OptionToCandidate, OptionIsValid;
    assert Init(all[..i + 1]) == all[..i];
    MapConcat(OptionToCandidate, ValidOnes(all[..i], seen), [all[i]]);
    MapOne(OptionToCandidate, all[i]);
  }

  /** `option_candidates`. */
  method OptionCandidates(state: ParseState) returns (out: seq<Candidate>)
    ensures out == OptionCandidatesOf(state)
  {
    hide Map, ValidOnes, OptionToCandidate, OptionIsValid;
    var active := state.Active();
    var all := active.options + Inherited(state.persistentOptions, active.options);
    out := [];
    var i := 0;
    NothingValid(state.seenOptions);
    assert all[..0] == [];
    while i < |all|
      invariant i <= |all| && out == Map(OptionToCandidate, ValidOnes(all[..i], state.seenOptions))
    {
      OfferNext(all, i, state.seenOptions);
      var opt := all[i];
      i := i + 1;
      if !OptionIsValid(opt, state.seenOptions) {
        continue;
      }
      out := out + [OptionToCandidate(opt)];
    }
    assert all[..|all|] == all;
  }

  lemma NothingValid(seen: set<string>)
    ensures Map(OptionToCandidate, ValidOnes([], seen)) == []
  {
  }

  /** The loop over the static suggestions. */
  method StaticCandidates(suggestions: seq<Suggestion>) returns (out: seq<Candidate>)
    ensures out == Map(SuggestionToCandidate, suggestions)
  {
    hide Map, SuggestionToCandidate;
    out := [];
    var i := 0;
    while i < |suggestions|
      invariant i <= |suggestions| == |Map(SuggestionToCandidate, suggestions)|
      invariant out == Map(SuggestionToCandidate, suggestions)[..i]
    {
      out := out + [SuggestionToCandidate(suggestions[i])];
      i := i + 1;
    }
  }

  /** `arg_candidates`. */
  method ArgCandidates(arg: Arg, state: ParseState, query: string, host: Host) returns (out: seq<Candidate>)
    ensures out == ArgCandidatesOf(arg, state, query, host)
  {
    hide Map, SuggestionToCandidate, TemplateCandidates, GeneratorCandidates;
    out := StaticCandidates(arg.suggestions);
    if arg.template.Some? {
      out := out + TemplateCandidates(arg.template, state, query, host);
    } else {
      NoTemplate(state, query, host);
      assert out + [] == out;
    }
    if arg.generator.Some? && host.runner.Some? {
      out := out + GeneratorCandidates(arg.generator.value, host.runner.value);
    }
  }

  lemma NoTemplate(state: ParseState, query: string, host: Host)
    ensures TemplateCandidates(None, state, query, host) == []
  {
  }

  /** `collect_inner`. */
  method Collect(state: ParseState, query: string, host: Host) returns (out: seq<Candidate>)
    ensures out == Collected(state, query, host)
  {
    match state.cursor
    case SubcommandSlot =>
      var options := OptionCandidates(state);
      out := Map(SubcommandToCandidate, state.Active().subcommands) + options;
    case OptionSlot =>
      out := OptionCandidates(state);
    case OptionArgument(opt) =>
      if opt.args == [] {
        return [];
      }
      out := ArgCandidates(opt.args[0], state, query, host);
    case CommandArgument(arg) =>
      out := ArgCandidates(arg, state, query, host);
    case Empty =>
      out := [];
  }

  // ----- what is offered

  lemma OfferedIff(local: seq<Opt>, persistent: seq<Opt>, seen: set<string>, opt: Opt)
    ensures opt in Offered(local, persistent, seen) <==>
            (opt in local || (opt in persistent && forall o :: o in local ==> o.name != opt.name))
            && OptionIsValid(opt, seen)
  {
  }

  // ----- generators and slots

  /** A runner adds candidates at the end, and one whose every run fails adds none. */
  lemma {:induction false} RunnerOnlyAdds(state: ParseState, query: string, host: Host)
    ensures Collected(state, query, host.(runner := None)) <= Collected(state, query, host)
    ensures host.runner.Some? && (forall g :: host.runner.value(g) == None) ==>
              Collected(state, query, host.(runner := None)) == Collected(state, query, host)
  {
    hide Map, SuggestionToCandidate, EntryToCandidate, ValueToCandidate, OptionCandidatesOf;
    var arg := match state.cursor
      case OptionArgument(opt) => if opt.args == [] then None else Some(opt.args[0])
      case CommandArgument(a) => Some(a)
      case _ => None;
    if arg.Some? {
      assert TemplateCandidates(arg.value.template, state, query, host.(runner := None)) ==
             TemplateCandidates(arg.value.template, state, query, host);
    }
  }

  /** After an option that awaits its value only candidates for that value are offered,
      whatever is typed. */
  lemma {:induction false} OnlyValuesAfterAwaiting(root: Subcommand, committed: seq<Token>, query: string, host: Host,
                                                   q: string)
    requires Run(Start(root), Arguments(committed)).flags.pending.Some?
    ensures var opt := Run(Start(root), Arguments(committed)).flags.pending.value;
            var state := Parsed(root, committed, query);
            && opt.args != []
            && InScope(state.commandPath, opt)
            && Collected(state, q, host) == ArgCandidatesOf(opt.args[0], state, q, host)
  {
    hide Run, ArgCandidatesOf, InScope, IsChain, PersistentOf, SeenAreDeclared;
    RunKeepsInvariant(root, Arguments(committed));
  }

  /** Where options must precede arguments, none is offered after the first positional:
      there are only values of the argument at the index, if there is one. */
  lemma {:induction false} NoOptionsAfterPositionals(root: Subcommand, committed: seq<Token>, query: string,
                                                     host: Host, q: string)
    requires var st := Run(Start(root), Arguments(committed));
             st.positionalStarted && OptionsFirst(ActiveDirectives(st.path)) && st.flags.pending.None?
    ensures var state := Parsed(root, committed, query); var args := state.Active().args;
            Collected(state, q, host) ==
            if state.argIndex < |args| then ArgCandidatesOf(args[state.argIndex], state, q, host) else []
  {
    hide Run, ArgCandidatesOf, ActiveDirectives;
    VariadicIsLastReached(root, Arguments(committed));
  }

  // ----- from tokens to what is offered

  /** The token, taken for an option, resolves to `opt`: by the flag before a separator,
      by a flag of a cluster, or whole. */
  predicate Mentions(st: State, text: string, opt: Opt)
    requires st.path != []
  {
    var d := ActiveDirectives(st.path);
    var inline := SplitInline(text, Separators(d));
    if inline.Some? then LookupOption(st.Active(), st.persistent, inline.value.0) == Some(opt)
    else if IsCluster(d, text) then exists i :: 1 <= i < |text| && FlagCluster.Resolve(st, text[i]) == Some(opt)
    else LookupOption(st.Active(), st.persistent, text) == Some(opt)
  }

  lemma {:induction false} ClusterSeesEach(st: State, chars: string, f: Flags, i: nat)
    requires st.path != [] && i < |chars| && FlagCluster.Resolve(st, chars[i]).Some?
    ensures FlagCluster.Resolve(st, chars[i]).value.name.Canonical() in
            ConsumeCluster(st.Active(), st.persistent, chars, f).seen
    decreases i
  {
    hide LookupOption;
    var f' := ConsumeFlag(st.Active(), st.persistent, chars[0], |chars| == 1, f);
    if i == 0 {
      FlagCluster.ClusterSees(st, chars[1..], f');
    } else {
      ClusterSeesEach(st, chars[1..], f', i - 1);
    }
  }

  lemma {:induction false} MentionedIsSeen(st: State, text: string, opt: Opt)
    requires st.path != [] && RoleOf(st, text).OptionToken? && Mentions(st, text, opt)
    ensures opt.name.Canonical() in Step(st, text).flags.seen
  {
    hide LookupOption, SplitInline, ConsumeCluster;
    var d := ActiveDirectives(st.path);
    if SplitInline(text, Separators(d)).None? && IsCluster(d, text) {
      var i :| 1 <= i < |text| && FlagCluster.Resolve(st, text[i]) == Some(opt);
      ClusterSeesEach(st, text[1..], st.flags, i - 1);
    }
  }

  lemma {:induction false} SeenStays(st: State, text: string)
    requires st.path != []
    ensures st.flags.seen <= Step(st, text).flags.seen
  {
    hide LookupOption, SplitInline, ConsumeCluster, IsOptionLike, FindSubcommand;
    FlagCluster.ClusterSees(st, if text == "" then "" else text[1..], st.flags);
  }

  lemma {:induction false} MentionedStaysSeen(root: Subcommand, texts: seq<string>, n: nat, opt: Opt)
    requires n < |texts|
    requires var st := Run(Start(root), texts[..n]); RoleOf(st, texts[n]).OptionToken? && Mentions(st, texts[n], opt)
    ensures opt.name.Canonical() in Run(Start(root), texts).flags.seen
    decreases |texts|
  {
    hide Step, Mentions, RoleOf;
    var init := texts[..|texts| - 1];
    if n == |texts| - 1 {
      MentionedIsSeen(Run(Start(root), init), texts[n], opt);
    } else {
      assert init[..n] == texts[..n];
      MentionedStaysSeen(root, init, n, opt);
      SeenStays(Run(Start(root), init), Last(texts));
    }
  }

  /** Once any form of an option is consumed as an option, no option with its canonical
      name is offered later, unless it may repeat. */
  lemma {:induction false} SeenOptionIsNotOffered(root: Subcommand, committed: seq<Token>, query: string, n: nat,
                                                  opt: Opt, offered: Opt)
    requires n < |Arguments(committed)|
    requires var st := Run(Start(root), Arguments(committed)[..n]); var text := Arguments(committed)[n];
             RoleOf(st, text).OptionToken? && Mentions(st, text, opt)
    requires var state := Parsed(root, committed, query);
             offered in Offered(state.Active().options, state.persistentOptions, state.seenOptions)
    requires offered.name.Canonical() == opt.name.Canonical()
    ensures IsRepeatable(offered)
  {
    hide Run, Mentions, RoleOf, ClassifyCursor;
    MentionedStaysSeen(root, Arguments(committed), n, opt);
    var state := Parsed(root, committed, query);
    OfferedIff(state.Active().options, state.persistentOptions, state.seenOptions, offered);
  }

  /** What is offered belongs to the active node or is a persistent option of a node on
      the path to it. */
  lemma {:induction false} OfferedIsInScope(root: Subcommand, committed: seq<Token>, query: string, offered: Opt)
    requires var state := Parsed(root, committed, query);
             offered in Offered(state.Active().options, state.persistentOptions, state.seenOptions)
    ensures var state := Parsed(root, committed, query);
            && IsChain(root, state.commandPath)
            && (offered in state.Active().options ||
                (offered.isPersistent && IsDeclared(state.commandPath, offered)))
  {
    hide Run, ClassifyCursor, IsChain;
    var state := Parsed(root, committed, query);
    RunKeepsInvariant(root, Arguments(committed));
    OfferedIff(state.Active().options, state.persistentOptions, state.seenOptions, offered);
    PersistentAreDeclared(state.commandPath);
  }
}
