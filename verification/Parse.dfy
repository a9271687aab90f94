/** The parse-state machine (crates/core/src/parse.rs). */
module Parse {
  import opened Wrappers
  import opened Sequences
  import opened Text
  import opened SpecTypes
  import opened Scanner
  import Utf8

  datatype CursorKind =
    | SubcommandSlot
    | OptionSlot
    | OptionArgument(opt: Opt)
    | CommandArgument(arg: Arg)
    | Empty

  datatype ParseState = ParseState(
    commandPath: seq<Subcommand>,
    seenOptions: set<string>,
    persistentOptions: seq<Opt>,
    argIndex: nat,
    cursor: CursorKind,
    inlineValuePrefix: Option<string>,
    root: Subcommand)
  {
    /** The deepest resolved node. */
    function Active(): Subcommand {
      if commandPath == [] then root else Last(commandPath)
    }
  }

  // ----- lookups

  function CollectPersistent(opts: seq<Opt>): seq<Opt> {
    if opts == [] then []
    else (if opts[0].isPersistent then [opts[0]] else []) + CollectPersistent(opts[1..])
  }

  /** The directives of the deepest node that declares any. */
  function ActiveDirectives(path: seq<Subcommand>): Option<ParserDirectives> {
    if path == [] then None
    else if Last(path).parserDirectives.Some? then Last(path).parserDirectives
    else ActiveDirectives(path[..|path| - 1])
  }

  function FindSubcommand(nodes: seq<Subcommand>, text: string): (r: Option<Subcommand>)
    ensures r.Some? ==> r.value in nodes && text in r.value.name.All()
    ensures r.None? ==> forall s :: s in nodes ==> text !in s.name.All()
  {
    if nodes == [] then None
    else if text in nodes[0].name.All() then Some(nodes[0])
    else FindSubcommand(nodes[1..], text)
  }

  function FindOption(opts: seq<Opt>, form: string): (r: Option<Opt>)
    ensures r.Some? ==> r.value in opts && form in r.value.name.All()
    ensures r.None? ==> forall o :: o in opts ==> form !in o.name.All()
  {
    if opts == [] then None
    else if form in opts[0].name.All() then Some(opts[0])
    else FindOption(opts[1..], form)
  }

  function LookupOption(node: Subcommand, persistent: seq<Opt>, form: string): Option<Opt> {
    var local := FindOption(node.options, form);
    if local.Some? then local else FindOption(persistent, form)
  }

  /** The first subcommand that answers to the text is found, or none if none does. */
  lemma {:induction false} SubcommandFoundIsFirst(nodes: seq<Subcommand>, text: string, i: nat)
    requires i <= |nodes| && (i < |nodes| ==> text in nodes[i].name.All())
    requires forall j :: 0 <= j < i ==> text !in nodes[j].name.All()
    ensures FindSubcommand(nodes, text) == if i < |nodes| then Some(nodes[i]) else None
  {
    if i == 0 {
    } else {
      SubcommandFoundIsFirst(nodes[1..], text, i - 1);
    }
  }

  /** The first option that answers to the form is found, or none if none does. */
  lemma {:induction false} OptionFoundIsFirst(opts: seq<Opt>, form: string, i: nat)
    requires i <= |opts| && (i < |opts| ==> form in opts[i].name.All())
    requires forall j :: 0 <= j < i ==> form !in opts[j].name.All()
    ensures FindOption(opts, form) == if i < |opts| then Some(opts[i]) else None
  {
    if i == 0 {
    } else {
      OptionFoundIsFirst(opts[1..], form, i - 1);
    }
  }

  /** What an option token resolves to is the first option that answers to the form, the
      options of the node before the inherited ones; and if none answers, nothing. */
  lemma {:induction false} LookupFindsFirst(node: Subcommand, persistent: seq<Opt>, form: string, i: nat)
    requires var opts := node.options + persistent;
             i <= |opts| && (i < |opts| ==> form in opts[i].name.All())
             && forall j :: 0 <= j < i ==> form !in opts[j].name.All()
    ensures var opts := node.options + persistent;
            LookupOption(node, persistent, form) == if i < |opts| then Some(opts[i]) else None
  {
    hide FindOption;
    var opts, n := node.options + persistent, |node.options|;
    forall j | 0 <= j < n ensures opts[j] == node.options[j] {
    }
    forall j | 0 <= j < |persistent| ensures opts[n + j] == persistent[j] {
    }
    if i < n {
      OptionFoundIsFirst(node.options, form, i);
    } else if i < |opts| {
      OptionFoundIsFirst(persistent, form, i - n);
    }
  }

  /** The flag and the value on the two sides of the first separator, in the order
      they are declared, that occurs in the text. */
  function SplitInline(text: string, separators: seq<string>): Option<(string, string)> {
    if separators == [] then None
    else
      var sep := separators[0];
      var pos := Find(text, sep);
      if sep == " " || sep == "" || pos.None? || !("-" <= text) then SplitInline(text, separators[1..])
      else Some((text[..pos.value], text[pos.value + |sep|..]))
  }

  /** A separator that an inline value may follow, where it occurs in the text. */
  predicate Separates(sep: string, text: string) {
    sep != " " && sep != "" && Contains(text, sep)
  }

  /** The first separator to occur is the k-th, and the text is split where it first does. */
  predicate IsSplitAt(text: string, separators: seq<string>, k: nat, flag: string, value: string) {
    && k < |separators| && Separates(separators[k], text)
    && (forall j :: 0 <= j < k ==> !Separates(separators[j], text))
    && text == flag + separators[k] + value
    && (forall i :: 0 <= i < |flag| ==> !OccursAt(text, separators[k], i))
  }

  /** A split at one of the later separators, where the first one does not occur. */
  lemma {:induction false} SplitLater(text: string, separators: seq<string>, k: nat, flag: string, value: string)
    requires separators != [] && !Separates(separators[0], text)
    requires IsSplitAt(text, separators[1..], k, flag, value)
    ensures IsSplitAt(text, separators, k + 1, flag, value)
  {
    hide Separates, OccursAt;
    assert separators[k + 1] == separators[1..][k];
    forall j | 0 <= j < k + 1 ensures !Separates(separators[j], text) {
      assert j > 0 ==> separators[j] == separators[1..][j - 1];
    }
  }

  lemma {:induction false} SplitFirst(text: string, separators: seq<string>)
    requires separators != [] && Separates(separators[0], text) && "-" <= text
    ensures var r := SplitInline(text, separators);
            r.Some? && IsSplitAt(text, separators, 0, r.value.0, r.value.1)
  {
    hide Find, Contains;
    var sep := separators[0];
    var pos := Find(text, sep).value;
    assert text[pos..][..|sep|] == sep;
    assert text == text[..pos] + sep + text[pos + |sep|..];
  }

  lemma {:induction false} SplitAtFirst(text: string, separators: seq<string>)
    ensures var r := SplitInline(text, separators);
            r.Some? ==> "-" <= text && exists k :: IsSplitAt(text, separators, k, r.value.0, r.value.1)
  {
    if separators == [] {
    } else if Separates(separators[0], text) && "-" <= text {
      SplitFirst(text, separators);
    } else {
      SplitAtFirst(text, separators[1..]);
      var r := SplitInline(text, separators[1..]);
      hide IsSplitAt;
      if r.Some? {
        var k :| IsSplitAt(text, separators[1..], k, r.value.0, r.value.1);
        SplitLater(text, separators, k, r.value.0, r.value.1);
      }
    }
  }

  lemma {:induction false} SplitIfSeparated(text: string, separators: seq<string>, k: nat)
    requires "-" <= text && k < |separators| && Separates(separators[k], text)
    ensures SplitInline(text, separators).Some?
    decreases k
  {
    if Separates(separators[0], text) {
      SplitFirst(text, separators);
    } else {
      hide IsSplitAt;
      SplitIfSeparated(text, separators[1..], k - 1);
    }
  }

  /** A text is split iff it looks like an option and some usable separator occurs in it;
      the first such separator, where it first occurs, stands between the two parts. */
  lemma {:induction false} SplitInlineIs(text: string, separators: seq<string>)
    ensures SplitInline(text, separators).Some? <==>
            "-" <= text && exists k :: 0 <= k < |separators| && Separates(separators[k], text)
    ensures var r := SplitInline(text, separators);
            r.Some? ==> exists k :: 0 <= k < |separators| && IsSplitAt(text, separators, k, r.value.0, r.value.1)
  {
    hide SplitInline, Separates;
    SplitAtFirst(text, separators);
    forall k | 0 <= k < |separators| && "-" <= text && Separates(separators[k], text)
      ensures SplitInline(text, separators).Some?
    {
      SplitIfSeparated(text, separators, k);
    }
  }

  function InlineValueOf(query: string): Option<string> {
    if !("-" <= query) then None
    else
      var eq := Find(query, "=");
      if eq.Some? then Some(query[eq.value + 1..]) else None
  }

  function AdvanceArgIndex(node: Subcommand, i: nat): nat {
    if i < |node.args| && node.args[i].isVariadic then i else i + 1
  }

  // ----- consuming one option token

  /** What an option token changes: the seen names and the option awaiting a value. */
  datatype Flags = Flags(seen: set<string>, pending: Option<Opt>)

  function Chaining(directives: Option<ParserDirectives>): bool {
    directives.Some? && directives.value.flagsArePosixNoncompliant
  }

  function Separators(directives: Option<ParserDirectives>): seq<string> {
    if directives.Some? then directives.value.optionArgSeparators else []
  }

  function OptionsFirst(directives: Option<ParserDirectives>): bool {
    directives.Some? && directives.value.optionsMustPrecedeArguments
  }

  /** `-xyz`; the length is counted in bytes. */
  predicate IsCluster(directives: Option<ParserDirectives>, text: string) {
    Chaining(directives) && "-" <= text && !("--" <= text) && Utf8.Len(text) > 2
  }

  function See(f: Flags, opt: Opt): Flags {
    f.(seen := f.seen + {opt.name.Canonical()})
  }

  /** One flag of a cluster; only the last may await a value. */
  function ConsumeFlag(node: Subcommand, persistent: seq<Opt>, c: char, last: bool, f: Flags): Flags {
    var opt := LookupOption(node, persistent, ['-', c]);
    if opt.None? then f
    else if last && opt.value.args != [] then See(f, opt.value).(pending := opt)
    else See(f, opt.value)
  }

  function ConsumeCluster(node: Subcommand, persistent: seq<Opt>, chars: string, f: Flags): Flags {
    if chars == "" then f
    else ConsumeCluster(node, persistent, chars[1..], ConsumeFlag(node, persistent, chars[0], |chars| == 1, f))
  }

  function ConsumePlain(node: Subcommand, persistent: seq<Opt>, text: string, f: Flags): Flags {
    var opt := LookupOption(node, persistent, text);
    if opt.None? then f
    else if opt.value.args != [] && !opt.value.requiresSeparator then See(f, opt.value).(pending := opt)
    else See(f, opt.value)
  }

  function Consume(node: Subcommand, persistent: seq<Opt>, directives: Option<ParserDirectives>, text: string, f: Flags)
    : Flags
  {
    var inline := SplitInline(text, Separators(directives));
    if inline.Some? then
      var opt := LookupOption(node, persistent, inline.value.0);
      if opt.Some? then See(f, opt.value) else f
    else if IsCluster(directives, text) then ConsumeCluster(node, persistent, text[1..], f)
    else ConsumePlain(node, persistent, text, f)
  }

  // ----- one token

  datatype State = State(
    path: seq<Subcommand>,
    persistent: seq<Opt>,
    flags: Flags,
    argIndex: nat,
    positionalStarted: bool)
  {
    function Active(): Subcommand
      requires path != []
    {
      Last(path)
    }
  }

  function Start(root: Subcommand): State {
    State([root], CollectPersistent(root.options), Flags({}, None), 0, false)
  }

  /** What a committed token is taken for. */
  datatype Role = Value | OptionToken | Descent(child: Subcommand) | Positional

  predicate IsOptionLike(text: string) {
    "-" <= text && text != "-" && text != "--"
  }

  function RoleOf(st: State, text: string): Role
    requires st.path != []
  {
    if st.flags.pending.Some? then Value
    else if IsOptionLike(text) && !(OptionsFirst(ActiveDirectives(st.path)) && st.positionalStarted) then OptionToken
    else
      var child := FindSubcommand(st.Active().subcommands, text);
      if !st.positionalStarted && child.Some? then Descent(child.value) else Positional
  }

  function Step(st: State, text: string): (r: State)
    requires st.path != []
    ensures r.path != []
  {
    match RoleOf(st, text)
    case Value => st.(flags := st.flags.(pending := None))
    case OptionToken =>
      st.(flags := Consume(st.Active(), st.persistent, ActiveDirectives(st.path), text, st.flags))
    case Descent(child) =>
      st.(path := st.path + [child], persistent := st.persistent + CollectPersistent(child.options), argIndex := 0)
    case Positional =>
      st.(positionalStarted := true, argIndex := AdvanceArgIndex(st.Active(), st.argIndex))
  }

  function Run(st: State, texts: seq<string>): (r: State)
    requires st.path != []
    ensures r.path != []
    decreases |texts|
  {
    if texts == [] then st else Step(Run(st, texts[..|texts| - 1]), Last(texts))
  }

  // ----- the cursor token

  function CommandArgumentCursor(node: Subcommand, i: nat): Option<CursorKind> {
    if i < |node.args| then Some(CommandArgument(node.args[i]))
    else if node.args != [] && Last(node.args).isVariadic then Some(CommandArgument(Last(node.args)))
    else None
  }

  function ClassifyCursor(st: State, query: string): CursorKind
    requires st.path != []
  {
    var directives := ActiveDirectives(st.path);
    var positional := CommandArgumentCursor(st.Active(), st.argIndex);
    if st.flags.pending.Some? then OptionArgument(st.flags.pending.value)
    else if "-" <= query then
      if OptionsFirst(directives) && st.positionalStarted then positional.GetOr(Empty)
      else
        var eq := Find(query, "=");
        if eq.Some? then
          var opt := LookupOption(st.Active(), st.persistent, query[..eq.value]);
          if opt.Some? && opt.value.args != [] then OptionArgument(opt.value) else OptionSlot
        else OptionSlot
    else if st.Active().subcommands != [] && !st.positionalStarted then SubcommandSlot
    else positional.GetOr(Empty)
  }

  /** The texts of the committed tokens after the command name. */
  function Arguments(committed: seq<Token>): seq<string> {
    if committed == [] then [] else seq(|committed| - 1, i requires 0 <= i < |committed| - 1 => committed[i + 1].text)
  }

  function Parsed(root: Subcommand, committed: seq<Token>, query: string): ParseState {
    var st := Run(Start(root), Arguments(committed));
    ParseState(st.path, st.flags.seen, st.persistent, st.argIndex, ClassifyCursor(st, query), InlineValueOf(query), root)
  }

  // ----- the program

  /** `consume_option`. */
  method ConsumeOption(node: Subcommand, persistent: seq<Opt>, directives: Option<ParserDirectives>, text: string,
                       seen0: set<string>, pending0: Option<Opt>)
    returns (seen: set<string>, pending: Option<Opt>)
    ensures Flags(seen, pending) == Consume(node, persistent, directives, text, Flags(seen0, pending0))
  {
    seen, pending := seen0, pending0;
    var separators := Separators(directives);
    var inline := SplitInline(text, separators);
    if inline.Some? {
      var opt := LookupOption(node, persistent, inline.value.0);
      if opt.Some? {
        seen := seen + {opt.value.name.Canonical()};
      }
      return;
    }
    var isShortCluster := Chaining(directives) && "-" <= text && !("--" <= text) && Utf8.Len(text) > 2;
    if isShortCluster {
      var chars := text[1..];
      var idx := 0;
      while idx < |chars|
        invariant idx <= |chars|
        invariant ConsumeCluster(node, persistent, chars[idx..], Flags(seen, pending)) ==
                  ConsumeCluster(node, persistent, chars, Flags(seen0, pending0))
      {
        var opt := LookupOption(node, persistent, ['-', chars[idx]]);
        assert chars[idx..][1..] == chars[idx + 1..];
        if opt.Some? {
          seen := seen + {opt.value.name.Canonical()};
          var last := idx + 1 == |chars|;
          if last && opt.value.args != [] {
            pending := opt;
          }
        }
        idx := idx + 1;
      }
      return;
    }
    var opt := LookupOption(node, persistent, text);
    if opt.Some? {
      seen := seen + {opt.value.name.Canonical()};
      if opt.value.args != [] && !opt.value.requiresSeparator {
        pending := opt;
      }
    }
  }

  /** `parse`. */
  method ParseTokens(root: Subcommand, committed: seq<Token>, query: string) returns (r: ParseState)
    ensures r == Parsed(root, committed, query)
  {
    var path, seen, persistent := [root], {}, CollectPersistent(root.options);
    var argIndex, positionalStarted := 0, false;
    var pending: Option<Opt> := None;
    ghost var texts := Arguments(committed);
    assert texts[..0] == [] && |texts| == if committed == [] then 0 else |committed| - 1;
    assert Run(Start(root), []) == Start(root);
    hide Arguments, Run, CollectPersistent, Consume, IsOptionLike, ActiveDirectives, OptionsFirst, FindSubcommand,
      AdvanceArgIndex, ClassifyCursor, InlineValueOf, Step;
    var n := 1;
    while n < |committed|
      invariant n == 1 || n <= |committed|
      invariant path != []
      invariant State(path, persistent, Flags(seen, pending), argIndex, positionalStarted) ==
                Run(Start(root), texts[..n - 1])
    {
      var text := committed[n].text;
      Unfold(root, texts, n, committed);
      StepIs(path, persistent, Flags(seen, pending), argIndex, positionalStarted, text);
      n := n + 1;

      if pending.Some? {
        pending := None;
        continue;
      }
      var directives := ActiveDirectives(path);
      if IsOptionLike(text) && !(OptionsFirst(directives) && positionalStarted) {
        seen, pending := ConsumeOption(Last(path), persistent, directives, text, seen, pending);
        continue;
      }
      if !positionalStarted {
        var child := FindSubcommand(Last(path).subcommands, text);
        if child.Some? {
          persistent := persistent + CollectPersistent(child.value.options);
          path := path + [child.value];
          argIndex := 0;
          continue;
        }
      }
      positionalStarted := true;
      argIndex := AdvanceArgIndex(Last(path), argIndex);
    }
    assert texts[..|texts|] == texts;
    var cursor := ClassifyCursor(State(path, persistent, Flags(seen, pending), argIndex, positionalStarted), query);
    return ParseState(path, seen, persistent, argIndex, cursor, InlineValueOf(query), root);
  }

  lemma StepIs(path: seq<Subcommand>, persistent: seq<Opt>, flags: Flags, argIndex: nat, started: bool, text: string)
    requires path != []
    ensures var node, directives := Last(path), ActiveDirectives(path);
            var child := FindSubcommand(node.subcommands, text);
            Step(State(path, persistent, flags, argIndex, started), text) ==
            if flags.pending.Some? then State(path, persistent, Flags(flags.seen, None), argIndex, started)
            else if IsOptionLike(text) && !(OptionsFirst(directives) && started) then
              State(path, persistent, Consume(node, persistent, directives, text, flags), argIndex, started)
            else if !started && child.Some? then
              State(path + [child.value], persistent + CollectPersistent(child.value.options), flags, 0, started)
            else State(path, persistent, flags, AdvanceArgIndex(node, argIndex), true)
  {
  }

  lemma Unfold(root: Subcommand, texts: seq<string>, n: nat, committed: seq<Token>)
    requires 1 <= n < |committed| && texts == Arguments(committed)
    ensures |texts| == |committed| - 1 && texts[n - 1] == committed[n].text
    ensures Run(Start(root), texts[..n]) == Step(Run(Start(root), texts[..n - 1]), committed[n].text)
  {
    assert texts[..n][..n - 1] == texts[..n - 1];
  }
}
