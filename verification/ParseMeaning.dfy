/** What each token of a command line does to the parser, and how the cursor is classified,
    said in terms of the spec and the text alone (crates/core/src/parse.rs). */
module ParseMeaning {
  import opened Wrappers
  import opened Sequences
  import opened Text
  import opened SpecTypes
  import opened Scanner
  import opened Parse
  import opened ParseInvariants
  import FlagCluster
  import Utf8

  // ----- readings of a token

  /** The directives are those of the deepest node that declares any. */
  ghost predicate Governs(d: Option<ParserDirectives>, path: seq<Subcommand>) {
    if d.None? then forall i :: 0 <= i < |path| ==> path[i].parserDirectives.None?
    else exists i :: 0 <= i < |path| && path[i].parserDirectives == d
                     && forall j :: i < j < |path| ==> path[j].parserDirectives.None?
  }

  /** The token is read as an option: nothing awaits a value, it starts with a dash and is
      not a dash or two, and options may still come. */
  predicate IsOptionHere(st: State, d: Option<ParserDirectives>, text: string) {
    && st.flags.pending.None?
    && |text| > 1 && text[0] == '-' && text != "--"
    && !(d.Some? && d.value.optionsMustPrecedeArguments && st.positionalStarted)
  }

  /** A separator that occurs in the text, other than the empty one and the blank. */
  predicate HasSeparator(d: Option<ParserDirectives>, text: string) {
    d.Some? && exists k :: 0 <= k < |d.value.optionArgSeparators| && Separates(d.value.optionArgSeparators[k], text)
  }

  /** One dash, more than one byte after it, and chaining is on. */
  predicate IsChain(d: Option<ParserDirectives>, text: string) {
    && d.Some? && d.value.flagsArePosixNoncompliant
    && |text| > 1 && text[0] == '-' && text[1] != '-' && Utf8.Len(text) > 2
  }

  /** The forms in which a token names options: what stands before the separator, each flag
      of a chain, or the whole. */
  ghost predicate NamesForm(d: Option<ParserDirectives>, text: string, form: string) {
    if HasSeparator(d, text) then
      exists k: nat, value :: IsSplitAt(text, d.value.optionArgSeparators, k, form, value)
    else if IsChain(d, text) then exists i :: 1 <= i < |text| && form == ['-', text[i]]
    else form == text
  }

  /** The token leaves `o` awaiting a value: nothing follows a separator in it, and its last
      flag, or the whole, is `o`, which takes one; the whole may also require a separator. */
  predicate LeavesAwaiting(st: State, d: Option<ParserDirectives>, text: string, o: Opt)
    requires st.path != [] && text != ""
  {
    && !HasSeparator(d, text) && o.args != []
    && if IsChain(d, text) then LookupOption(st.Active(), st.persistent, ['-', Last(text)]) == Some(o)
       else LookupOption(st.Active(), st.persistent, text) == Some(o) && !o.requiresSeparator
  }

  lemma {:induction false} DirectivesGovern(path: seq<Subcommand>)
    ensures Governs(ActiveDirectives(path), path)
  {
    if path == [] {
    } else {
      var init := path[..|path| - 1];
      DirectivesGovern(init);
      assert forall i :: 0 <= i < |init| ==> init[i] == path[i];
      assert Last(path) == path[|path| - 1];
    }
  }

  lemma ChainIsCluster(d: Option<ParserDirectives>, text: string)
    requires |text| > 1 && text[0] == '-'
    ensures IsChain(d, text) <==> IsCluster(d, text)
  {
    hide Utf8.Len;
  }

  lemma {:induction false} SplitIffSeparator(d: Option<ParserDirectives>, text: string)
    requires text != "" && text[0] == '-'
    ensures SplitInline(text, Separators(d)).Some? <==> HasSeparator(d, text)
  {
    hide SplitInline, Separates;
    SplitInlineIs(text, Separators(d));
  }

  // ----- an option token

  lemma {:induction false} ConsumedPending(st: State, text: string, o: Opt)
    requires st.path != [] && IsOptionHere(st, ActiveDirectives(st.path), text)
    ensures var d := ActiveDirectives(st.path);
            Consume(st.Active(), st.persistent, d, text, st.flags).pending == Some(o) <==> LeavesAwaiting(st, d, text, o)
  {
    var d := ActiveDirectives(st.path);
    hide LookupOption, SplitInline, ActiveDirectives, HasSeparator, IsChain, IsCluster, ConsumeCluster;
    SplitIffSeparator(d, text);
    ChainIsCluster(d, text);
    assert Last(text[1..]) == Last(text);
    FlagCluster.ClusterAwaits(st, text[1..], st.flags);
  }

  /** An option token changes nothing but what was seen and what awaits a value; and a value
      is awaited exactly where the token says so. */
  lemma {:induction false} OptionTokenAwaitsIff(st: State, text: string, o: Opt)
    requires st.path != [] && IsOptionHere(st, ActiveDirectives(st.path), text)
    ensures Step(st, text) == st.(flags := Step(st, text).flags)
    ensures Step(st, text).flags.pending == Some(o) <==> LeavesAwaiting(st, ActiveDirectives(st.path), text, o)
  {
    hide Consume, ActiveDirectives, LeavesAwaiting;
    ConsumedPending(st, text, o);
  }

  lemma {:induction false} ClusterSeesIff(st: State, chars: string, f: Flags, name: string)
    requires st.path != []
    ensures name in ConsumeCluster(st.Active(), st.persistent, chars, f).seen <==>
            name in f.seen || exists i, o :: 0 <= i < |chars| && FlagCluster.Resolve(st, chars[i]) == Some(o)
                                             && o.name.Canonical() == name
    decreases |chars|
  {
    if chars == "" {
    } else {
      var f' := ConsumeFlag(st.Active(), st.persistent, chars[0], |chars| == 1, f);
      assert name in f'.seen <==> name in f.seen || (FlagCluster.Resolve(st, chars[0]).Some?
                                                    && FlagCluster.Resolve(st, chars[0]).value.name.Canonical() == name);
      hide ConsumeFlag, FlagCluster.Resolve;
      ClusterSeesIff(st, chars[1..], f', name);
      assert forall i :: 1 <= i < |chars| ==> chars[i] == chars[1..][i - 1];
    }
  }

  /** Some form in the token resolves to an option of that name. */
  ghost predicate NamesOption(st: State, text: string, name: string)
    requires st.path != []
  {
    exists form, o :: NamesForm(ActiveDirectives(st.path), text, form)
                      && LookupOption(st.Active(), st.persistent, form) == Some(o) && o.name.Canonical() == name
  }

  lemma {:induction false} InlineNames(st: State, text: string, name: string)
    requires st.path != [] && IsOptionHere(st, ActiveDirectives(st.path), text)
    requires HasSeparator(ActiveDirectives(st.path), text)
    ensures var d := ActiveDirectives(st.path);
            name in Consume(st.Active(), st.persistent, d, text, st.flags).seen <==>
            name in st.flags.seen || NamesOption(st, text, name)
  {
    var d := ActiveDirectives(st.path);
    hide LookupOption, SplitInline, ActiveDirectives, Separates, IsSplitAt, Find, ConsumeCluster;
    SplitIffSeparator(d, text);
    var flag := SplitInline(text, Separators(d)).value.0;
    SplitInlineIs(text, Separators(d));
    assert NamesForm(d, text, flag);
    forall form | NamesForm(d, text, form) ensures form == flag {
      OneSplit(text, Separators(d), form);
    }
  }

  /** A text is split in one way. */
  lemma {:induction false} OneSplit(text: string, separators: seq<string>, form: string)
    requires SplitInline(text, separators).Some?
    requires exists k: nat, value :: IsSplitAt(text, separators, k, form, value)
    ensures form == SplitInline(text, separators).value.0
  {
    hide SplitInline, Separates;
    var r := SplitInline(text, separators).value;
    SplitInlineIs(text, separators);
    var k: nat, value :| IsSplitAt(text, separators, k, form, value);
    var m :| 0 <= m < |separators| && IsSplitAt(text, separators, m, r.0, r.1);
    SameSplit(text, separators, k, m, form, value, r.0, r.1);
  }

  lemma {:induction false} SameSplit(text: string, separators: seq<string>, k: nat, m: nat, form: string, value: string,
                                     form': string, value': string)
    requires IsSplitAt(text, separators, k, form, value) && IsSplitAt(text, separators, m, form', value')
    ensures k == m && form == form' && value == value'
  {
    hide Separates;
    var sep := separators[k];
    assert k == m;
    OccursAfter(text, form, sep, value);
    OccursAfter(text, form', sep, value');
    assert |form| == |form'|;
    assert form == text[..|form|] == form' && value == text[|form| + |sep|..] == value';
  }

  lemma OccursAfter(text: string, form: string, sep: string, value: string)
    requires text == form + sep + value
    ensures OccursAt(text, sep, |form|)
  {
    assert text[|form|..] == sep + value;
  }

  lemma {:induction false} ChainNames(st: State, text: string, name: string)
    requires st.path != [] && IsOptionHere(st, ActiveDirectives(st.path), text)
    requires !HasSeparator(ActiveDirectives(st.path), text) && IsChain(ActiveDirectives(st.path), text)
    ensures var d := ActiveDirectives(st.path);
            name in Consume(st.Active(), st.persistent, d, text, st.flags).seen <==>
            name in st.flags.seen || NamesOption(st, text, name)
  {
    var d := ActiveDirectives(st.path);
    hide LookupOption, SplitInline, ActiveDirectives, HasSeparator, IsChain, IsCluster, ConsumeCluster;
    SplitIffSeparator(d, text);
    ChainIsCluster(d, text);
    ClusterSeesIff(st, text[1..], st.flags, name);
    forall i, o | 0 <= i < |text[1..]| && FlagCluster.Resolve(st, text[1..][i]) == Some(o) && o.name.Canonical() == name
      ensures NamesOption(st, text, name)
    {
      assert text[1..][i] == text[i + 1] && NamesForm(d, text, ['-', text[i + 1]]);
    }
    if NamesOption(st, text, name) {
      var form, o :| NamesForm(d, text, form) && LookupOption(st.Active(), st.persistent, form) == Some(o)
                     && o.name.Canonical() == name;
      var i :| 1 <= i < |text| && form == ['-', text[i]];
      assert text[1..][i - 1] == text[i];
    }
  }

  /** An option token is seen as the options that it names, and as nothing else. */
  lemma {:induction false} OptionTokenSeesIff(st: State, text: string, name: string)
    requires st.path != [] && IsOptionHere(st, ActiveDirectives(st.path), text)
    ensures name in Step(st, text).flags.seen <==> name in st.flags.seen || NamesOption(st, text, name)
  {
    hide LookupOption, ActiveDirectives, HasSeparator, IsChain, ConsumeCluster, SplitInline, IsCluster;
    var d := ActiveDirectives(st.path);
    if HasSeparator(d, text) {
      InlineNames(st, text, name);
    } else if IsChain(d, text) {
      ChainNames(st, text, name);
    } else {
      SplitIffSeparator(d, text);
      ChainIsCluster(d, text);
      assert NamesForm(d, text, text);
    }
  }

  // ----- the other tokens

  /** The first child that answers to the text. */
  ghost predicate IsFirstChild(node: Subcommand, text: string, child: Subcommand) {
    exists i :: 0 <= i < |node.subcommands| && node.subcommands[i] == child && text in child.name.All()
                && forall j :: 0 <= j < i ==> text !in node.subcommands[j].name.All()
  }

  predicate NamesChild(node: Subcommand, text: string) {
    exists i :: 0 <= i < |node.subcommands| && text in node.subcommands[i].name.All()
  }

  /** A token after an option that awaits a value is that value, and nothing else happens. */
  lemma ValueTokenIs(st: State, text: string)
    requires st.path != [] && st.flags.pending.Some?
    ensures Step(st, text) == st.(flags := Flags(st.flags.seen, None))
  {
  }

  lemma {:induction false} ChildFound(node: Subcommand, text: string, child: Subcommand)
    requires IsFirstChild(node, text, child)
    ensures FindSubcommand(node.subcommands, text) == Some(child)
  {
    var i :| 0 <= i < |node.subcommands| && node.subcommands[i] == child && text in child.name.All()
             && forall j :: 0 <= j < i ==> text !in node.subcommands[j].name.All();
    SubcommandFoundIsFirst(node.subcommands, text, i);
  }

  /** Before any positional, a token that names a child descends to the first such child:
      positionals are counted anew and its persistent options are inherited from then on. */
  lemma {:induction false} ChildTokenIs(st: State, text: string, child: Subcommand)
    requires st.path != [] && st.flags.pending.None? && !IsOptionHere(st, ActiveDirectives(st.path), text)
    requires !st.positionalStarted && IsFirstChild(st.Active(), text, child)
    ensures var t := Step(st, text);
            && t.path == st.path + [child] && t.argIndex == 0
            && t.flags == st.flags && !t.positionalStarted
            && (forall o :: o in t.persistent <==> o in st.persistent || (o in child.options && o.isPersistent))
  {
    hide ActiveDirectives, Consume, CollectPersistent, IsFirstChild;
    ChildFound(st.Active(), text, child);
    CollectedAreDeclared(child.options);
  }

  /** Any other token is a positional, which fills the argument at the index, and leaves the
      index there if the argument is variadic. */
  lemma {:induction false} PositionalTokenIs(st: State, text: string)
    requires st.path != [] && st.flags.pending.None? && !IsOptionHere(st, ActiveDirectives(st.path), text)
    requires st.positionalStarted || !NamesChild(st.Active(), text)
    ensures var args, i := st.Active().args, st.argIndex;
            Step(st, text) ==
            st.(positionalStarted := true, argIndex := if i < |args| && args[i].isVariadic then i else i + 1)
  {
    hide ActiveDirectives, Consume;
  }

  // ----- runs

  lemma {:induction false} LastToken(root: Subcommand, texts: seq<string>)
    requires texts != []
    ensures Run(Start(root), texts) == Step(Run(Start(root), texts[..|texts| - 1]), texts[|texts| - 1])
  {
  }

  /** After a run, an option awaits a value exactly if the last token was read as an option
      and leaves it awaiting; so after `--opt=value` none does, and the next token is no value. */
  lemma {:induction false} RunAwaitsIff(root: Subcommand, texts: seq<string>, o: Opt)
    ensures Run(Start(root), texts).flags.pending == Some(o) <==>
            texts != [] &&
            var st := Run(Start(root), texts[..|texts| - 1]); var d, text := ActiveDirectives(st.path), texts[|texts| - 1];
            IsOptionHere(st, d, text) && LeavesAwaiting(st, d, text, o)
  {
    if texts == [] {
    } else {
      LastToken(root, texts);
      var st, text := Run(Start(root), texts[..|texts| - 1]), texts[|texts| - 1];
      hide Run, ActiveDirectives, LeavesAwaiting;
      if IsOptionHere(st, ActiveDirectives(st.path), text) {
        OptionTokenAwaitsIff(st, text, o);
      } else {
        OtherTokensAwaitNothing(st, text);
      }
    }
  }

  lemma {:induction false} OtherTokensAwaitNothing(st: State, text: string)
    requires st.path != [] && !IsOptionHere(st, ActiveDirectives(st.path), text)
    ensures Step(st, text).flags == Flags(st.flags.seen, None)
  {
    hide ActiveDirectives, Consume, FindSubcommand;
  }

  lemma {:induction false} AfterInlineValueNoValue(root: Subcommand, texts: seq<string>, n: nat)
    requires n + 1 < |texts|
    requires var st := Run(Start(root), texts[..n]);
             IsOptionHere(st, ActiveDirectives(st.path), texts[n]) && HasSeparator(ActiveDirectives(st.path), texts[n])
    ensures var st := Run(Start(root), texts[..n + 1]); st.flags.pending == None && RoleOf(st, texts[n + 1]) != Value
  {
    hide Run, ActiveDirectives, HasSeparator, IsChain;
    var st := Run(Start(root), texts[..n + 1]);
    assert texts[..n + 1][..n] == texts[..n];
    if st.flags.pending.Some? {
      RunAwaitsIff(root, texts[..n + 1], st.flags.pending.value);
    }
  }

  /** After a run, exactly those names were seen that some token, read as an option, names. */
  lemma {:induction false} RunSeesIff(root: Subcommand, texts: seq<string>, name: string)
    ensures name in Run(Start(root), texts).flags.seen <==>
            exists n :: 0 <= n < |texts| && IsNamedAt(root, texts, n, name)
    decreases |texts|
  {
    hide Run, IsNamedAt, Step;
    if texts == [] {
      NothingSeen(root);
    } else {
      var n := |texts| - 1;
      RunSeesIff(root, texts[..n], name);
      NamedByLast(root, texts, name);
      forall i | 0 <= i < n ensures IsNamedAt(root, texts, i, name) <==> IsNamedAt(root, texts[..n], i, name) {
        NamedInPrefix(root, texts, i, name);
      }
      if name in Run(Start(root), texts[..n]).flags.seen {
        var i :| 0 <= i < n && IsNamedAt(root, texts[..n], i, name);
        assert IsNamedAt(root, texts, i, name);
      }
    }
  }

  lemma NothingSeen(root: Subcommand)
    ensures Run(Start(root), []).flags.seen == {}
  {
  }

  lemma {:induction false} NamedInPrefix(root: Subcommand, texts: seq<string>, i: nat, name: string)
    requires i < |texts| - 1
    ensures IsNamedAt(root, texts, i, name) <==> IsNamedAt(root, texts[..|texts| - 1], i, name)
  {
    hide Run, ActiveDirectives, NamesOption, IsOptionHere;
    var init := texts[..|texts| - 1];
    assert init[..i] == texts[..i] && init[i] == texts[i];
  }

  lemma {:induction false} NamedByLast(root: Subcommand, texts: seq<string>, name: string)
    requires texts != []
    ensures name in Run(Start(root), texts).flags.seen <==>
            name in Run(Start(root), texts[..|texts| - 1]).flags.seen || IsNamedAt(root, texts, |texts| - 1, name)
  {
    LastToken(root, texts);
    var st, text := Run(Start(root), texts[..|texts| - 1]), texts[|texts| - 1];
    hide Run, ActiveDirectives, NamesOption, Step;
    if IsOptionHere(st, ActiveDirectives(st.path), text) {
      OptionTokenSeesIff(st, text, name);
    } else {
      OtherTokensAwaitNothing(st, text);
    }
  }

  ghost predicate IsNamedAt(root: Subcommand, texts: seq<string>, n: nat, name: string)
    requires n < |texts|
  {
    var st := Run(Start(root), texts[..n]);
    IsOptionHere(st, ActiveDirectives(st.path), texts[n]) && NamesOption(st, texts[n], name)
  }

  // ----- the cursor

  predicate IsFirstEquals(query: string, eq: int) {
    0 <= eq < |query| && query[eq] == '=' && '=' !in query[..eq]
  }

  lemma {:induction false} FindEquals(query: string)
    ensures var r := Find(query, "=");
            && (r.Some? ==> IsFirstEquals(query, r.value))
            && (r.None? ==> '=' !in query)
  {
    forall k | 0 <= k < |query| && query[k] == '=' ensures OccursAt(query, "=", k) {
      assert query[k..][0] == '=';
    }
    var r := Find(query, "=");
    if r.Some? {
      assert query[r.value..][0] == query[r.value];
    }
  }

  /** What is completed after a run, from the strongest signal to the weakest. */
  lemma {:induction false} CursorIs(root: Subcommand, texts: seq<string>, query: string)
    ensures var st := Run(Start(root), texts); var d, node := ActiveDirectives(st.path), st.Active();
            var options := !(d.Some? && d.value.optionsMustPrecedeArguments && st.positionalStarted);
            var kind := ClassifyCursor(st, query);
            if st.flags.pending.Some? then kind == OptionArgument(st.flags.pending.value)
            else if query != "" && query[0] == '-' && options then
              if exists eq, o :: IsFirstEquals(query, eq) && LookupOption(node, st.persistent, query[..eq]) == Some(o)
                                 && o.args != []
              then kind.OptionArgument? && kind.opt.args != [] && exists eq ::
                     IsFirstEquals(query, eq) && LookupOption(node, st.persistent, query[..eq]) == Some(kind.opt)
              else kind == OptionSlot
            else if !(query != "" && query[0] == '-') && node.subcommands != [] && !st.positionalStarted then
              kind == SubcommandSlot
            else kind == if st.argIndex < |node.args| then CommandArgument(node.args[st.argIndex]) else Empty
  {
    hide Run, LookupOption, ActiveDirectives, Find;
    FindEquals(query);
    VariadicIsLastReached(root, texts);
    assert "-" <= query <==> query != "" && query[0] == '-';
    assert forall eq, k :: IsFirstEquals(query, eq) && IsFirstEquals(query, k) ==> eq == k by {
      OneFirstEquals(query);
    }
  }

  lemma OneFirstEquals(query: string)
    ensures forall eq, k :: IsFirstEquals(query, eq) && IsFirstEquals(query, k) ==> eq == k
    ensures forall eq :: IsFirstEquals(query, eq) ==> '=' in query
  {
  }

  /** What is matched is the text after the first equals sign of a query with a dash, or else
      the whole query. */
  lemma {:induction false} InlineValueIs(query: string)
    ensures var r := InlineValueOf(query);
            && (r.Some? <==> query != "" && query[0] == '-' && '=' in query)
            && (r.Some? ==> exists eq :: IsFirstEquals(query, eq) && r.value == query[eq + 1..])
  {
    hide Find;
    FindEquals(query);
    assert "-" <= query <==> query != "" && query[0] == '-';
  }

  /** The parser starts at the root with its persistent options, reads the committed tokens
      after the first, which names the command, and reports where it ends. */
  lemma {:induction false} ParsedIs(root: Subcommand, committed: seq<Token>, query: string)
    ensures var start, state := Start(root), Parsed(root, committed, query);
            && start.path == [root] && start.flags == Flags({}, None) && start.argIndex == 0 && !start.positionalStarted
            && (forall o :: o in start.persistent <==> o in root.options && o.isPersistent)
            && exists texts: seq<string> ::
                 && |texts| == (if committed == [] then 0 else |committed| - 1)
                 && (forall i :: 0 <= i < |texts| ==> texts[i] == committed[i + 1].text)
                 && var st := Run(start, texts);
                    state == ParseState(st.path, st.flags.seen, st.persistent, st.argIndex, ClassifyCursor(st, query),
                                        InlineValueOf(query), root)
  {
    hide Run, ClassifyCursor, InlineValueOf, CollectPersistent;
    CollectedAreDeclared(root.options);
    var texts := Arguments(committed);
    assert |texts| == if committed == [] then 0 else |committed| - 1;
  }
}
