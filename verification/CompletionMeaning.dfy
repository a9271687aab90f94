/** What is completed, said in terms of the spec, the query and the host alone: what is a
    candidate, what it inserts, how it scores, and that nothing is left out but what fifty
    better items displace. */
module CompletionMeaning {
  import opened Wrappers
  import opened Sequences
  import opened SpecTypes
  import opened Scanner
  import opened Tokenize
  import opened Text
  import opened Parse
  import opened ParseMeaning
  import opened Complete
  import opened Rank
  import opened Engine
  import Sorting
  import Utf8

  // ----- candidates

  /** The option is in scope, not used up, without conflict and with what it needs. */
  predicate MayCome(state: ParseState, o: Opt) {
    && (o in state.Active().options
        || (o in state.persistentOptions && forall l :: l in state.Active().options ==> l.name != o.name))
    && (o.name.Canonical() in state.seenOptions ==>
          match o.isRepeatable case Flag(on) => on case Max(n) => n > 1)
    && (forall e :: e in o.exclusiveOn ==> e !in state.seenOptions)
    && (forall d :: d in o.dependsOn ==> d in state.seenOptions)
  }

  /** An option is followed by its separator, if it requires one, or a blank, if it takes a value. */
  predicate IsOptionOffer(o: Opt, c: Candidate) {
    var name := o.name.Canonical();
    c == Candidate(if o.args == [] then name else if o.requiresSeparator then name + "=" else name + " ",
                   Some(name), o.description, None, false, false, false, o.name.All())
  }

  predicate IsSubcommandOffer(sub: Subcommand, c: Candidate) {
    var name := sub.name.Canonical();
    c == Candidate(name + " ", Some(name), sub.description, None, false, false, false, sub.name.All())
  }

  predicate IsSuggestionOffer(s: Suggestion, c: Candidate) {
    var name := s.name.Canonical();
    && c.insert == (if s.insertValue.Some? then s.insertValue.value else name)
    && c.display == Some(if s.displayName.Some? then s.displayName.value else name)
    && c.desc == s.description && c.priority == s.priority && c.matchNames == s.name.All()
    && c.dangerous == (s.isDangerous == Some(true)) && c.deprecated == (s.deprecated == Some(true))
    && c.hidden == (s.hidden == Some(true))
  }

  /** A suggestion, an entry of the directory that is being typed, or what the generator gave. */
  ghost predicate IsValueOffer(arg: Arg, q: string, host: Host, c: Candidate) {
    || (exists s :: s in arg.suggestions && IsSuggestionOffer(s, c))
    || (exists e :: ((arg.template == Some(Filepaths) && e in host.list(q, FilesAndDirs)) ||
                     (arg.template == Some(Folders) && e in host.list(q, DirsOnly)))
                    && c == Candidate(e.insert, Some(e.display), None, Some(if e.isDir then 55 else 50),
                                      false, false, false, [e.insert]))
    || (arg.generator.Some? && host.runner.Some? && host.runner.value(arg.generator.value).Some?
        && exists v :: v in host.runner.value(arg.generator.value).value && v != ""
                       && c == Candidate(v, None, None, arg.generator.value.priority, false, false, false, [v]))
  }

  /** Subcommands in their slot, options there and in theirs, and values where one is due. */
  ghost predicate IsOffer(state: ParseState, q: string, host: Host, c: Candidate) {
    || (state.cursor.SubcommandSlot? && exists sub :: sub in state.Active().subcommands && IsSubcommandOffer(sub, c))
    || ((state.cursor.SubcommandSlot? || state.cursor.OptionSlot?) && exists o :: MayCome(state, o) && IsOptionOffer(o, c))
    || (state.cursor.OptionArgument? && state.cursor.opt.args != []
        && IsValueOffer(state.cursor.opt.args[0], q, host, c))
    || (state.cursor.CommandArgument? && IsValueOffer(state.cursor.arg, q, host, c))
  }

  lemma MapHas<A(!new), B>(f: A -> B, s: seq<A>, y: B)
    ensures y in Map(f, s) <==> exists x :: x in s && f(x) == y
  {
    var r := Map(f, s);
    if y in r {
      var i :| 0 <= i < |r| && r[i] == y;
      assert s[i] in s && f(s[i]) == y;
    }
    forall x | x in s && f(x) == y ensures y in r {
      var i :| 0 <= i < |s| && s[i] == x;
      assert r[i] == y;
    }
  }

  lemma {:induction false} OptionsAreOffers(state: ParseState, c: Candidate)
    ensures c in OptionCandidatesOf(state) <==> exists o :: MayCome(state, o) && IsOptionOffer(o, c)
  {
    var local, persistent := state.Active().options, state.persistentOptions;
    var offered := Offered(local, persistent, state.seenOptions);
    forall o ensures o in offered <==> MayCome(state, o) {
      OfferedIff(local, persistent, state.seenOptions, o);
      ValidIs(o, state.seenOptions);
    }
    hide Map, Offered, MayCome;
    MapHas(OptionToCandidate, offered, c);
  }

  lemma ValidIs(o: Opt, seen: set<string>)
    ensures OptionIsValid(o, seen) <==>
            && (o.name.Canonical() in seen ==> match o.isRepeatable case Flag(on) => on case Max(n) => n > 1)
            && (forall e :: e in o.exclusiveOn ==> e !in seen)
            && (forall d :: d in o.dependsOn ==> d in seen)
  {
  }

  lemma {:induction false} SubcommandsAreOffers(subs: seq<Subcommand>, c: Candidate)
    ensures c in Map(SubcommandToCandidate, subs) <==> exists sub :: sub in subs && IsSubcommandOffer(sub, c)
  {
    hide Map;
    MapHas(SubcommandToCandidate, subs, c);
  }

  lemma {:induction false} SuggestionsAreOffers(suggestions: seq<Suggestion>, c: Candidate)
    ensures c in Map(SuggestionToCandidate, suggestions) <==> exists s :: s in suggestions && IsSuggestionOffer(s, c)
  {
    hide Map;
    MapHas(SuggestionToCandidate, suggestions, c);
    forall s ensures IsSuggestionOffer(s, c) <==> SuggestionToCandidate(s) == c {
    }
  }

  lemma {:induction false} EntriesAreOffers(arg: Arg, state: ParseState, q: string, host: Host, c: Candidate)
    requires state.inlineValuePrefix.Some? ==> q == state.inlineValuePrefix.value
    ensures c in TemplateCandidates(arg.template, state, q, host) <==>
            exists e :: ((arg.template == Some(Filepaths) && e in host.list(q, FilesAndDirs)) ||
                         (arg.template == Some(Folders) && e in host.list(q, DirsOnly)))
                        && c == Candidate(e.insert, Some(e.display), None, Some(if e.isDir then 55 else 50),
                                          false, false, false, [e.insert])
  {
    hide Map;
    MapHas(EntryToCandidate, host.list(q, FilesAndDirs), c);
    MapHas(EntryToCandidate, host.list(q, DirsOnly), c);
  }

  lemma {:induction false} ValuesAreOffers(g: Generator, run: Generator -> Option<seq<string>>, c: Candidate)
    ensures c in GeneratorCandidates(g, run) <==>
            run(g).Some? && exists v :: v in run(g).value && v != ""
                                        && c == Candidate(v, None, None, g.priority, false, false, false, [v])
  {
    hide Map, Filter;
    if run(g).Some? {
      MapHas(v => ValueToCandidate(v, g.priority), Filter(v => v != "", run(g).value), c);
    }
  }

  lemma {:induction false} ArgsAreOffers(arg: Arg, state: ParseState, q: string, host: Host, c: Candidate)
    requires state.inlineValuePrefix.Some? ==> q == state.inlineValuePrefix.value
    ensures c in ArgCandidatesOf(arg, state, q, host) <==> IsValueOffer(arg, q, host, c)
  {
    SuggestionsAreOffers(arg.suggestions, c);
    EntriesAreOffers(arg, state, q, host, c);
    if arg.generator.Some? && host.runner.Some? {
      ValuesAreOffers(arg.generator.value, host.runner.value, c);
    }
    hide Map, TemplateCandidates, GeneratorCandidates, IsSuggestionOffer;
  }

  /** The candidates are exactly the offers. */
  lemma {:induction false} CollectedIff(state: ParseState, q: string, host: Host, c: Candidate)
    requires state.inlineValuePrefix.Some? ==> q == state.inlineValuePrefix.value
    ensures c in Collected(state, q, host) <==> IsOffer(state, q, host, c)
  {
    hide Map, OptionCandidatesOf, ArgCandidatesOf, IsValueOffer, MayCome, IsOptionOffer, IsSubcommandOffer,
      SubcommandToCandidate;
    match state.cursor
    case SubcommandSlot =>
      SubcommandsAreOffers(state.Active().subcommands, c);
      OptionsAreOffers(state, c);
    case OptionSlot =>
      OptionsAreOffers(state, c);
    case OptionArgument(opt) =>
      if opt.args != [] {
        ArgsAreOffers(opt.args[0], state, q, host, c);
      }
    case CommandArgument(arg) =>
      ArgsAreOffers(arg, state, q, host, c);
    case Empty =>
  }

  // ----- scores

  /** The names that the query is matched against. */
  function Matched(c: Candidate): seq<string> {
    if c.matchNames == [] then [c.insert] else c.matchNames
  }

  /** The query can be read off a name by leaving characters out. */
  ghost predicate MatchesSome(names: seq<string>, q: string) {
    exists i, e :: 0 <= i < |names| && Embeds(e, q, names[i])
  }

  /** An empty query shows all but hidden candidates; another shows what it matches, and of
      hidden ones only what it names in full. */
  ghost predicate IsShown(c: Candidate, q: string) {
    if c.hidden then q != "" && q in Matched(c) else q == "" || MatchesSome(Matched(c), q)
  }

  /** A full match earns 300 thousandths, the start of a name 225, as does an empty query, and
      anything else 120. */
  predicate Earns(names: seq<string>, q: string, merit: nat) {
    merit == if q == "" then 225
             else if q in names then 300
             else if exists i :: 0 <= i < |names| && q <= names[i] then 225
             else 120
  }

  /** A priority, of 50 where none is given, counts five times; the score is at most 1000. */
  ghost predicate IsItemOf(x: CompletionItem, c: Candidate, q: string) {
    && x.insert == c.insert
    && x.display == (if c.display.Some? then c.display.value else c.insert)
    && x.desc == c.desc && x.dangerous == c.dangerous && x.deprecated == c.deprecated
    && exists merit :: Earns(Matched(c), q, merit)
                       && var raw := 5 * (if c.priority.Some? then c.priority.value else 50) + merit;
                          x.score == if raw <= 1000 then raw else 1000
  }

  /** By score, then fewer bytes, then the lower text. */
  predicate Precedes(x: CompletionItem, y: CompletionItem) {
    || x.score > y.score
    || (x.score == y.score && Utf8.Len(x.insert) < Utf8.Len(y.insert))
    || (x.score == y.score && Utf8.Len(x.insert) == Utf8.Len(y.insert) && StrLe(x.insert, y.insert))
  }

  lemma {:induction false} MatchesSomeIff(names: seq<string>, q: string)
    ensures MatchesSome(names, q) <==> exists i :: 0 <= i < |names| && Subsequence(q, names[i])
  {
    hide Embeds, Subsequence;
    forall i | 0 <= i < |names| ensures Subsequence(q, names[i]) <==> exists e :: Embeds(e, q, names[i]) {
      GreedyIsComplete(q, names[i]);
    }
  }

  lemma {:induction false} NameInFullMatches(names: seq<string>, q: string)
    requires q in names
    ensures MatchesSome(names, q)
  {
    hide Embeds, Subsequence;
    var i :| 0 <= i < |names| && names[i] == q;
    PrefixIsSubsequence(q, names[i]);
    MatchesSomeIff(names, q);
  }

  lemma {:induction false} QualityIs(c: Candidate, q: string)
    ensures var b := BestQuality(c, q);
            && (b.Some? <==> q == "" || MatchesSome(Matched(c), q))
            && (b.Some? ==> Earns(Matched(c), q, b.value.Weight()))
            && (b == Some(Exact) <==> q != "" && q in Matched(c))
  {
    BestIsBest(Matched(c), q);
    MatchesSomeIff(Matched(c), q);
    hide Subsequence, BestOf, MatchesSome;
  }

  lemma {:induction false} ScoreIs(c: Candidate, q: string)
    ensures var r := ScoreCandidate(c, q); (r.Some? <==> IsShown(c, q)) && (r.Some? ==> IsItemOf(r.value, c, q))
  {
    QualityIs(c, q);
    if q in Matched(c) {
      NameInFullMatches(Matched(c), q);
    }
    hide BestQuality, MatchesSome, Earns;
  }

  /** A better match outranks a worse one of the same priority, unless both are capped. */
  lemma {:induction false} BetterMatchScoresHigher(x: CompletionItem, c: Candidate, y: CompletionItem, d: Candidate,
                                                   q: string)
    requires IsItemOf(x, c, q) && IsItemOf(y, d, q) && c.priority == d.priority && q != ""
    requires q in Matched(c) && q !in Matched(d)
    ensures x.score > y.score || x.score == 1000
  {
  }

  lemma {:induction false} SurvivorsAre(cs: seq<Candidate>, q: string, x: CompletionItem)
    ensures x in Survivors(cs, q) <==> exists c :: c in cs && ScoreCandidate(c, q) == Some(x)
  {
    hide ScoreCandidate;
    if cs == [] {
    } else {
      SurvivorsAre(cs[1..], q, x);
      assert cs == [cs[0]] + cs[1..];
    }
  }

  /** The items returned for some candidates, in order, and what they leave out. */
  ghost predicate AreTopItems(items: seq<CompletionItem>, cs: iset<Candidate>, q: string, n: nat) {
    && |items| <= n
    && (forall i, j :: 0 <= i < j < |items| ==> Precedes(items[i], items[j]))
    && (forall x :: x in items ==> exists c :: c in cs && IsShown(c, q) && IsItemOf(x, c, q))
    && (forall c :: c in cs && IsShown(c, q) ==> exists x :: IsItemOf(x, c, q) && IsInOrDisplaced(items, x, n))
  }

  /** The item is there, or all places are taken by items that rank no later. */
  ghost predicate IsInOrDisplaced(items: seq<CompletionItem>, x: CompletionItem, n: nat) {
    x in items || (|items| == n && forall y :: y in items ==> Precedes(y, x))
  }

  lemma PrecedesIsRanking(x: CompletionItem, y: CompletionItem)
    ensures Precedes(x, y) <==> RanksBefore(x, y)
  {
  }

  lemma {:induction false} RankedAreTop(cs: seq<Candidate>, q: string, n: nat)
    ensures AreTopItems(Ranked(cs, q, n), (iset c | c in cs), q, n)
  {
    hide Ranked, Survivors, RanksBefore, Precedes, ScoreCandidate, IsShown, IsItemOf;
    var items := Ranked(cs, q, n);
    RankedIsTop(cs, q, n);
    var all :| IsArrangement(all, cs, q) && items == Truncate(all, n)
               && forall i, j :: 0 <= i < |items| <= j < |all| ==> RanksBefore(items[i], all[j]);
    Sorting.SameElements(all, Survivors(cs, q));
    forall i, j | 0 <= i < j < |items| ensures Precedes(items[i], items[j]) {
      assert items[i] == all[i] && items[j] == all[j];
      PrecedesIsRanking(items[i], items[j]);
    }
    forall x | x in items ensures exists c :: c in cs && IsShown(c, q) && IsItemOf(x, c, q) {
      SurvivorsAre(cs, q, x);
      var c :| c in cs && ScoreCandidate(c, q) == Some(x);
      ScoreIs(c, q);
    }
    forall c | c in cs && IsShown(c, q) ensures exists x :: IsItemOf(x, c, q) && IsInOrDisplaced(items, x, n) {
      ScoreIs(c, q);
      var x := ScoreCandidate(c, q).value;
      SurvivorsAre(cs, q, x);
      ShownIsInOrDisplaced(items, all, x, n);
    }
  }

  lemma {:induction false} ShownIsInOrDisplaced(items: seq<CompletionItem>, all: seq<CompletionItem>, x: CompletionItem,
                                                n: nat)
    requires x in all && items == Truncate(all, n)
    requires forall i, j :: 0 <= i < |items| <= j < |all| ==> RanksBefore(items[i], all[j])
    ensures IsInOrDisplaced(items, x, n)
  {
    hide RanksBefore, Precedes;
    var j :| 0 <= j < |all| && all[j] == x;
    if j < |items| {
      assert items[j] == x;
    } else {
      forall y | y in items ensures Precedes(y, x) {
        var i :| 0 <= i < |items| && items[i] == y;
        PrecedesIsRanking(items[i], all[j]);
      }
    }
  }

  // ----- end to end

  /** The text after the first equals sign of a query with a dash, or the whole query. */
  ghost predicate IsEffective(query: string, q: string) {
    if query != "" && query[0] == '-' && '=' in query
    then exists eq :: IsFirstEquals(query, eq) && q == query[eq + 1..]
    else q == query
  }

  lemma {:induction false} EffectiveIs(spec: Subcommand, committed: seq<Token>, query: string)
    ensures var state := Parsed(spec, committed, query); var q := EffectiveQuery(state, query);
            IsEffective(query, q) && (state.inlineValuePrefix.Some? ==> q == state.inlineValuePrefix.value)
  {
    hide Run, ClassifyCursor, InlineValueOf;
    InlineValueIs(query);
  }

  /** What is completed are the best fifty of the offers that the query shows: every offer has
      its item, unless fifty items rank no later. */
  lemma {:induction false} ItemsAreTheOffers(spec: Subcommand, committed: seq<Token>, query: string, host: Host)
    ensures var state := Parsed(spec, committed, query);
            exists q :: IsEffective(query, q) &&
                        AreTopItems(CompletedFrom(spec, committed, query, host), (iset c | IsOffer(state, q, host, c)), q, 50)
  {
    hide Parsed, Collected, Ranked, AreTopItems, IsOffer, IsEffective, EffectiveQuery;
    var state := Parsed(spec, committed, query);
    var q := EffectiveQuery(state, query);
    EffectiveIs(spec, committed, query);
    var cs := Collected(state, q, host);
    RankedAreTop(cs, q, DEFAULT_TOP_N);
    forall c ensures c in cs <==> IsOffer(state, q, host, c) {
      CollectedIff(state, q, host, c);
    }
    assert (iset c | c in cs) == iset c | IsOffer(state, q, host, c);
  }

  /** From the line: what `TokenizedIs` says is committed and typed decides what is completed. */
  lemma {:induction false} LineIsCompleted(spec: Subcommand, line: string, cursor: nat, host: Host)
    ensures var r := Tokenized(line, cursor); var state := Parsed(spec, r.Committed(), r.query);
            exists q :: IsEffective(r.query, q) &&
                        AreTopItems(CompletedLine(spec, line, cursor, host), (iset c | IsOffer(state, q, host, c)), q, 50)
  {
    hide Parsed, CompletedFrom, AreTopItems, IsOffer, IsEffective, Tokenized;
    var r := Tokenized(line, cursor);
    ItemsAreTheOffers(spec, r.Committed(), r.query, host);
  }

  /** So in the subcommand slot every subcommand that the query matches is completed to its
      name and a blank. */
  lemma {:induction false} SubcommandsAreCompleted(spec: Subcommand, committed: seq<Token>, query: string, host: Host,
                                                   sub: Subcommand)
    requires var state := Parsed(spec, committed, query); state.cursor.SubcommandSlot? && sub in state.Active().subcommands
    requires query != "" ==> query[0] != '-'
    requires query == "" || MatchesSome(if sub.name.All() == [] then [" "] else sub.name.All(), query)
    ensures var items := CompletedFrom(spec, committed, query, host);
            exists x: CompletionItem :: x.insert == sub.name.Canonical() + " " && x.display == sub.name.Canonical()
                        && x.desc == sub.description && IsInOrDisplaced(items, x, 50)
  {
    hide Parsed, CompletedFrom, MatchesSome, IsInOrDisplaced, Earns;
    var state := Parsed(spec, committed, query);
    var name := sub.name.Canonical();
    var c := Candidate(name + " ", Some(name), sub.description, None, false, false, false, sub.name.All());
    ItemsAreTheOffers(spec, committed, query, host);
    var q :| IsEffective(query, q) &&
             AreTopItems(CompletedFrom(spec, committed, query, host), (iset c | IsOffer(state, q, host, c)), q, 50);
    assert IsSubcommandOffer(sub, c);
    assert IsOffer(state, q, host, c);
    assert "" + " " == " ";
    assert IsShown(c, q);
  }
}
