/** The composition of the stages (crates/core/src/lib.rs). */
module Engine {
  import opened Wrappers
  import opened Sequences
  import opened SpecTypes
  import opened Scanner
  import opened Tokenize
  import opened TokenizeProperties
  import opened Parse
  import opened ParseInvariants
  import opened Complete
  import opened Rank
  import opened Utf8
  import Sorting

  /** The value after `=` is what is completed, if there is one. */
  function EffectiveQuery(state: ParseState, query: string): string {
    state.inlineValuePrefix.GetOr(query)
  }

  /** What follows from the committed tokens and the query alone. */
  function CompletedFrom(spec: Subcommand, committed: seq<Token>, query: string, host: Host): seq<CompletionItem> {
    var state := Parsed(spec, committed, query);
    var effective := EffectiveQuery(state, query);
    Ranked(Collected(state, effective, host), effective, DEFAULT_TOP_N)
  }

  function CompletedLine(spec: Subcommand, line: string, cursor: nat, host: Host): seq<CompletionItem> {
    var tokens := Tokenized(line, cursor);
    CompletedFrom(spec, tokens.Committed(), tokens.query, host)
  }

  /** `complete_line`, and `complete_line_with_generators` where the host has a runner. */
  method CompleteLine(spec: Subcommand, line: string, cursor: nat, host: Host) returns (items: seq<CompletionItem>)
    ensures items == CompletedLine(spec, line, cursor, host)
  {
    hide Tokenized, Parsed, Collected, Ranked;
    var tokens := TokenizeLine(line, cursor);
    var state := ParseTokens(spec, tokens.Committed(), tokens.query);
    var effective := EffectiveQuery(state, tokens.query);
    var candidates := Collect(state, effective, host);
    items := RankTopN(candidates, effective, DEFAULT_TOP_N);
  }

  /** Text after the cursor does not change the completions, when the cursor edits a token
      or is past the end of every token. */
  lemma {:induction false} CompletionIgnoresTextAfterCursor(spec: Subcommand, line: string, cursor: nat, host: Host)
    requires IsInTokenOrPastAll(line, cursor)
    ensures CompletedLine(spec, line, cursor, host) ==
            CompletedLine(spec, Slice(line, 0, Clamp(line, cursor)), cursor, host)
  {
    hide Tokenized, CompletedFrom, Clamp, Slice;
    TextAfterCursorIsIgnoredIff(line, cursor);
  }

  /** So two lines that agree up to the cursor complete alike, if it is there in both. */
  lemma {:induction false} SamePrefixCompletesAlike(spec: Subcommand, line: string, other: string, cursor: nat,
                                                    host: Host)
    requires IsInTokenOrPastAll(line, cursor) && IsInTokenOrPastAll(other, cursor)
    requires Slice(line, 0, Clamp(line, cursor)) == Slice(other, 0, Clamp(other, cursor))
    ensures CompletedLine(spec, line, cursor, host) == CompletedLine(spec, other, cursor, host)
  {
    hide Tokenized, CompletedLine, Clamp, Slice;
    CompletionIgnoresTextAfterCursor(spec, line, cursor, host);
    CompletionIgnoresTextAfterCursor(spec, other, cursor, host);
  }

  lemma {:induction false} SurvivorsAreCandidates(cs: seq<Candidate>, query: string)
    ensures forall x :: x in Survivors(cs, query) ==> exists c :: c in cs && ScoreCandidate(c, query) == Some(x)
  {
    hide ScoreCandidate;
    if cs == [] {
    } else {
      SurvivorsAreCandidates(cs[1..], query);
      assert cs == [cs[0]] + cs[1..];
    }
  }

  /** Every item is a surviving candidate, at most fifty are returned, and their scores are
      in range and do not increase. */
  lemma {:induction false} ItemsAreRankedCandidates(spec: Subcommand, committed: seq<Token>, query: string, host: Host)
    ensures var items := CompletedFrom(spec, committed, query, host);
            var state := Parsed(spec, committed, query); var q := EffectiveQuery(state, query);
            && |items| <= 50
            && (forall x :: x in items ==> exists c :: c in Collected(state, q, host) && ScoreCandidate(c, q) == Some(x))
            && (forall i :: 0 <= i < |items| ==> items[i].score <= 1000)
            && (forall i, j :: 0 <= i < j < |items| ==> items[i].score >= items[j].score)
  {
    hide Parsed, Collected, ScoreCandidate, Ranked, Survivors;
    var state := Parsed(spec, committed, query);
    var q := EffectiveQuery(state, query);
    var cs := Collected(state, q, host);
    RankedIsTop(cs, q, DEFAULT_TOP_N);
    SurvivorsAreCandidates(cs, q);
    var all :| IsArrangement(all, cs, q) && Ranked(cs, q, DEFAULT_TOP_N) == Truncate(all, DEFAULT_TOP_N);
    Sorting.SameElements(all, Survivors(cs, q));
    var items := CompletedFrom(spec, committed, query, host);
    forall x | x in items ensures x in Survivors(cs, q) {
    }
    forall i, j | 0 <= i < j < |items| ensures items[i].score >= items[j].score {
      assert items[i] == all[i] && items[j] == all[j];
      assert RanksBefore(all[i], all[j]);
    }
  }


  /** End to end, where options or subcommands are completed: every item inserts a
      subcommand of the active node, if it is their slot, or an option of the node or a
      persistent one of the path; and an option whose name was consumed earlier may repeat. */
  lemma {:induction false} ItemsAreAllowed(spec: Subcommand, committed: seq<Token>, query: string, host: Host,
                                           n: nat, opt: Opt, item: CompletionItem)
    requires Parsed(spec, committed, query).cursor in {OptionSlot, SubcommandSlot}
    requires n < |Arguments(committed)|
    requires var st := Run(Start(spec), Arguments(committed)[..n]); var text := Arguments(committed)[n];
             RoleOf(st, text).OptionToken? && Mentions(st, text, opt)
    requires item in CompletedFrom(spec, committed, query, host)
    ensures var state := Parsed(spec, committed, query);
            || (state.cursor == SubcommandSlot && exists sub ::
                  sub in state.Active().subcommands && item.insert == SubcommandToCandidate(sub).insert)
            || exists o ::
                 && item.insert == OptionToCandidate(o).insert
                 && (o in state.Active().options || (o.isPersistent && IsDeclared(state.commandPath, o)))
                 && (o.name.Canonical() == opt.name.Canonical() ==> IsRepeatable(o))
  {
    hide Parsed, Run, Mentions, RoleOf, Offered, CompletedFrom, EffectiveQuery, BestQuality, OptionToCandidate,
      SubcommandToCandidate;
    var state := Parsed(spec, committed, query);
    var q := EffectiveQuery(state, query);
    ItemsAreRankedCandidates(spec, committed, query, host);
    var c :| c in Collected(state, q, host) && ScoreCandidate(c, q) == Some(item);
    var subs := state.Active().subcommands;
    if c in OptionCandidatesOf(state) {
      OptionItemIsAllowed(spec, committed, query, n, opt, c);
    } else {
      var i :| 0 <= i < |Map(SubcommandToCandidate, subs)| && Map(SubcommandToCandidate, subs)[i] == c;
      assert subs[i] in subs && item.insert == SubcommandToCandidate(subs[i]).insert;
    }
  }

  lemma {:induction false} OptionItemIsAllowed(spec: Subcommand, committed: seq<Token>, query: string,
                                               n: nat, opt: Opt, c: Candidate)
    requires n < |Arguments(committed)|
    requires var st := Run(Start(spec), Arguments(committed)[..n]); var text := Arguments(committed)[n];
             RoleOf(st, text).OptionToken? && Mentions(st, text, opt)
    requires c in OptionCandidatesOf(Parsed(spec, committed, query))
    ensures var state := Parsed(spec, committed, query);
            exists o ::
              && c == OptionToCandidate(o)
              && (o in state.Active().options || (o.isPersistent && IsDeclared(state.commandPath, o)))
              && (o.name.Canonical() == opt.name.Canonical() ==> IsRepeatable(o))
  {
    hide Parsed, Run, Mentions, RoleOf, Offered, OptionToCandidate;
    var state := Parsed(spec, committed, query);
    var offered := Offered(state.Active().options, state.persistentOptions, state.seenOptions);
    var i :| 0 <= i < |Map(OptionToCandidate, offered)| && Map(OptionToCandidate, offered)[i] == c;
    var o := offered[i];
    assert o in offered;
    OfferedIsInScope(spec, committed, query, o);
    if o.name.Canonical() == opt.name.Canonical() {
      SeenOptionIsNotOffered(spec, committed, query, n, opt, o);
    }
  }
}
