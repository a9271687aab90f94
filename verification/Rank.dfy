/** Filtering, scoring and ordering of candidates (crates/core/src/rank.rs). Scores
    are in thousandths. */
module Rank {
  import opened Wrappers
  import opened Sequences
  import opened SpecTypes
  import opened Text
  import opened Sorting
  import opened Complete
  import Utf8

  datatype CompletionItem = CompletionItem(
    insert: string,
    display: string,
    desc: Option<string>,
    score: nat,
    dangerous: bool,
    deprecated: bool)

  datatype MatchQuality = Exact | Prefix | Fuzzy {
    /** The share of the score that the quality earns: 0.3 of 1, 0.75 and 0.4. */
    function Weight(): nat {
      match this
      case Exact => 300
      case Prefix => 225
      case Fuzzy => 120 // 0.3 * 0.4
    }

    function Order(): nat {
      match this
      case Exact => 0
      case Prefix => 1
      case Fuzzy => 2
    }
  }

  const DEFAULT_PRIORITY: U8 := 50
  const DEFAULT_TOP_N: nat := 50

  // ----- subsequences

  /** The positions of an in-order, not necessarily contiguous, copy of `needle`. */
  ghost predicate Embeds(e: seq<nat>, needle: string, haystack: string) {
    && |e| == |needle|
    && (forall i, j :: 0 <= i < j < |e| ==> e[i] < e[j])
    && (forall i :: 0 <= i < |e| ==> e[i] < |haystack| && haystack[e[i]] == needle[i])
  }

  /** The greedy scan: each character takes the first one left that equals it. */
  predicate Subsequence(needle: string, haystack: string) {
    if needle == "" then true
    else if haystack == "" then false
    else if haystack[0] == needle[0] then Subsequence(needle[1..], haystack[1..])
    else Subsequence(needle, haystack[1..])
  }

  function Shift(e: seq<nat>, d: int): (r: seq<int>)
    ensures |r| == |e| && forall i :: 0 <= i < |e| ==> r[i] == e[i] + d
  {
    seq(|e|, i requires 0 <= i < |e| => e[i] + d)
  }

  lemma {:induction false} GreedyEmbeds(needle: string, haystack: string) returns (e: seq<nat>)
    requires Subsequence(needle, haystack)
    ensures Embeds(e, needle, haystack)
    decreases |haystack|
  {
    if needle == "" {
      e := [];
    } else if haystack[0] == needle[0] {
      var f := GreedyEmbeds(needle[1..], haystack[1..]);
      e := [0] + Shift(f, 1);
    } else {
      var f := GreedyEmbeds(needle, haystack[1..]);
      e := Shift(f, 1);
    }
  }

  lemma {:induction false} EmbeddingIsFoundGreedily(e: seq<nat>, needle: string, haystack: string)
    requires Embeds(e, needle, haystack)
    ensures Subsequence(needle, haystack)
    decreases |haystack|
  {
    if needle == "" {
    } else {
      assert e[0] < |haystack|;
      if haystack[0] == needle[0] {
        EmbeddingIsFoundGreedily(Shift(e[1..], -1), needle[1..], haystack[1..]);
      } else {
        EmbeddingIsFoundGreedily(Shift(e, -1), needle, haystack[1..]);
      }
    }
  }

  /** The greedy scan succeeds exactly when some embedding exists. */
  lemma GreedyIsComplete(needle: string, haystack: string)
    ensures Subsequence(needle, haystack) <==> exists e :: Embeds(e, needle, haystack)
  {
    if Subsequence(needle, haystack) {
      var e := GreedyEmbeds(needle, haystack);
    }
    if exists e :: Embeds(e, needle, haystack) {
      var e :| Embeds(e, needle, haystack);
      EmbeddingIsFoundGreedily(e, needle, haystack);
    }
  }

  lemma {:induction false} SubsequenceTransitive(a: string, b: string, c: string)
    requires Subsequence(a, b) && Subsequence(b, c)
    ensures Subsequence(a, c)
    decreases |c|
  {
    if a == "" {
    } else {
      if c[0] != b[0] {
        SubsequenceTransitive(a, b, c[1..]);
        SkipsMore(a, c);
      } else if b[0] == a[0] {
        SubsequenceTransitive(a[1..], b[1..], c[1..]);
      } else {
        SubsequenceTransitive(a, b[1..], c[1..]);
      }
    }
  }

  /** What is embedded in a tail is embedded in the whole. */
  lemma {:induction false} SkipsMore(a: string, c: string)
    requires c != "" && Subsequence(a, c[1..])
    ensures Subsequence(a, c)
    decreases |c|
  {
    if a != "" && c[0] == a[0] {
      var e := GreedyEmbeds(a, c[1..]);
      var f: seq<nat> := Shift(e, 1);
      EmbeddingIsFoundGreedily(f, a, c);
    }
  }

  lemma {:induction false} PrefixIsSubsequence(a: string, b: string)
    requires a <= b
    ensures Subsequence(a, b)
  {
    if a == "" {
    } else {
      PrefixIsSubsequence(a[1..], b[1..]);
    }
  }

  /** `is_subsequence`: an iterator over the haystack, drained once. */
  method IsSubsequence(needle: string, haystack: string) returns (r: bool)
    ensures r == Subsequence(needle, haystack)
    ensures r <==> exists e :: Embeds(e, needle, haystack)
  {
    GreedyIsComplete(needle, haystack);
    hide Embeds;
    var h := 0;
    var n := 0;
    while n < |needle|
      invariant n <= |needle| && h <= |haystack|
      invariant Subsequence(needle, haystack) == Subsequence(needle[n..], haystack[h..])
    {
      var nc := needle[n];
      while h < |haystack| && haystack[h] != nc
        invariant h <= |haystack|
        invariant Subsequence(needle, haystack) == Subsequence(needle[n..], haystack[h..])
      {
        h := h + 1;
      }
      if h == |haystack| {
        return false;
      }
      assert needle[n..][1..] == needle[n + 1..] && haystack[h..][1..] == haystack[h + 1..];
      h, n := h + 1, n + 1;
    }
    return true;
  }

  // ----- match quality

  function MatchOf(name: string, query: string): Option<MatchQuality> {
    if name == query then Some(Exact)
    else if query <= name then Some(Prefix)
    else if Subsequence(query, name) then Some(Fuzzy)
    else None
  }

  function BestOf(names: seq<string>, query: string): Option<MatchQuality> {
    if names == [] then None
    else
      var q, rest := MatchOf(names[0], query), BestOf(names[1..], query);
      if q.None? then rest
      else if rest.Some? && rest.value.Order() < q.value.Order() then rest
      else q
  }

  function NamesOf(c: Candidate): seq<string> {
    if c.matchNames == [] then [c.insert] else c.matchNames
  }

  function BestQuality(c: Candidate, query: string): Option<MatchQuality> {
    if query == "" then Some(Prefix) else BestOf(NamesOf(c), query)
  }

  function Score(priority: U8, q: MatchQuality): nat {
    var raw := priority * 5 + q.Weight();
    if raw <= 1000 then raw else 1000
  }

  function ScoreCandidate(c: Candidate, query: string): Option<CompletionItem> {
    var q := BestQuality(c, query);
    if q.None? || (c.hidden && q.value != Exact) then None
    else Some(CompletionItem(c.insert, c.display.GetOr(c.insert), c.desc,
                             Score(c.priority.GetOr(DEFAULT_PRIORITY), q.value), c.dangerous, c.deprecated))
  }

  /** A name matches iff the query is a subsequence of it: exact and prefix matches are
      subsequences too. */
  lemma MatchesIff(name: string, query: string)
    ensures MatchOf(name, query).Some? <==> Subsequence(query, name)
  {
    if query <= name {
      PrefixIsSubsequence(query, name);
    }
  }

  /** The best quality over the names: exact if a name is the query, else prefix if one
      starts with it, else fuzzy if one embeds it. */
  lemma {:induction false} BestIsBest(names: seq<string>, query: string)
    ensures var b := BestOf(names, query);
            && (b.Some? <==> exists i :: 0 <= i < |names| && Subsequence(query, names[i]))
            && (b == Some(Exact) <==> query in names)
            && (b == Some(Prefix) <==> query !in names && exists i :: 0 <= i < |names| && query <= names[i])
  {
    hide Subsequence;
    if names == [] {
    } else {
      BestIsBest(names[1..], query);
      MatchesIff(names[0], query);
      if query <= names[0] {
        PrefixIsSubsequence(query, names[0]);
      }
      assert names == [names[0]] + names[1..];
      forall i | 1 <= i < |names| ensures names[i] == names[1..][i - 1] {}
      forall i | 0 <= i < |names[1..]| && query <= names[1..][i]
        ensures Subsequence(query, names[1..][i]) && query <= names[i + 1]
      {
        PrefixIsSubsequence(query, names[1..][i]);
      }
    }
  }

  predicate Survives(c: Candidate, query: string) {
    ScoreCandidate(c, query).Some?
  }

  /** A hidden candidate survives only where one of its names is typed in full. */
  lemma HiddenSurvivesIff(c: Candidate, query: string)
    requires c.hidden
    ensures Survives(c, query) <==> query != "" && query in NamesOf(c)
  {
    BestIsBest(NamesOf(c), query);
  }

  /** Typing more, anywhere in the query, can only drop candidates that are not hidden. */
  lemma {:induction false} LongerQueryDropsMore(c: Candidate, query: string, longer: string)
    requires !c.hidden && Subsequence(query, longer) && Survives(c, longer)
    ensures Survives(c, query)
  {
    hide Subsequence, BestOf;
    if query != "" {
      BestIsBest(NamesOf(c), longer);
      BestIsBest(NamesOf(c), query);
      if longer == "" {
        NothingInEmpty(query);
      } else {
        var i :| 0 <= i < |NamesOf(c)| && Subsequence(longer, NamesOf(c)[i]);
        SubsequenceTransitive(query, longer, NamesOf(c)[i]);
      }
    }
  }

  lemma NothingInEmpty(query: string)
    ensures Subsequence(query, "") <==> query == ""
  {
  }

  // ----- order

  /** Descending score, then fewer bytes, then lexicographic. */
  predicate RanksBefore(a: CompletionItem, b: CompletionItem) {
    || a.score > b.score
    || (a.score == b.score &&
        (Utf8.Len(a.insert) < Utf8.Len(b.insert) ||
         (Utf8.Len(a.insert) == Utf8.Len(b.insert) && StrLe(a.insert, b.insert))))
  }

  lemma {:induction false} RankingIsPreorder()
    ensures TotalPreorder(RanksBefore)
  {
    StrLeIsTotalOrder();
    hide StrLe, Utf8.Len;
  }

  /** The survivors, in the order of the candidates. */
  function Survivors(cs: seq<Candidate>, query: string): seq<CompletionItem> {
    if cs == [] then []
    else
      var item := ScoreCandidate(cs[0], query);
      (if item.Some? then [item.value] else []) + Survivors(cs[1..], query)
  }

  function Ranked(cs: seq<Candidate>, query: string, n: nat): seq<CompletionItem> {
    Truncate(StableSort(Survivors(cs, query), RanksBefore), n)
  }

  lemma {:induction false} SurvivorsConcat(cs: seq<Candidate>, ds: seq<Candidate>, query: string)
    ensures Survivors(cs + ds, query) == Survivors(cs, query) + Survivors(ds, query)
  {
    hide ScoreCandidate;
    if cs == [] {
      assert cs + ds == ds;
    } else {
      assert (cs + ds)[1..] == cs[1..] + ds;
      SurvivorsConcat(cs[1..], ds, query);
      var item := ScoreCandidate(cs[0], query);
      Associate(if item.Some? then [item.value] else [], Survivors(cs[1..], query), Survivors(ds, query));
    }
  }

  lemma OneSurvivor(c: Candidate, query: string)
    ensures Survivors([c], query) ==
            if ScoreCandidate(c, query).Some? then [ScoreCandidate(c, query).value] else []
  {
    assert [c][1..] == [];
  }

  /** `rank_top_n`. */
  method RankTopN(cs: seq<Candidate>, query: string, topN: nat) returns (r: seq<CompletionItem>)
    ensures r == Ranked(cs, query, topN)
  {
    hide ScoreCandidate, Survivors;
    var scored: seq<CompletionItem> := [];
    OneSurvivors(query);
    var i := 0;
    assert cs[..0] == [];
    while i < |cs|
      invariant i <= |cs| && scored == Survivors(cs[..i], query)
    {
      var item := ScoreCandidate(cs[i], query);
      assert cs[..i + 1] == cs[..i] + [cs[i]];
      SurvivorsConcat(cs[..i], [cs[i]], query);
      OneSurvivor(cs[i], query);
      if item.Some? {
        scored := scored + [item.value];
      }
      i := i + 1;
    }
    assert cs[..|cs|] == cs;
    scored := StableSort(scored, RanksBefore);
    r := Truncate(scored, topN);
  }

  lemma OneSurvivors(query: string)
    ensures Survivors([], query) == []
  {
  }

  lemma {:induction false} ScoresAreBounded(cs: seq<Candidate>, query: string)
    ensures forall x :: x in Survivors(cs, query) ==> 0 <= x.score <= 1000
  {
    if cs == [] {
    } else {
      ScoresAreBounded(cs[1..], query);
    }
  }

  /** What is returned is the start of one arrangement of all survivors that is sorted
      and leaves ties in the candidates' order; so nothing left out ranks strictly
      before anything returned. */
  lemma {:induction false} RankedIsTop(cs: seq<Candidate>, query: string, n: nat)
    ensures exists all ::
              && IsArrangement(all, cs, query)
              && Ranked(cs, query, n) == Truncate(all, n)
              && forall i, j :: 0 <= i < |Ranked(cs, query, n)| <= j < |all| ==>
                   RanksBefore(Ranked(cs, query, n)[i], all[j])
    ensures |Ranked(cs, query, n)| == if |Survivors(cs, query)| <= n then |Survivors(cs, query)| else n
    ensures forall x :: x in Ranked(cs, query, n) ==> 0 <= x.score <= 1000
  {
    hide ScoreCandidate, RanksBefore;
    var all := StableSort(Survivors(cs, query), RanksBefore);
    RankingIsPreorder();
    SortPermutes(Survivors(cs, query), RanksBefore);
    SortSorts(Survivors(cs, query), RanksBefore);
    forall x ensures Ties(x, all, RanksBefore) == Ties(x, Survivors(cs, query), RanksBefore) {
      SortKeepsTies(x, Survivors(cs, query), RanksBefore);
    }
    assert IsArrangement(all, cs, query);
    SameElements(all, Survivors(cs, query));
    ScoresAreBounded(cs, query);
  }

  /** The arrangement is the only one. */
  lemma {:induction false} ArrangementIsUnique(a: seq<CompletionItem>, b: seq<CompletionItem>, cs: seq<Candidate>,
                                               query: string)
    requires IsArrangement(a, cs, query) && IsArrangement(b, cs, query)
    ensures a == b
  {
    hide RanksBefore, Survivors, Ties;
    RankingIsPreorder();
    StableUnique(a, b, RanksBefore);
  }

  ghost predicate IsArrangement(all: seq<CompletionItem>, cs: seq<Candidate>, query: string) {
    && multiset(all) == multiset(Survivors(cs, query))
    && Sorted(all, RanksBefore)
    && forall x :: Ties(x, all, RanksBefore) == Ties(x, Survivors(cs, query), RanksBefore)
  }
}
