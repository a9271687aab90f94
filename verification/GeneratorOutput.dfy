/** How a generator's output becomes suggestions (crates/data/src/parse.rs), and when two
    generators with one argv may share cached values. The regular expressions are a parameter. */
module GeneratorOutput {
  import opened Wrappers
  import opened Text
  import opened SpecTypes
  import opened Runner
  import opened RunnerProtocol

  /** Patterns may fail to compile; a match gives the text of its first group, if any. */
  datatype Regexes = Regexes(compiles: string -> bool, capture: (string, string) -> Option<string>)

  /** The rules of a generator with the defaults filled in; an invalid pattern extracts nothing. */
  datatype Rules = Rules(splitOn: string, trim: bool, extract: Option<string>)

  function RulesOf(g: Generator, h: Regexes): Rules {
    Rules(g.splitOn.GetOr("\n"), g.trim.GetOr(true),
          if g.extract.Some? && h.compiles(g.extract.value) then g.extract else None)
  }

  /** `str::split`. */
  function Split(s: string, sep: string): seq<string>
    requires sep != ""
    decreases |s|
  {
    var pos := Find(s, sep);
    if pos.None? then [s] else [s[..pos.value]] + Split(s[pos.value + |sep|..], sep)
  }

  /** An empty delimiter does not split. */
  function Pieces(s: string, sep: string): seq<string> {
    if sep == "" then [s] else Split(s, sep)
  }

  /** What becomes of a piece; an empty text is dropped. */
  function ValueOf(piece: string, r: Rules, h: Regexes): string {
    var p := if r.trim then Trim(piece) else piece;
    if r.extract.Some? then h.capture(r.extract.value, p).GetOr("") else p
  }

  function Values(pieces: seq<string>, r: Rules, h: Regexes): (vs: seq<string>)
    ensures "" !in vs
  {
    if pieces == [] then []
    else
      var v := ValueOf(pieces[0], r, h);
      var rest := Values(pieces[1..], r, h);
      if v == "" then rest else [v] + rest
  }

  function Parsed(stdout: string, r: Rules, h: Regexes): seq<string> {
    Values(Pieces(stdout, r.splitOn), r, h)
  }

  /** `parse_output`, as the post-processing of the runner. */
  function ParsedBy(h: Regexes): Post {
    (g: Generator, stdout: string) => Parsed(stdout, RulesOf(g, h), h)
  }

  // ----- splitting

  function JoinWith(pieces: seq<string>, sep: string): string {
    if pieces == [] then ""
    else if |pieces| == 1 then pieces[0]
    else pieces[0] + sep + JoinWith(pieces[1..], sep)
  }

  lemma {:induction false} SplitHead(s: string, sep: string, pos: nat)
    requires sep != "" && Find(s, sep) == Some(pos)
    ensures pos + |sep| <= |s| && s == s[..pos] + sep + s[pos + |sep|..]
    ensures !Contains(s[..pos], sep)
  {
    assert s[pos..][..|sep|] == sep;
    var head := s[..pos];
    forall k | 0 <= k <= |head| ensures !OccursAt(head, sep, k) {
      if OccursAt(head, sep, k) {
        assert k < pos && s[k..][..|sep|] == head[k..][..|sep|] == sep;
        assert OccursAt(s, sep, k);
      }
    }
  }

  /** The pieces, joined by the delimiter, are the text, and none contains the delimiter. */
  lemma {:induction false} SplitIs(s: string, sep: string)
    requires sep != ""
    ensures Split(s, sep) != [] && JoinWith(Split(s, sep), sep) == s
    ensures forall i :: 0 <= i < |Split(s, sep)| ==> !Contains(Split(s, sep)[i], sep)
    decreases |s|
  {
    hide Find, Contains;
    var pos := Find(s, sep);
    if pos.None? {
    } else {
      SplitHead(s, sep, pos.value);
      var rest := s[pos.value + |sep|..];
      SplitIs(rest, sep);
      assert Split(s, sep)[1..] == Split(rest, sep);
    }
  }

  /** What is kept of the pieces, by the generator's own fields: each is trimmed unless `trim`
      is false, the first group of `extract` is taken if that is a valid pattern, and what is
      then empty, or does not match, is left out. */
  function Kept(pieces: seq<string>, g: Generator, h: Regexes): seq<string> {
    if pieces == [] then []
    else
      var p := if g.trim == Some(false) then pieces[0] else Trim(pieces[0]);
      var v := if g.extract.Some? && h.compiles(g.extract.value) then h.capture(g.extract.value, p) else Some(p);
      (if v.Some? && v.value != "" then [v.value] else []) + Kept(pieces[1..], g, h)
  }

  lemma {:induction false} ValuesAreKept(pieces: seq<string>, g: Generator, h: Regexes)
    ensures Values(pieces, RulesOf(g, h), h) == Kept(pieces, g, h)
  {
    hide Trim;
    if pieces == [] {
    } else {
      ValuesAreKept(pieces[1..], g, h);
      var rest := Kept(pieces[1..], g, h);
      assert [] + rest == rest;
    }
  }

  lemma {:induction false} SplitAtChar(piece: string, c: char, rest: string)
    requires c !in piece
    ensures Split(piece + [c] + rest, [c]) == [piece] + Split(rest, [c])
  {
    var s, n := piece + [c] + rest, |piece|;
    assert s[n..][..1] == [c] && s[..n] == piece && s[n + 1..] == rest;
    assert OccursAt(s, [c], n);
    forall j | 0 <= j < n ensures !OccursAt(s, [c], j) {
      assert s[j..][0] == piece[j];
    }
    FindIs(s, [c], n);
  }

  lemma AbsentChar(s: string, c: char)
    requires c !in s
    ensures !Contains(s, [c])
  {
    forall k | 0 <= k <= |s| ensures !OccursAt(s, [c], k) {
      assert k < |s| ==> s[k..][0] == s[k];
    }
  }

  lemma {:induction false} SplitUndoesJoin(pieces: seq<string>, c: char)
    requires pieces != [] && forall i :: 0 <= i < |pieces| ==> c !in pieces[i]
    ensures Split(JoinWith(pieces, [c]), [c]) == pieces
    decreases |pieces|
  {
    if |pieces| == 1 {
      AbsentChar(pieces[0], c);
      Unsplit(pieces[0], [c]);
      assert pieces == [pieces[0]];
    } else {
      SplitUndoesJoin(pieces[1..], c);
      SplitAtChar(pieces[0], c, JoinWith(pieces[1..], [c]));
      assert pieces == [pieces[0]] + pieces[1..];
    }
  }

  /** Output whose pieces are separated by the generator's delimiter, or by line feeds if it
      has none, gives what is kept of the pieces, in order. */
  lemma {:induction false} OutputGivesKept(g: Generator, pieces: seq<string>, c: char, h: Regexes)
    requires g.splitOn == Some([c]) || (g.splitOn.None? && c == '\n')
    requires pieces != [] && forall i :: 0 <= i < |pieces| ==> c !in pieces[i]
    ensures ParsedBy(h)(g, JoinWith(pieces, [c])) == Kept(pieces, g, h)
  {
    hide Split, JoinWith, Values, Kept;
    SplitUndoesJoin(pieces, c);
    ValuesAreKept(pieces, g, h);
    assert "\n" == ['\n'];
  }

  lemma {:induction false} Unsplit(s: string, sep: string)
    requires sep == "" || !Contains(s, sep)
    ensures Pieces(s, sep) == [s]
  {
  }

  lemma {:induction false} JoinOfBlanks(pieces: seq<string>, sep: string)
    requires IsBlankText(sep) && forall i :: 0 <= i < |pieces| ==> IsBlankText(pieces[i])
    ensures IsBlankText(JoinWith(pieces, sep))
  {
    if |pieces| < 2 {
    } else {
      JoinOfBlanks(pieces[1..], sep);
    }
  }

  lemma ContainsIsNoLonger(s: string, pat: string)
    requires Contains(s, pat)
    ensures |pat| < |s| || pat == s
  {
    var k :| 0 <= k <= |s| && OccursAt(s, pat, k);
    assert pat == s[k..][..|pat|];
  }

  // ----- rules that differ show it

  lemma {:induction false} OneValue(s: string, r: Rules, h: Regexes)
    requires r.splitOn == "" || !Contains(s, r.splitOn)
    ensures Parsed(s, r, h) == if ValueOf(s, r, h) == "" then [] else [ValueOf(s, r, h)]
  {
    Unsplit(s, r.splitOn);
    var v := ValueOf(s, r, h);
    hide Contains, ValueOf, Split;
    assert [s][0] == s && [s][1..] == [] && Values([], r, h) == [];
    assert [v] + [] == [v];
    assert Values([s], r, h) == if v == "" then [] else [v];
  }

  lemma {:induction false} NonBlankSurvives(pieces: seq<string>, r: Rules, h: Regexes, i: nat)
    requires r.extract.None? && i < |pieces| && !IsBlankText(pieces[i])
    ensures Values(pieces, r, h) != []
  {
    hide Trim, IsBlankText;
    if i == 0 {
      TrimIs(pieces[0]);
      assert IsBlankText("") by { EmptyIsBlank(); }
    } else {
      NonBlankSurvives(pieces[1..], r, h, i - 1);
    }
  }

  lemma EmptyIsBlank()
    ensures IsBlankText("")
  {
  }

  /** A text that is not blank leaves a value, if the delimiter does not occur or is blank. */
  lemma {:induction false} TextSurvives(s: string, r: Rules, h: Regexes)
    requires r.extract.None? && !IsBlankText(s)
    requires r.splitOn == "" || !Contains(s, r.splitOn) || IsBlankText(r.splitOn)
    ensures Parsed(s, r, h) != []
  {
    hide Contains, Values, IsBlankText, Split, JoinWith;
    var pieces := Pieces(s, r.splitOn);
    if r.splitOn == "" || !Contains(s, r.splitOn) {
      Unsplit(s, r.splitOn);
      NonBlankSurvives(pieces, r, h, 0);
    } else {
      SplitIs(s, r.splitOn);
      if forall i :: 0 <= i < |pieces| ==> IsBlankText(pieces[i]) {
        JoinOfBlanks(pieces, r.splitOn);
      } else {
        var i :| 0 <= i < |pieces| && !IsBlankText(pieces[i]);
        NonBlankSurvives(pieces, r, h, i);
      }
    }
  }

  lemma {:induction false} DelimiterLeavesNothing(r: Rules, h: Regexes)
    requires r.extract.None? && r.splitOn != ""
    ensures Parsed(r.splitOn, r, h) == []
  {
    var sep := r.splitOn;
    FindIs(sep, sep, 0);
    assert sep[..0] == "" && sep[|sep|..] == "";
    assert Split("", sep) == [""];
    TrimIs("");
    hide Split, Trim, IsBlankText, Find;
    assert Values([""], r, h) == [];
    assert [""] + [""] == ["", ""] && ["", ""][1..] == [""];
  }

  lemma {:induction false} SplitBetween(sep: string)
    requires sep != "" && IsBlankText(sep)
    ensures Split("a" + sep + "a", sep) == ["a", "a"]
  {
    var s := "a" + sep + "a";
    assert OccursAt(s, sep, 1) by {
      assert s[1..] == sep + "a";
    }
    assert !OccursAt(s, sep, 0) by {
      assert sep[0] != 'a' && s[0..][0] == 'a';
    }
    hide OccursAt, IsBlankText;
    FindIs(s, sep, 1);
    assert s[..1] == "a" && s[1 + |sep|..] == "a";
    LetterIsUnsplit(sep);
    assert ["a"] + ["a"] == ["a", "a"];
  }

  lemma LetterIsUnsplit(sep: string)
    requires sep != "" && IsBlankText(sep)
    ensures Split("a", sep) == ["a"]
  {
    assert sep[0] != 'a';
  }

  /** Between two letters, a blank delimiter of one's own splits, and another does not. */
  lemma {:induction false} OwnDelimiterSplits(r: Rules, h: Regexes)
    requires r.extract.None? && r.splitOn != "" && IsBlankText(r.splitOn)
    ensures Parsed("a" + r.splitOn + "a", r, h) == ["a", "a"]
  {
    SplitBetween(r.splitOn);
    hide Split, Trim, IsBlankText;
    TrimIs("a");
    assert ["a", "a"][1..] == ["a"] && ["a"][1..] == [];
    assert ["a"] + [] == ["a"] && ["a"] + ["a"] == ["a", "a"];
    assert ValueOf("a", r, h) == "a" && "a" != "";
    assert Values(["a"], r, h) == ["a"];
  }

  lemma {:induction false} BlankIsBetween(mid: string, sep: string)
    requires sep != "" && IsBlankText(sep) && Contains("a" + mid + "a", sep)
    ensures Contains(mid, sep)
  {
    var s, n := "a" + mid + "a", |sep|;
    var k :| 0 <= k <= |s| && OccursAt(s, sep, k);
    assert sep == s[k..][..n] == s[k..k + n];
    assert IsWhitespace(s[k]) && IsWhitespace(s[k + n - 1]) by {
      assert sep[0] == s[k] && sep[n - 1] == s[k + n - 1];
    }
    hide IsBlankText, IsWhitespace;
    assert s[k..k + n] == mid[k - 1..k - 1 + n] == mid[k - 1..][..n];
    assert OccursAt(mid, sep, k - 1);
  }

  lemma {:induction false} OtherDelimiterDoesNotSplit(mid: string, r: Rules, h: Regexes)
    requires r.extract.None? && IsBlankText(r.splitOn) && (r.splitOn == "" || !Contains(mid, r.splitOn))
    ensures Parsed("a" + mid + "a", r, h) == ["a" + mid + "a"]
  {
    var s, sep := "a" + mid + "a", r.splitOn;
    if sep != "" && Contains(s, sep) {
      BlankIsBetween(mid, sep);
    }
    hide Contains, Trim, IsBlankText;
    OneValue(s, r, h);
    TrimIs(s);
  }

  /** Whether some output tells the two apart. */
  ghost predicate TellApart(q: Rules, r: Rules, h: Regexes) {
    exists out :: Parsed(out, q, h) != Parsed(out, r, h)
  }

  /** A delimiter that is not blank and in which the other does not split. */
  lemma {:induction false} VisibleDelimiterTells(q: Rules, r: Rules, h: Regexes)
    requires q.extract.None? && r.extract.None? && !IsBlankText(q.splitOn)
    requires r.splitOn == "" || !Contains(q.splitOn, r.splitOn) || IsBlankText(r.splitOn)
    ensures TellApart(q, r, h)
  {
    hide Parsed, Contains;
    DelimiterLeavesNothing(q, h);
    TextSurvives(q.splitOn, r, h);
    assert Parsed(q.splitOn, q, h) != Parsed(q.splitOn, r, h);
  }

  /** Two blank delimiters, the first not empty and without the second. */
  lemma {:induction false} BlankDelimiterTells(q: Rules, r: Rules, h: Regexes)
    requires q.extract.None? && r.extract.None? && IsBlankText(q.splitOn) && IsBlankText(r.splitOn)
    requires q.splitOn != "" && (r.splitOn == "" || !Contains(q.splitOn, r.splitOn))
    ensures TellApart(q, r, h)
  {
    hide Parsed, Contains, IsBlankText;
    var out := "a" + q.splitOn + "a";
    OwnDelimiterSplits(q, h);
    OtherDelimiterDoesNotSplit(q.splitOn, r, h);
    assert Parsed(out, q, h) != Parsed(out, r, h);
  }

  lemma {:induction false} DelimitersTell(q: Rules, r: Rules, h: Regexes)
    requires q.extract.None? && r.extract.None? && q.splitOn != r.splitOn
    ensures TellApart(q, r, h)
  {
    hide TellApart, Contains, IsBlankText;
    EmptyIsBlank();
    if Contains(q.splitOn, r.splitOn) {
      ContainsIsNoLonger(q.splitOn, r.splitOn);
    }
    if Contains(r.splitOn, q.splitOn) {
      ContainsIsNoLonger(r.splitOn, q.splitOn);
    }
    if !IsBlankText(q.splitOn) && (r.splitOn == "" || !Contains(q.splitOn, r.splitOn) || IsBlankText(r.splitOn)) {
      VisibleDelimiterTells(q, r, h);
    } else if !IsBlankText(r.splitOn) {
      VisibleDelimiterTells(r, q, h);
      Symmetric(r, q, h);
    } else if q.splitOn != "" && (r.splitOn == "" || !Contains(q.splitOn, r.splitOn)) {
      BlankDelimiterTells(q, r, h);
    } else {
      BlankDelimiterTells(r, q, h);
      Symmetric(r, q, h);
    }
  }

  lemma Symmetric(q: Rules, r: Rules, h: Regexes)
    requires TellApart(q, r, h)
    ensures TellApart(r, q, h)
  {
    var out :| Parsed(out, q, h) != Parsed(out, r, h);
  }

  lemma NotInBoth(sep: string)
    requires sep != ""
    ensures !Contains(" a", sep) || !Contains("\tb", sep)
  {
    if Contains(" a", sep) {
      CharsOf(" a", sep);
    }
    if Contains("\tb", sep) {
      CharsOf("\tb", sep);
    }
  }

  lemma CharsOf(s: string, sep: string)
    requires sep != "" && Contains(s, sep)
    ensures sep[0] in s
  {
    var k :| 0 <= k <= |s| && OccursAt(s, sep, k);
    assert s[k..][0] == s[k];
  }

  /** Trimming shows on a text that starts with whitespace and that the delimiter leaves whole. */
  lemma {:induction false} TrimmingTells(q: Rules, r: Rules, h: Regexes)
    requires q.extract.None? && r.extract.None? && q.splitOn == r.splitOn && q.trim && !r.trim
    ensures TellApart(q, r, h)
  {
    var sep := q.splitOn;
    var out := if Contains(" a", sep) then "\tb" else " a";
    if sep != "" {
      NotInBoth(sep);
    }
    hide Contains, Trim, IsBlankText;
    OneValue(out, q, h);
    OneValue(out, r, h);
    TrimIs(out);
    assert out[1] == 'a' || out[1] == 'b';
    assert Trim(out) != out;
    assert Parsed(out, q, h) != Parsed(out, r, h);
  }

  /** Without patterns, two generators read every output alike exactly when they have the
      same delimiter and both trim or both do not. */
  lemma {:induction false} SameOutputIffSameRules(q: Rules, r: Rules, h: Regexes)
    requires q.extract.None? && r.extract.None?
    ensures (forall out :: Parsed(out, q, h) == Parsed(out, r, h)) <==> q == r
  {
    hide Parsed;
    if q.splitOn != r.splitOn {
      DelimitersTell(q, r, h);
    } else if q.trim && !r.trim {
      TrimmingTells(q, r, h);
    } else if !q.trim && r.trim {
      TrimmingTells(r, q, h);
    }
  }

  // ----- when cached values may be shared

  /** Cached generators with one argv have the same rules. */
  ghost predicate RulesAgree(gens: set<Generator>, h: Regexes) {
    forall g, k :: g in gens && k in gens && g.run == k.run && Ttl(g) > 0 && Ttl(k) > 0 ==>
      RulesOf(g, h) == RulesOf(k, h)
  }

  ghost predicate ExtractNothing(gens: set<Generator>, h: Regexes) {
    forall g :: g in gens ==> RulesOf(g, h).extract.None?
  }

  /** Every warm value is the reader's own parse if cached generators with one argv have the
      same delimiter, trimming and pattern; without patterns, only if. */
  lemma {:induction false} WarmValuesAreOwnIffRulesAgree(gens: set<Generator>, h: Regexes)
    ensures RulesAgree(gens, h) ==> WarmValuesAreOwn(gens, ParsedBy(h))
    ensures ExtractNothing(gens, h) && WarmValuesAreOwn(gens, ParsedBy(h)) ==> RulesAgree(gens, h)
  {
    hide WarmValuesAreOwn, Ttl, RulesOf, Parsed;
    var post := ParsedBy(h);
    WarmValuesAreOwnIffShared(gens, post);
    if ExtractNothing(gens, h) && ShareProcessing(gens, post) {
      forall g, k | g in gens && k in gens && g.run == k.run && Ttl(g) > 0 && Ttl(k) > 0
        ensures RulesOf(g, h) == RulesOf(k, h)
      {
        forall out: string ensures Parsed(out, RulesOf(g, h), h) == Parsed(out, RulesOf(k, h), h) {
          assert post(g, out) == post(k, out);
        }
        SameOutputIffSameRules(RulesOf(g, h), RulesOf(k, h), h);
      }
    }
  }
}
