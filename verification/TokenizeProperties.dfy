/** What holds of every tokenized line: the scanners agree, tokens tile the line,
    and what the cursor edits does not depend on the text after it. */
module TokenizeProperties {
  import opened Wrappers
  import opened Sequences
  import opened Utf8
  import opened Scanner
  import opened Tokenize

  // ----- tiling

  /** Tokens come in order, and something separates each from the next. */
  lemma {:induction false} Separated(line: string, k: nat, i: nat, j: nat)
    requires k <= |line| && i < j < |TokensFrom(line, k)|
    ensures TokensFrom(line, k)[i].end < TokensFrom(line, k)[j].start
    decreases |line| - k
  {
    hide TokensFrom, Offset, IsBlank, TokenAt, SkipBlank, TokenEnd, Bytes;
    NextToken(line, k);
    var to := TokenEnd(line, SkipBlank(line, k), SkipBlank(line, k) + 1);
    NextToken(line, to);
    if i == 0 {
      StartsAfterBlanks(line, to, j - 1);
    } else {
      Separated(line, to, i - 1, j - 1);
    }
  }

  lemma {:induction false} StartsAfterBlanks(line: string, k: nat, i: nat)
    requires k < |line| && IsBlank(line[k]) && i < |TokensFrom(line, k)|
    ensures Offset(line, k) < TokensFrom(line, k)[i].start
  {
    hide TokensFrom, TokenEnd, SkipBlank;
    var from, to := Span(line, k, i);
    OffsetOrder(line, k, from);
  }

  lemma {:induction false} BlankRun(line: string, j: nat, k: nat, b: nat)
    requires j <= k <= |line| && Offset(line, j) <= b < Offset(line, k)
    requires forall n :: j <= n < k ==> IsBlank(line[n])
    ensures b < Len(line) && IsBlankByte(Bytes(line)[b])
    decreases k - j
  {
    hide Bytes, Offset;
    CharAt(line, j);
    EncodeShape(line[j]);
    if b == Offset(line, j) {
    } else {
      BlankRun(line, j + 1, k, b);
    }
  }

  /** A byte that is not blank is inside a token. */
  lemma {:induction false} Covering(line: string, k: nat, b: nat) returns (i: nat)
    requires k <= |line| && Offset(line, k) <= b < Len(line) && !IsBlankByte(Bytes(line)[b])
    ensures i < |TokensFrom(line, k)|
    ensures TokensFrom(line, k)[i].start <= b < TokensFrom(line, k)[i].end
    decreases |line| - k
  {
    hide Bytes, Offset, IsBlankByte, TokensFrom, TokenEnd, IsBlank;
    NextToken(line, k);
    var from := SkipBlank(line, k);
    OffsetEnds(line);
    if b < Offset(line, from) {
      BlankRun(line, k, from, b);
    }
    var to := TokenEnd(line, from, from + 1);
    if b < Offset(line, to) {
      i := 0;
    } else {
      i := Covering(line, to, b);
      i := i + 1;
    }
  }

  /** The spans of the tokens are non-empty, in order, separated, made of char
      boundaries, and everything outside them is ASCII whitespace. */
  lemma {:induction false} TokensTileTheLine(line: string)
    ensures var ts := Tokens(line); var bytes := Bytes(line);
            && (forall i :: 0 <= i < |ts| ==>
                  && ts[i].start < ts[i].end <= |bytes|
                  && IsCharBoundary(bytes, ts[i].start) && IsCharBoundary(bytes, ts[i].end)
                  && Slice(line, ts[i].start, ts[i].end) == ts[i].raw)
            && (forall i, j :: 0 <= i < j < |ts| ==> ts[i].end < ts[j].start)
            && (forall b :: 0 <= b < |bytes| && !IsBlankByte(bytes[b]) ==>
                  exists i :: 0 <= i < |ts| && ts[i].start <= b < ts[i].end)
  {
    hide TokensFrom, Bytes, IsCharBoundary, Slice, IsBlankByte;
    var ts := Tokens(line);
    forall i | 0 <= i < |ts|
      ensures && ts[i].start < ts[i].end <= |Bytes(line)|
              && IsCharBoundary(Bytes(line), ts[i].start) && IsCharBoundary(Bytes(line), ts[i].end)
              && Slice(line, ts[i].start, ts[i].end) == ts[i].raw
    {
      SpanIsSliceable(line, i);
    }
    forall i, j | 0 <= i < j < |ts| ensures ts[i].end < ts[j].start {
      Separated(line, 0, i, j);
    }
    forall b | 0 <= b < |Bytes(line)| && !IsBlankByte(Bytes(line)[b])
      ensures exists i :: 0 <= i < |ts| && ts[i].start <= b < ts[i].end
    {
      OffsetEnds(line);
      var i := Covering(line, 0, b);
    }
  }

  // ----- the scanners agree

  /** `lex` and `unquote` read a token alike, except that `lex` keeps the backslash
      of an escape that the end of the line cuts short. */
  lemma {:induction false} ScannersAgree(line: string, i: nat)
    requires i < |Tokens(line)|
    ensures var t := Tokens(line)[i];
            && t.text == Logical(t.raw) + Dangling(t.raw)
            && t.quoted == OpensQuote(t.raw)
            && (Dangling(t.raw) != "" ==> i == |Tokens(line)| - 1 && t.end == Len(line))
  {
    hide TokensFrom, SkipBlank, TokenEnd, Logical, Bytes, Slice, IsBlank;
    var from, to := Span(line, 0, i);
    OffsetEnds(line);
    if i + 1 < |Tokens(line)| {
      Separated(line, 0, i, i + 1);
      SpanIsSliceable(line, i + 1);
    }
  }

  /** The query is a prefix of the text of the token it is typed into. */
  lemma {:induction false} QueryIsPrefixOfText(line: string, cursor: nat)
    requires Tokenized(line, cursor).cursorToken.Some?
    ensures var r := Tokenized(line, cursor); r.query <= r.tokens[r.cursorToken.value].text
  {
    hide *;
    var from, to, p := EditedSpan(line, cursor);
    LogicalIsMonotone(line[from..to], p - from);
    assert line[from..to][..p - from] == line[from..p];
    TextOfSpan(line, from, to);
  }

  lemma TextOfSpan(line: string, from: nat, to: nat)
    requires from <= to <= |line|
    ensures Logical(line[from..to]) <= TokenAt(line, from, to).text
  {
  }

  /** The edited token and the cursor, in characters. */
  lemma {:induction false} EditedSpan(line: string, cursor: nat) returns (from: nat, to: nat, p: nat)
    requires Tokenized(line, cursor).cursorToken.Some?
    ensures from <= p <= to <= |line| && from < to
    ensures Clamp(line, cursor) == Offset(line, p)
    ensures Tokenized(line, cursor).tokens[Tokenized(line, cursor).cursorToken.value] == TokenAt(line, from, to)
    ensures Tokenized(line, cursor).query == Logical(line[from..p])
  {
    hide TokensFrom, Bytes, IsCharBoundary, Slice, Logical, Offset;
    var i, c := Tokenized(line, cursor).cursorToken.value, Clamp(line, cursor);
    from, to := Span(line, 0, i);
    BoundaryIffOffset(line, c);
    p :| 0 <= p <= |line| && c == Offset(line, p);
    OffsetOrder(line, p, from);
    OffsetOrder(line, p, to);
    SliceOfOffsets(line, from, p);
  }

  // ----- text after the cursor

  /** How many tokens end before byte `c`. */
  function Before(ts: seq<Token>, c: nat): (n: nat)
    ensures n <= |ts|
    ensures forall i :: 0 <= i < n ==> ts[i].end < c
    ensures n < |ts| ==> c <= ts[n].end
  {
    if ts == [] || c <= ts[0].end then 0 else 1 + Before(ts[1..], c)
  }

  lemma {:induction false} SkipBlankInPrefix(line: string, p: nat, k: nat)
    requires k <= p <= |line|
    ensures SkipBlank(line[..p], k) == if SkipBlank(line, k) <= p then SkipBlank(line, k) else p
    decreases p - k
  {
    if k == p || !IsBlank(line[k]) {
    } else {
      SkipBlankInPrefix(line, p, k + 1);
    }
  }

  lemma {:induction false} TokenEndInPrefix(line: string, p: nat, from: nat, k: nat)
    requires from <= k <= p <= |line|
    ensures TokenEnd(line[..p], from, k) == if TokenEnd(line, from, k) <= p then TokenEnd(line, from, k) else p
    decreases p - k
  {
    assert line[..p][from..k] == line[from..k];
    if k == p || Ends(line, from, k) {
    } else {
      TokenEndInPrefix(line, p, from, k + 1);
    }
  }

  lemma TokenAtInPrefix(line: string, p: nat, from: nat, to: nat)
    requires from <= to <= p <= |line|
    ensures TokenAt(line[..p], from, to) == TokenAt(line, from, to)
    ensures Offset(line[..p], from) == Offset(line, from)
  {
    assert line[..p][from..to] == line[from..to];
    assert line[..p][..from] == line[..from] && line[..p][..to] == line[..to];
  }

  /** The part before byte `c` of a token that reaches it. */
  function Cut(line: string, p: nat, ts: seq<Token>, n: nat): seq<Token>
    requires p <= |line| && n <= |ts|
  {
    if n < |ts| && ts[n].start < Offset(line, p) && CharsBefore(line, ts[n].start) <= p then
      [TokenAt(line[..p], CharsBefore(line, ts[n].start), p)]
    else []
  }

  /** Nothing starts before the cut. */
  lemma {:induction false} NothingBeforeCut(line: string, p: nat, k: nat)
    requires k <= p <= |line| && p <= SkipBlank(line, k)
    ensures var ts := TokensFrom(line, k);
            TokensFrom(line[..p], k) == [] && Before(ts, Offset(line, p)) == 0 && Cut(line, p, ts, 0) == []
  {
    hide TokensFrom, Offset, TokenAt, TokenEnd, SkipBlank, IsBlank, CharsBefore;
    NextToken(line, k);
    NextToken(line[..p], k);
    SkipBlankInPrefix(line, p, k);
    var from := SkipBlank(line, k);
    OffsetOrder(line, from, p);
    if from < |line| {
      OffsetOrder(line, TokenEnd(line, from, from + 1), p);
    }
  }

  /** The first token starts before the cut and reaches it. */
  lemma {:induction false} FirstIsCut(line: string, p: nat, k: nat)
    requires k <= p <= |line| && SkipBlank(line, k) < p
    requires p <= TokenEnd(line, SkipBlank(line, k), SkipBlank(line, k) + 1)
    ensures var ts := TokensFrom(line, k);
            Before(ts, Offset(line, p)) == 0 && TokensFrom(line[..p], k) == Cut(line, p, ts, 0)
  {
    hide TokensFrom, Offset, TokenAt, TokenEnd, SkipBlank, IsBlank, CharsBefore;
    NextToken(line, k);
    NextToken(line[..p], k);
    SkipBlankInPrefix(line, p, k);
    var from := SkipBlank(line, k);
    OffsetOrder(line, from, p);
    OffsetOrder(line, TokenEnd(line, from, from + 1), p);
    TokenEndInPrefix(line, p, from, from + 1);
    CharsBeforeOffset(line, from);
    NextToken(line[..p], p);
    SkipBlankInPrefix(line, p, p);
  }

  /** The first token ends before the cut. */
  lemma {:induction false} FirstIsKept(line: string, p: nat, k: nat)
    requires k <= p <= |line| && SkipBlank(line, k) < p
    requires TokenEnd(line, SkipBlank(line, k), SkipBlank(line, k) + 1) < p
    ensures var ts := TokensFrom(line, k);
            var to := TokenEnd(line, SkipBlank(line, k), SkipBlank(line, k) + 1);
            && k < to
            && TokensFrom(line[..p], k) == [ts[0]] + TokensFrom(line[..p], to)
            && ts == [ts[0]] + TokensFrom(line, to)
            && ts[0].end < Offset(line, p)
  {
    hide TokensFrom, Offset, TokenAt, TokenEnd, SkipBlank, IsBlank, CharsBefore;
    NextToken(line, k);
    NextToken(line[..p], k);
    SkipBlankInPrefix(line, p, k);
    var from := SkipBlank(line, k);
    var to := TokenEnd(line, from, from + 1);
    OffsetOrder(line, to, p);
    TokenEndInPrefix(line, p, from, from + 1);
    TokenAtInPrefix(line, p, from, to);
  }

  /** Putting a token that ends before the cut in front. */
  lemma {:induction false} KeptInFront(line: string, p: nat, t: Token, rest: seq<Token>, tokens: seq<Token>)
    requires p <= |line| && t.end < Offset(line, p)
    requires var m := Before(rest, Offset(line, p)); tokens == rest[..m] + Cut(line, p, rest, m)
    ensures var ts := [t] + rest; var n := Before(ts, Offset(line, p));
            [t] + tokens == ts[..n] + Cut(line, p, ts, n)
  {
    hide Offset, TokenAt, CharsBefore;
    var ts, m := [t] + rest, Before(rest, Offset(line, p));
    assert ts[1..] == rest;
    assert ts[..m + 1] == [t] + rest[..m];
    assert m < |rest| ==> ts[m + 1] == rest[m];
    assert Cut(line, p, ts, m + 1) == Cut(line, p, rest, m);
    hide Cut;
    Associate([t], rest[..m], Cut(line, p, rest, m));
  }

  /** Cutting the line at a character keeps the tokens that end before it and cuts
      the token, if any, that starts before it and reaches it. */
  lemma {:induction false} TokensOfPrefix(line: string, p: nat, k: nat)
    requires k <= p <= |line|
    ensures var ts := TokensFrom(line, k); var n := Before(ts, Offset(line, p));
            TokensFrom(line[..p], k) == ts[..n] + Cut(line, p, ts, n)
    decreases |line| - k
  {
    hide TokensFrom, Offset, TokenAt, TokenEnd, SkipBlank, IsBlank, CharsBefore, Before, Cut;
    var from := SkipBlank(line, k);
    if p <= from {
      NothingBeforeCut(line, p, k);
      assert TokensFrom(line, k)[..0] + [] == [];
    } else {
      var to := TokenEnd(line, from, from + 1);
      if p <= to {
        FirstIsCut(line, p, k);
        CutOnly(line, p, TokensFrom(line, k));
      } else {
        FirstIsKept(line, p, k);
        TokensOfPrefix(line, p, to);
        KeptInFront(line, p, TokensFrom(line, k)[0], TokensFrom(line, to), TokensFrom(line[..p], to));
      }
    }
  }

  lemma CutOnly(line: string, p: nat, ts: seq<Token>)
    requires p <= |line|
    ensures ts[..0] + Cut(line, p, ts, 0) == Cut(line, p, ts, 0)
  {
  }

  lemma ClampOfPrefix(line: string, cursor: nat, p: nat)
    requires p <= |line| && Clamp(line, cursor) == Offset(line, p)
    ensures Len(line[..p]) == Clamp(line[..p], cursor) == Offset(line, p)
  {
  }

  /** The tokens before an edited token are the ones that end before the cursor. */
  lemma {:induction false} EditedIsNext(line: string, cursor: nat)
    requires Tokenized(line, cursor).cursorToken.Some?
    ensures Tokenized(line, cursor).cursorToken.value == Before(Tokens(line), Clamp(line, cursor))
  {
    hide Clamp, TokensFrom, QueryOf;
    var i, n := Tokenized(line, cursor).cursorToken.value, Before(Tokens(line), Clamp(line, cursor));
    if n < i {
      Separated(line, 0, n, i);
    }
  }

  /** Cutting the line at the cursor leaves the cut token, which is now edited. */
  lemma {:induction false} CutIsEdited(line: string, cursor: nat, p: nat, n: nat)
    requires p <= |line| && Clamp(line, cursor) == Offset(line, p)
    requires n == Before(Tokens(line), Offset(line, p)) && Cut(line, p, Tokens(line), n) != []
    ensures n < |Tokens(line)| && CharsBefore(line, Tokens(line)[n].start) <= p
    ensures var q := Tokenized(line[..p], cursor);
            && q.cursorToken == Some(n)
            && q.query == Logical(line[CharsBefore(line, Tokens(line)[n].start)..p])
  {
    hide TokensFrom, Logical, CharsBefore, Slice, Bytes, IsCharBoundary;
    var ts, c, short := Tokens(line), Offset(line, p), line[..p];
    var from := CharsBefore(line, ts[n].start);
    ClampOfPrefix(line, cursor, p);
    TokensOfPrefix(line, p, 0);
    var cut := Tokens(short)[n];
    assert cut == TokenAt(short, from, p);
    assert forall j :: 0 <= j < n ==> Tokens(short)[j] == ts[j];
    assert short[..p] == short;
    SliceOfOffsets(short, from, p);
    assert Edits(cut, c, c);
    assert short[from..p] == line[from..p];
  }

  /** The tokenization of the line cut at the cursor. */
  lemma {:induction false} PrefixTokenized(line: string, cursor: nat, p: nat)
    requires p <= |line| && Clamp(line, cursor) == Offset(line, p)
    ensures var ts := Tokens(line); var n := Before(ts, Offset(line, p));
            var q := Tokenized(line[..p], cursor);
            && q.Committed() == ts[..n]
            && (Cut(line, p, ts, n) == [] ==> q.query == "")
  {
    hide Clamp, TokensFrom, QueryOf, Logical, CharsBefore, Offset, Len;
    var ts := Tokens(line);
    var n := Before(ts, Offset(line, p));
    ClampOfPrefix(line, cursor, p);
    TokensOfPrefix(line, p, 0);
    if Cut(line, p, ts, n) != [] {
      CutIsEdited(line, cursor, p, n);
      assert Tokens(line[..p])[..n] == ts[..n];
    } else {
      assert Tokens(line[..p]) == ts[..n];
    }
  }

  lemma {:induction false} EditedQuery(line: string, cursor: nat, p: nat)
    requires p <= |line| && Clamp(line, cursor) == Offset(line, p)
    requires Tokenized(line, cursor).cursorToken.Some?
    ensures Tokenized(line[..p], cursor).query == Tokenized(line, cursor).query
  {
    var n := Tokenized(line, cursor).cursorToken.value;
    var from, to, p' := EditedSpan(line, cursor);
    hide Clamp, Tokens, QueryOf, Logical, CharsBefore, Offset, Len, Edited;
    OffsetOrder(line, p, p');
    OffsetOrder(line, from, p);
    CharsBeforeOffset(line, from);
    EditedIsNext(line, cursor);
    PrefixTokenized(line, cursor, p);
    if from < p {
      CutIsEdited(line, cursor, p, n);
    } else {
      assert line[from..p] == "";
      assert Logical("") == "";
    }
  }

  /** The cursor is inside of a token, or at the end of one that ends the line; or it is
      past the end of every token. */
  ghost predicate IsInTokenOrPastAll(line: string, cursor: nat) {
    var ts, c := Tokens(line), Clamp(line, cursor);
    (exists i :: 0 <= i < |ts| && Edits(ts[i], c, Len(line))) || forall i :: 0 <= i < |ts| ==> ts[i].end < c
  }

  /** The engine sees the same committed tokens and query with and without the text
      after the cursor exactly when the cursor is there. Otherwise it touches a token that
      a blank follows, or is in whitespace before a token, and tokens after it are committed. */
  lemma {:induction false} TextAfterCursorIsIgnoredIff(line: string, cursor: nat)
    ensures var r := Tokenized(line, cursor); var q := Tokenized(Slice(line, 0, Clamp(line, cursor)), cursor);
            q.Committed() == r.Committed() && q.query == r.query <==> IsInTokenOrPastAll(line, cursor)
  {
    var r, c := Tokenized(line, cursor), Clamp(line, cursor);
    var ts, n := Tokens(line), Before(Tokens(line), c);
    hide TokensFrom, QueryOf, Snap;
    BoundaryIffOffset(line, c);
    var p :| 0 <= p <= |line| && c == Offset(line, p);
    OffsetEnds(line);
    SliceOfOffsets(line, 0, p);
    PrefixTokenized(line, cursor, p);
    if r.cursorToken.Some? {
      EditedIsNext(line, cursor);
      EditedQuery(line, cursor, p);
    } else {
      assert r.Committed() == ts;
      assert n == |ts| ==> ts[..n] == ts && Cut(line, p, ts, n) == [];
    }
  }

  /** The cursor counts as the greatest char boundary at or below it and the length. */
  lemma {:induction false} ClampIsGreatest(line: string, cursor: nat)
    ensures var c := Clamp(line, cursor);
            && c <= cursor && c <= Len(line) && IsCharBoundary(Bytes(line), c)
            && forall j :: c < j <= cursor && j <= Len(line) ==> !IsCharBoundary(Bytes(line), j)
  {
    hide IsCharBoundary, Bytes;
  }

  /** Every span contains at most one cursor. */
  lemma {:induction false} EditedOnce(line: string, c: nat, i: nat, j: nat)
    requires i < |Tokens(line)| && j < |Tokens(line)|
    requires Tokens(line)[i].start <= c <= Tokens(line)[i].end && Tokens(line)[j].start <= c <= Tokens(line)[j].end
    ensures i == j
  {
    hide TokensFrom;
    if i < j {
      Separated(line, 0, i, j);
    } else if j < i {
      Separated(line, 0, j, i);
    }
  }

  /** A token is edited iff the cursor is at its start or inside of it, or at its end and the
      end of the line. Then the tokens before it are committed, and what is typed of it
      before the cursor, unquoted, is the query; or else all are, and it is empty. */
  lemma {:induction false} TokenizedIs(line: string, cursor: nat)
    ensures var r, c := Tokenized(line, cursor), Clamp(line, cursor); var ts := Tokens(line);
            && r.tokens == ts
            && (forall i: nat :: r.cursorToken == Some(i) <==>
                  i < |ts| && ts[i].start <= c && (c < ts[i].end || c == ts[i].end == Len(line)))
            && (r.cursorToken.Some? ==> var i := r.cursorToken.value;
                  ts[i].start <= c && IsCharBoundary(Bytes(line), ts[i].start) && IsCharBoundary(Bytes(line), c)
                  && r.Committed() == ts[..i] && r.query == Logical(Slice(line, ts[i].start, c)))
            && (r.cursorToken.None? ==> r.Committed() == ts && r.query == "")
  {
    hide TokensFrom, IsCharBoundary, Bytes, Slice, Logical, Snap;
    var r, c := Tokenized(line, cursor), Clamp(line, cursor);
    var ts := Tokens(line);
    if r.cursorToken.Some? {
      SpanIsSliceable(line, r.cursorToken.value);
    }
    forall i: nat | i < |ts| && ts[i].start <= c && (c < ts[i].end || c == ts[i].end == Len(line))
      ensures r.cursorToken == Some(i)
    {
      assert Edits(ts[i], c, Len(line));
      EditedOnce(line, c, i, r.cursorToken.value);
    }
  }

  /** With the cursor at the end of a token, no other token is edited, and that one is
      exactly if it ends the line. */
  lemma {:induction false} CursorAtTokenEndEditsIff(line: string, i: nat)
    requires i < |Tokens(line)|
    ensures Tokens(line)[i].end <= Len(line)
    ensures var r := Tokenized(line, Tokens(line)[i].end);
            r.cursorToken == if Tokens(line)[i].end == Len(line) then Some(i) else None
  {
    hide TokensFrom, IsCharBoundary, Slice, Bytes;
    var ts := Tokens(line);
    var c := ts[i].end;
    SpanIsSliceable(line, i);
    assert Clamp(line, c) == c;
    forall j | 0 <= j < |ts| && j != i ensures !Edits(ts[j], c, Len(line)) {
      if j < i {
        Separated(line, 0, j, i);
      } else {
        Separated(line, 0, i, j);
      }
    }
  }

  /** So where a blank follows, every token is committed, those after the cursor too. */
  lemma {:induction false} CursorAtTokenEndCommitsAll(line: string, i: nat)
    requires i < |Tokens(line)| && Tokens(line)[i].end < Len(line)
    ensures var r := Tokenized(line, Tokens(line)[i].end);
            r.cursorToken == None && r.Committed() == Tokens(line) && r.query == ""
  {
    hide TokensFrom, IsCharBoundary, Slice, Bytes, Clamp;
    CursorAtTokenEndEditsIff(line, i);
  }

  /** One such line, `a b` with the cursor after `a`. */
  lemma {:induction false} TextAfterCursorCanMatter()
    ensures var r := Tokenized("a b", 1); var q := Tokenized(Slice("a b", 0, Clamp("a b", 1)), 1);
            r.Committed() != q.Committed() || r.query != q.query
  {
    FirstOfAB();
    hide TokensFrom, Bytes, Slice, IsCharBoundary;
    CursorAtTokenEndCommitsAll("a b", 0);
    SpanIsSliceable("a b", 0);
    assert Clamp("a b", 1) == 1;
    TextAfterCursorIsIgnoredIff("a b", 1);
  }

  lemma {:induction false} FirstOfAB()
    ensures |Tokens("a b")| > 0 && Tokens("a b")[0].end == 1 && Len("a b") == 3
  {
    var s := "a b";
    OffsetEnds(s);
    CharAt(s, 0);
    CharAt(s, 1);
    CharAt(s, 2);
    hide Offset, Bytes, TokensFrom, TokenAt, Len;
    NextToken(s, 0);
    FirstEndsAtBlank();
  }

  lemma FirstEndsAtBlank()
    ensures SkipBlank("a b", 0) == 0 && TokenEnd("a b", 0, 1) == 1
  {
    assert "a b"[0..1] == "a" && "a"[..0] == "";
    assert ModeAfter("") == Bare && ModeAfter("a") == Bare;
    assert Ends("a b", 0, 1);
  }
}
