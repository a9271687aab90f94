/** The tokenizer (crates/core/src/tokenize.rs): the two scanners, byte by byte and
    char by char, and the search for the token under the cursor. */
module Tokenize {
  import opened Wrappers
  import opened Sequences
  import opened Text
  import opened Utf8
  import opened Scanner

  /** `line[i..].chars().next().unwrap_or('\u{FFFD}')`. */
  function NextChar(line: string, i: nat): char
    requires IsCharBoundary(Bytes(line), i)
  {
    var rest := Slice(line, i, Len(line));
    if rest == "" then '\U{FFFD}' else rest[0]
  }

  /** `(bytes[i] as char).is_whitespace()`: the byte read as a Latin-1 character. */
  predicate ByteIsWhitespace(b: Byte) {
    IsWhitespace(b as char)
  }

  /** What a leading byte tells about its character. The two Latin-1 blanks
      outside ASCII, 0x85 and 0xA0, are continuation bytes and never lead. */
  lemma LeadingByte(c: char)
    ensures var b := Encode(c)[0];
            && (ByteIsWhitespace(b) <==> IsBlank(c))
            && (b == 39 <==> c == '\'')
            && (b == 34 <==> c == '"')
            && (b == 92 <==> c == '\\')
  {
    EncodeShape(c);
  }

  lemma {:induction false} NextCharAt(line: string, k: nat)
    requires k < |line|
    ensures IsCharBoundary(Bytes(line), Offset(line, k))
    ensures NextChar(line, Offset(line, k)) == line[k]
  {
    hide Bytes, IsCharBoundary, Slice;
    OffsetEnds(line);
    SliceOfOffsets(line, k, |line|);
  }

  /** What the byte at the offset of character `k` tells about that character. */
  lemma {:induction false} ByteAt(line: string, k: nat)
    requires k < |line|
    ensures var i := Offset(line, k);
            && i < |Bytes(line)|
            && IsCharBoundary(Bytes(line), i)
            && NextChar(line, i) == line[k]
            && Offset(line, k + 1) == i + Width(line[k]) <= |Bytes(line)|
    ensures var b := Bytes(line)[Offset(line, k)];
            && (ByteIsWhitespace(b) <==> IsBlank(line[k]))
            && (b == 39 <==> line[k] == '\'')
            && (b == 34 <==> line[k] == '"')
            && (b == 92 <==> line[k] == '\\')
    ensures line[k] as int < 0x80 ==> (Offset(line, k) + 1 < |Bytes(line)| <==> k + 1 < |line|)
  {
    hide Offset, Bytes, NextChar, ByteIsWhitespace, IsBlank, IsCharBoundary, Encode;
    CharAt(line, k);
    LeadingByte(line[k]);
    NextCharAt(line, k);
    AtOffset(line, k + 1);
  }

  /** Where a scan stands, in bytes and in characters. */
  lemma AtOffset(line: string, k: nat)
    requires k <= |line|
    ensures Offset(line, k) < |Bytes(line)| <==> k < |line|
  {
    OffsetEnds(line);
    OffsetOrder(line, k, |line|);
  }

  /** The scan of the token at `from` has reached character `k` with mode `m`. */
  ghost predicate Reading(line: string, from: nat, k: nat, m: Mode, text: string, quoted: bool) {
    && from <= k <= |line|
    && ModeAfter(line[from..k]) == m
    && text == Logical(line[from..k])
    && quoted == OpensQuote(line[from..k])
    && TokenEnd(line, from, k) == TokenEnd(line, from, from)
  }

  /** The scan has reached the end of the line, in whatever mode. */
  ghost predicate Exhausted(line: string, from: nat, k: nat, text: string, quoted: bool) {
    && from <= k == |line|
    && text == Logical(line[from..]) + Dangling(line[from..])
    && quoted == OpensQuote(line[from..])
    && TokenEnd(line, from, from) == |line|
  }

  lemma ReadOn(line: string, from: nat, k: nat, m: Mode, text: string, quoted: bool)
    requires Reading(line, from, k, m, text, quoted) && k < |line|
    requires m == Bare ==> !IsBlank(line[k])
    ensures Reading(line, from, k + 1, Next(m, line[k]), text + Emit(m, line[k]),
                    quoted || Next(m, line[k]) in {Single, Double})
  {
    Advance(line, from, k);
  }

  lemma ReadAll(line: string, from: nat, m: Mode, text: string, quoted: bool)
    requires Reading(line, from, |line|, m, text, quoted)
    ensures Exhausted(line, from, |line|, text + if m.IsEscape() then "\\" else "", quoted)
  {
    assert line[from..|line|] == line[from..];
  }

  /** Past the next single quote, or the end of the line. */
  function PastSingle(line: string, k: nat): (r: nat)
    requires k <= |line|
    ensures k <= r <= |line|
    decreases |line| - k
  {
    if k == |line| then k else if line[k] == '\'' then k + 1 else PastSingle(line, k + 1)
  }

  /** Past the character at `k`, or past the one after it if it is a backslash before the
      last character. */
  function PastChar(line: string, k: nat): (r: nat)
    requires k < |line|
    ensures k < r <= |line|
  {
    if line[k] == '\\' && k + 1 < |line| then k + 2 else k + 1
  }

  /** Past the next double quote that no backslash escapes, or the end of the line. */
  function PastDouble(line: string, k: nat): (r: nat)
    requires k <= |line|
    ensures k <= r <= |line|
    decreases |line| - k
  {
    if k == |line| then k else if line[k] == '"' then k + 1 else PastDouble(line, PastChar(line, k))
  }

  /** The loop inside single quotes: everything is literal. */
  method ScanSingle(line: string, i0: nat, text0: string, ghost from: nat, ghost k0: nat)
    returns (i: nat, text: string, ghost k: nat)
    requires Reading(line, from, k0, Single, text0, true) && i0 == Offset(line, k0)
    ensures from <= k0 <= |line| && k == PastSingle(line, k0) && i == Offset(line, k)
    ensures Reading(line, from, k, Bare, text, true) || Exhausted(line, from, k, text, true)
  {
    hide Reading, Exhausted, Offset, NextChar, ByteIsWhitespace, IsBlank, IsCharBoundary;
    var bytes := Bytes(line);
    i, text, k := i0, text0, k0;
    InRange(line, from, k, Single, text, true);
    while i < |bytes| && bytes[i] != 39
      invariant from <= k0 <= k <= |line| && i == Offset(line, k)
      invariant PastSingle(line, k0) == PastSingle(line, k)
      invariant Reading(line, from, k, Single, text, true)
      decreases |line| - k
    {
      AtOffset(line, k);
      ByteAt(line, k);
      ReadOn(line, from, k, Single, text, true);
      var c := NextChar(line, i);
      text := text + [c];
      i := i + Width(c);
      k := k + 1;
    }
    AtOffset(line, k);
    if i < |bytes| {
      ByteAt(line, k);
      ReadOn(line, from, k, Single, text, true);
      assert text + "" == text;
      i, k := i + 1, k + 1;
    } else {
      ReadAll(line, from, Single, text, true);
      assert text + "" == text;
    }
  }

  lemma InRange(line: string, from: nat, k: nat, m: Mode, text: string, quoted: bool)
    requires Reading(line, from, k, m, text, quoted)
    ensures from <= k <= |line|
  {
  }

  /** Takes one character literally; after a backslash, the one that follows it.
      A backslash that ends the line is itself the character. */
  method TakeChar(line: string, i0: nat, text0: string, quoted: bool, ghost from: nat, ghost k0: nat, ghost m: Mode)
    returns (i: nat, text: string, ghost k: nat)
    requires Reading(line, from, k0, m, text0, quoted) && i0 == Offset(line, k0) && k0 < |line|
    requires line[k0] != '"' && ((m == Double && quoted) || (m == Bare && line[k0] != '\'' && !IsBlank(line[k0])))
    ensures k == PastChar(line, k0) && i == Offset(line, k)
    ensures Reading(line, from, k, m, text, quoted) || Exhausted(line, from, k, text, quoted)
  {
    hide Reading, Exhausted, Offset, NextChar, ByteIsWhitespace, IsBlank, IsCharBoundary, Bytes;
    var bytes := Bytes(line);
    i, text, k := i0, text0, k0;
    ByteAt(line, k);
    ReadOn(line, from, k, m, text, quoted);
    if bytes[i] == 92 && i + 1 < |bytes| {
      assert text + "" == text;
      i, k := i + 1, k + 1;
      ByteAt(line, k);
      ReadOn(line, from, k, if m == Bare then BareEscape else DoubleEscape, text, quoted);
    } else if line[k] == '\\' {
      assert text + "" == text;
      ReadAll(line, from, if m == Bare then BareEscape else DoubleEscape, text, quoted);
    }
    var c := NextChar(line, i);
    text := text + [c];
    i := i + Width(c);
    k := k + 1;
  }

  /** The loop inside double quotes, where a backslash escapes the next character. */
  method ScanDouble(line: string, i0: nat, text0: string, ghost from: nat, ghost k0: nat)
    returns (i: nat, text: string, ghost k: nat)
    requires Reading(line, from, k0, Double, text0, true) && i0 == Offset(line, k0)
    ensures from <= k0 <= |line| && k == PastDouble(line, k0) && i == Offset(line, k)
    ensures Reading(line, from, k, Bare, text, true) || Exhausted(line, from, k, text, true)
  {
    hide Reading, Exhausted, Offset, NextChar, ByteIsWhitespace, IsBlank, IsCharBoundary;
    var bytes := Bytes(line);
    i, text, k := i0, text0, k0;
    InRange(line, from, k, Double, text, true);
    while i < |bytes| && bytes[i] != 34
      invariant from <= k0 <= k <= |line| && i == Offset(line, k)
      invariant PastDouble(line, k0) == PastDouble(line, k)
      invariant Reading(line, from, k, Double, text, true) || Exhausted(line, from, k, text, true)
      decreases |line| - k
    {
      AtOffset(line, k);
      ByteAt(line, k);
      NotExhausted(line, from, k, text, true);
      i, text, k := TakeChar(line, i, text, true, from, k, Double);
    }
    AtOffset(line, k);
    if i < |bytes| {
      ByteAt(line, k);
      NotExhausted(line, from, k, text, true);
      ReadOn(line, from, k, Double, text, true);
      assert text + "" == text;
      i, k := i + 1, k + 1;
    } else if Reading(line, from, k, Double, text, true) {
      ReadAll(line, from, Double, text, true);
      assert text + "" == text;
    }
  }

  lemma NotExhausted(line: string, from: nat, k: nat, text: string, quoted: bool)
    requires k < |line|
    ensures !Exhausted(line, from, k, text, quoted)
  {
  }

  /** A blank after a complete part of the token, or the end of the line, closes it. */
  lemma Closes(line: string, from: nat, k: nat, text: string, quoted: bool)
    requires from < |line| && !IsBlank(line[from]) && from <= k <= |line|
    requires Reading(line, from, k, Bare, text, quoted) || Exhausted(line, from, k, text, quoted)
    requires k < |line| ==> IsBlank(line[k])
    ensures k == TokenEnd(line, from, from + 1)
    ensures text == TokenAt(line, from, k).text && quoted == TokenAt(line, from, k).quoted
  {
    TokenIsNotEmpty(line, from);
    assert text + "" == text;
    if k == |line| {
      assert line[from..|line|] == line[from..];
    }
  }

  lemma Begin(line: string, from: nat)
    requires from <= |line|
    ensures Reading(line, from, from, Bare, "", false)
  {
    assert line[from..from] == "";
  }

  /** The loop over one token: bare characters, escapes and quoted parts. */
  method ScanToken(line: string, start: nat, ghost from: nat)
    returns (end: nat, text: string, quoted: bool, ghost to: nat)
    requires from < |line| && !IsBlank(line[from]) && start == Offset(line, from)
    ensures to == TokenEnd(line, from, from + 1) && end == Offset(line, to)
    ensures text == TokenAt(line, from, to).text && quoted == TokenAt(line, from, to).quoted
  {
    hide Reading, Exhausted, Offset, NextChar, ByteIsWhitespace, IsBlank, IsCharBoundary, TokenEnd, TokenAt;
    var bytes := Bytes(line);
    end, text, quoted, to := start, "", false, from;
    Begin(line, from);
    while end < |bytes|
      invariant from <= to <= |line| && end == Offset(line, to)
      invariant Reading(line, from, to, Bare, text, quoted) || Exhausted(line, from, to, text, quoted)
      decreases |line| - to
    {
      AtOffset(line, to);
      ByteAt(line, to);
      NotExhausted(line, from, to, text, quoted);
      if ByteIsWhitespace(bytes[end]) {
        break;
      }
      if bytes[end] == 39 {
        ReadOn(line, from, to, Bare, text, quoted);
        assert text + "" == text;
        quoted := true;
        end, text, to := ScanSingle(line, end + 1, text, from, to + 1);
      } else if bytes[end] == 34 {
        ReadOn(line, from, to, Bare, text, quoted);
        assert text + "" == text;
        quoted := true;
        end, text, to := ScanDouble(line, end + 1, text, from, to + 1);
      } else {
        end, text, to := TakeChar(line, end, text, quoted, from, to, Bare);
      }
    }
    AtOffset(line, to);
    Closes(line, from, to, text, quoted);
  }

  lemma SkipOne(line: string, k: nat)
    requires k < |line| && IsBlank(line[k])
    ensures SkipBlank(line, k) == SkipBlank(line, k + 1)
    ensures Width(line[k]) == 1
  {
  }

  /** The loop over leading whitespace. */
  method SkipWhitespace(line: string, i0: nat, ghost k0: nat) returns (i: nat, ghost k: nat)
    requires k0 <= |line| && i0 == Offset(line, k0)
    ensures k == SkipBlank(line, k0) && i == Offset(line, k)
  {
    hide Offset, ByteIsWhitespace, IsBlank, IsCharBoundary, Bytes;
    var bytes := Bytes(line);
    i, k := i0, k0;
    while i < |bytes| && ByteIsWhitespace(bytes[i])
      invariant k <= |line| && i == Offset(line, k)
      invariant SkipBlank(line, k0) == SkipBlank(line, k)
      decreases |line| - k
    {
      AtOffset(line, k);
      ByteAt(line, k);
      SkipOne(line, k);
      i, k := i + 1, k + 1;
    }
    AtOffset(line, k);
    if k < |line| {
      ByteAt(line, k);
    }
  }

  lemma NextToken(line: string, k: nat)
    requires k <= |line|
    ensures var from := SkipBlank(line, k);
            if from == |line| then TokensFrom(line, k) == []
            else
              var to := TokenEnd(line, from, from + 1);
              && !IsBlank(line[from])
              && from < to
              && TokensFrom(line, k) == [TokenAt(line, from, to)] + TokensFrom(line, to)
              && TokenAt(line, from, to).raw == line[from..to]
              && TokenAt(line, from, to).start == Offset(line, from)
              && TokenAt(line, from, to).end == Offset(line, to)
  {
  }

  /** `lex`. */
  method Lex(line: string) returns (tokens: seq<Token>)
    ensures tokens == Tokens(line)
  {
    hide Offset, IsBlank, TokensFrom, TokenAt, TokenEnd, IsCharBoundary, Bytes, SkipBlank, Slice;
    var bytes := Bytes(line);
    tokens := [];
    var i := 0;
    ghost var k := 0;
    OffsetEnds(line);
    while i < |bytes|
      invariant k <= |line| && i == Offset(line, k)
      invariant tokens + TokensFrom(line, k) == TokensFrom(line, 0)
      decreases |line| - k
    {
      AtOffset(line, k);
      NextToken(line, k);
      ghost var rest := TokensFrom(line, k);
      i, k := SkipWhitespace(line, i, k);
      AtOffset(line, k);
      if i >= |bytes| {
        NextToken(line, |line|);
        break;
      }
      var start := i;
      ghost var from := k;
      var text, quoted;
      i, text, quoted, k := ScanToken(line, start, from);
      SliceOfOffsets(line, from, k);
      var token := Token(text, Slice(line, start, i), start, i, quoted);
      assert rest == [token] + TokensFrom(line, k);
      Associate(tokens, [token], TokensFrom(line, k));
      tokens := tokens + [token];
    }
    AtOffset(line, k);
    NextToken(line, |line|);
    assert tokens + [] == tokens;
  }

  // ----- the streaming scanner

  /** The scan of a raw slice has consumed `k` characters. */
  ghost predicate Consumed(raw: string, k: nat, m: Mode, out: string, quoted: bool) {
    && k <= |raw|
    && ModeAfter(raw[..k]) == m
    && out == Logical(raw[..k])
    && quoted == OpensQuote(raw[..k])
  }

  lemma ConsumeOne(raw: string, k: nat, m: Mode, out: string, quoted: bool)
    requires Consumed(raw, k, m, out, quoted) && k < |raw|
    ensures Consumed(raw, k + 1, Next(m, raw[k]), out + Emit(m, raw[k]),
                     quoted || Next(m, raw[k]) in {Single, Double})
  {
    assert raw[0..k] == raw[..k] && raw[0..k + 1] == raw[..k + 1];
    Advance(raw, 0, k);
  }

  /** Drains the iterator up to the closing quote, which it consumes too. */
  method DrainSingle(raw: string, k0: nat, out0: string) returns (k: nat, out: string)
    requires Consumed(raw, k0, Single, out0, true)
    ensures k0 <= k <= |raw|
    ensures Consumed(raw, k, Bare, out, true) || (k == |raw| && Consumed(raw, k, Single, out, true))
  {
    k, out := k0, out0;
    while k < |raw|
      invariant k0 <= k <= |raw| && Consumed(raw, k, Single, out, true)
    {
      hide Consumed;
      ConsumeOne(raw, k, Single, out, true);
      var c := raw[k];
      k := k + 1;
      if c == '\'' {
        assert out + "" == out;
        break;
      }
      out := out + [c];
    }
  }

  method DrainDouble(raw: string, k0: nat, out0: string) returns (k: nat, out: string)
    requires Consumed(raw, k0, Double, out0, true)
    ensures k0 <= k <= |raw|
    ensures Consumed(raw, k, Bare, out, true) || (k == |raw| && exists m :: Consumed(raw, k, m, out, true))
  {
    k, out := k0, out0;
    while k < |raw|
      invariant k0 <= k <= |raw|
      invariant Consumed(raw, k, Double, out, true) || (k == |raw| && Consumed(raw, k, DoubleEscape, out, true))
    {
      hide Consumed;
      ConsumeOne(raw, k, Double, out, true);
      var c := raw[k];
      k := k + 1;
      assert out + "" == out;
      if c == '"' {
        break;
      }
      if c == '\\' {
        if k < |raw| {
          ConsumeOne(raw, k, DoubleEscape, out, true);
          out := out + [raw[k]];
          k := k + 1;
        }
      } else {
        out := out + [c];
      }
    }
  }

  /** `unquote`. */
  method Unquote(raw: string) returns (out: string, quoted: bool)
    ensures out == Logical(raw) && quoted == OpensQuote(raw)
  {
    out, quoted := "", false;
    var k := 0;
    while k < |raw|
      invariant Consumed(raw, k, Bare, out, quoted) || (k == |raw| && exists m :: Consumed(raw, k, m, out, quoted))
      decreases |raw| - k
    {
      hide Consumed;
      var ch := raw[k];
      ConsumeOne(raw, k, Bare, out, quoted);
      k := k + 1;
      assert out + "" == out;
      if ch == '\'' {
        quoted := true;
        k, out := DrainSingle(raw, k, out);
      } else if ch == '"' {
        quoted := true;
        k, out := DrainDouble(raw, k, out);
      } else if ch == '\\' {
        if k < |raw| {
          ConsumeOne(raw, k, BareEscape, out, quoted);
          out := out + [raw[k]];
          k := k + 1;
        }
      } else {
        out := out + [ch];
      }
    }
    assert raw[..|raw|] == raw;
  }

  // ----- the token under the cursor

  datatype TokenList = TokenList(tokens: seq<Token>, cursorToken: Option<nat>, query: string) {
    /** Tokens the parser must consume: those before the edited one, or all. */
    function Committed(): seq<Token>
      requires cursorToken.Some? ==> cursorToken.value <= |tokens|
    {
      match cursorToken
      case Some(i) => tokens[..i]
      case None => tokens
    }
  }

  /** The greatest char boundary at or below the cursor. */
  function Snap(bytes: seq<Byte>, cursor: nat): (c: nat)
    requires cursor <= |bytes|
    ensures c <= cursor && IsCharBoundary(bytes, c)
    ensures forall j :: c < j <= cursor ==> !IsCharBoundary(bytes, j)
  {
    if cursor == 0 || IsCharBoundary(bytes, cursor) then cursor else Snap(bytes, cursor - 1)
  }

  function Clamp(line: string, cursor: nat): (c: nat)
    ensures c <= Len(line) && IsCharBoundary(Bytes(line), c)
  {
    Snap(Bytes(line), if cursor <= Len(line) then cursor else Len(line))
  }

  /** The cursor edits a token it is inside of, or at whose end the line ends. */
  predicate Edits(t: Token, c: nat, len: nat) {
    t.start <= c && (c < t.end || (c == t.end && c == len))
  }

  function Edited(tokens: seq<Token>, c: nat, len: nat, i: nat): (r: Option<nat>)
    requires i <= |tokens|
    ensures r.Some? ==> i <= r.value < |tokens| && Edits(tokens[r.value], c, len)
    ensures r.Some? ==> forall j :: i <= j < r.value ==> !Edits(tokens[j], c, len)
    ensures r.None? ==> forall j :: i <= j < |tokens| ==> !Edits(tokens[j], c, len)
    decreases |tokens| - i
  {
    if i == |tokens| then None
    else if Edits(tokens[i], c, len) then Some(i)
    else Edited(tokens, c, len, i + 1)
  }

  /** Every token is a stretch of characters that starts on a non-blank and goes
      on to the first blank outside quotes and escapes. */
  lemma {:induction false} Span(line: string, k: nat, i: nat) returns (from: nat, to: nat)
    requires k <= |line| && i < |TokensFrom(line, k)|
    ensures k <= from < to <= |line| && !IsBlank(line[from]) && to == TokenEnd(line, from, from + 1)
    ensures TokensFrom(line, k)[i] == TokenAt(line, from, to)
    decreases |line| - k
  {
    hide IsBlank, TokensFrom, TokenAt, TokenEnd, SkipBlank;
    NextToken(line, k);
    from := SkipBlank(line, k);
    to := TokenEnd(line, from, from + 1);
    if i == 0 {
    } else {
      from, to := Span(line, to, i - 1);
    }
  }

  /** Spans are made of char boundaries, so slicing at them never panics. */
  lemma {:induction false} SpanIsSliceable(line: string, i: nat)
    requires i < |Tokens(line)|
    ensures var t := Tokens(line)[i];
            && IsCharBoundary(Bytes(line), t.start) && IsCharBoundary(Bytes(line), t.end)
            && t.start < t.end <= Len(line)
            && Slice(line, t.start, t.end) == t.raw
  {
    hide IsBlank, TokensFrom, TokenEnd, SkipBlank, IsCharBoundary, Slice, Bytes;
    var from, to := Span(line, 0, i);
    SliceOfOffsets(line, from, to);
    OffsetOrder(line, from, to);
    BytesOfSlice(line, from, to);
  }

  /** What follows a token is the end of the line or a blank. */
  lemma {:induction false} TokenEndsBeforeBlank(line: string, i: nat)
    requires i < |Tokens(line)|
    ensures var end := Tokens(line)[i].end;
            && end <= Len(line) && IsCharBoundary(Bytes(line), end) && IsCharBoundary(Bytes(line), Len(line))
            && var rest := Slice(line, end, Len(line));
            && (rest == "" <==> end == Len(line))
            && (rest != "" ==> IsWhitespace(rest[0]))
  {
    hide TokensFrom, SkipBlank, IsCharBoundary, Slice, Bytes;
    var from, to := Span(line, 0, i);
    OffsetEnds(line);
    SliceOfOffsets(line, to, |line|);
    OffsetOrder(line, to, |line|);
  }

  /** The unquoted part of the edited token before the cursor. */
  function QueryOf(line: string, c: nat, i: nat): string
    requires i < |Tokens(line)| && Tokens(line)[i].start <= c && IsCharBoundary(Bytes(line), c)
  {
    SpanIsSliceable(line, i);
    Logical(Slice(line, Tokens(line)[i].start, c))
  }

  function Tokenized(line: string, cursor: nat): (r: TokenList)
    ensures r.cursorToken.Some? ==> r.cursorToken.value < |r.tokens|
  {
    var c := Clamp(line, cursor);
    var at := Edited(Tokens(line), c, Len(line), 0);
    TokenList(Tokens(line), at, if at.Some? then QueryOf(line, c, at.value) else "")
  }

  /** `clamp_cursor`. */
  method ClampCursor(line: string, cursor: nat) returns (c: nat)
    ensures c == Clamp(line, cursor)
  {
    var bytes := Bytes(line);
    c := if cursor <= |bytes| then cursor else |bytes|;
    while c > 0 && !IsCharBoundary(bytes, c)
      invariant c <= |bytes| && Snap(bytes, c) == Clamp(line, cursor)
    {
      c := c - 1;
    }
  }

  /** The loop that looks for the token the cursor edits. */
  method FindEdited(line: string, tokens: seq<Token>, cursor: nat) returns (r: Option<nat>)
    requires tokens == Tokens(line) && cursor <= Len(line) && IsCharBoundary(Bytes(line), cursor)
    ensures r == Edited(tokens, cursor, Len(line), 0)
  {
    hide IsCharBoundary, Slice, TokensFrom, IsWhitespace, Bytes;
    var len := |Bytes(line)|;
    r := None;
    var i := 0;
    while i < |tokens|
      invariant i <= |tokens|
      invariant Edited(tokens, cursor, len, 0) == Edited(tokens, cursor, len, i)
    {
      var tok := tokens[i];
      var here: Option<nat> := Some(i);
      if tok.start <= cursor <= tok.end {
        if cursor < tok.end {
          return here;
        }
        TokenEndsBeforeBlank(line, i);
        var rest := Slice(line, cursor, len);
        var nextIsBoundary := rest == "" || IsWhitespace(rest[0]);
        if nextIsBoundary && cursor == len {
          return here;
        }
        if !nextIsBoundary {
          return here;
        }
      }
      i := i + 1;
    }
  }

  /** `tokenize`. */
  method TokenizeLine(line: string, cursor: nat) returns (r: TokenList)
    ensures r == Tokenized(line, cursor)
  {
    hide TokensFrom, Bytes, IsCharBoundary, Slice;
    var c := ClampCursor(line, cursor);
    var tokens := Lex(line);
    var cursorToken := FindEdited(line, tokens, c);
    var query := "";
    if cursorToken.Some? {
      SpanIsSliceable(line, cursorToken.value);
      var quoted;
      query, quoted := Unquote(Slice(line, tokens[cursorToken.value].start, c));
    }
    return TokenList(tokens, cursorToken, query);
  }
}
