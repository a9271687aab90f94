/** What quotes and backslashes mean, as a grammar of words rather than a scan: a word is a
    sequence of pieces, and both scanners read it as the text that the pieces stand for. */
module Quoting {
  import opened Sequences
  import opened Scanner
  import opened Tokenize

  // ----- the grammar

  /** A character between double quotes. */
  datatype QuotedChar = Same(c: char) | Slashed(c: char)

  datatype Piece =
    | Plain(c: char)
    | Escaped(c: char)
    | SingleQuoted(s: string)
    | DoubleQuoted(cs: seq<QuotedChar>)

  /** How a slice may stop short: in an open quote, or right after a backslash. */
  datatype Tail = Closed | OpenSingle(s: string) | OpenDouble(cs: seq<QuotedChar>) | CutDouble(cs: seq<QuotedChar>) | Cut

  predicate AreQuotable(cs: seq<QuotedChar>) {
    forall i :: 0 <= i < |cs| ==> cs[i].Same? ==> cs[i].c != '"' && cs[i].c != '\\'
  }

  predicate IsPiece(p: Piece) {
    match p
    case Plain(c) => c != '\'' && c != '"' && c != '\\'
    case Escaped(_) => true
    case SingleQuoted(s) => '\'' !in s
    case DoubleQuoted(cs) => AreQuotable(cs)
  }

  predicate IsTail(t: Tail) {
    match t
    case OpenSingle(s) => '\'' !in s
    case OpenDouble(cs) => AreQuotable(cs)
    case CutDouble(cs) => AreQuotable(cs)
    case _ => true
  }

  predicate ArePieces(ps: seq<Piece>) {
    forall i :: 0 <= i < |ps| ==> IsPiece(ps[i])
  }

  function WrittenChars(cs: seq<QuotedChar>): string {
    if cs == [] then "" else WrittenChars(Init(cs)) + if Last(cs).Same? then [Last(cs).c] else ['\\', Last(cs).c]
  }

  function CharsText(cs: seq<QuotedChar>): string {
    if cs == [] then "" else CharsText(Init(cs)) + [Last(cs).c]
  }

  function Written(p: Piece): string {
    match p
    case Plain(c) => [c]
    case Escaped(c) => ['\\', c]
    case SingleQuoted(s) => "'" + s + "'"
    case DoubleQuoted(cs) => "\"" + WrittenChars(cs) + "\""
  }

  function PieceText(p: Piece): string {
    match p
    case Plain(c) => [c]
    case Escaped(c) => [c]
    case SingleQuoted(s) => s
    case DoubleQuoted(cs) => CharsText(cs)
  }

  function WrittenWord(ps: seq<Piece>): string {
    if ps == [] then "" else WrittenWord(Init(ps)) + Written(Last(ps))
  }

  function WordText(ps: seq<Piece>): string {
    if ps == [] then "" else WordText(Init(ps)) + PieceText(Last(ps))
  }

  predicate HasQuotes(ps: seq<Piece>) {
    exists i :: 0 <= i < |ps| && (ps[i].SingleQuoted? || ps[i].DoubleQuoted?)
  }

  function WrittenTail(t: Tail): string {
    match t
    case Closed => ""
    case OpenSingle(s) => "'" + s
    case OpenDouble(cs) => "\"" + WrittenChars(cs)
    case CutDouble(cs) => "\"" + WrittenChars(cs) + "\\"
    case Cut => "\\"
  }

  function TailText(t: Tail): string {
    match t
    case OpenSingle(s) => s
    case OpenDouble(cs) => CharsText(cs)
    case CutDouble(cs) => CharsText(cs)
    case _ => ""
  }

  predicate IsCut(t: Tail) {
    t.Cut? || t.CutDouble?
  }

  predicate OpensTail(t: Tail) {
    t.OpenSingle? || t.OpenDouble? || t.CutDouble?
  }

  // ----- every slice is written in one such way

  /** A slice is a word that may stop short. */
  lemma {:induction false} EverySliceIsWritten(raw: string) returns (ps: seq<Piece>, t: Tail)
    ensures ArePieces(ps) && IsTail(t) && raw == WrittenWord(ps) + WrittenTail(t)
    decreases |raw|
  {
    if raw == "" {
      ps, t := [], Closed;
    } else {
      hide *;
      var n := |raw| - 1;
      ps, t := EverySliceIsWritten(raw[..n]);
      assert raw == raw[..n] + [raw[n]];
      ps, t := SliceGrows(ps, t, raw[n]);
    }
  }

  lemma {:induction false} SliceGrows(ps: seq<Piece>, t: Tail, c: char) returns (qs: seq<Piece>, u: Tail)
    requires ArePieces(ps) && IsTail(t)
    ensures ArePieces(qs) && IsTail(u)
    ensures WrittenWord(ps) + WrittenTail(t) + [c] == WrittenWord(qs) + WrittenTail(u)
  {
    u := NextTail(t, c);
    TailGrows(t, c);
    hide WrittenWord, Written, WrittenTail, IsPiece, IsTail, NextTail, NextPiece, HasQuotes, HasBlanks, WordText;
    Associate(WrittenWord(ps), WrittenTail(t), [c]);
    if u.Closed? {
      WordGrows(ps, NextPiece(t, c));
      ClosedIsEmpty();
      qs := ps + [NextPiece(t, c)];
    } else {
      qs := ps;
    }
  }

  lemma ClosedIsEmpty()
    ensures WrittenTail(Closed) == "" && forall s: string :: s + "" == s
  {
  }

  lemma WordGrows(ps: seq<Piece>, p: Piece)
    ensures WrittenWord(ps + [p]) == WrittenWord(ps) + Written(p)
    ensures WordText(ps + [p]) == WordText(ps) + PieceText(p)
    ensures HasQuotes(ps + [p]) <==> HasQuotes(ps) || p.SingleQuoted? || p.DoubleQuoted?
    ensures HasBlanks(ps + [p]) <==> HasBlanks(ps) || (p.Plain? && IsSpace(p.c))
  {
    hide Written, PieceText, IsSpace;
    var all := ps + [p];
    assert Init(all) == ps && all[|ps|] == p && forall i :: 0 <= i < |ps| ==> all[i] == ps[i];
  }

  lemma CharsGrow(cs: seq<QuotedChar>, q: QuotedChar)
    ensures WrittenChars(cs + [q]) == WrittenChars(cs) + if q.Same? then [q.c] else ['\\', q.c]
    ensures CharsText(cs + [q]) == CharsText(cs) + [q.c]
  {
    assert Init(cs + [q]) == cs;
  }

  /** One more character: what the tail becomes, */
  function NextTail(t: Tail, c: char): Tail {
    match t
    case Closed =>
      if c == '\'' then OpenSingle("") else if c == '"' then OpenDouble([]) else if c == '\\' then Cut else Closed
    case OpenSingle(s) => if c == '\'' then Closed else OpenSingle(s + [c])
    case OpenDouble(cs) => if c == '"' then Closed else if c == '\\' then CutDouble(cs) else OpenDouble(cs + [Same(c)])
    case CutDouble(cs) => OpenDouble(cs + [Slashed(c)])
    case Cut => Closed
  }

  /** and the piece that it closes. */
  function NextPiece(t: Tail, c: char): Piece {
    match t
    case OpenSingle(s) => SingleQuoted(s)
    case OpenDouble(cs) => DoubleQuoted(cs)
    case Cut => Escaped(c)
    case _ => Plain(c)
  }

  lemma {:induction false} TailGrows(t: Tail, c: char)
    requires IsTail(t)
    ensures IsTail(NextTail(t, c))
    ensures if NextTail(t, c).Closed? then IsPiece(NextPiece(t, c)) && WrittenTail(t) + [c] == Written(NextPiece(t, c))
            else WrittenTail(t) + [c] == WrittenTail(NextTail(t, c))
  {
    hide WrittenChars;
    match t
    case OpenSingle(w) =>
      Associate("'", w, [c]);
    case OpenDouble(cs) =>
      CharsGrow(cs, Same(c));
      Associate("\"", WrittenChars(cs), [c]);
    case CutDouble(cs) =>
      CharsGrow(cs, Slashed(c));
      assert "\"" + WrittenChars(cs) + "\\" + [c] == "\"" + (WrittenChars(cs) + ['\\', c]);
    case Closed =>
      NoChars();
      assert "" + [c] == [c] && "'" + "" == "'" && "\"" + "" == "\"";
    case Cut =>
      assert "\\" + [c] == ['\\', c];
  }

  lemma NoChars()
    ensures WrittenChars([]) == "" && CharsText([]) == ""
  {
  }

  // ----- what the automaton makes of it

  /** No blank of the slice ends a token that starts with it. */
  ghost predicate IsSolid(s: string) {
    forall j :: 0 <= j < |s| ==> !(IsBlank(s[j]) && ModeAfter(s[..j]) == Bare)
  }

  ghost predicate Reads(s: string, m: Mode, text: string, quoted: bool, solid: bool) {
    ModeAfter(s) == m && Logical(s) == text && OpensQuote(s) == quoted && (solid ==> IsSolid(s))
  }

  lemma {:induction false} Push(s: string, c: char, m: Mode, text: string, quoted: bool, solid: bool)
    requires Reads(s, m, text, quoted, solid)
    ensures Reads(s + [c], Next(m, c), text + Emit(m, c), quoted || Next(m, c) in {Single, Double},
                  solid && !(m == Bare && IsBlank(c)))
  {
    var t := s + [c];
    assert t[..|t| - 1] == s && t[|t| - 1] == c;
    if solid && !(m == Bare && IsBlank(c)) {
      forall j | 0 <= j < |t| ensures !(IsBlank(t[j]) && ModeAfter(t[..j]) == Bare) {
        assert t[..j] == s[..j];
      }
    }
  }

  lemma EmptyReads()
    ensures Reads("", Bare, "", false, true)
  {
  }

  lemma {:induction false} SingleReads(s: string, w: string, text: string, quoted: bool, solid: bool)
    requires Reads(s, Bare, text, quoted, solid) && '\'' !in w
    ensures Reads(s + ("'" + w), Single, text + w, true, solid)
    decreases |w|
  {
    hide Reads;
    if w == "" {
      Push(s, '\'', Bare, text, quoted, solid);
      assert s + ("'" + w) == s + ['\''] && text + "" == text;
    } else {
      SingleReads(s, Init(w), text, quoted, solid);
      Push(s + ("'" + Init(w)), Last(w), Single, text + Init(w), true, solid);
      assert s + ("'" + Init(w)) + [Last(w)] == s + ("'" + w);
      assert text + Init(w) + [Last(w)] == text + w;
    }
  }

  lemma {:induction false} DoubleReads(s: string, cs: seq<QuotedChar>, text: string, quoted: bool, solid: bool)
    requires Reads(s, Bare, text, quoted, solid) && AreQuotable(cs)
    ensures Reads(s + ("\"" + WrittenChars(cs)), Double, text + CharsText(cs), true, solid)
    decreases |cs|
  {
    hide Reads;
    if cs == [] {
      Push(s, '"', Bare, text, quoted, solid);
      assert s + ("\"" + "") == s + ['"'] && text + "" == text;
    } else {
      var init, q := cs[..|cs| - 1], cs[|cs| - 1];
      assert cs == init + [q];
      DoubleReads(s, init, text, quoted, solid);
      CharsGrow(init, q);
      hide WrittenChars, CharsText;
      QuotedCharReads(s + ("\"" + WrittenChars(init)), q, text + CharsText(init), solid);
      Regroup(s, "\"", WrittenChars(init), if q.Same? then [q.c] else ['\\', q.c]);
      Associate(text, CharsText(init), [q.c]);
    }
  }

  lemma Regroup(s: string, q: string, w: string, x: string)
    ensures s + (q + w) + x == s + (q + (w + x))
  {
  }

  lemma {:induction false} QuotedCharReads(s: string, q: QuotedChar, text: string, solid: bool)
    requires Reads(s, Double, text, true, solid) && AreQuotable([q])
    ensures Reads(s + if q.Same? then [q.c] else ['\\', q.c], Double, text + [q.c], true, solid)
  {
    hide Reads;
    assert [q][0] == q;
    if q.Same? {
      Push(s, q.c, Double, text, true, solid);
    } else {
      Push(s, '\\', Double, text, true, solid);
      assert text + "" == text;
      Push(s + ['\\'], q.c, DoubleEscape, text, true, solid);
      assert s + ['\\'] + [q.c] == s + ['\\', q.c];
    }
  }

  lemma {:induction false} PieceReads(s: string, p: Piece, text: string, quoted: bool, solid: bool)
    requires Reads(s, Bare, text, quoted, solid) && IsPiece(p)
    ensures Reads(s + Written(p), Bare, text + PieceText(p), quoted || p.SingleQuoted? || p.DoubleQuoted?,
                  solid && !(p.Plain? && IsSpace(p.c)))
  {
    hide Reads, IsBlank, IsSpace;
    NoBlankQuotes();
    match p
    case Plain(c) =>
      SpaceIsBlank(c);
      Push(s, c, Bare, text, quoted, solid);
    case Escaped(c) =>
      Push(s, '\\', Bare, text, quoted, solid);
      assert text + "" == text;
      Push(s + ['\\'], c, BareEscape, text, quoted, solid);
      assert s + ['\\'] + [c] == s + ['\\', c];
    case SingleQuoted(w) =>
      SingleReads(s, w, text, quoted, solid);
      Push(s + ("'" + w), '\'', Single, text + w, true, solid);
      assert s + ("'" + w) + ['\''] == s + ("'" + w + "'") && text + w + "" == text + w;
    case DoubleQuoted(cs) =>
      var t := text + CharsText(cs);
      DoubleReads(s, cs, text, quoted, solid);
      Push(s + ("\"" + WrittenChars(cs)), '"', Double, t, true, solid);
      assert s + ("\"" + WrittenChars(cs)) + ['"'] == s + ("\"" + WrittenChars(cs) + "\"") && t + "" == t;
  }

  lemma NoBlankQuotes()
    ensures !IsBlank('\'') && !IsBlank('"') && !IsBlank('\\')
  {
  }

  /** ASCII whitespace. */
  predicate IsSpace(c: char) {
    c as int in {9, 10, 11, 12, 13, 32}
  }

  lemma SpaceIsBlank(c: char)
    ensures IsSpace(c) <==> IsBlank(c)
  {
  }

  predicate HasBlanks(ps: seq<Piece>) {
    exists i :: 0 <= i < |ps| && ps[i].Plain? && IsSpace(ps[i].c)
  }

  lemma {:induction false} WordSnoc(ps: seq<Piece>, p: Piece)
    requires IsPiece(p) && Reads(WrittenWord(ps), Bare, WordText(ps), HasQuotes(ps), !HasBlanks(ps))
    ensures var all := ps + [p]; Reads(WrittenWord(all), Bare, WordText(all), HasQuotes(all), !HasBlanks(all))
  {
    hide *;
    PieceReads(WrittenWord(ps), p, WordText(ps), HasQuotes(ps), !HasBlanks(ps));
    WordGrows(ps, p);
  }

  lemma {:induction false} WordReads(ps: seq<Piece>)
    requires ArePieces(ps)
    ensures Reads(WrittenWord(ps), Bare, WordText(ps), HasQuotes(ps), !HasBlanks(ps))
    decreases |ps|
  {
    hide WrittenWord, WordText, HasQuotes, HasBlanks, IsPiece, Reads;
    if ps == [] {
      NoPiecesRead();
    } else {
      var init, p := ps[..|ps| - 1], ps[|ps| - 1];
      WordReads(init);
      WordSnoc(init, p);
      assert ps == init + [p];
    }
  }

  lemma NoPiecesRead()
    ensures Reads(WrittenWord([]), Bare, WordText([]), HasQuotes([]), !HasBlanks([]))
  {
    EmptyReads();
  }

  lemma {:induction false} TailReads(s: string, t: Tail, text: string, quoted: bool, solid: bool) returns (m: Mode)
    requires Reads(s, Bare, text, quoted, solid) && IsTail(t)
    ensures Reads(s + WrittenTail(t), m, text + TailText(t), quoted || OpensTail(t), solid)
    ensures m.IsEscape() <==> IsCut(t)
  {
    hide Reads, IsBlank;
    NoBlankQuotes();
    match t
    case Closed =>
      assert s + "" == s && text + "" == text;
      m := Bare;
    case OpenSingle(w) =>
      SingleReads(s, w, text, quoted, solid);
      m := Single;
    case OpenDouble(cs) =>
      DoubleReads(s, cs, text, quoted, solid);
      m := Double;
    case CutDouble(cs) =>
      var u := text + CharsText(cs);
      DoubleReads(s, cs, text, quoted, solid);
      Push(s + ("\"" + WrittenChars(cs)), '\\', Double, u, true, solid);
      assert s + ("\"" + WrittenChars(cs)) + ['\\'] == s + ("\"" + WrittenChars(cs) + "\\") && u + "" == u;
      m := DoubleEscape;
    case Cut =>
      Push(s, '\\', Bare, text, quoted, solid);
      assert text + "" == text;
      m := BareEscape;
  }

  /** A slice reads as the text of its pieces and of its tail: quotes go, and a backslash goes
      outside single quotes, whatever it stands before; `lex` keeps one that nothing follows. */
  lemma {:induction false} SliceReads(ps: seq<Piece>, t: Tail)
    requires ArePieces(ps) && IsTail(t)
    ensures var raw := WrittenWord(ps) + WrittenTail(t);
            && Logical(raw) == WordText(ps) + TailText(t)
            && OpensQuote(raw) == (HasQuotes(ps) || OpensTail(t))
            && Dangling(raw) == (if IsCut(t) then "\\" else "")
            && (!HasBlanks(ps) ==> IsSolid(raw))
            && (t.Closed? ==> ModeAfter(raw) == Bare)
  {
    hide IsSolid, HasBlanks, HasQuotes;
    WordReads(ps);
    var m := TailReads(WrittenWord(ps), t, WordText(ps), HasQuotes(ps), !HasBlanks(ps));
    if t.Closed? {
      assert WrittenWord(ps) + "" == WrittenWord(ps);
    }
  }


  // ----- lines

  /** A gap and the word after it. */
  datatype Stretch = Stretch(gap: string, pieces: seq<Piece>, tail: Tail)

  predicate IsGap(g: string) {
    forall i :: 0 <= i < |g| ==> IsSpace(g[i])
  }

  function Raw(x: Stretch): string {
    WrittenWord(x.pieces) + WrittenTail(x.tail)
  }

  function StretchText(x: Stretch): string {
    WordText(x.pieces) + TailText(x.tail) + if IsCut(x.tail) then "\\" else ""
  }

  function Line(xs: seq<Stretch>, trail: string): string {
    if xs == [] then trail else xs[0].gap + (Raw(xs[0]) + Line(xs[1..], trail))
  }

  predicate IsStretch(x: Stretch) {
    && IsGap(x.gap) && ArePieces(x.pieces) && IsTail(x.tail)
    && !HasBlanks(x.pieces) && (x.pieces != [] || !x.tail.Closed?)
  }

  /** Words between gaps; only the last may stop short, at the end of the line. */
  predicate IsLaidOut(xs: seq<Stretch>, trail: string) {
    && IsGap(trail)
    && (forall i :: 0 <= i < |xs| ==> IsStretch(xs[i]))
    && (forall i :: 0 < i < |xs| ==> xs[i].gap != "")
    && (forall i :: 0 <= i < |xs| && !xs[i].tail.Closed? ==> i == |xs| - 1 && trail == "")
  }

  /** The token is that word. */
  predicate IsTokenOf(t: Token, x: Stretch) {
    t.raw == Raw(x) && t.text == StretchText(x) && t.quoted == (HasQuotes(x.pieces) || OpensTail(x.tail))
  }

  predicate AreTokensOf(ts: seq<Token>, xs: seq<Stretch>) {
    |ts| == |xs| && forall i :: 0 <= i < |xs| ==> IsTokenOf(ts[i], xs[i])
  }

  lemma {:induction false} RawIsNotEmpty(x: Stretch)
    requires IsStretch(x)
    ensures Raw(x) != ""
  {
    hide HasBlanks, ArePieces, IsGap;
    if x.pieces != [] {
      assert Written(Last(x.pieces)) != "";
    }
  }

  lemma SplitSlice(line: string, k: nat, w: string, rest: string)
    requires k <= |line| && line[k..] == w + rest
    ensures k + |w| <= |line| && line[k..k + |w|] == w && line[k + |w|..] == rest
  {
    assert line[k..][..|w|] == line[k..k + |w|] && line[k..][|w|..] == line[k + |w|..];
  }

  /** Leading whitespace up to something else is skipped. */
  lemma {:induction false} SkipsGap(line: string, k: nat, g: string)
    requires k + |g| <= |line| && line[k..k + |g|] == g && IsGap(g)
    requires k + |g| < |line| ==> !IsBlank(line[k + |g|])
    ensures SkipBlank(line, k) == k + |g|
    decreases |g|
  {
    if g == "" {
    } else {
      SpaceIsBlank(g[0]);
      assert line[k] == line[k..k + |g|][0];
      assert line[k + 1..k + 1 + |g[1..]|] == line[k..k + |g|][1..];
      SkipsGap(line, k + 1, g[1..]);
    }
  }

  /** A solid slice that ends bare before a blank, or ends the line, is a token. */
  lemma {:induction false} SolidIsToken(line: string, from: nat, raw: string)
    requires raw != "" && from + |raw| <= |line| && line[from..from + |raw|] == raw && IsSolid(raw)
    requires from + |raw| < |line| ==> IsBlank(line[from + |raw|]) && ModeAfter(raw) == Bare
    ensures TokenEnd(line, from, from + 1) == from + |raw| && !IsBlank(line[from])
  {
    hide IsBlank, ModeAfter;
    var to := from + |raw|;
    forall j | from <= j < to ensures !Ends(line, from, j) {
      SliceAt(line, from, raw, j);
    }
    assert to < |line| ==> Ends(line, from, to);
    SliceAt(line, from, raw, from);
    EmptyIsBare();
    assert raw[..0] == "";
  }

  lemma SliceAt(line: string, from: nat, raw: string, j: nat)
    requires from <= j < from + |raw| <= |line| && line[from..from + |raw|] == raw
    ensures raw[j - from] == line[j] && raw[..j - from] == line[from..j]
  {
    assert line[from..from + |raw|][..j - from] == line[from..j];
    assert line[from..from + |raw|][j - from] == line[j];
  }

  lemma EmptyIsBare()
    ensures ModeAfter("") == Bare
  {
  }

  /** What the automaton makes of a stretch. */
  lemma {:induction false} StretchReads(x: Stretch)
    requires IsStretch(x)
    ensures var raw := Raw(x);
            && raw != "" && IsSolid(raw)
            && (x.tail.Closed? ==> ModeAfter(raw) == Bare)
            && Logical(raw) + Dangling(raw) == StretchText(x)
            && OpensQuote(raw) == (HasQuotes(x.pieces) || OpensTail(x.tail))
  {
    RawIsNotEmpty(x);
    hide IsSolid, WrittenWord, WordText, HasQuotes, HasBlanks, ArePieces, IsTail, IsGap, WrittenTail, TailText,
      OpensTail;
    hide Logical, OpensQuote, Dangling, ModeAfter;
    SliceReads(x.pieces, x.tail);
  }

  lemma {:induction false} StretchIsToken(line: string, from: nat, x: Stretch)
    requires IsStretch(x) && from + |Raw(x)| <= |line| && line[from..from + |Raw(x)|] == Raw(x)
    requires from + |Raw(x)| < |line| ==> IsBlank(line[from + |Raw(x)|]) && x.tail.Closed?
    ensures Raw(x) != "" && TokenEnd(line, from, from + 1) == from + |Raw(x)| && !IsBlank(line[from])
    ensures IsTokenOf(TokenAt(line, from, from + |Raw(x)|), x)
  {
    hide IsStretch, IsSolid, Raw, StretchText, HasQuotes, OpensTail, Logical, OpensQuote, Dangling, ModeAfter,
      TokenEnd, IsBlank;
    StretchReads(x);
    SolidIsToken(line, from, Raw(x));
  }

  /** What comes after a word is a gap, or nothing. */
  lemma {:induction false} AfterWord(xs: seq<Stretch>, trail: string)
    requires xs != [] && IsLaidOut(xs, trail)
    ensures IsLaidOut(xs[1..], trail)
    ensures var rest := Line(xs[1..], trail);
            rest != "" ==> IsBlank(rest[0]) && xs[0].tail.Closed?
  {
    hide IsStretch, Raw, IsSpace;
    var rest := Line(xs[1..], trail);
    if rest != "" {
      SpaceIsBlank(rest[0]);
      if |xs| == 1 {
        assert rest == trail;
      } else {
        assert xs[1..][0] == xs[1] && xs[1].gap != "" && rest[0] == xs[1].gap[0] && IsStretch(xs[1]);
        FirstIsSpace(xs[1]);
      }
    }
  }

  lemma FirstIsSpace(x: Stretch)
    requires IsStretch(x) && x.gap != ""
    ensures IsSpace(x.gap[0])
  {
  }

  lemma {:induction false} LineReadsFrom(line: string, k: nat, xs: seq<Stretch>, trail: string)
    requires k <= |line| && line[k..] == Line(xs, trail) && IsLaidOut(xs, trail)
    ensures AreTokensOf(TokensFrom(line, k), xs)
    decreases |xs|
  {
    hide TokenAt, TokenEnd, TokensFrom, SkipBlank, IsBlank, IsTokenOf, IsStretch, IsGap, Raw;
    if xs == [] {
      NothingReadsFrom(line, k, trail);
    } else {
      AfterWord(xs, trail);
      var to := StretchReadsFrom(line, k, xs, trail);
      LineReadsFrom(line, to, xs[1..], trail);
    }
  }

  lemma {:induction false} NothingReadsFrom(line: string, k: nat, trail: string)
    requires k <= |line| && line[k..] == trail && IsGap(trail)
    ensures TokensFrom(line, k) == []
  {
    hide TokenAt, TokenEnd, TokensFrom, SkipBlank, IsBlank, IsGap;
    assert line[k..][..|trail|] == line[k..k + |trail|];
    SkipsGap(line, k, trail);
    NextToken(line, k);
  }

  lemma {:induction false} StretchReadsFrom(line: string, k: nat, xs: seq<Stretch>, trail: string) returns (to: nat)
    requires k <= |line| && line[k..] == Line(xs, trail) && IsLaidOut(xs, trail) && xs != []
    ensures to <= |line| && line[to..] == Line(xs[1..], trail)
    ensures |TokensFrom(line, k)| > 0 && IsTokenOf(TokensFrom(line, k)[0], xs[0])
    ensures TokensFrom(line, k)[1..] == TokensFrom(line, to)
  {
    var x, rest := xs[0], Line(xs[1..], trail);
    assert IsStretch(x);
    AfterWord(xs, trail);
    hide *;
    to := SplitTwice(line, k, x.gap, Raw(x), rest);
    FirstToken(line, k, to, x);
  }

  /** A gap and a word at `k`, and a blank or the end after them. */
  lemma {:induction false} FirstToken(line: string, k: nat, to: nat, x: Stretch)
    requires IsStretch(x) && k + |x.gap| + |Raw(x)| == to <= |line|
    requires line[k..k + |x.gap|] == x.gap && line[k + |x.gap|..to] == Raw(x)
    requires to < |line| ==> IsBlank(line[to]) && x.tail.Closed?
    ensures |TokensFrom(line, k)| > 0 && IsTokenOf(TokensFrom(line, k)[0], x)
    ensures TokensFrom(line, k)[1..] == TokensFrom(line, to)
  {
    hide *;
    GapOf(x);
    StretchIsToken(line, k + |x.gap|, x);
    SkipsGap(line, k, x.gap);
    NextToken(line, k);
  }

  lemma SplitTwice(line: string, k: nat, g: string, w: string, rest: string) returns (to: nat)
    requires k <= |line| && line[k..] == g + (w + rest)
    ensures var from := k + |g|; to == from + |w| <= |line| && line[k..from] == g && line[from..to] == w
    ensures line[to..] == rest
    ensures to < |line| ==> rest != "" && line[to] == rest[0]
  {
    SplitSlice(line, k, g, w + rest);
    SplitSlice(line, k + |g|, w, rest);
    to := k + |g| + |w|;
    assert to < |line| ==> line[to] == line[to..][0];
  }

  lemma GapOf(x: Stretch)
    requires IsStretch(x)
    ensures IsGap(x.gap)
  {
  }

  /** A laid out line is read as its words, one token for each. */
  lemma {:induction false} LineReads(xs: seq<Stretch>, trail: string)
    requires IsLaidOut(xs, trail)
    ensures AreTokensOf(Tokens(Line(xs, trail)), xs)
  {
    hide TokensFrom, Line, IsLaidOut, AreTokensOf;
    var line := Line(xs, trail);
    assert line[0..] == line;
    LineReadsFrom(line, 0, xs, trail);
  }

  // ----- every line is laid out in some such way

  lemma {:induction false} LineGrows(xs: seq<Stretch>, x: Stretch, trail: string)
    ensures Line(xs + [x], trail) == Line(xs, "") + (x.gap + (Raw(x) + trail))
    decreases |xs|
  {
    hide Raw;
    if xs == [] {
      assert [x][1..] == [];
      assert "" + (x.gap + (Raw(x) + trail)) == x.gap + (Raw(x) + trail);
    } else {
      var y := xs[0];
      assert (xs + [x])[1..] == xs[1..] + [x];
      LineGrows(xs[1..], x, trail);
      hide Line;
      Associate(Raw(y), Line(xs[1..], ""), x.gap + (Raw(x) + trail));
      Associate(y.gap, Raw(y) + Line(xs[1..], ""), x.gap + (Raw(x) + trail));
    }
  }

  /** The line without its trailing gap. */
  lemma {:induction false} LineTrail(xs: seq<Stretch>, trail: string)
    ensures Line(xs, trail) == Line(xs, "") + trail
    decreases |xs|
  {
    hide Raw;
    if xs == [] {
      assert "" + trail == trail;
    } else {
      LineTrail(xs[1..], trail);
      hide Line;
      Associate(Raw(xs[0]), Line(xs[1..], ""), trail);
      Associate(xs[0].gap, Raw(xs[0]) + Line(xs[1..], ""), trail);
    }
  }

  /** One more character in the gap at the end. */
  lemma {:induction false} GapGrows(xs: seq<Stretch>, trail: string, c: char)
    requires IsLaidOut(xs, trail) && IsSpace(c) && (xs == [] || xs[|xs| - 1].tail.Closed?)
    ensures IsLaidOut(xs, trail + [c]) && Line(xs, trail) + [c] == Line(xs, trail + [c])
  {
    hide IsStretch, IsSpace, Line;
    assert IsGap(trail + [c]);
    assert IsLaidOut(xs, trail + [c]);
    hide IsLaidOut;
    LineTrail(xs, trail);
    LineTrail(xs, trail + [c]);
    Associate(Line(xs, ""), trail, [c]);
  }

  /** The character that starts a word, or goes on with one. */
  lemma {:induction false} StretchGrows(x: Stretch, c: char) returns (y: Stretch)
    requires IsGap(x.gap) && ArePieces(x.pieces) && IsTail(x.tail) && !HasBlanks(x.pieces)
    requires x.tail.Closed? ==> !IsSpace(c)
    ensures IsStretch(y) && y.gap == x.gap && Raw(x) + [c] == Raw(y)
  {
    hide IsSpace, WrittenWord, WordText, WrittenTail, Written, HasQuotes, IsPiece;
    var t, p := NextTail(x.tail, c), NextPiece(x.tail, c);
    TailGrows(x.tail, c);
    Associate(WrittenWord(x.pieces), WrittenTail(x.tail), [c]);
    ClosedIsEmpty();
    WordGrows(x.pieces, p);
    y := Stretch(x.gap, if t.Closed? then x.pieces + [p] else x.pieces, t);
  }

  /** Which takes a new last stretch, or the last one again. */
  lemma {:induction false} WordStarts(xs: seq<Stretch>, trail: string, c: char) returns (ys: seq<Stretch>)
    requires IsLaidOut(xs, trail) && !IsSpace(c) && (xs == [] || trail != "")
    ensures IsLaidOut(ys, "") && Line(xs, trail) + [c] == Line(ys, "")
  {
    hide IsStretch, IsSpace, Line, Raw;
    NoHasBlanks();
    var x := StretchGrows(Stretch(trail, [], Closed), c);
    ys := xs + [x];
    LineGrows(xs, x, "");
    LineTrail(xs, trail);
    EmptyRaw(trail);
    hide IsLaidOut;
    assert Raw(x) == [c] && trail + ([c] + "") == trail + [c];
    Associate(Line(xs, ""), trail, [c]);
  }

  lemma NoHasBlanks()
    ensures !HasBlanks([]) && ArePieces([])
  {
  }

  lemma EmptyRaw(gap: string)
    ensures forall c: char :: Raw(Stretch(gap, [], Closed)) + [c] == [c]
  {
  }

  lemma {:induction false} WordGoesOn(xs: seq<Stretch>, c: char) returns (ys: seq<Stretch>)
    requires IsLaidOut(xs, "") && xs != [] && (IsSpace(c) ==> !xs[|xs| - 1].tail.Closed?)
    ensures IsLaidOut(ys, "") && Line(xs, "") + [c] == Line(ys, "")
  {
    var n := |xs| - 1;
    var init, x := xs[..n], xs[n];
    assert IsStretch(x) && xs == init + [x];
    StretchParts(x);
    var y := StretchGrows(x, c);
    LastReplaced(xs, y);
    hide *;
    ys := init + [y];
    LineGrows(init, x, "");
    LineGrows(init, y, "");
    Regroup(Line(init, ""), x.gap, Raw(x) + "", [c]);
    AppendNothing(Raw(x), [c]);
    AppendNothing(Raw(y), [c]);
  }

  lemma {:induction false} LastReplaced(xs: seq<Stretch>, y: Stretch)
    requires IsLaidOut(xs, "") && xs != [] && IsStretch(y) && y.gap == xs[|xs| - 1].gap
    ensures IsLaidOut(xs[..|xs| - 1] + [y], "")
  {
    hide IsStretch;
    var ys := xs[..|xs| - 1] + [y];
    assert forall i :: 0 <= i < |xs| - 1 ==> ys[i] == xs[i];
  }

  lemma AppendNothing(s: string, t: string)
    ensures s + "" == s && s + "" + t == s + t
  {
  }

  lemma StretchParts(x: Stretch)
    requires IsStretch(x)
    ensures IsGap(x.gap) && ArePieces(x.pieces) && IsTail(x.tail) && !HasBlanks(x.pieces)
  {
  }

  /** So `LineReads` says of every line what its tokens are. */
  lemma {:induction false} EveryLineIsLaidOut(line: string) returns (xs: seq<Stretch>, trail: string)
    ensures IsLaidOut(xs, trail) && line == Line(xs, trail)
    decreases |line|
  {
    hide IsSpace;
    if line == "" {
      xs, trail := [], "";
    } else {
      hide IsLaidOut, Line, IsStretch;
      var n := |line| - 1;
      var c := line[n];
      assert line == line[..n] + [c];
      xs, trail := EveryLineIsLaidOut(line[..n]);
      if IsSpace(c) && (xs == [] || xs[|xs| - 1].tail.Closed?) {
        GapGrows(xs, trail, c);
        trail := trail + [c];
      } else if xs == [] || trail != "" {
        OpenIsLast(xs, trail);
        xs := WordStarts(xs, trail, c);
        trail := "";
      } else {
        xs := WordGoesOn(xs, c);
      }
    }
  }

  lemma OpenIsLast(xs: seq<Stretch>, trail: string)
    requires IsLaidOut(xs, trail)
    ensures xs != [] && trail != "" ==> xs[|xs| - 1].tail.Closed?
  {
  }

  // ----- quoting is undone

  datatype Style = Backslashes | SingleQuotes | DoubleQuotes

  /** A backslash where a double quoted word needs one. */
  function Slash(w: string): seq<QuotedChar> {
    if w == "" then [] else Slash(Init(w)) + [if Last(w) == '"' || Last(w) == '\\' then Slashed(Last(w)) else Same(Last(w))]
  }

  function EscapeAll(w: string): seq<Piece> {
    seq(|w|, i requires 0 <= i < |w| => Escaped(w[i]))
  }

  function Quoted(w: string, style: Style): seq<Piece> {
    match style
    case Backslashes => EscapeAll(w)
    case SingleQuotes => [SingleQuoted(w)]
    case DoubleQuotes => [DoubleQuoted(Slash(w))]
  }

  /** Backslashes can not write the empty word, and single quotes not themselves. */
  predicate CanQuote(w: string, style: Style) {
    match style
    case Backslashes => w != ""
    case SingleQuotes => '\'' !in w
    case DoubleQuotes => true
  }

  lemma {:induction false} SlashReads(w: string)
    ensures AreQuotable(Slash(w)) && CharsText(Slash(w)) == w
    decreases |w|
  {
    if w == "" {
    } else {
      var init, c := w[..|w| - 1], w[|w| - 1];
      var q := if c == '"' || c == '\\' then Slashed(c) else Same(c);
      SlashReads(init);
      assert Slash(w) == Slash(init) + [q];
      hide Slash, WrittenChars;
      CharsGrow(Slash(init), q);
      hide CharsText;
      assert w == init + [c];
    }
  }

  lemma {:induction false} EscapeAllReads(w: string)
    ensures ArePieces(EscapeAll(w)) && !HasBlanks(EscapeAll(w)) && WordText(EscapeAll(w)) == w
    decreases |w|
  {
    if w == "" {
    } else {
      var init := w[..|w| - 1];
      EscapeAllReads(init);
      assert EscapeAll(w) == EscapeAll(init) + [Escaped(w[|w| - 1])];
      hide EscapeAll;
      WordGrows(EscapeAll(init), Escaped(w[|w| - 1]));
    }
  }

  lemma {:induction false} QuotedReads(w: string, style: Style)
    requires CanQuote(w, style)
    ensures var ps := Quoted(w, style); ps != [] && ArePieces(ps) && !HasBlanks(ps) && WordText(ps) == w
  {
    hide EscapeAll, Slash, WordText, HasBlanks;
    match style
    case Backslashes =>
      EscapeAllReads(w);
      assert |EscapeAll(w)| == |w| by {
        EscapeAllLength(w);
      }
    case SingleQuotes =>
      OnePiece(SingleQuoted(w));
    case DoubleQuotes =>
      SlashReads(w);
      OnePiece(DoubleQuoted(Slash(w)));
  }

  lemma EscapeAllLength(w: string)
    ensures |EscapeAll(w)| == |w|
  {
  }

  lemma OnePiece(p: Piece)
    ensures WrittenWord([p]) == Written(p) && WordText([p]) == PieceText(p)
    ensures HasBlanks([p]) <==> p.Plain? && IsSpace(p.c)
  {
    hide Written, PieceText, IsSpace;
    assert Init([p]) == [] && "" + Written(p) == Written(p) && "" + PieceText(p) == PieceText(p);
    assert [p][0] == p;
  }

  function QuotedWords(words: seq<string>, styles: seq<Style>): seq<Stretch>
    requires |words| == |styles|
  {
    seq(|words|, i requires 0 <= i < |words| => Stretch(if i == 0 then "" else " ", Quoted(words[i], styles[i]), Closed))
  }

  function Texts(ts: seq<Token>): seq<string> {
    seq(|ts|, i requires 0 <= i < |ts| => ts[i].text)
  }

  /** Words of any characters, each quoted in one of the three ways and joined by blanks,
      come back as the texts of the tokens. */
  lemma {:induction false} LexUndoesQuoting(words: seq<string>, styles: seq<Style>)
    requires |words| == |styles| && forall i :: 0 <= i < |words| ==> CanQuote(words[i], styles[i])
    ensures Texts(Tokens(Line(QuotedWords(words, styles), ""))) == words
  {
    var xs := QuotedWords(words, styles);
    hide Quoted, CanQuote, Tokens, Line, Raw, IsStretch, StretchText, HasQuotes;
    forall i | 0 <= i < |xs| ensures IsStretch(xs[i]) && StretchText(xs[i]) == words[i] {
      QuotedStretch(if i == 0 then "" else " ", words[i], styles[i]);
    }
    LineReads(xs, "");
  }

  lemma {:induction false} QuotedStretch(gap: string, w: string, style: Style)
    requires CanQuote(w, style) && gap in {"", " "}
    ensures var x := Stretch(gap, Quoted(w, style), Closed); IsStretch(x) && StretchText(x) == w
  {
    hide Quoted, CanQuote, WordText, HasBlanks, ArePieces;
    QuotedReads(w, style);
    assert w + "" + "" == w;
  }

  /** Between double quotes a backslash stands for the character after it, whichever that is. */
  lemma {:induction false} DoubleQuotedReads(cs: seq<QuotedChar>)
    requires AreQuotable(cs)
    ensures var raw := "\"" + WrittenChars(cs) + "\""; Logical(raw) == CharsText(cs) && ModeAfter(raw) == Bare
  {
    var p := DoubleQuoted(cs);
    hide WrittenWord, WordText, HasQuotes, HasBlanks, Logical, ModeAfter, WrittenChars, CharsText;
    OnePiece(p);
    SliceReads([p], Closed);
    assert Written(p) + "" == Written(p) && PieceText(p) + "" == PieceText(p);
  }

  /** Between single quotes everything stands for itself. */
  lemma {:induction false} SingleQuotedReads(w: string)
    requires '\'' !in w
    ensures Logical("'" + w + "'") == w && ModeAfter("'" + w + "'") == Bare
  {
    var p := SingleQuoted(w);
    hide WrittenWord, WordText, HasQuotes, HasBlanks, Logical, ModeAfter, WrittenChars, CharsText;
    OnePiece(p);
    SliceReads([p], Closed);
    assert Written(p) + "" == Written(p) && PieceText(p) + "" == PieceText(p);
  }
}
