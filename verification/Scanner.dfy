/** What the two scanners of crates/core/src/tokenize.rs compute, as one automaton
    over characters: `unquote` runs it on a raw slice, and `lex` runs it on a line
    until a blank outside quotes. */
module Scanner {
  import opened Utf8

  datatype Mode = Bare | Single | Double | BareEscape | DoubleEscape {
    predicate IsEscape() {
      BareEscape? || DoubleEscape?
    }
  }

  function Next(m: Mode, c: char): Mode {
    match m
    case Bare => if c == '\'' then Single else if c == '"' then Double else if c == '\\' then BareEscape else Bare
    case Single => if c == '\'' then Bare else Single
    case Double => if c == '"' then Bare else if c == '\\' then DoubleEscape else Double
    case BareEscape => Bare
    case DoubleEscape => Double
  }

  /** The logical text a character contributes. */
  function Emit(m: Mode, c: char): string {
    match m
    case Bare => if c == '\'' || c == '"' || c == '\\' then "" else [c]
    case Single => if c == '\'' then "" else [c]
    case Double => if c == '"' || c == '\\' then "" else [c]
    case BareEscape => [c]
    case DoubleEscape => [c]
  }

  function ModeAfter(s: string): Mode {
    if s == "" then Bare else Next(ModeAfter(s[..|s| - 1]), s[|s| - 1])
  }

  /** The logical text of a raw slice: quotes removed, escapes resolved. */
  function Logical(s: string): string {
    if s == "" then "" else Logical(s[..|s| - 1]) + Emit(ModeAfter(s[..|s| - 1]), s[|s| - 1])
  }

  /** Whether a quote was opened. */
  function OpensQuote(s: string): bool {
    s != "" && (OpensQuote(s[..|s| - 1]) || Next(ModeAfter(s[..|s| - 1]), s[|s| - 1]) in {Single, Double})
  }

  /** The backslash that `lex` keeps when nothing follows it. */
  function Dangling(raw: string): string {
    if ModeAfter(raw).IsEscape() then "\\" else ""
  }

  lemma Advance(s: string, from: nat, k: nat)
    requires from <= k < |s|
    ensures ModeAfter(s[from..k + 1]) == Next(ModeAfter(s[from..k]), s[k])
    ensures Logical(s[from..k + 1]) == Logical(s[from..k]) + Emit(ModeAfter(s[from..k]), s[k])
    ensures OpensQuote(s[from..k + 1]) ==
            (OpensQuote(s[from..k]) || Next(ModeAfter(s[from..k]), s[k]) in {Single, Double})
  {
    var t := s[from..k + 1];
    assert t[..|t| - 1] == s[from..k] && t[|t| - 1] == s[k];
  }

  /** Reading on never takes back text. */
  lemma {:induction false} LogicalIsMonotone(s: string, k: nat)
    requires k <= |s|
    ensures Logical(s[..k]) <= Logical(s)
    decreases |s|
  {
    if k == |s| {
      assert s[..k] == s;
    } else {
      var t := s[..|s| - 1];
      LogicalIsMonotone(t, k);
      assert t[..k] == s[..k];
    }
  }

  // ----- tokens of a line

  datatype Token = Token(text: string, raw: string, start: nat, end: nat, quoted: bool)

  /** The whitespace that a byte-wise scan can meet at a char boundary. */
  predicate IsBlank(c: char) {
    9 <= c as int <= 13 || c == ' '
  }

  predicate IsBlankByte(b: Byte) {
    9 <= b <= 13 || b == 32
  }

  function SkipBlank(s: string, k: nat): (r: nat)
    requires k <= |s|
    ensures k <= r <= |s|
    ensures r < |s| ==> !IsBlank(s[r])
    ensures forall j :: k <= j < r ==> IsBlank(s[j])
    decreases |s| - k
  {
    if k < |s| && IsBlank(s[k]) then SkipBlank(s, k + 1) else k
  }

  /** A blank outside quotes and escapes ends the token that starts at `from`. */
  predicate Ends(s: string, from: nat, k: nat)
    requires from <= k < |s|
  {
    IsBlank(s[k]) && ModeAfter(s[from..k]) == Bare
  }

  function TokenEnd(s: string, from: nat, k: nat): (r: nat)
    requires from <= k <= |s|
    ensures k <= r <= |s|
    ensures r < |s| ==> Ends(s, from, r)
    ensures forall j :: k <= j < r ==> !Ends(s, from, j)
    decreases |s| - k
  {
    if k < |s| && !Ends(s, from, k) then TokenEnd(s, from, k + 1) else k
  }

  function TokenAt(s: string, from: nat, to: nat): Token
    requires from <= to <= |s|
  {
    var raw := s[from..to];
    Token(Logical(raw) + Dangling(raw), raw, Offset(s, from), Offset(s, to), OpensQuote(raw))
  }

  /** The tokens from character `k` on, when `k` is not inside a token. */
  function TokensFrom(s: string, k: nat): seq<Token>
    requires k <= |s|
    decreases |s| - k
  {
    var from := SkipBlank(s, k);
    if from == |s| then []
    else
      var to := TokenEnd(s, from, from + 1);
      [TokenAt(s, from, to)] + TokensFrom(s, to)
  }

  function Tokens(s: string): seq<Token> {
    TokensFrom(s, 0)
  }

  /** A token that starts on a non-blank has at least that character. */
  lemma TokenIsNotEmpty(s: string, from: nat)
    requires from < |s| && !IsBlank(s[from])
    ensures TokenEnd(s, from, from) == TokenEnd(s, from, from + 1)
  {
  }
}
