/** Operations of the Rust standard library on text that the engine relies on.

    A Rust `str` is a sequence of Unicode scalar values, which is what a Dafny
    `string` is. Its bytes are in module `Utf8`. */
module Text {
  import opened Wrappers

  /** `char::is_whitespace`: the Unicode property White_Space. */
  predicate IsWhitespace(c: char) {
    var u := c as int;
    || 0x09 <= u <= 0x0D || u == 0x20 || u == 0x85 || u == 0xA0 || u == 0x1680
    || 0x2000 <= u <= 0x200A || u == 0x2028 || u == 0x2029 || u == 0x202F || u == 0x205F || u == 0x3000
  }

  predicate IsDigit(c: char) {
    '0' <= c <= '9'
  }

  // ----- order

  /** The order of strings, by scalar values. */
  predicate StrLe(a: string, b: string) {
    a == "" || (b != "" && (a[0] < b[0] || (a[0] == b[0] && StrLe(a[1..], b[1..]))))
  }

  lemma {:induction false} StrLeTotal(a: string, b: string)
    ensures StrLe(a, b) || StrLe(b, a)
    ensures StrLe(a, b) && StrLe(b, a) ==> a == b
  {
    if a == "" || b == "" || a[0] != b[0] {
    } else {
      StrLeTotal(a[1..], b[1..]);
      assert a == [a[0]] + a[1..] && b == [b[0]] + b[1..];
    }
  }

  lemma {:induction false} StrLeTransitive(a: string, b: string, c: string)
    requires StrLe(a, b) && StrLe(b, c)
    ensures StrLe(a, c)
  {
    if a == "" || b == "" || c == "" || a[0] != b[0] || b[0] != c[0] {
    } else {
      StrLeTransitive(a[1..], b[1..], c[1..]);
    }
  }

  lemma StrLeIsTotalOrder()
    ensures forall a, b :: StrLe(a, b) || StrLe(b, a)
    ensures forall a, b :: StrLe(a, b) && StrLe(b, a) ==> a == b
    ensures forall a, b, c :: StrLe(a, b) && StrLe(b, c) ==> StrLe(a, c)
  {
    forall a, b ensures StrLe(a, b) || StrLe(b, a) {
      StrLeTotal(a, b);
    }
    forall a, b | StrLe(a, b) && StrLe(b, a) ensures a == b {
      StrLeTotal(a, b);
    }
    forall a, b, c | StrLe(a, b) && StrLe(b, c) ensures StrLe(a, c) {
      StrLeTransitive(a, b, c);
    }
  }

  // ----- searching

  predicate OccursAt(s: string, pat: string, k: nat) {
    k <= |s| && pat <= s[k..]
  }

  predicate Contains(s: string, pat: string) {
    exists k :: 0 <= k <= |s| && OccursAt(s, pat, k)
  }

  function FindFrom(s: string, pat: string, k: nat): (r: Option<nat>)
    requires k <= |s|
    ensures r.Some? ==> k <= r.value && OccursAt(s, pat, r.value)
    ensures r.Some? ==> forall j :: k <= j < r.value ==> !OccursAt(s, pat, j)
    ensures r.None? ==> forall j :: k <= j <= |s| ==> !OccursAt(s, pat, j)
    decreases |s| - k
  {
    if OccursAt(s, pat, k) then Some(k)
    else if k == |s| then None
    else FindFrom(s, pat, k + 1)
  }

  /** `str::find`: where `pat` first occurs. */
  function Find(s: string, pat: string): (r: Option<nat>)
    ensures r.Some? ==> OccursAt(s, pat, r.value) && forall j :: 0 <= j < r.value ==> !OccursAt(s, pat, j)
    ensures r.None? <==> !Contains(s, pat)
  {
    FindFrom(s, pat, 0)
  }

  /** A position where `pat` occurs and before which it does not is what `Find`
      returns. */
  lemma FindIs(s: string, pat: string, k: nat)
    requires OccursAt(s, pat, k) && forall j :: 0 <= j < k ==> !OccursAt(s, pat, j)
    ensures Find(s, pat) == Some(k)
  {
    assert Contains(s, pat);
    var f := Find(s, pat).value;
    assert OccursAt(s, pat, f);
  }

  /** `str::trim_start`. */
  function TrimStart(s: string): string {
    if s != "" && IsWhitespace(s[0]) then TrimStart(s[1..]) else s
  }

  function TrimEnd(s: string): string
    decreases |s|
  {
    if s != "" && IsWhitespace(s[|s| - 1]) then TrimEnd(s[..|s| - 1]) else s
  }

  /** `str::trim`. */
  function Trim(s: string): string {
    TrimEnd(TrimStart(s))
  }

  predicate IsBlankText(s: string) {
    forall k :: 0 <= k < |s| ==> IsWhitespace(s[k])
  }

  lemma {:induction false} TrimStartIs(s: string)
    ensures TrimStart(s) == "" <==> IsBlankText(s)
    ensures TrimStart(s) != "" ==> !IsWhitespace(TrimStart(s)[0])
  {
    if s == "" || !IsWhitespace(s[0]) {
    } else {
      TrimStartIs(s[1..]);
      assert s == [s[0]] + s[1..];
    }
  }

  lemma {:induction false} TrimEndIs(s: string)
    ensures TrimEnd(s) == "" <==> IsBlankText(s)
    ensures TrimEnd(s) != "" ==> TrimEnd(s)[0] == s[0] && !IsWhitespace(TrimEnd(s)[|TrimEnd(s)| - 1])
    decreases |s|
  {
    if s == "" || !IsWhitespace(s[|s| - 1]) {
    } else {
      TrimEndIs(s[..|s| - 1]);
      assert s == s[..|s| - 1] + [s[|s| - 1]];
    }
  }

  /** Trimming leaves nothing of a blank text, and otherwise no whitespace at either end. */
  lemma {:induction false} TrimIs(s: string)
    ensures Trim(s) == "" <==> IsBlankText(s)
    ensures Trim(s) != "" ==> !IsWhitespace(Trim(s)[0]) && !IsWhitespace(Trim(s)[|Trim(s)| - 1])
    ensures s != "" && !IsWhitespace(s[0]) && !IsWhitespace(s[|s| - 1]) ==> Trim(s) == s
  {
    hide IsWhitespace;
    TrimStartIs(s);
    TrimEndIs(TrimStart(s));
  }

  // ----- splitting and joining on whitespace

  /** How many leading characters are not whitespace. */
  function WordLength(s: string): (n: nat)
    ensures n <= |s|
    ensures n < |s| ==> IsWhitespace(s[n])
    ensures forall j :: 0 <= j < n ==> !IsWhitespace(s[j])
  {
    if s == "" || IsWhitespace(s[0]) then 0 else 1 + WordLength(s[1..])
  }

  /** `str::split_whitespace`. */
  function SplitWhitespace(s: string): seq<string>
    decreases |s|
  {
    if s == "" then []
    else if IsWhitespace(s[0]) then SplitWhitespace(s[1..])
    else
      var n := WordLength(s);
      [s[..n]] + SplitWhitespace(s[n..])
  }

  /** `join(" ")`. */
  function Join(words: seq<string>): string {
    if words == [] then ""
    else if |words| == 1 then words[0]
    else words[0] + " " + Join(words[1..])
  }

  predicate IsWord(w: string) {
    w != "" && forall k :: 0 <= k < |w| ==> !IsWhitespace(w[k])
  }

  lemma {:induction false} SplitYieldsWords(s: string)
    ensures forall w :: w in SplitWhitespace(s) ==> IsWord(w)
    decreases |s|
  {
    if s == "" {
    } else if IsWhitespace(s[0]) {
      SplitYieldsWords(s[1..]);
    } else {
      SplitYieldsWords(s[WordLength(s)..]);
    }
  }

  lemma {:induction false} WordLengthOf(w: string, rest: string)
    requires forall k :: 0 <= k < |w| ==> !IsWhitespace(w[k])
    requires rest == "" || IsWhitespace(rest[0])
    ensures WordLength(w + rest) == |w|
  {
    if w == "" {
      assert w + rest == rest;
    } else {
      assert (w + rest)[1..] == w[1..] + rest;
      WordLengthOf(w[1..], rest);
    }
  }

  /** The first word is split off whole. */
  lemma SplitFirst(w: string, rest: string)
    requires IsWord(w)
    requires rest == "" || IsWhitespace(rest[0])
    ensures SplitWhitespace(w + rest) == [w] + SplitWhitespace(rest)
  {
    WordLengthOf(w, rest);
    var n := |w|;
    assert (w + rest)[..n] == w && (w + rest)[n..] == rest;
  }

  /** Splitting undoes joining, for words. */
  lemma {:induction false} SplitJoin(words: seq<string>)
    requires forall k :: 0 <= k < |words| ==> IsWord(words[k])
    ensures SplitWhitespace(Join(words)) == words
  {
    if words == [] {
    } else if |words| == 1 {
      SplitFirst(words[0], "");
      assert words[0] + "" == words[0] && words == [words[0]] + [];
    } else {
      hide SplitWhitespace, IsWord;
      var rest := " " + Join(words[1..]);
      assert Join(words) == words[0] + rest;
      SplitFirst(words[0], rest);
      SplitAfterSpace(Join(words[1..]));
      SplitJoin(words[1..]);
      assert words == [words[0]] + words[1..];
    }
  }

  lemma SplitAfterSpace(s: string)
    ensures SplitWhitespace(" " + s) == SplitWhitespace(s)
  {
    assert (" " + s)[1..] == s;
  }

  // ----- what splitting means

  /** Words, each after a gap, and a gap at the end. */
  function Spaced(words: seq<string>, gaps: seq<string>, trail: string): string
    requires |words| == |gaps|
  {
    if words == [] then trail else gaps[0] + (words[0] + Spaced(words[1..], gaps[1..], trail))
  }

  /** Gaps are whitespace, and something between words. */
  predicate AreSpaced(words: seq<string>, gaps: seq<string>, trail: string) {
    && |words| == |gaps| && IsBlankText(trail)
    && (forall i :: 0 <= i < |words| ==> IsWord(words[i]) && IsBlankText(gaps[i]))
    && (forall i :: 0 < i < |words| ==> gaps[i] != "")
  }

  lemma {:induction false} SplitSkips(gap: string, rest: string)
    requires IsBlankText(gap)
    ensures SplitWhitespace(gap + rest) == SplitWhitespace(rest)
    decreases |gap|
  {
    if gap == "" {
      assert gap + rest == rest;
    } else {
      assert (gap + rest)[1..] == gap[1..] + rest;
      SplitSkips(gap[1..], rest);
    }
  }

  /** The words of a text, however they are spaced, are what it splits into. */
  lemma {:induction false} SplitReads(words: seq<string>, gaps: seq<string>, trail: string)
    requires AreSpaced(words, gaps, trail)
    ensures SplitWhitespace(Spaced(words, gaps, trail)) == words
    decreases |words|
  {
    if words == [] {
      SplitSkips(trail, "");
      assert trail + "" == trail;
    } else {
      var rest := Spaced(words[1..], gaps[1..], trail);
      hide SplitWhitespace, IsWord, IsWhitespace;
      assert AreSpaced(words[1..], gaps[1..], trail);
      SplitReads(words[1..], gaps[1..], trail);
      SplitSkips(gaps[0], words[0] + rest);
      assert rest != "" ==> IsWhitespace(rest[0]) by {
        if |words| > 1 {
          assert gaps[1..][0] == gaps[1] && IsBlankText(gaps[1]);
        }
      }
      SplitFirst(words[0], rest);
      assert words == [words[0]] + words[1..];
    }
  }

  /** Every text is spaced in some way. */
  lemma {:induction false} EveryTextIsSpaced(s: string) returns (words: seq<string>, gaps: seq<string>, trail: string)
    ensures AreSpaced(words, gaps, trail) && s == Spaced(words, gaps, trail)
    decreases |s|
  {
    hide IsWhitespace;
    if s == "" {
      words, gaps, trail := [], [], "";
    } else if IsWhitespace(s[0]) {
      words, gaps, trail := EveryTextIsSpaced(s[1..]);
      assert s == [s[0]] + s[1..];
      if words == [] {
        trail := s;
      } else {
        var g := [s[0]] + gaps[0];
        assert s == g + (words[0] + Spaced(words[1..], gaps[1..], trail));
        gaps := [g] + gaps[1..];
      }
    } else {
      var n := WordLength(s);
      words, gaps, trail := EveryTextIsSpaced(s[n..]);
      if words != [] {
        FirstGap(words, gaps, trail, s[n..]);
      }
      assert s == "" + (s[..n] + s[n..]);
      assert ([s[..n]] + words)[1..] == words && ([""] + gaps)[1..] == gaps;
      words, gaps := [s[..n]] + words, [""] + gaps;
    }
  }

  /** A text that starts with whitespace starts with a gap. */
  lemma FirstGap(words: seq<string>, gaps: seq<string>, trail: string, s: string)
    requires AreSpaced(words, gaps, trail) && s == Spaced(words, gaps, trail) && words != []
    ensures s != "" && (IsWhitespace(s[0]) ==> gaps[0] != "")
  {
  }
}
