/** The parts of the request adapter that compute (crates/daemon/src/lib.rs): salvaging
    the id of a malformed request, and the index of specs by name. */
module Daemon {
  import opened Wrappers
  import opened Sequences
  import opened Text
  import opened SpecTypes
  import opened Native

  // ----- decimal numbers

  function Digit(d: nat): char
    requires d < 10
  {
    ('0' as int + d) as char
  }

  function Decimal(n: nat): string {
    if n < 10 then [Digit(n)] else Decimal(n / 10) + [Digit(n % 10)]
  }

  /** How an integer is written. */
  function Print(n: int): string {
    if n < 0 then "-" + Decimal(-n) else Decimal(n)
  }

  predicate AllDigits(s: string) {
    forall i :: 0 <= i < |s| ==> IsDigit(s[i])
  }

  function ValueOf(s: string): nat
    requires AllDigits(s)
  {
    if s == "" then 0 else ValueOf(Init(s)) * 10 + (Last(s) as int - '0' as int)
  }

  lemma {:induction false} ValueOfDecimal(n: nat)
    ensures Decimal(n) != "" && AllDigits(Decimal(n)) && ValueOf(Decimal(n)) == n
  {
    if n < 10 {
      assert Init(Decimal(n)) == "";
    } else {
      ValueOfDecimal(n / 10);
      assert Init(Decimal(n)) == Decimal(n / 10);
    }
  }

  /** `str::parse::<i64>` on an optional minus sign and digits. */
  function ParseI64(negative: bool, digits: string): Option<I64>
    requires AllDigits(digits)
  {
    var n: int := if negative then 0 - ValueOf(digits) else ValueOf(digits);
    if digits != "" && -0x8000_0000_0000_0000 <= n < 0x8000_0000_0000_0000 then Some(n) else None
  }

  // ----- scanning for the id

  /** How many leading characters are digits. */
  function DigitCount(s: string): (n: nat)
    ensures n <= |s|
    ensures AllDigits(s[..n])
    ensures n < |s| ==> !IsDigit(s[n])
  {
    if s == "" || !IsDigit(s[0]) then 0
    else
      var n := DigitCount(s[1..]);
      assert s[..n + 1] == [s[0]] + s[1..][..n];
      n + 1
  }

  function ScanNumber(s: string): Option<I64> {
    var negative := s != "" && s[0] == '-';
    var t := if negative then s[1..] else s;
    ParseI64(negative, t[..DigitCount(t)])
  }

  function ScanIdOf(line: string): Option<I64> {
    var pos := Find(line, "\"id\"");
    if pos.None? then None
    else
      var rest := line[pos.value + 4..];
      var colon := Find(rest, ":");
      if colon.None? then None else ScanNumber(TrimStart(rest[colon.value + 1..]))
  }

  /** `scan_id`. */
  method ScanId(line: string) returns (r: Option<I64>)
    ensures r == ScanIdOf(line)
  {
    var pos := Find(line, "\"id\"");
    if pos.None? {
      return None;
    }
    var rest := line[pos.value + 4..];
    var colon := Find(rest, ":");
    if colon.None? {
      return None;
    }
    var chars := TrimStart(rest[colon.value + 1..]);
    hide Find, TrimStart, ParseI64, DigitCount;
    var negative := false;
    if chars != "" && chars[0] == '-' {
      negative, chars := true, chars[1..];
    }
    var value := "";
    var n := 0;
    while n < |chars| && IsDigit(chars[n])
      invariant n <= |chars| && value == chars[..n] && AllDigits(value)
    {
      value := value + [chars[n]];
      n := n + 1;
    }
    DigitCountIs(chars, n);
    NoDigits(negative);
    if value == "" {
      return None;
    }
    return ParseI64(negative, value);
  }

  lemma NoDigits(negative: bool)
    ensures ParseI64(negative, "") == None
  {
  }

  lemma {:induction false} DigitCountIs(s: string, n: nat)
    requires n <= |s| && AllDigits(s[..n]) && (n < |s| ==> !IsDigit(s[n]))
    ensures DigitCount(s) == n
  {
    if n == 0 {
    } else {
      assert IsDigit(s[..n][0]);
      assert s[..n][1..] == s[1..][..n - 1];
      DigitCountIs(s[1..], n - 1);
    }
  }

  lemma {:induction false} ScanDigits(digits: string, rest: string)
    requires AllDigits(digits) && (rest == "" || !IsDigit(rest[0]))
    ensures var t := digits + rest; t[..DigitCount(t)] == digits
  {
    var t := digits + rest;
    assert t[..|digits|] == digits;
    DigitCountIs(t, |digits|);
  }

  /** Printing and scanning a number, whatever follows it but a digit. */
  lemma {:induction false} ScanUndoesPrint(n: int, rest: string)
    requires rest == "" || !IsDigit(rest[0])
    ensures ScanNumber(Print(n) + rest) ==
            if -0x8000_0000_0000_0000 <= n < 0x8000_0000_0000_0000 then Some(n) else None
  {
    hide Decimal, ValueOf, DigitCount;
    var digits := Decimal(if n < 0 then -n else n);
    ValueOfDecimal(if n < 0 then -n else n);
    var s := Print(n) + rest;
    if n < 0 {
      assert s[0] == '-' && s[1..] == digits + rest;
    } else {
      assert s[0] == digits[0] && IsDigit(digits[0]);
    }
    ScanDigits(digits, rest);
  }

  lemma {:induction false} TrimBlanks(blanks: string, s: string)
    requires forall i :: 0 <= i < |blanks| ==> IsWhitespace(blanks[i])
    requires s != "" && !IsWhitespace(s[0])
    ensures TrimStart(blanks + s) == s
  {
    if blanks == "" {
      assert blanks + s == s;
    } else {
      assert (blanks + s)[1..] == blanks[1..] + s;
      TrimBlanks(blanks[1..], s);
    }
  }

  lemma {:induction false} PrintStarts(n: int)
    ensures Print(n) != "" && !IsWhitespace(Print(n)[0])
  {
    ValueOfDecimal(if n < 0 then -n else n);
    hide Decimal;
    if n >= 0 {
      assert IsDigit(Print(n)[0]);
    }
  }

  lemma {:induction false} FirstColon(mid: string, s: string)
    requires forall i :: 0 <= i < |mid| ==> mid[i] != ':'
    ensures Find(mid + ":" + s, ":") == Some(|mid|)
  {
    var line := mid + ":" + s;
    assert line[|mid|] == ':';
    assert ":" <= line[|mid|..];
    forall j | 0 <= j < |mid| ensures !OccursAt(line, ":", j) {
      assert line[j..][0] == line[j] == mid[j];
    }
    FindIs(line, ":", |mid|);
  }

  /** When the first `"id"` of a line is followed by a colon, blanks, a printed integer and
      then no digit, the scan returns that integer, or nothing if it does not fit. */
  lemma {:induction false} ScanIdFindsPrinted(line: string, pre: string, mid: string, blanks: string, n: int,
                                              rest: string)
    requires line == pre + "\"id\"" + (mid + ":" + (blanks + (Print(n) + rest)))
    requires Find(line, "\"id\"") == Some(|pre|)
    requires forall i :: 0 <= i < |mid| ==> mid[i] != ':'
    requires forall i :: 0 <= i < |blanks| ==> IsWhitespace(blanks[i])
    requires rest == "" || !IsDigit(rest[0])
    ensures ScanIdOf(line) == if -0x8000_0000_0000_0000 <= n < 0x8000_0000_0000_0000 then Some(n) else None
  {
    var number := Print(n) + rest;
    PrintStarts(n);
    ScanUndoesPrint(n, rest);
    hide Print, Find, TrimStart, ScanNumber, IsWhitespace;
    var after := blanks + number;
    var tail := mid + ":" + after;
    assert line[|pre| + 4..] == tail;
    FirstColon(mid, after);
    assert tail[|mid| + 1..] == after;
    TrimBlanks(blanks, number);
  }

  lemma {:induction false} TrimmedBlanks(s: string) returns (blanks: string)
    ensures s == blanks + TrimStart(s) && IsBlankText(blanks)
  {
    hide IsWhitespace;
    if s == "" || !IsWhitespace(s[0]) {
      blanks := "";
    } else {
      blanks := TrimmedBlanks(s[1..]);
      assert s == [s[0]] + s[1..];
      blanks := [s[0]] + blanks;
    }
  }

  lemma {:induction false} ScannedNumber(s: string) returns (sign: string, digits: string, rest: string)
    requires ScanNumber(s).Some?
    ensures s == sign + (digits + rest) && sign in {"", "-"}
    ensures digits != "" && AllDigits(digits) && (rest == "" || !IsDigit(rest[0]))
    ensures ScanNumber(s).value == if sign == "-" then -(ValueOf(digits) as int) else ValueOf(digits)
  {
    hide AllDigits, ValueOf;
    var negative := s != "" && s[0] == '-';
    var t := if negative then s[1..] else s;
    var n := DigitCount(t);
    sign, digits, rest := if negative then "-" else "", t[..n], t[n..];
    assert s == sign + t && t == digits + rest;
  }

  /** A number is found only after the first quoted id and the next colon, with nothing but
      blanks before its sign and digits. */
  lemma {:induction false} ScanIdReads(line: string)
    returns (pre: string, mid: string, blanks: string, sign: string, digits: string, rest: string)
    requires ScanIdOf(line).Some?
    ensures line == pre + "\"id\"" + (mid + ":" + (blanks + (sign + (digits + rest))))
    ensures Find(line, "\"id\"") == Some(|pre|) && ':' !in mid && IsBlankText(blanks)
    ensures sign in {"", "-"} && digits != "" && AllDigits(digits) && (rest == "" || !IsDigit(rest[0]))
    ensures ScanIdOf(line).value == if sign == "-" then -(ValueOf(digits) as int) else ValueOf(digits)
  {
    var pos := Find(line, "\"id\"").value;
    var tail := line[pos + 4..];
    var colon := Find(tail, ":").value;
    var after := tail[colon + 1..];
    hide Find, TrimStart, ScanNumber, AllDigits, ValueOf, IsBlankText, IsDigit;
    AroundFirst(line, "\"id\"", pos);
    AroundFirst(tail, ":", colon);
    NoColonBefore(tail, colon);
    pre, mid := line[..pos], tail[..colon];
    blanks := TrimmedBlanks(after);
    sign, digits, rest := ScannedNumber(TrimStart(after));
  }

  lemma AroundFirst(s: string, pat: string, pos: nat)
    requires Find(s, pat) == Some(pos)
    ensures pos + |pat| <= |s| && s == s[..pos] + pat + s[pos + |pat|..]
  {
    assert s[pos..][..|pat|] == pat;
  }

  lemma NoColonBefore(s: string, pos: nat)
    requires Find(s, ":") == Some(pos)
    ensures pos <= |s| && ':' !in s[..pos]
  {
    forall j | 0 <= j < pos ensures s[j] != ':' {
      assert !OccursAt(s, ":", j);
      assert s[j..][0] == s[j];
    }
  }

  // ----- specs by name

  /** Each name that some spec answers to, with the first spec that does. */
  ghost predicate IsIndex(index: map<string, nat>, specs: seq<Subcommand>) {
    && (forall name :: name in index ==>
          && index[name] < |specs| && name in specs[index[name]].name.All()
          && forall j :: 0 <= j < index[name] ==> name !in specs[j].name.All())
    && (forall i :: 0 <= i < |specs| ==> forall name :: name in specs[i].name.All() ==> name in index)
  }

  lemma {:induction false} AddNamed(index: map<string, nat>, grown: map<string, nat>, specs: seq<Subcommand>,
                                    spec: Subcommand)
    requires IsIndex(index, specs)
    requires grown.Keys == index.Keys + set name | name in spec.name.All()
    requires forall name :: name in grown ==> grown[name] == if name in index then index[name] else |specs|
    ensures IsIndex(grown, specs + [spec])
  {
    var all := specs + [spec];
    assert forall j :: 0 <= j < |specs| ==> all[j] == specs[j];
    forall i | 0 <= i < |all| ensures forall name :: name in all[i].name.All() ==> name in grown {
      if i < |specs| {
        assert all[i] == specs[i];
      }
    }
  }

  /** The inner loop: registers the names that are not yet taken. */
  method AddNames(index0: map<string, nat>, names: seq<string>, i: nat) returns (index: map<string, nat>)
    ensures index.Keys == index0.Keys + set name | name in names
    ensures forall name :: name in index ==> index[name] == if name in index0 then index0[name] else i
  {
    index := index0;
    var n := 0;
    while n < |names|
      invariant n <= |names|
      invariant index.Keys == index0.Keys + set name | name in names[..n]
      invariant forall name :: name in index ==> index[name] == if name in index0 then index0[name] else i
    {
      if names[n] !in index {
        index := index[names[n] := i];
      }
      assert names[..n + 1] == names[..n] + [names[n]];
      n := n + 1;
    }
    assert names[..|names|] == names;
  }

  /** `index_specs`. */
  method IndexSpecs(specs: seq<Subcommand>) returns (index: map<string, nat>)
    ensures IsIndex(index, specs)
  {
    index := map[];
    var i := 0;
    assert specs[..0] == [];
    while i < |specs|
      invariant i <= |specs| && IsIndex(index, specs[..i])
    {
      hide IsIndex;
      var grown := AddNames(index, specs[i].name.All(), i);
      AddNamed(index, grown, specs[..i], specs[i]);
      assert specs[..i + 1] == specs[..i] + [specs[i]];
      index := grown;
      i := i + 1;
    }
    assert specs[..|specs|] == specs;
  }

  /** `spec_for`, which agrees with a scan of the specs. */
  method SpecForName(index: map<string, nat>, specs: seq<Subcommand>, name: string) returns (r: Option<Subcommand>)
    requires IsIndex(index, specs)
    ensures r == SpecFor(specs, name)
  {
    if name in index {
      SpecForFirst(specs, name, index[name]);
      return Some(specs[index[name]]);
    }
    return None;
  }

  lemma {:induction false} SpecForFirst(specs: seq<Subcommand>, name: string, i: nat)
    requires i < |specs| && name in specs[i].name.All()
    requires forall j :: 0 <= j < i ==> name !in specs[j].name.All()
    ensures SpecFor(specs, name) == Some(specs[i])
  {
    if i == 0 {
    } else {
      assert specs[0].name.All() == specs[0].name.All() && name !in specs[0].name.All();
      SpecForFirst(specs[1..], name, i - 1);
    }
  }
}
