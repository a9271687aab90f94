/** Edit distance (crates/core/src/correct/levenshtein.rs).

    The specification is the cost of a cheapest edit script. The two-row
    dynamic program is proved to return it, and the cost is proved a metric. */
module Levenshtein {
  import opened Sequences

  datatype Edit =
    | Keep(c: char)
    | Insert(c: char)
    | Delete(c: char)
    | Substitute(from: char, to: char)
  {
    /** What the edit consumes from the source. */
    function Consumes(): string {
      match this
      case Keep(c) => [c]
      case Insert(_) => ""
      case Delete(c) => [c]
      case Substitute(c, _) => [c]
    }

    /** What the edit contributes to the target. */
    function Produces(): string {
      match this
      case Keep(c) => [c]
      case Insert(c) => [c]
      case Delete(_) => ""
      case Substitute(_, c) => [c]
    }

    function Price(): nat {
      if Keep? then 0 else 1
    }
  }

  type Script = seq<Edit>

  function Source(s: Script): string {
    if s == [] then "" else Source(Init(s)) + Last(s).Consumes()
  }

  function Target(s: Script): string {
    if s == [] then "" else Target(Init(s)) + Last(s).Produces()
  }

  function Cost(s: Script): nat {
    if s == [] then 0 else Cost(Init(s)) + Last(s).Price()
  }

  predicate Transforms(s: Script, a: string, b: string) {
    Source(s) == a && Target(s) == b
  }

  lemma Snoc(s: Script, e: Edit)
    ensures Source(s + [e]) == Source(s) + e.Consumes()
    ensures Target(s + [e]) == Target(s) + e.Produces()
    ensures Cost(s + [e]) == Cost(s) + e.Price()
  {
    assert Init(s + [e]) == s;
  }

  function Min(a: nat, b: nat): nat {
    if a <= b then a else b
  }

  /** The recurrence over prefixes that each row of the table tabulates. */
  function EditDistance(a: string, b: string): nat
    decreases |a| + |b|
  {
    if a == "" then |b|
    else if b == "" then |a|
    else
      Min(Min(EditDistance(Init(a), b) + 1, EditDistance(a, Init(b)) + 1),
          EditDistance(Init(a), Init(b)) + if Last(a) == Last(b) then 0 else 1)
  }

  // ----- the recurrence is the cost of a cheapest script

  lemma OneEditCosts(a: string, b: string, e: Edit)
    ensures EditDistance(a + e.Consumes(), b + e.Produces()) <= EditDistance(a, b) + e.Price()
  {
    match e
    case Keep(c) =>
      assert Init(a + [c]) == a && Init(b + [c]) == b;
    case Insert(c) =>
      assert Init(b + [c]) == b && a + "" == a;
    case Delete(c) =>
      assert Init(a + [c]) == a && b + "" == b;
    case Substitute(c, d) =>
      assert Init(a + [c]) == a && Init(b + [d]) == b;
  }

  lemma {:induction false} NoScriptIsCheaper(s: Script)
    ensures EditDistance(Source(s), Target(s)) <= Cost(s)
  {
    if s == [] {
    } else {
      NoScriptIsCheaper(Init(s));
      OneEditCosts(Source(Init(s)), Target(Init(s)), Last(s));
    }
  }

  /** The last edit that the recurrence prefers. */
  function LastEdit(a: string, b: string): Edit
    requires a != "" || b != ""
  {
    if b == "" then Delete(Last(a))
    else if a == "" then Insert(Last(b))
    else if EditDistance(a, b) == EditDistance(Init(a), b) + 1 then Delete(Last(a))
    else if EditDistance(a, b) == EditDistance(a, Init(b)) + 1 then Insert(Last(b))
    else if Last(a) == Last(b) then Keep(Last(a))
    else Substitute(Last(a), Last(b))
  }

  /** What is left of the two strings before the preferred last edit. */
  function Rest(a: string, b: string): (r: (string, string))
    requires a != "" || b != ""
    ensures |r.0| + |r.1| < |a| + |b|
  {
    var e := LastEdit(a, b);
    (if e.Insert? then a else Init(a), if e.Delete? then b else Init(b))
  }

  /** A script that follows the choices of the recurrence. */
  function BestScript(a: string, b: string): Script
    decreases |a| + |b|
  {
    if a == "" && b == "" then []
    else BestScript(Rest(a, b).0, Rest(a, b).1) + [LastEdit(a, b)]
  }

  lemma LastEditIsOptimal(a: string, b: string)
    requires a != "" || b != ""
    ensures EditDistance(a, b) == EditDistance(Rest(a, b).0, Rest(a, b).1) + LastEdit(a, b).Price()
    ensures Rest(a, b).0 + LastEdit(a, b).Consumes() == a
    ensures Rest(a, b).1 + LastEdit(a, b).Produces() == b
  {
    assert a != "" ==> Init(a) + [Last(a)] == a;
    assert b != "" ==> Init(b) + [Last(b)] == b;
    assert a + "" == a && b + "" == b;
  }

  lemma {:induction false} BestScriptAttains(a: string, b: string)
    ensures Transforms(BestScript(a, b), a, b)
    ensures Cost(BestScript(a, b)) == EditDistance(a, b)
    decreases |a| + |b|
  {
    if a == "" && b == "" {
    } else {
      hide EditDistance, Source, Target, Cost, LastEdit, Rest;
      var rest := Rest(a, b);
      BestScriptAttains(rest.0, rest.1);
      Snoc(BestScript(rest.0, rest.1), LastEdit(a, b));
      LastEditIsOptimal(a, b);
    }
  }

  ghost predicate IsCheapestCost(d: nat, a: string, b: string) {
    && (exists s :: Transforms(s, a, b) && Cost(s) == d)
    && (forall s :: Transforms(s, a, b) ==> d <= Cost(s))
  }

  lemma DistanceIsCheapestCost(a: string, b: string)
    ensures IsCheapestCost(EditDistance(a, b), a, b)
  {
    BestScriptAttains(a, b);
    forall s | Transforms(s, a, b) ensures EditDistance(a, b) <= Cost(s) {
      NoScriptIsCheaper(s);
    }
  }

  // ----- the distance is a metric

  lemma {:induction false} ZeroIffEqual(a: string, b: string)
    ensures EditDistance(a, b) == 0 <==> a == b
    decreases |a| + |b|
  {
    if a == "" || b == "" {
    } else {
      ZeroIffEqual(Init(a), Init(b));
      assert Init(a) + [Last(a)] == a && Init(b) + [Last(b)] == b;
    }
  }

  lemma {:induction false} Symmetric(a: string, b: string)
    ensures EditDistance(a, b) == EditDistance(b, a)
    decreases |a| + |b|
  {
    if a == "" || b == "" {
    } else {
      Symmetric(Init(a), b);
      Symmetric(a, Init(b));
      Symmetric(Init(a), Init(b));
    }
  }

  /** When both scripts end on a character they share, that character is the last
      of the string between them. */
  lemma SplitLast(s: Script, t: Script)
    requires s != [] && t != [] && !Last(s).Delete? && !Last(t).Insert?
    requires Target(s) == Source(t)
    ensures Target(Init(s)) == Source(Init(t))
    ensures Last(s).Produces() == Last(t).Consumes()
  {
    assert Init(Target(s)) == Target(Init(s)) && Init(Source(t)) == Source(Init(t));
    assert Last(Target(s)) == Last(s).Produces()[0] && Last(Source(t)) == Last(t).Consumes()[0];
  }

  /** Runs `s` and then `t` as one script, cancelling what the first inserts and
      the second deletes. */
  function Compose(s: Script, t: Script): Script
    requires Target(s) == Source(t)
    decreases |s| + |t|
  {
    if s != [] && Last(s).Delete? then
      assert Target(Init(s)) + "" == Target(Init(s));
      Compose(Init(s), t) + [Last(s)]
    else if t != [] && Last(t).Insert? then
      assert Source(Init(t)) + "" == Source(Init(t));
      Compose(s, Init(t)) + [Last(t)]
    else if s == [] || t == [] then []
    else
      SplitLast(s, t);
      Compose(Init(s), Init(t)) + Merge(Last(s), Last(t))
  }

  /** The one edit, if any, that does what `e` then `f` do to a character. */
  function Merge(e: Edit, f: Edit): Script {
    match (e, f)
    case (Keep(_), _) => [f]
    case (_, Keep(_)) => [e]
    case (Insert(_), Substitute(_, d)) => [Insert(d)]
    case (Substitute(c, _), Delete(_)) => [Delete(c)]
    case (Substitute(c, _), Substitute(_, d)) => [Substitute(c, d)]
    case _ => []
  }

  lemma MergeEdits(c: Script, e: Edit, f: Edit)
    requires e.Produces() == f.Consumes() != ""
    ensures Source(c + Merge(e, f)) == Source(c) + e.Consumes()
    ensures Target(c + Merge(e, f)) == Target(c) + f.Produces()
    ensures Cost(c + Merge(e, f)) <= Cost(c) + e.Price() + f.Price()
  {
    var m := Merge(e, f);
    if m == [] {
      assert c + m == c && Source(c) + "" == Source(c) && Target(c) + "" == Target(c);
    } else {
      Snoc(c, m[0]);
      assert m == [m[0]];
    }
  }

  lemma {:induction false} ComposeTransforms(s: Script, t: Script)
    requires Target(s) == Source(t)
    ensures Transforms(Compose(s, t), Source(s), Target(t))
    ensures Cost(Compose(s, t)) <= Cost(s) + Cost(t)
    decreases |s| + |t|
  {
    if s != [] && Last(s).Delete? {
      assert Target(Init(s)) + "" == Target(Init(s));
      ComposeTransforms(Init(s), t);
      Snoc(Compose(Init(s), t), Last(s));
    } else if t != [] && Last(t).Insert? {
      assert Source(Init(t)) + "" == Source(Init(t));
      ComposeTransforms(s, Init(t));
      Snoc(Compose(s, Init(t)), Last(t));
    } else if s != [] && t != [] {
      SplitLast(s, t);
      hide Merge;
      ComposeTransforms(Init(s), Init(t));
      MergeEdits(Compose(Init(s), Init(t)), Last(s), Last(t));
    }
  }

  lemma TriangleInequality(a: string, b: string, c: string)
    ensures EditDistance(a, c) <= EditDistance(a, b) + EditDistance(b, c)
  {
    BestScriptAttains(a, b);
    BestScriptAttains(b, c);
    ComposeTransforms(BestScript(a, b), BestScript(b, c));
    NoScriptIsCheaper(Compose(BestScript(a, b), BestScript(b, c)));
  }

  /** Between the difference of the lengths and the longer length. */
  lemma {:induction false} LengthBounds(a: string, b: string)
    ensures |a| - |b| <= EditDistance(a, b)
    ensures |b| - |a| <= EditDistance(a, b)
    ensures EditDistance(a, b) <= if |a| <= |b| then |b| else |a|
    decreases |a| + |b|
  {
    if a == "" || b == "" {
    } else {
      LengthBounds(Init(a), b);
      LengthBounds(a, Init(b));
      LengthBounds(Init(a), Init(b));
    }
  }

  // ----- the two-row program

  /** `row` holds the distances of one prefix of the longer string to the first
      prefixes of `short`. */
  ghost predicate IsRow(row: seq<nat>, prefix: string, short: string) {
    |row| <= |short| + 1 && forall j :: 0 <= j < |row| ==> row[j] == EditDistance(prefix, short[..j])
  }

  lemma FirstRow(short: string, row: seq<nat>)
    requires |row| == |short| + 1 && forall j :: 0 <= j < |row| ==> row[j] == j
    ensures IsRow(row, "", short)
  {
  }

  lemma FirstColumn(cell: seq<nat>, prefix: string, short: string)
    requires cell == [|prefix|]
    ensures IsRow(cell, prefix, short)
  {
  }

  /** The next cell of a row, from the row above and the cells to its left. */
  lemma ExtendRow(above: seq<nat>, left: seq<nat>, prefix: string, lc: char, short: string, j: nat)
    requires IsRow(above, prefix, short) && IsRow(left, prefix + [lc], short)
    requires |left| == j + 1 < |above|
    ensures IsRow(left + [Min(Min(above[j + 1] + 1, left[j] + 1),
                              above[j] + if lc == short[j] then 0 else 1)],
                  prefix + [lc], short)
  {
    assert Init(prefix + [lc]) == prefix && Init(short[..j + 1]) == short[..j];
    assert above[j + 1] == EditDistance(prefix, short[..j + 1]);
  }

  /** The inner loop: overwrites `curr` with the row after `prev`. */
  method FillRow(prev: array<nat>, curr: array<nat>, prefix: string, lc: char, short: string)
    requires prev != curr && prev.Length == curr.Length == |short| + 1
    requires IsRow(prev[..], prefix, short)
    modifies curr
    ensures IsRow(curr[..], prefix + [lc], short)
  {
    curr[0] := |prefix| + 1;
    FirstColumn(curr[..1], prefix + [lc], short);
    for j := 0 to |short|
      invariant IsRow(curr[..j + 1], prefix + [lc], short)
    {
      hide *;
      var cost := if lc == short[j] then 0 else 1;
      var deletion := prev[j + 1] + 1;
      var insertion := curr[j] + 1;
      var substitution := prev[j] + cost;
      ghost var left := curr[..j + 1];
      ExtendRow(prev[..], left, prefix, lc, short, j);
      curr[j + 1] := Min(Min(deletion, insertion), substitution);
      assert curr[..j + 2] == left + [curr[j + 1]];
    }
    assert curr[..|short| + 1] == curr[..];
  }

  /** The outer loop: fills `curr` from `prev` and swaps the two buffers. */
  method TwoRows(short: string, long: string) returns (d: nat)
    ensures d == EditDistance(long, short)
  {
    var n := |short|;
    var prev := new nat[n + 1](j => j);
    var curr := new nat[n + 1](_ => 0);
    FirstRow(short, prev[..]);
    for i := 0 to |long|
      invariant prev != curr && prev.Length == curr.Length == n + 1
      invariant fresh(prev) && fresh(curr)
      invariant IsRow(prev[..], long[..i], short)
    {
      hide EditDistance, IsRow;
      FillRow(prev, curr, long[..i], long[i], short);
      assert long[..i + 1] == long[..i] + [long[i]];
      prev, curr := curr, prev;
    }
    hide EditDistance;
    assert long[..|long|] == long && short[..n] == short && prev[..][n] == prev[n];
    return prev[n];
  }

  /** The distance between the two strings, with the shorter one as the column
      dimension whichever argument it is. */
  method Distance(a: string, b: string) returns (d: nat)
    ensures IsCheapestCost(d, a, b)
    ensures d == EditDistance(a, b)
  {
    hide *;
    DistanceIsCheapestCost(a, b);
    if a == "" {
      EmptySide(b);
      return |b|;
    }
    if b == "" {
      EmptySide(a);
      return |a|;
    }
    Symmetric(a, b);
    if |a| <= |b| {
      d := TwoRows(a, b);
    } else {
      d := TwoRows(b, a);
    }
  }

  lemma EmptySide(a: string)
    ensures EditDistance("", a) == EditDistance(a, "") == |a|
  {
  }
}
