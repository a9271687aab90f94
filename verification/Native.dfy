/** The native correction predicates (crates/core/src/correct/native.rs). */
module Native {
  import opened Wrappers
  import opened Text
  import opened SpecTypes
  import opened Sorting
  import opened Levenshtein

  const MAX_EDIT_DISTANCE: nat := 2

  // ----- no_command

  /** A name close to the base command, and how many PATH entries have it. */
  datatype Near = Near(distance: nat, count: nat, name: string)

  /** Nearest first, then most frequent, then by name. */
  predicate NearLe(a: Near, b: Near) {
    || a.distance < b.distance
    || (a.distance == b.distance && (a.count > b.count || (a.count == b.count && StrLe(a.name, b.name))))
  }

  lemma {:induction false} NearLeIsTotalOrder()
    ensures TotalPreorder(NearLe)
    ensures forall a, b :: NearLe(a, b) && NearLe(b, a) ==> a == b
  {
    StrLeIsTotalOrder();
    hide StrLe;
  }

  predicate IsNear(base: string, name: string) {
    0 < EditDistance(base, name) <= MAX_EDIT_DISTANCE
  }

  /** The answer, whatever the order of the listing: every name of the listing that is
      near the base command, once, in order. */
  ghost predicate IsRanking(ranked: seq<Near>, base: string, path: seq<string>) {
    && Sorted(ranked, NearLe)
    && NoDuplicates(ranked)
    && forall x :: x in ranked <==>
         x.name in path && IsNear(base, x.name)
         && x.distance == EditDistance(base, x.name) && x.count == multiset(path)[x.name]
  }

  lemma {:induction false} RankingIsUnique(r: seq<Near>, s: seq<Near>, base: string, path: seq<string>,
                                           path': seq<string>)
    requires IsRanking(r, base, path) && IsRanking(s, base, path') && multiset(path) == multiset(path')
    ensures r == s
  {
    hide NearLe, IsNear;
    SameElements(path, path');
    NearLeIsTotalOrder();
    SameElementsSameMultiset(r, s);
    SortedUnique(r, s, NearLe);
  }

  function NearOf(base: string, path: seq<string>, name: string): Near {
    Near(EditDistance(base, name), multiset(path)[name], name)
  }

  /** The near names among `names`, unsorted. */
  function Nearby(base: string, path: seq<string>, names: seq<string>): seq<Near> {
    if names == [] then []
    else (if IsNear(base, names[0]) then [NearOf(base, path, names[0])] else []) + Nearby(base, path, names[1..])
  }

  function Distinct(names: seq<string>): seq<string> {
    if names == [] then []
    else (if names[0] in names[1..] then [] else [names[0]]) + Distinct(names[1..])
  }

  function Ranking(base: string, path: seq<string>): seq<Near> {
    StableSort(Nearby(base, path, Distinct(path)), NearLe)
  }

  lemma {:induction false} DistinctIs(names: seq<string>)
    ensures NoDuplicates(Distinct(names)) && forall n :: n in Distinct(names) <==> n in names
  {
    if names == [] {
    } else {
      DistinctIs(names[1..]);
      assert names == [names[0]] + names[1..];
    }
  }

  lemma {:induction false} NearbyIs(base: string, path: seq<string>, names: seq<string>)
    requires NoDuplicates(names)
    ensures var r := Nearby(base, path, names);
            NoDuplicates(r) && forall x :: x in r <==> x.name in names && IsNear(base, x.name) && x == NearOf(base, path, x.name)
  {
    hide EditDistance;
    if names == [] {
    } else {
      NearbyIs(base, path, names[1..]);
      assert names == [names[0]] + names[1..];
    }
  }

  lemma {:induction false} SortIsRanking(ranked: seq<Near>, base: string, path: seq<string>)
    requires NoDuplicates(ranked)
    requires forall x :: x in ranked <==> x.name in path && IsNear(base, x.name) && x == NearOf(base, path, x.name)
    ensures IsRanking(StableSort(ranked, NearLe), base, path)
  {
    hide NearLe, IsNear, EditDistance, StableSort;
    NearLeIsTotalOrder();
    SortPermutes(ranked, NearLe);
    SortSorts(ranked, NearLe);
    SameElements(StableSort(ranked, NearLe), ranked);
    NoDuplicatesPermuted(ranked, StableSort(ranked, NearLe));
  }

  lemma {:induction false} RankingIsRanking(base: string, path: seq<string>)
    ensures IsRanking(Ranking(base, path), base, path)
  {
    hide IsRanking, IsNear, EditDistance;
    DistinctIs(path);
    NearbyIs(base, path, Distinct(path));
    SortIsRanking(Nearby(base, path, Distinct(path)), base, path);
  }

  /** The script with its first token replaced. */
  function WithBase(toks: seq<string>, name: string): string
    requires toks != []
  {
    Join(toks[0 := name])
  }

  function WithBases(toks: seq<string>, ranked: seq<Near>): (r: seq<string>)
    requires toks != []
    ensures |r| == |ranked| && forall i :: 0 <= i < |r| ==> r[i] == WithBase(toks, ranked[i].name)
  {
    seq(|ranked|, i requires 0 <= i < |ranked| => WithBase(toks, ranked[i].name))
  }

  function NoCommandOf(script: string, onPath: string -> bool, path: seq<string>): seq<string> {
    var toks := SplitWhitespace(script);
    if toks == [] || onPath(toks[0]) then [] else WithBases(toks, Ranking(toks[0], path))
  }

  /** The frequency map: how often each name occurs in the listing. */
  method CountNames(path: seq<string>) returns (freq: map<string, nat>)
    ensures forall n :: n in freq <==> n in path
    ensures forall n :: n in freq ==> freq[n] == multiset(path)[n]
  {
    freq := map[];
    var i := 0;
    assert path[..0] == [];
    while i < |path|
      invariant i <= |path|
      invariant forall n :: n in freq <==> n in path[..i]
      invariant forall n :: n in freq ==> freq[n] == multiset(path[..i])[n]
    {
      assert path[..i + 1] == path[..i] + [path[i]];
      freq := freq[path[i] := (if path[i] in freq then freq[path[i]] else 0) + 1];
      i := i + 1;
    }
    assert path[..|path|] == path;
  }

  /** The filter over the map, which is visited in no particular order. */
  method NearNames(base: string, path: seq<string>, freq: map<string, nat>) returns (ranked: seq<Near>)
    requires forall n :: n in freq <==> n in path
    requires forall n :: n in freq ==> freq[n] == multiset(path)[n]
    ensures NoDuplicates(ranked)
    ensures forall x :: x in ranked <==> x.name in path && IsNear(base, x.name) && x == NearOf(base, path, x.name)
  {
    hide EditDistance, IsCheapestCost;
    ranked := [];
    var left := freq.Keys;
    while left != {}
      invariant left <= freq.Keys
      invariant NoDuplicates(ranked)
      invariant forall x :: x in ranked <==>
                  x.name in freq.Keys - left && IsNear(base, x.name) && x == NearOf(base, path, x.name)
      decreases left
    {
      var name :| name in left;
      left := left - {name};
      var d := Distance(base, name);
      if d <= MAX_EDIT_DISTANCE && d > 0 {
        ranked := ranked + [Near(d, freq[name], name)];
      }
    }
  }

  /** `no_command`. */
  method NoCommand(script: string, onPath: string -> bool, path: seq<string>) returns (out: seq<string>)
    ensures out == NoCommandOf(script, onPath, path)
  {
    var toks := SplitWhitespace(script);
    if toks == [] || onPath(toks[0]) {
      return [];
    }
    hide EditDistance, IsNear, NearLe, StableSort, Ranking, IsRanking, NoDuplicates;
    var freq := CountNames(path);
    var ranked := NearNames(toks[0], path, freq);
    SortIsRanking(ranked, toks[0], path);
    ranked := StableSort(ranked, NearLe);
    RankingIsRanking(toks[0], path);
    RankingIsUnique(ranked, Ranking(toks[0], path), toks[0], path, path);
    out := WithBases(toks, ranked);
  }

  /** The answer does not depend on the order of the listing. */
  lemma {:induction false} NoCommandIgnoresOrder(script: string, onPath: string -> bool, path: seq<string>,
                                                 path': seq<string>)
    requires multiset(path) == multiset(path')
    ensures NoCommandOf(script, onPath, path) == NoCommandOf(script, onPath, path')
  {
    hide Ranking, IsRanking;
    var toks := SplitWhitespace(script);
    if toks != [] {
      RankingIsRanking(toks[0], path);
      RankingIsRanking(toks[0], path');
      RankingIsUnique(Ranking(toks[0], path), Ranking(toks[0], path'), toks[0], path, path');
    }
  }

  /** When the base command is unknown: sound, complete and ordered. Each suggestion
      replaces the first token by a near name of the listing and leaves the others. */
  lemma {:induction false} NoCommandIs(script: string, onPath: string -> bool, path: seq<string>)
    requires SplitWhitespace(script) != [] && !onPath(SplitWhitespace(script)[0])
    ensures var toks := SplitWhitespace(script); var out := NoCommandOf(script, onPath, path);
            var ranked := Ranking(toks[0], path);
            && IsRanking(ranked, toks[0], path) && |out| == |ranked|
            && (forall i :: 0 <= i < |out| ==>
                  && ranked[i].name in path && IsNear(toks[0], ranked[i].name)
                  && out[i] == WithBase(toks, ranked[i].name)
                  && (IsWord(ranked[i].name) ==> SplitWhitespace(out[i]) == toks[0 := ranked[i].name]))
            && (forall name :: name in path && IsNear(toks[0], name) ==> WithBase(toks, name) in out)
  {
    hide EditDistance, IsNear, NearLe, Ranking;
    var toks := SplitWhitespace(script);
    var out, ranked := NoCommandOf(script, onPath, path), Ranking(toks[0], path);
    RankingIsRanking(toks[0], path);
    SplitYieldsWords(script);
    forall i | 0 <= i < |out|
      ensures ranked[i] in ranked && (IsWord(ranked[i].name) ==> SplitWhitespace(out[i]) == toks[0 := ranked[i].name])
    {
      if IsWord(ranked[i].name) {
        SplitJoin(toks[0 := ranked[i].name]);
      }
    }
    forall name | name in path && IsNear(toks[0], name) ensures WithBase(toks, name) in out {
      assert NearOf(toks[0], path, name) in ranked;
    }
  }

  // ----- subcommand_typo

  datatype Close = Close(distance: nat, name: string)

  predicate CloseLe(a: Close, b: Close) {
    a.distance < b.distance || (a.distance == b.distance && StrLe(a.name, b.name))
  }

  lemma {:induction false} CloseLeIsTotalOrder()
    ensures TotalPreorder(CloseLe)
    ensures forall a, b :: CloseLe(a, b) && CloseLe(b, a) ==> a == b
  {
    StrLeIsTotalOrder();
    hide StrLe;
  }

  /** The first spec that answers to the name. */
  function SpecFor(specs: seq<Subcommand>, name: string): (r: Option<Subcommand>)
    ensures r.Some? ==> r.value in specs && name in r.value.name.All()
    ensures r.None? ==> forall s :: s in specs ==> name !in s.name.All()
  {
    if specs == [] then None
    else if name in specs[0].name.All() then Some(specs[0])
    else SpecFor(specs[1..], name)
  }

  lemma {:induction false} SpecFoundIsFirst(specs: seq<Subcommand>, name: string, i: nat)
    requires i <= |specs| && (i < |specs| ==> name in specs[i].name.All())
    requires forall j :: 0 <= j < i ==> name !in specs[j].name.All()
    ensures SpecFor(specs, name) == if i < |specs| then Some(specs[i]) else None
  {
    if i == 0 {
    } else {
      SpecFoundIsFirst(specs[1..], name, i - 1);
    }
  }

  /** Names and aliases of all subcommands. */
  function KnownNames(subs: seq<Subcommand>): seq<string> {
    if subs == [] then [] else KnownNames(subs[..|subs| - 1]) + subs[|subs| - 1].name.All()
  }

  function CloseTo(sub: string, known: seq<string>): seq<Close> {
    if known == [] then []
    else
      CloseTo(sub, known[..|known| - 1]) +
      if IsNear(sub, known[|known| - 1]) then [Close(EditDistance(sub, known[|known| - 1]), known[|known| - 1])] else []
  }

  function WithSubs(toks: seq<string>, ranked: seq<Close>): (r: seq<string>)
    requires |toks| > 1
    ensures |r| == |ranked| && forall i :: 0 <= i < |r| ==> r[i] == Join(toks[1 := ranked[i].name])
  {
    seq(|ranked|, i requires 0 <= i < |ranked| => Join(toks[1 := ranked[i].name]))
  }

  function SubcommandTypoOf(script: string, specs: seq<Subcommand>): seq<string> {
    var toks := SplitWhitespace(script);
    if |toks| < 2 then []
    else
      var spec := SpecFor(specs, toks[0]);
      if spec.None? || toks[1] in KnownNames(spec.value.subcommands) then []
      else WithSubs(toks, StableSort(CloseTo(toks[1], KnownNames(spec.value.subcommands)), CloseLe))
  }

  method CollectKnown(subs: seq<Subcommand>) returns (known: seq<string>)
    ensures known == KnownNames(subs)
  {
    known := [];
    var i := 0;
    assert subs[..0] == [];
    while i < |subs|
      invariant i <= |subs| && known == KnownNames(subs[..i])
    {
      assert subs[..i + 1][..i] == subs[..i];
      known := known + subs[i].name.All();
      i := i + 1;
    }
    assert subs[..|subs|] == subs;
  }

  method CloseNames(sub: string, known: seq<string>) returns (ranked: seq<Close>)
    ensures ranked == CloseTo(sub, known)
  {
    hide EditDistance, IsCheapestCost;
    ranked := [];
    var i := 0;
    assert known[..0] == [];
    while i < |known|
      invariant i <= |known| && ranked == CloseTo(sub, known[..i])
    {
      assert known[..i + 1][..i] == known[..i];
      var d := Distance(sub, known[i]);
      if d <= MAX_EDIT_DISTANCE && d > 0 {
        ranked := ranked + [Close(d, known[i])];
      }
      i := i + 1;
    }
    assert known[..|known|] == known;
  }

  /** `subcommand_typo`. */
  method SubcommandTypo(script: string, specs: seq<Subcommand>) returns (out: seq<string>)
    ensures out == SubcommandTypoOf(script, specs)
  {
    hide CloseLe, StableSort, CloseTo, KnownNames;
    var toks := SplitWhitespace(script);
    if |toks| < 2 {
      return [];
    }
    var spec := SpecFor(specs, toks[0]);
    if spec.None? {
      return [];
    }
    var known := CollectKnown(spec.value.subcommands);
    if toks[1] in known {
      return [];
    }
    var ranked := CloseNames(toks[1], known);
    ranked := StableSort(ranked, CloseLe);
    out := WithSubs(toks, ranked);
  }

  lemma {:induction false} CloseToIs(sub: string, known: seq<string>)
    ensures forall x :: x in CloseTo(sub, known) <==>
              x.name in known && IsNear(sub, x.name) && x.distance == EditDistance(sub, x.name)
    decreases |known|
  {
    hide EditDistance;
    if known == [] {
    } else {
      CloseToIs(sub, known[..|known| - 1]);
      assert known == known[..|known| - 1] + [known[|known| - 1]];
    }
  }

  /** Every known name near the unknown one is suggested in its place, nearest first. */
  lemma {:induction false} SubcommandTypoIs(script: string, specs: seq<Subcommand>)
    requires |SplitWhitespace(script)| > 1 && SpecFor(specs, SplitWhitespace(script)[0]).Some?
    requires SplitWhitespace(script)[1] !in
             KnownNames(SpecFor(specs, SplitWhitespace(script)[0]).value.subcommands)
    ensures var toks := SplitWhitespace(script); var known := KnownNames(SpecFor(specs, toks[0]).value.subcommands);
            exists ranked: seq<Close> ::
              && SubcommandTypoOf(script, specs) == WithSubs(toks, ranked)
              && Sorted(ranked, CloseLe)
              && multiset(ranked) == multiset(CloseTo(toks[1], known))
              && forall x: Close :: x in ranked <==>
                   x.name in known && IsNear(toks[1], x.name) && x.distance == EditDistance(toks[1], x.name)
  {
    hide EditDistance, CloseLe, CloseTo, IsNear, KnownNames;
    var toks := SplitWhitespace(script);
    var known := KnownNames(SpecFor(specs, toks[0]).value.subcommands);
    var close := CloseTo(toks[1], known);
    var ranked := StableSort(close, CloseLe);
    CloseLeIsTotalOrder();
    SortPermutes(close, CloseLe);
    SortSorts(close, CloseLe);
    SameElements(ranked, close);
    CloseToIs(toks[1], known);
    assert SubcommandTypoOf(script, specs) == WithSubs(toks, ranked);
  }
}
