/** The standard library's stable sort, and what a sorted sequence determines. */
module Sorting {

  ghost predicate TotalPreorder<T(!new)>(le: (T, T) -> bool) {
    && (forall x, y :: le(x, y) || le(y, x))
    && (forall x, y, z :: le(x, y) && le(y, z) ==> le(x, z))
  }

  predicate Sorted<T>(s: seq<T>, le: (T, T) -> bool) {
    forall i, j :: 0 <= i < j < |s| ==> le(s[i], s[j])
  }

  predicate Equivalent<T>(x: T, y: T, le: (T, T) -> bool) {
    le(x, y) && le(y, x)
  }

  function Insert<T>(x: T, s: seq<T>, le: (T, T) -> bool): seq<T> {
    if s == [] then [x]
    else if le(x, s[0]) then [x] + s
    else [s[0]] + Insert(x, s[1..], le)
  }

  /** `slice::sort_by`. */
  function StableSort<T>(s: seq<T>, le: (T, T) -> bool): seq<T> {
    if s == [] then [] else Insert(s[0], StableSort(s[1..], le), le)
  }

  // ----- a permutation

  lemma {:induction false} InsertPermutes<T>(x: T, s: seq<T>, le: (T, T) -> bool)
    ensures multiset(Insert(x, s, le)) == multiset{x} + multiset(s)
  {
    if s == [] {
    } else {
      assert s == [s[0]] + s[1..];
      if !le(x, s[0]) {
        InsertPermutes(x, s[1..], le);
      }
    }
  }

  lemma {:induction false} SortPermutes<T>(s: seq<T>, le: (T, T) -> bool)
    ensures multiset(StableSort(s, le)) == multiset(s)
  {
    if s == [] {
    } else {
      assert s == [s[0]] + s[1..];
      SortPermutes(s[1..], le);
      InsertPermutes(s[0], StableSort(s[1..], le), le);
    }
  }

  lemma SameElements<T>(s: seq<T>, t: seq<T>)
    requires multiset(s) == multiset(t)
    ensures |s| == |t| && forall x :: x in s <==> x in t
  {
    assert |multiset(s)| == |s| && |multiset(t)| == |t|;
    assert forall x :: x in s <==> x in multiset(s);
    assert forall x :: x in t <==> x in multiset(t);
  }

  // ----- sorted

  lemma SortedCons<T>(x: T, s: seq<T>, le: (T, T) -> bool)
    requires Sorted(s, le) && forall y :: y in s ==> le(x, y)
    ensures Sorted([x] + s, le)
  {
  }

  lemma {:induction false} InsertSorts<T(!new)>(x: T, s: seq<T>, le: (T, T) -> bool)
    requires TotalPreorder(le) && Sorted(s, le)
    ensures Sorted(Insert(x, s, le), le)
  {
    if s == [] || le(x, s[0]) {
    } else {
      InsertSorts(x, s[1..], le);
      InsertPermutes(x, s[1..], le);
      SameElements(Insert(x, s[1..], le), [x] + s[1..]);
      SortedCons(s[0], Insert(x, s[1..], le), le);
    }
  }

  lemma {:induction false} SortSorts<T(!new)>(s: seq<T>, le: (T, T) -> bool)
    requires TotalPreorder(le)
    ensures Sorted(StableSort(s, le), le)
  {
    if s == [] {
    } else {
      SortSorts(s[1..], le);
      InsertSorts(s[0], StableSort(s[1..], le), le);
    }
  }

  // ----- stable

  /** The elements that tie with `x`, in order. */
  function Ties<T>(x: T, s: seq<T>, le: (T, T) -> bool): seq<T> {
    if s == [] then []
    else (if Equivalent(x, s[0], le) then [s[0]] else []) + Ties(x, s[1..], le)
  }

  lemma TiesOfCons<T>(x: T, y: T, s: seq<T>, le: (T, T) -> bool)
    ensures Ties(x, [y] + s, le) == (if Equivalent(x, y, le) then [y] else []) + Ties(x, s, le)
  {
    assert ([y] + s)[1..] == s;
  }

  lemma {:induction false} InsertKeepsTies<T(!new)>(x: T, y: T, s: seq<T>, le: (T, T) -> bool)
    requires TotalPreorder(le)
    ensures Ties(x, Insert(y, s, le), le) == Ties(x, [y] + s, le)
  {
    hide Ties;
    if s != [] && !le(y, s[0]) {
      InsertKeepsTies(x, y, s[1..], le);
      assert s == [s[0]] + s[1..];
      TiesOfCons(x, y, s, le);
      TiesOfCons(x, s[0], s[1..], le);
      TiesOfCons(x, s[0], Insert(y, s[1..], le), le);
      TiesOfCons(x, y, s[1..], le);
      var rest := Ties(x, s[1..], le);
      assert !(Equivalent(x, y, le) && Equivalent(x, s[0], le));
      assert [y] + ([] + rest) == [] + ([y] + rest) && [] + ([s[0]] + rest) == [s[0]] + ([] + rest);
    } else {
      assert s == [] ==> [y] + s == [y];
    }
  }

  lemma {:induction false} SortKeepsTies<T(!new)>(x: T, s: seq<T>, le: (T, T) -> bool)
    requires TotalPreorder(le)
    ensures Ties(x, StableSort(s, le), le) == Ties(x, s, le)
  {
    if s == [] {
    } else {
      hide Ties, Insert;
      SortKeepsTies(x, s[1..], le);
      InsertKeepsTies(x, s[0], StableSort(s[1..], le), le);
      TiesOfCons(x, s[0], StableSort(s[1..], le), le);
      assert s == [s[0]] + s[1..];
      TiesOfCons(x, s[0], s[1..], le);
    }
  }

  // ----- determined

  ghost predicate Antisymmetric<T>(s: seq<T>, le: (T, T) -> bool) {
    forall x, y :: x in s && y in s && le(x, y) && le(y, x) ==> x == y
  }

  /** Where ties are equal, the sorted arrangement is unique. */
  lemma {:induction false} SortedUnique<T>(s: seq<T>, t: seq<T>, le: (T, T) -> bool)
    requires Sorted(s, le) && Sorted(t, le) && Antisymmetric(s, le)
    requires multiset(s) == multiset(t)
    ensures s == t
  {
    SameElements(s, t);
    if s == [] {
    } else {
      HeadIsLeast(s, t[0], le);
      HeadIsLeast(t, s[0], le);
      Tail(s);
      Tail(t);
      SortedUnique(s[1..], t[1..], le);
    }
  }

  lemma HeadIsLeast<T>(s: seq<T>, x: T, le: (T, T) -> bool)
    requires Sorted(s, le) && x in s
    ensures x == s[0] || le(s[0], x)
  {
  }

  lemma Tail<T>(s: seq<T>)
    requires s != []
    ensures s == [s[0]] + s[1..]
    ensures multiset(s[1..]) == multiset(s) - multiset{s[0]}
  {
    assert s == [s[0]] + s[1..];
  }

  lemma {:induction false} SameTailTies<T>(x: T, y: T, s: seq<T>, t: seq<T>, le: (T, T) -> bool)
    requires Ties(x, [y] + s, le) == Ties(x, [y] + t, le)
    ensures Ties(x, s, le) == Ties(x, t, le)
  {
    hide Ties;
    TiesOfCons(x, y, s, le);
    TiesOfCons(x, y, t, le);
    var head := if Equivalent(x, y, le) then [y] else [];
    assert Ties(x, s, le) == (head + Ties(x, s, le))[|head|..];
    assert Ties(x, t, le) == (head + Ties(x, t, le))[|head|..];
  }

  /** Sorted and with the same ties in the same order is the same. */
  lemma {:induction false} StableUnique<T(!new)>(s: seq<T>, t: seq<T>, le: (T, T) -> bool)
    requires TotalPreorder(le) && Sorted(s, le) && Sorted(t, le)
    requires multiset(s) == multiset(t)
    requires forall x :: Ties(x, s, le) == Ties(x, t, le)
    ensures s == t
  {
    hide Ties;
    SameElements(s, t);
    if s == [] {
    } else {
      HeadIsLeast(s, t[0], le);
      HeadIsLeast(t, s[0], le);
      Tail(s);
      Tail(t);
      assert le(s[0], s[0]) && le(t[0], t[0]);
      TiesOfCons(s[0], s[0], s[1..], le);
      TiesOfCons(s[0], t[0], t[1..], le);
      assert Ties(s[0], s, le)[0] == s[0] && Ties(s[0], t, le)[0] == t[0];
      forall x ensures Ties(x, s[1..], le) == Ties(x, t[1..], le) {
        SameTailTies(x, s[0], s[1..], t[1..], le);
      }
      StableUnique(s[1..], t[1..], le);
    }
  }

  // ----- without duplicates

  ghost predicate NoDuplicates<T>(s: seq<T>) {
    forall i, j :: 0 <= i < j < |s| ==> s[i] != s[j]
  }

  /** Without duplicates, the elements determine the multiset. */
  lemma SameElementsSameMultiset<T>(s: seq<T>, t: seq<T>)
    requires NoDuplicates(s) && NoDuplicates(t)
    requires forall x :: x in s <==> x in t
    ensures multiset(s) == multiset(t)
  {
    forall x ensures multiset(s)[x] == multiset(t)[x] {
      OneOrNone(s, x);
      OneOrNone(t, x);
    }
  }

  lemma {:induction false} OneOrNone<T>(s: seq<T>, x: T)
    requires NoDuplicates(s)
    ensures multiset(s)[x] == if x in s then 1 else 0
  {
    if s == [] {
    } else {
      assert s == [s[0]] + s[1..];
      OneOrNone(s[1..], x);
    }
  }

  lemma NoDuplicatesPermuted<T>(s: seq<T>, t: seq<T>)
    requires NoDuplicates(s) && multiset(s) == multiset(t)
    ensures NoDuplicates(t)
  {
    forall i, j | 0 <= i < j < |t| ensures t[i] != t[j] {
      OneOrNone(s, t[i]);
      assert t == t[..i] + [t[i]] + t[i + 1..j] + [t[j]] + t[j + 1..];
    }
  }
}
