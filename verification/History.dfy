/** History autosuggestion (crates/core/src/history.rs). */
module History {
  import opened Wrappers
  import opened Sequences
  import opened SpecTypes
  import opened Sorting

  datatype Entry = Entry(command: string, cwd: Option<string>, exitCode: Option<int>, ts: Option<I64>)

  /** A distinct command, with its newest directory and how often it occurred. */
  datatype Distinct = Distinct(command: string, cwd: Option<string>, count: U32)

  const MAX_COUNT: U32 := 0xFFFF_FFFF

  // ----- most recent first

  predicate NotOlder(a: Entry, b: Entry) {
    a.ts.GetOr(0) >= b.ts.GetOr(0)
  }

  predicate AllTimed(es: seq<Entry>) {
    es != [] && forall i :: 0 <= i < |es| ==> es[i].ts.Some?
  }

  /** Entries by descending time if all are timed, else as given. */
  function RecentFirst(es: seq<Entry>): seq<Entry> {
    if AllTimed(es) then StableSort(es, NotOlder) else es
  }

  lemma RecentFirstIsStable(es: seq<Entry>)
    requires AllTimed(es)
    ensures multiset(RecentFirst(es)) == multiset(es)
    ensures forall i, j :: 0 <= i < j < |RecentFirst(es)| ==>
              RecentFirst(es)[i].ts.GetOr(0) >= RecentFirst(es)[j].ts.GetOr(0)
    ensures forall x :: Ties(x, RecentFirst(es), NotOlder) == Ties(x, es, NotOlder)
  {
    SortPermutes(es, NotOlder);
    SortSorts(es, NotOlder);
    forall x ensures Ties(x, RecentFirst(es), NotOlder) == Ties(x, es, NotOlder) {
      SortKeepsTies(x, es, NotOlder);
    }
  }

  /** The entries of one time, in order. */
  function AtTime(es: seq<Entry>, t: int): seq<Entry> {
    if es == [] then [] else (if es[0].ts.Some? && es[0].ts.value == t then [es[0]] else []) + AtTime(es[1..], t)
  }

  lemma {:induction false} TiesAreAtTime(es: seq<Entry>, x: Entry)
    requires x.ts.Some? && forall i :: 0 <= i < |es| ==> es[i].ts.Some?
    ensures Ties(x, es, NotOlder) == AtTime(es, x.ts.value)
  {
    if es == [] {
    } else {
      TiesAreAtTime(es[1..], x);
    }
  }

  /** A window with an entry that has no time stays as it is given. In any other the newest
      come first, and entries of one time stay in the order given. */
  lemma {:induction false} OrderIs(es: seq<Entry>)
    ensures (exists i :: 0 <= i < |es| && es[i].ts.None?) ==> RecentFirst(es) == es
    ensures (forall i :: 0 <= i < |es| ==> es[i].ts.Some?) ==>
              && (forall i, j :: 0 <= i < j < |RecentFirst(es)| ==>
                    RecentFirst(es)[i].ts.Some? && RecentFirst(es)[j].ts.Some?
                    && RecentFirst(es)[i].ts.value >= RecentFirst(es)[j].ts.value)
              && forall t: I64 :: AtTime(RecentFirst(es), t) == AtTime(es, t)
  {
    if forall i :: 0 <= i < |es| ==> es[i].ts.Some? {
      var r := RecentFirst(es);
      if es != [] {
        RecentFirstIsStable(es);
        SameElements(r, es);
        hide RecentFirst, Ties, AtTime;
        forall i | 0 <= i < |r| ensures r[i].ts.Some? {
          assert r[i] in es;
        }
        forall t: I64 ensures AtTime(r, t) == AtTime(es, t) {
          var x := Entry("", None, None, Some(t));
          TiesAreAtTime(r, x);
          TiesAreAtTime(es, x);
        }
      }
    }
  }

  // ----- distinct commands

  function IndexOf(cs: seq<Distinct>, command: string): (r: nat)
    ensures r <= |cs|
    ensures r < |cs| ==> cs[r].command == command
    ensures forall j :: 0 <= j < r ==> cs[j].command != command
  {
    IndexWhere((c: Distinct) => c.command == command, cs)
  }

  function Bump(c: Distinct): Distinct {
    c.(count := if c.count < MAX_COUNT then c.count + 1 else MAX_COUNT)
  }

  /** One older entry: a known command is counted, a new one goes last. */
  function Add(cs: seq<Distinct>, e: Entry): seq<Distinct> {
    var i := IndexOf(cs, e.command);
    if i < |cs| then cs[i := Bump(cs[i])] else cs + [Distinct(e.command, e.cwd, 1)]
  }

  function DistinctOf(es: seq<Entry>): seq<Distinct> {
    if es == [] then [] else Add(DistinctOf(es[..|es| - 1]), es[|es| - 1])
  }

  /** The search for a command that is already listed. */
  method FindCommand(cs: seq<Distinct>, command: string) returns (i: nat)
    ensures i == IndexOf(cs, command)
  {
    hide IndexOf;
    i := 0;
    while i < |cs| && cs[i].command != command
      invariant i <= |cs| && forall j :: 0 <= j < i ==> cs[j].command != command
    {
      i := i + 1;
    }
  }

  lemma DistinctSnoc(es: seq<Entry>, n: nat)
    requires n < |es|
    ensures DistinctOf(es[..n + 1]) == Add(DistinctOf(es[..n]), es[n])
  {
    assert es[..n + 1][..n] == es[..n];
  }

  /** `distinct_recent_first`. */
  method DistinctRecentFirst(es: seq<Entry>) returns (cs: seq<Distinct>)
    ensures cs == DistinctOf(RecentFirst(es))
  {
    var ordered := RecentFirst(es);
    cs := [];
    var n := 0;
    assert ordered[..0] == [] && DistinctOf([]) == [];
    hide DistinctOf, RecentFirst, IndexOf, Bump;
    while n < |ordered|
      invariant n <= |ordered| && cs == DistinctOf(ordered[..n])
    {
      DistinctSnoc(ordered, n);
      var e := ordered[n];
      var i := FindCommand(cs, e.command);
      if i < |cs| {
        cs := cs[i := Bump(cs[i])];
      } else {
        cs := cs + [Distinct(e.command, e.cwd, 1)];
      }
      n := n + 1;
    }
    assert ordered[..n] == ordered;
  }

  /** Where a command occurs first, that is, newest. */
  function FirstAt(es: seq<Entry>, command: string): (k: nat)
    ensures k <= |es|
    ensures k < |es| ==> es[k].command == command
    ensures forall j :: 0 <= j < k ==> es[j].command != command
  {
    IndexWhere((e: Entry) => e.command == command, es)
  }

  function Occurrences(es: seq<Entry>, command: string): nat {
    if es == [] then 0
    else Occurrences(es[..|es| - 1], command) + if es[|es| - 1].command == command then 1 else 0
  }

  /** Each distinct command carries the directory of its newest occurrence. */
  ghost predicate AreNewest(cs: seq<Distinct>, es: seq<Entry>) {
    forall i :: 0 <= i < |cs| ==>
      FirstAt(es, cs[i].command) < |es| && cs[i].cwd == es[FirstAt(es, cs[i].command)].cwd
  }

  ghost predicate AreInOrder(cs: seq<Distinct>, es: seq<Entry>) {
    forall i, j :: 0 <= i < j < |cs| ==> FirstAt(es, cs[i].command) < FirstAt(es, cs[j].command)
  }

  ghost predicate AreAll(cs: seq<Distinct>, es: seq<Entry>) {
    forall k :: 0 <= k < |es| ==> IndexOf(cs, es[k].command) < |cs|
  }

  /** The distinct commands are those of the entries, by newest occurrence, with the
      directory of that occurrence. */
  ghost predicate Digests(cs: seq<Distinct>, es: seq<Entry>) {
    AreNewest(cs, es) && AreInOrder(cs, es) && AreAll(cs, es)
  }

  lemma FirstAtSnoc(es: seq<Entry>, e: Entry, command: string)
    ensures FirstAt(es + [e], command) ==
            if FirstAt(es, command) < |es| || e.command == command then FirstAt(es, command) else |es| + 1
  {
    var k := FirstAt(es + [e], command);
    assert FirstAt(es, command) < |es| ==> (es + [e])[FirstAt(es, command)].command == command;
    assert e.command == command ==> (es + [e])[|es|].command == command;
    assert k < |es| ==> es[k].command == command;
    assert forall j :: 0 <= j < |es| && j < k ==> es[j] == (es + [e])[j];
  }

  /** Counting a known command changes neither the commands nor their places. */
  lemma {:induction false} BumpDigests(cs: seq<Distinct>, es: seq<Entry>, e: Entry, i: nat)
    requires Digests(cs, es) && i < |cs| && cs[i].command == e.command
    ensures Digests(cs[i := Bump(cs[i])], es + [e])
  {
    hide FirstAt, IndexOf, AreNewest, AreInOrder, AreAll;
    var r := cs[i := Bump(cs[i])];
    assert forall j :: 0 <= j < |r| ==> r[j].command == cs[j].command && r[j].cwd == cs[j].cwd;
    SameNewest(cs, r, es, e);
    SameAll(cs, r, es, e, i);
  }

  lemma {:induction false} SameNewest(cs: seq<Distinct>, r: seq<Distinct>, es: seq<Entry>, e: Entry)
    requires AreNewest(cs, es) && AreInOrder(cs, es)
    requires |r| == |cs| && forall j :: 0 <= j < |r| ==> r[j].command == cs[j].command && r[j].cwd == cs[j].cwd
    ensures AreNewest(r, es + [e]) && AreInOrder(r, es + [e])
  {
    hide FirstAt;
    forall j | 0 <= j < |cs| ensures FirstAt(es + [e], r[j].command) == FirstAt(es, cs[j].command) {
      FirstAtSnoc(es, e, cs[j].command);
    }
  }

  lemma {:induction false} SameAll(cs: seq<Distinct>, r: seq<Distinct>, es: seq<Entry>, e: Entry, i: nat)
    requires AreAll(cs, es) && i < |cs| && cs[i].command == e.command
    requires |r| == |cs| && forall j :: 0 <= j < |r| ==> r[j].command == cs[j].command
    ensures AreAll(r, es + [e])
  {
    forall k | 0 <= k < |es + [e]| ensures IndexOf(r, (es + [e])[k].command) < |r| {
      IndexOfSame(cs, r, (es + [e])[k].command);
      assert k == |es| ==> IndexOf(cs, e.command) <= i;
    }
  }

  lemma IndexOfSame(cs: seq<Distinct>, r: seq<Distinct>, command: string)
    requires |cs| == |r| && forall j :: 0 <= j < |r| ==> r[j].command == cs[j].command
    ensures IndexOf(cs, command) == IndexOf(r, command)
  {
    var i, j := IndexOf(cs, command), IndexOf(r, command);
    assert i < |cs| ==> r[i].command == command;
    assert j < |cs| ==> cs[j].command == command;
  }

  lemma {:induction false} NewDigests(cs: seq<Distinct>, es: seq<Entry>, e: Entry)
    requires Digests(cs, es) && IndexOf(cs, e.command) == |cs|
    ensures Digests(cs + [Distinct(e.command, e.cwd, 1)], es + [e])
  {
    hide FirstAt, IndexOf, AreNewest, AreInOrder, AreAll;
    NotAmong(cs, es, e.command);
    FirstAtSnoc(es, e, e.command);
    AllSnoc(cs, es, Distinct(e.command, e.cwd, 1), e);
    NewestSnoc(cs, es, Distinct(e.command, e.cwd, 1), e);
  }

  lemma {:induction false} AllSnoc(cs: seq<Distinct>, es: seq<Entry>, c: Distinct, e: Entry)
    requires AreAll(cs, es) && c.command == e.command
    ensures AreAll(cs + [c], es + [e])
  {
    hide IndexOf;
    forall k | 0 <= k < |es + [e]| ensures IndexOf(cs + [c], (es + [e])[k].command) < |cs + [c]| {
      IndexOfPrefix(cs, cs + [c], (es + [e])[k].command);
    }
  }

  lemma {:induction false} NewestSnoc(cs: seq<Distinct>, es: seq<Entry>, c: Distinct, e: Entry)
    requires AreNewest(cs, es) && AreInOrder(cs, es)
    requires FirstAt(es + [e], c.command) == |es| && c.cwd == e.cwd
    ensures AreNewest(cs + [c], es + [e]) && AreInOrder(cs + [c], es + [e])
  {
    hide FirstAt;
    var r := cs + [c];
    forall i | 0 <= i < |cs| ensures r[i] == cs[i] && FirstAt(es + [e], r[i].command) == FirstAt(es, cs[i].command) {
      FirstAtSnoc(es, e, cs[i].command);
    }
  }

  lemma NotAmong(cs: seq<Distinct>, es: seq<Entry>, command: string)
    requires Digests(cs, es) && IndexOf(cs, command) == |cs|
    ensures FirstAt(es, command) == |es|
  {
  }

  lemma IndexOfPrefix(cs: seq<Distinct>, r: seq<Distinct>, command: string)
    requires |r| == |cs| + 1 && r[..|cs|] == cs
    requires IndexOf(cs, command) < |cs| || r[|cs|].command == command
    ensures IndexOf(r, command) < |r|
  {
    var i := IndexOf(cs, command);
    assert i < |cs| ==> r[i] == r[..|cs|][i];
    assert if i < |cs| then r[i].command == command else r[|cs|].command == command;
  }

  lemma {:induction false} AddDigests(cs: seq<Distinct>, es: seq<Entry>, e: Entry)
    requires Digests(cs, es)
    ensures Digests(Add(cs, e), es + [e])
  {
    hide Digests;
    var i := IndexOf(cs, e.command);
    if i < |cs| {
      BumpDigests(cs, es, e, i);
    } else {
      NewDigests(cs, es, e);
    }
  }

  lemma {:induction false} DistinctDigests(es: seq<Entry>)
    ensures Digests(DistinctOf(es), es)
  {
    hide Add, FirstAt, IndexOf;
    if es == [] {
    } else {
      DistinctDigests(es[..|es| - 1]);
      AddDigests(DistinctOf(es[..|es| - 1]), es[..|es| - 1], es[|es| - 1]);
      assert es[..|es| - 1] + [es[|es| - 1]] == es;
    }
  }

  // ----- frequencies

  function Total(cs: seq<Distinct>): nat {
    if cs == [] then 0 else Total(cs[..|cs| - 1]) + cs[|cs| - 1].count
  }

  lemma {:induction false} TotalUpdate(cs: seq<Distinct>, i: nat, c: Distinct)
    requires i < |cs|
    ensures Total(cs[i := c]) == Total(cs) - cs[i].count + c.count
  {
    var n := |cs| - 1;
    if i == n {
      assert cs[i := c][..n] == cs[..n];
    } else {
      assert cs[i := c][..n] == cs[..n][i := c];
      TotalUpdate(cs[..n], i, c);
    }
  }

  ghost predicate CountsAre(cs: seq<Distinct>, es: seq<Entry>) {
    forall i :: 0 <= i < |cs| ==>
      cs[i].count == if Occurrences(es, cs[i].command) <= MAX_COUNT then Occurrences(es, cs[i].command) else MAX_COUNT
  }

  lemma {:induction false} NoneBefore(es: seq<Entry>, command: string)
    requires forall k :: 0 <= k < |es| ==> es[k].command != command
    ensures Occurrences(es, command) == 0
    decreases |es|
  {
    if es == [] {
    } else {
      NoneBefore(es[..|es| - 1], command);
    }
  }

  lemma {:induction false} AddCounts(cs: seq<Distinct>, es: seq<Entry>, e: Entry)
    requires Digests(cs, es) && CountsAre(cs, es)
    ensures CountsAre(Add(cs, e), es + [e])
    ensures Total(Add(cs, e)) ==
            Total(cs) + if Occurrences(es, e.command) < MAX_COUNT then 1 else 0
  {
    hide Digests, Bump, FirstAt, Total;
    var i, r := IndexOf(cs, e.command), Add(cs, e);
    assert (es + [e])[..|es|] == es;
    assert forall c :: Occurrences(es + [e], c) == Occurrences(es, c) + if e.command == c then 1 else 0;
    DistinctPlaces(cs, es);
    if i < |cs| {
      BumpCounts(cs[i]);
      TotalUpdate(cs, i, Bump(cs[i]));
    } else {
      NotYet(cs, es, e.command);
      TotalSnoc(cs, Distinct(e.command, e.cwd, 1));
    }
  }

  lemma BumpCounts(c: Distinct)
    ensures Bump(c).command == c.command
    ensures Bump(c).count == if c.count < MAX_COUNT then c.count + 1 else MAX_COUNT
  {
  }

  lemma TotalSnoc(cs: seq<Distinct>, c: Distinct)
    ensures Total(cs + [c]) == Total(cs) + c.count
  {
    assert (cs + [c])[..|cs|] == cs;
  }

  lemma DistinctPlaces(cs: seq<Distinct>, es: seq<Entry>)
    requires Digests(cs, es)
    ensures forall i, j :: 0 <= i < j < |cs| ==> cs[i].command != cs[j].command
  {
  }

  lemma NotYet(cs: seq<Distinct>, es: seq<Entry>, command: string)
    requires Digests(cs, es) && IndexOf(cs, command) == |cs|
    ensures Occurrences(es, command) == 0
  {
    NoneBefore(es, command);
  }

  /** Each command carries its number of occurrences, saturated; and the counts add up
      to the window exactly when none is saturated. */
  lemma {:induction false} CountsAreOccurrences(es: seq<Entry>)
    ensures CountsAre(DistinctOf(es), es)
    ensures Total(DistinctOf(es)) <= |es|
    ensures Total(DistinctOf(es)) == |es| <==> Unsaturated(es)
  {
    hide Add, CountsAre, Total, Digests, Occurrences;
    if es == [] {
      NoCounts();
    } else {
      var init, e := es[..|es| - 1], es[|es| - 1];
      CountsAreOccurrences(init);
      DistinctDigests(init);
      AddCounts(DistinctOf(init), init, e);
      assert init + [e] == es;
      BoundSnoc(init, e);
    }
  }

  lemma NoCounts()
    ensures CountsAre([], []) && Total([]) == 0
    ensures forall c :: Occurrences([], c) <= MAX_COUNT
  {
  }

  ghost predicate Unsaturated(es: seq<Entry>) {
    forall c :: Occurrences(es, c) <= MAX_COUNT
  }

  lemma BoundSnoc(es: seq<Entry>, e: Entry)
    ensures Unsaturated(es + [e]) <==> Unsaturated(es) && Occurrences(es, e.command) < MAX_COUNT
  {
    assert (es + [e])[..|es|] == es;
    assert forall c :: Occurrences(es + [e], c) == Occurrences(es, c) + if e.command == c then 1 else 0;
    if Unsaturated(es + [e]) {
      assert Occurrences(es + [e], e.command) <= MAX_COUNT;
      forall c ensures Occurrences(es, c) <= MAX_COUNT {
        assert Occurrences(es + [e], c) <= MAX_COUNT;
      }
    }
  }

  // ----- the suggestion

  datatype Key = Key(cwdMatch: bool, recency: int, count: nat)

  function RankKey(c: Distinct, index: nat, cwd: Option<string>): Key {
    Key(cwd.Some? && c.cwd == cwd, 0 - index, c.count)
  }

  predicate KeyLe(a: Key, b: Key) {
    if a.cwdMatch != b.cwdMatch then b.cwdMatch
    else if a.recency != b.recency then a.recency < b.recency
    else a.count <= b.count
  }

  /** `filter(..).max_by(..)` over the first `n` commands; of equal keys the last wins. */
  function Best(cs: seq<Distinct>, prefix: string, cwd: Option<string>, n: nat): (r: Option<nat>)
    requires n <= |cs|
    ensures r.Some? ==> r.value < n
  {
    if n == 0 then None
    else
      var best := Best(cs, prefix, cwd, n - 1);
      if prefix <= cs[n - 1].command &&
         (best.None? || KeyLe(RankKey(cs[best.value], best.value, cwd), RankKey(cs[n - 1], n - 1, cwd)))
      then Some(n - 1) else best
  }

  function Suggested(prefix: string, es: seq<Entry>, cwd: Option<string>): Option<string> {
    var cs := DistinctOf(RecentFirst(es));
    var best := Best(cs, prefix, cwd, |cs|);
    if best.Some? then Some(cs[best.value].command) else None
  }

  predicate InDir(c: Option<string>, cwd: Option<string>) {
    cwd.Some? && c == cwd
  }

  /** The winner is the first match in the request's directory, or else the first match;
      the count never decides. */
  lemma {:induction false} BestIsFirst(cs: seq<Distinct>, prefix: string, cwd: Option<string>, n: nat)
    requires n <= |cs|
    ensures var r := Best(cs, prefix, cwd, n);
            && (r.None? ==> forall j :: 0 <= j < n ==> !(prefix <= cs[j].command))
            && (r.Some? ==> prefix <= cs[r.value].command)
            && (r.Some? ==> forall j :: 0 <= j < n && j != r.value && prefix <= cs[j].command ==>
                  if InDir(cs[j].cwd, cwd) then InDir(cs[r.value].cwd, cwd) && r.value < j
                  else InDir(cs[r.value].cwd, cwd) || r.value < j)
  {
    if n == 0 {
    } else {
      BestIsFirst(cs, prefix, cwd, n - 1);
    }
  }

  /** The plain scan: the first entry that starts with the prefix. */
  function FirstMatch(es: seq<Entry>, prefix: string): (k: nat)
    ensures k <= |es|
    ensures k < |es| ==> prefix <= es[k].command
    ensures forall j :: 0 <= j < k ==> !(prefix <= es[j].command)
  {
    IndexWhere((e: Entry) => prefix <= e.command, es)
  }

  /** An entry that is the newest of its command, matches, and ran in the directory. */
  predicate IsNewestIn(es: seq<Entry>, prefix: string, cwd: Option<string>, k: nat)
    requires k < |es|
  {
    prefix <= es[k].command && InDir(es[k].cwd, cwd) && FirstAt(es, es[k].command) == k
  }

  function FirstNewestIn(es: seq<Entry>, prefix: string, cwd: Option<string>, k: nat): (r: nat)
    requires k <= |es|
    ensures k <= r <= |es|
    ensures r < |es| ==> IsNewestIn(es, prefix, cwd, r)
    ensures forall j :: k <= j < r ==> !IsNewestIn(es, prefix, cwd, j)
    decreases |es| - k
  {
    if k == |es| || IsNewestIn(es, prefix, cwd, k) then k else FirstNewestIn(es, prefix, cwd, k + 1)
  }

  /** What the user is promised: the newest matching command whose newest occurrence was
      in the request's directory, or else the newest matching command. */
  function Expected(es: seq<Entry>, prefix: string, cwd: Option<string>): Option<string> {
    var near, any := FirstNewestIn(es, prefix, cwd, 0), FirstMatch(es, prefix);
    if near < |es| then Some(es[near].command)
    else if any < |es| then Some(es[any].command)
    else None
  }

  /** The distinct command of an entry, which comes no later than the entry. */
  lemma DistinctOfEntry(cs: seq<Distinct>, es: seq<Entry>, k: nat) returns (j: nat)
    requires Digests(cs, es) && k < |es|
    ensures j < |cs| && cs[j].command == es[k].command
    ensures FirstAt(es, cs[j].command) <= k
  {
    j := IndexOf(cs, es[k].command);
    assert IndexOf(cs, es[k].command) < |cs|;
  }

  lemma {:induction false} EarlierIsEarlier(cs: seq<Distinct>, es: seq<Entry>, i: nat, j: nat)
    requires Digests(cs, es) && i < |cs| && j < |cs|
    requires FirstAt(es, cs[j].command) < FirstAt(es, cs[i].command)
    ensures j < i
  {
    hide FirstAt;
  }

  /** Nothing before the newest occurrence of the winner would be preferred to it. */
  lemma {:induction false} NothingEarlier(cs: seq<Distinct>, es: seq<Entry>, prefix: string, cwd: Option<string>,
                                          i: nat, k: nat)
    requires Digests(cs, es) && Best(cs, prefix, cwd, |cs|) == Some(i)
    requires k < |es| && prefix <= es[k].command
    requires k < FirstAt(es, cs[i].command) || !InDir(cs[i].cwd, cwd)
    ensures !IsNewestIn(es, prefix, cwd, k)
    ensures k < FirstAt(es, cs[i].command) ==> InDir(cs[i].cwd, cwd)
  {
    BestIsFirst(cs, prefix, cwd, |cs|);
    var j := DistinctOfEntry(cs, es, k);
    hide FirstAt, Best;
    if k < FirstAt(es, cs[i].command) {
      EarlierIsEarlier(cs, es, i, j);
    }
    assert FirstAt(es, cs[j].command) == k ==> cs[j].cwd == es[k].cwd;
  }

  lemma {:induction false} SuggestedIsExpected(prefix: string, es: seq<Entry>, cwd: Option<string>)
    ensures Suggested(prefix, es, cwd) == Expected(RecentFirst(es), prefix, cwd)
  {
    var ordered := RecentFirst(es);
    hide RecentFirst, FirstAt;
    var cs := DistinctOf(ordered);
    var best := Best(cs, prefix, cwd, |cs|);
    DistinctDigests(ordered);
    BestIsFirst(cs, prefix, cwd, |cs|);
    var near, any := FirstNewestIn(ordered, prefix, cwd, 0), FirstMatch(ordered, prefix);
    if best.None? {
      if any < |ordered| {
        var j := DistinctOfEntry(cs, ordered, any);
      }
    } else {
      WinnerIsExpected(cs, ordered, prefix, cwd, best.value);
    }
  }

  lemma {:induction false} WinnerIsExpected(cs: seq<Distinct>, es: seq<Entry>, prefix: string, cwd: Option<string>,
                                            i: nat)
    requires Digests(cs, es) && Best(cs, prefix, cwd, |cs|) == Some(i)
    ensures Expected(es, prefix, cwd) == Some(cs[i].command)
  {
    hide Best, Digests, FirstNewestIn, FirstMatch, FirstAt;
    var k := WinnerPlace(cs, es, prefix, cwd, i);
    var near, any := FirstNewestIn(es, prefix, cwd, 0), FirstMatch(es, prefix);
    if near < |es| && (near < k || !InDir(cs[i].cwd, cwd)) {
      NothingEarlier(cs, es, prefix, cwd, i, near);
    }
    if any < k && !InDir(cs[i].cwd, cwd) {
      NothingEarlier(cs, es, prefix, cwd, i, any);
    }
  }

  lemma {:induction false} WinnerPlace(cs: seq<Distinct>, es: seq<Entry>, prefix: string, cwd: Option<string>,
                                       i: nat) returns (k: nat)
    requires Digests(cs, es) && Best(cs, prefix, cwd, |cs|) == Some(i)
    ensures k == FirstAt(es, cs[i].command) < |es| && es[k].command == cs[i].command && prefix <= es[k].command
    ensures InDir(cs[i].cwd, cwd) <==> IsNewestIn(es, prefix, cwd, k)
  {
    hide Best;
    BestIsFirst(cs, prefix, cwd, |cs|);
    k := FirstAt(es, cs[i].command);
  }

  /** `autosuggest`. */
  method Autosuggest(prefix: string, es: seq<Entry>, cwd: Option<string>) returns (r: Option<string>)
    ensures r == Expected(RecentFirst(es), prefix, cwd)
  {
    hide RecentFirst, Expected, DistinctOf, Best;
    var candidates := DistinctRecentFirst(es);
    var best := Best(candidates, prefix, cwd, |candidates|);
    SuggestedIsExpected(prefix, es, cwd);
    r := if best.Some? then Some(candidates[best.value].command) else None;
  }

  /** The entry matches, and no newer one has its command. */
  predicate IsNewestMatch(es: seq<Entry>, prefix: string, k: int) {
    0 <= k < |es| && prefix <= es[k].command && forall j :: 0 <= j < k ==> es[j].command != es[k].command
  }

  /** The newest of those that ran in the directory, if some did, or else of all. */
  ghost predicate IsPreferred(es: seq<Entry>, prefix: string, cwd: Option<string>, k: nat)
    requires k < |es|
  {
    if exists j :: IsNewestMatch(es, prefix, j) && cwd.Some? && es[j].cwd == cwd
    then es[k].cwd == cwd && forall j :: IsNewestMatch(es, prefix, j) && es[j].cwd == cwd ==> k <= j
    else forall j :: IsNewestMatch(es, prefix, j) ==> k <= j
  }

  /** The suggestion, with the newest entry first: nothing if nothing matches; or else the
      newest match that ran in the request's directory, if the request has one and some
      match did, and otherwise the newest match. */
  lemma {:induction false} SuggestionIs(prefix: string, window: seq<Entry>, cwd: Option<string>)
    ensures var es, r := RecentFirst(window), Suggested(prefix, window, cwd);
            && (r.None? <==> forall k :: 0 <= k < |es| ==> !(prefix <= es[k].command))
            && (r.Some? ==> exists k :: IsNewestMatch(es, prefix, k) && es[k].command == r.value
                                        && IsPreferred(es, prefix, cwd, k))
  {
    SuggestedIsExpected(prefix, window, cwd);
    var es := RecentFirst(window);
    hide RecentFirst, Suggested, FirstAt, FirstNewestIn, FirstMatch;
    var near, any := FirstNewestIn(es, prefix, cwd, 0), FirstMatch(es, prefix);
    forall k | 0 <= k < |es| ensures IsNewestMatch(es, prefix, k) && InDir(es[k].cwd, cwd) <==> IsNewestIn(es, prefix, cwd, k) {
      NewestIff(es, prefix, cwd, k);
    }
    if any < |es| {
      assert IsNewestMatch(es, prefix, any);
    }
  }

  lemma NewestIff(es: seq<Entry>, prefix: string, cwd: Option<string>, k: nat)
    requires k < |es|
    ensures IsNewestMatch(es, prefix, k) && InDir(es[k].cwd, cwd) <==> IsNewestIn(es, prefix, cwd, k)
  {
    var f := FirstAt(es, es[k].command);
    assert f <= k;
  }

  // ----- without dropping older occurrences

  /** The first entry that matches and ran in the directory. */
  function FirstMatchIn(es: seq<Entry>, prefix: string, cwd: Option<string>): (k: nat)
    ensures k <= |es|
    ensures k < |es| ==> prefix <= es[k].command && InDir(es[k].cwd, cwd)
    ensures forall j :: 0 <= j < k ==> !(prefix <= es[j].command && InDir(es[j].cwd, cwd))
  {
    IndexWhere((e: Entry) => prefix <= e.command && InDir(e.cwd, cwd), es)
  }

  /** The rule on entries rather than distinct commands: the first matching entry in the
      directory, or else the first matching entry. */
  function Undeduplicated(es: seq<Entry>, prefix: string, cwd: Option<string>): Option<string> {
    var near, any := FirstMatchIn(es, prefix, cwd), FirstMatch(es, prefix);
    if near < |es| then Some(es[near].command)
    else if any < |es| then Some(es[any].command)
    else None
  }

  /** Dropping older occurrences first changes the answer exactly when the first matching
      entry in the directory is an older occurrence of its command, unless nothing newest
      ran there and that command is the newest match anyway. */
  lemma {:induction false} DedupKeepsAnswerIff(es: seq<Entry>, prefix: string, cwd: Option<string>)
    ensures var near := FirstMatchIn(es, prefix, cwd);
            Expected(es, prefix, cwd) == Undeduplicated(es, prefix, cwd) <==>
            || near == |es|
            || FirstAt(es, es[near].command) == near
            || (FirstNewestIn(es, prefix, cwd, 0) == |es| && es[FirstMatch(es, prefix)].command == es[near].command)
  {
    hide FirstAt, FirstNewestIn, FirstMatch, FirstMatchIn;
    var near, newest := FirstMatchIn(es, prefix, cwd), FirstNewestIn(es, prefix, cwd, 0);
    assert newest < |es| ==> near <= newest;
    assert near < |es| ==> FirstMatch(es, prefix) <= near && FirstAt(es, es[near].command) <= near;
    if near < |es| && FirstAt(es, es[near].command) == near {
      assert IsNewestIn(es, prefix, cwd, near);
    }
  }

  /** Without a directory it never does. */
  lemma {:induction false} DedupKeepsAnswerWithoutDirectory(es: seq<Entry>, prefix: string)
    ensures Expected(es, prefix, None) == Undeduplicated(es, prefix, None)
  {
    hide Expected, Undeduplicated, FirstAt, FirstNewestIn, FirstMatch;
    DedupKeepsAnswerIff(es, prefix, None);
  }

  /** `make` ran in `/a`, then in `/b`, and then `ls` did. */
  function MovedAway(): seq<Entry> {
    [Entry("ls", Some("/b"), None, None), Entry("make", Some("/b"), None, None), Entry("make", Some("/a"), None, None)]
  }

  lemma {:induction false} DedupCanChangeAnswer()
    ensures Expected(MovedAway(), "", Some("/a")) == Some("ls")
    ensures Undeduplicated(MovedAway(), "", Some("/a")) == Some("make")
  {
    var es := MovedAway();
    hide FirstAt, FirstNewestIn, FirstMatch, FirstMatchIn;
    assert es[0].command == "ls" && es[1].command == "make" && es[2].command == "make";
    assert es[0].cwd == Some("/b") && es[1].cwd == Some("/b") && es[2].cwd == Some("/a");
    assert "/b" != "/a" by { assert "/b"[1] != "/a"[1]; }
    assert FirstAt(es, "make") <= 1;
    assert FirstMatch(es, "") == 0;
    assert FirstMatchIn(es, "", Some("/a")) == 2;
  }
}
