/** When a chained cluster `-xyz` means the same as `-x -y -z`
    (crates/core/src/parse.rs:241-271). */
module FlagCluster {
  import opened Wrappers
  import opened Sequences
  import opened SpecTypes
  import opened Parse
  import Utf8

  function Resolve(st: State, c: char): Option<Opt>
    requires st.path != []
  {
    LookupOption(st.Active(), st.persistent, ['-', c])
  }

  /** The flags of a cluster as tokens of their own. */
  function Apart(chars: string): seq<string> {
    if chars == "" then [] else [['-', chars[0]]] + Apart(chars[1..])
  }

  /** Whether a flag on its own awaits a value. A flag outside ASCII is itself a
      cluster by its length in bytes, and a cluster ignores `requiresSeparator`. */
  predicate AwaitsAlone(st: State, c: char)
    requires st.path != []
  {
    var opt := Resolve(st, c);
    opt.Some? && opt.value.args != [] && (c as int >= 0x80 || !opt.value.requiresSeparator)
  }

  /** No flag but the last awaits a value, and the last does if it takes one. */
  predicate Faithful(st: State, chars: string)
    requires st.path != []
  {
    chars != "" &&
    if |chars| == 1 then
      Resolve(st, chars[0]).Some? && Resolve(st, chars[0]).value.args != [] ==> AwaitsAlone(st, chars[0])
    else !AwaitsAlone(st, chars[0]) && Faithful(st, chars[1..])
  }

  /** Options are read here, chaining is on, and no flag reads as something else. */
  predicate Readable(st: State, chars: string)
    requires st.path != []
  {
    var d := ActiveDirectives(st.path);
    && Chaining(d) && !(OptionsFirst(d) && st.positionalStarted)
    && forall i :: 0 <= i < |chars| ==> chars[i] != '-' && SplitInline(['-', chars[i]], Separators(d)).None?
  }

  lemma {:induction false} RunCons(st: State, t: string, ts: seq<string>)
    requires st.path != []
    ensures Run(st, [t] + ts) == Run(Step(st, t), ts)
    decreases |ts|
  {
    var all := [t] + ts;
    if ts == [] {
      assert all[..0] == [] && Last(all) == t;
      assert all == [t];
    } else {
      hide Step;
      assert all[..|all| - 1] == [t] + ts[..|ts| - 1] && Last(all) == Last(ts);
      RunCons(st, t, ts[..|ts| - 1]);
    }
  }

  /** What one flag token does. */
  function Alone(st: State, c: char): Flags
    requires st.path != []
  {
    var opt := Resolve(st, c);
    if opt.None? then st.flags
    else if AwaitsAlone(st, c) then See(st.flags, opt.value).(pending := opt)
    else See(st.flags, opt.value)
  }

  lemma OneFlagCluster(node: Subcommand, persistent: seq<Opt>, c: char, f: Flags)
    ensures ConsumeCluster(node, persistent, [c], f) == ConsumeFlag(node, persistent, c, true, f)
  {
    assert [c][1..] == "";
  }

  lemma {:induction false} FlagAlone(st: State, c: char)
    requires st.path != [] && st.flags.pending.None? && Readable(st, [c])
    ensures Step(st, ['-', c]) == st.(flags := Alone(st, c))
  {
    hide LookupOption, SplitInline, ActiveDirectives, ConsumeCluster;
    var text, d := ['-', c], ActiveDirectives(st.path);
    assert SplitInline(['-', [c][0]], Separators(d)).None?;
    assert [c][0] == c && text[0] == '-' && text[1] == c;
    assert text[1..] == [c];
    TwoCharsLength(c);
    OneFlagCluster(st.Active(), st.persistent, c, st.flags);
    assert IsCluster(d, text) <==> c as int >= 0x80;
    assert RoleOf(st, text) == OptionToken;
    assert Consume(st.Active(), st.persistent, d, text, st.flags) == Alone(st, c);
  }

  lemma TwoCharsLength(c: char)
    ensures Utf8.Len(['-', c]) == 1 + Utf8.Width(c)
    ensures Utf8.Width(c) > 1 <==> c as int >= 0x80
  {
    assert ['-', c][1..] == [c] && [c][1..] == "";
    assert Utf8.Bytes([c]) == Utf8.Encode(c) + [];
  }

  lemma ReadableParts(st: State, chars: string)
    requires st.path != [] && Readable(st, chars) && chars != ""
    ensures Readable(st, [chars[0]]) && Readable(st, chars[1..])
  {
  }

  /** Whether the option of a flag has an argument. */
  predicate TakesValue(st: State, c: char)
    requires st.path != []
  {
    Resolve(st, c).Some? && Resolve(st, c).value.args != []
  }

  // ----- what the flags do apart

  function Name(st: State, c: char): set<string>
    requires st.path != []
  {
    if Resolve(st, c).Some? then {Resolve(st, c).value.name.Canonical()} else {}
  }

  function Names(st: State, chars: string): set<string>
    requires st.path != []
  {
    if chars == "" then {} else Name(st, chars[0]) + Names(st, chars[1..])
  }

  /** The names of the flags that are read as flags when they stand apart. A flag after one
      that awaits a value is that value; `swallow` says that the first flag is one. */
  function Kept(st: State, chars: string, swallow: bool): set<string>
    requires st.path != []
  {
    if chars == "" then {}
    else if swallow then Kept(st, chars[1..], false)
    else Name(st, chars[0]) + Kept(st, chars[1..], AwaitsAlone(st, chars[0]))
  }

  /** The last flag is not such a value, and awaits one itself. */
  predicate LastAwaits(st: State, chars: string, swallow: bool)
    requires st.path != []
  {
    chars != "" &&
    if |chars| == 1 then !swallow && AwaitsAlone(st, chars[0])
    else LastAwaits(st, chars[1..], !swallow && AwaitsAlone(st, chars[0]))
  }

  /** Only the parser's flags change, and nothing here depends on them. */
  lemma {:induction false} SameReading(st: State, st': State, chars: string, swallow: bool)
    requires st.path != [] && st' == st.(flags := st'.flags)
    ensures Readable(st, chars) <==> Readable(st', chars)
    ensures Names(st, chars) == Names(st', chars) && Kept(st, chars, swallow) == Kept(st', chars, swallow)
    ensures LastAwaits(st, chars, swallow) <==> LastAwaits(st', chars, swallow)
  {
    if chars == "" {
    } else {
      hide Readable;
      SameReading(st, st', chars[1..], !swallow && AwaitsAlone(st, chars[0]));
    }
    assert Readable(st, chars) <==> Readable(st', chars);
  }

  /** A token that is a value is swallowed. */
  lemma Swallowed(st: State, text: string)
    requires st.path != [] && st.flags.pending.Some?
    ensures Step(st, text) == st.(flags := st.flags.(pending := None))
  {
  }

  /** The first flag, read apart. */
  lemma {:induction false} FirstApart(st: State, c: char)
    requires st.path != [] && Readable(st, [c])
    ensures var swallow := st.flags.pending.Some?; var st' := Step(st, ['-', c]);
            && st' == st.(flags := st'.flags)
            && st'.flags.seen == st.flags.seen + (if swallow then {} else Name(st, c))
            && st'.flags.pending == if !swallow && AwaitsAlone(st, c) then Resolve(st, c) else None
  {
    hide LookupOption, Readable, Step;
    if st.flags.pending.Some? {
      Swallowed(st, ['-', c]);
    } else {
      FlagAlone(st, c);
    }
  }

  /** Flags apart see what is kept, and leave the last option awaiting a value iff that
      flag is read and awaits one. */
  lemma {:induction false} ApartIs(st: State, chars: string)
    requires st.path != [] && Readable(st, chars) && chars != ""
    ensures var swallow := st.flags.pending.Some?;
            Run(st, Apart(chars)) ==
            st.(flags := Flags(st.flags.seen + Kept(st, chars, swallow),
                               if LastAwaits(st, chars, swallow) then Resolve(st, Last(chars)) else None))
    decreases |chars|
  {
    hide Readable, LookupOption, Step, Resolve, AwaitsAlone;
    var swallow, rest, st' := st.flags.pending.Some?, chars[1..], Step(st, ['-', chars[0]]);
    ReadableParts(st, chars);
    FirstApart(st, chars[0]);
    RunCons(st, ['-', chars[0]], Apart(rest));
    AwaitingResolves(st, chars[0]);
    if rest == "" {
      assert Kept(st, rest, false) == Kept(st, rest, true) == {};
    } else {
      SameReading(st, st', rest, st'.flags.pending.Some?);
      SameOption(st, st', Last(chars));
      ApartIs(st', rest);
    }
  }

  lemma AwaitingResolves(st: State, c: char)
    requires st.path != []
    ensures AwaitsAlone(st, c) ==> TakesValue(st, c) && Resolve(st, c).Some?
  {
  }

  lemma SameOption(st: State, st': State, c: char)
    requires st.path != [] && st' == st.(flags := st'.flags)
    ensures Resolve(st, c) == Resolve(st', c)
  {
  }

  // ----- what the cluster does

  lemma {:induction false} ClusterSees(st: State, chars: string, f: Flags)
    requires st.path != []
    ensures ConsumeCluster(st.Active(), st.persistent, chars, f).seen == f.seen + Names(st, chars)
    decreases |chars|
  {
    if chars == "" {
    } else {
      hide LookupOption;
      ClusterSees(st, chars[1..], ConsumeFlag(st.Active(), st.persistent, chars[0], |chars| == 1, f));
    }
  }

  lemma {:induction false} ClusterAwaits(st: State, chars: string, f: Flags)
    requires st.path != [] && chars != ""
    ensures ConsumeCluster(st.Active(), st.persistent, chars, f).pending ==
            if TakesValue(st, Last(chars)) then Resolve(st, Last(chars)) else f.pending
    decreases |chars|
  {
    hide LookupOption;
    var f' := ConsumeFlag(st.Active(), st.persistent, chars[0], |chars| == 1, f);
    if |chars| == 1 {
      assert ConsumeCluster(st.Active(), st.persistent, chars[1..], f') == f';
    } else {
      ClusterAwaits(st, chars[1..], f');
    }
  }

  lemma {:induction false} KeptAreNamed(st: State, chars: string, swallow: bool)
    requires st.path != []
    ensures Kept(st, chars, swallow) <= Names(st, chars)
    ensures LastAwaits(st, chars, swallow) ==> chars != "" && TakesValue(st, Last(chars))
  {
    hide Resolve, TakesValue;
    if chars == "" {
    } else {
      AwaitingResolves(st, chars[0]);
      KeptAreNamed(st, chars[1..], !swallow && AwaitsAlone(st, chars[0]));
    }
  }

  // ----- the two together

  /** A cluster is read as one option token and not as an inline value. */
  predicate IsReadAsCluster(st: State, chars: string)
    requires st.path != []
  {
    var d := ActiveDirectives(st.path);
    && st.flags.pending.None? && Readable(st, chars)
    && IsCluster(d, "-" + chars) && SplitInline("-" + chars, Separators(d)).None?
  }

  lemma {:induction false} StepCluster(st: State, chars: string)
    requires st.path != [] && IsReadAsCluster(st, chars)
    ensures Step(st, "-" + chars) == st.(flags := ConsumeCluster(st.Active(), st.persistent, chars, st.flags))
    ensures chars != ""
  {
    hide LookupOption, SplitInline, ActiveDirectives, ConsumeCluster;
    var text := "-" + chars;
    assert text[1..] == chars;
    assert chars == "" ==> Utf8.Len(text) == 1 by {
      assert Utf8.Bytes("-") == Utf8.Encode('-') + [];
    }
    assert RoleOf(st, text) == OptionToken;
  }

  /** Reading `-xyz` leaves the parser where reading `-x -y -z` does exactly when every flag
      that is swallowed apart names nothing, or an option that is seen anyway, and the last
      flag, if it takes a value, awaits it apart too. */
  lemma {:induction false} ClusterMeansItsFlagsIff(st: State, chars: string)
    requires st.path != [] && IsReadAsCluster(st, chars)
    ensures chars != ""
    ensures Step(st, "-" + chars) == Run(st, Apart(chars)) <==>
            && Names(st, chars) <= st.flags.seen + Kept(st, chars, false)
            && (TakesValue(st, Last(chars)) ==> LastAwaits(st, chars, false))
  {
    hide Readable, Resolve, Step, Run, Names, Kept, LastAwaits, ConsumeCluster;
    StepCluster(st, chars);
    ApartIs(st, chars);
    ClusterSees(st, chars, st.flags);
    ClusterAwaits(st, chars, st.flags);
    KeptAreNamed(st, chars, false);
  }

  lemma {:induction false} FaithfulKeepsAll(st: State, chars: string)
    requires st.path != [] && Faithful(st, chars)
    ensures Kept(st, chars, false) == Names(st, chars)
    ensures TakesValue(st, Last(chars)) ==> LastAwaits(st, chars, false)
  {
    hide LookupOption;
    if |chars| == 1 {
      assert chars[1..] == "";
    } else {
      FaithfulKeepsAll(st, chars[1..]);
    }
  }

  /** In particular, if no flag but the last awaits a value and the last awaits one if it
      takes one. */
  lemma {:induction false} FaithfulClusterMeansItsFlags(st: State, chars: string)
    requires st.path != [] && IsReadAsCluster(st, chars) && Faithful(st, chars)
    ensures Step(st, "-" + chars) == Run(st, Apart(chars))
  {
    hide IsReadAsCluster, Faithful, Step, Run, Names, Kept, LastAwaits, TakesValue;
    FaithfulKeepsAll(st, chars);
    ClusterMeansItsFlagsIff(st, chars);
  }

  /** A node with a flag that takes a value and one that does not. */
  function TwoFlags(): State {
    var arg := Arg(None, None, false, false, None, [], None, false);
    var a := Opt(One("-a"), None, [arg], false, Flag(false), false, false, [], []);
    var b := Opt(One("-b"), None, [], false, Flag(false), false, false, [], []);
    Start(Subcommand(One("cmd"), None, [], [a, b], [], false, Some(ParserDirectives(true, false, []))))
  }

  lemma {:induction false} TwoFlagsResolve()
    ensures var st := TwoFlags();
            && Resolve(st, 'a').Some? && Resolve(st, 'a').value.args != [] && !Resolve(st, 'a').value.requiresSeparator
            && Resolve(st, 'a').value.name == One("-a")
            && Resolve(st, 'b').Some? && Resolve(st, 'b').value.args == []
            && Resolve(st, 'b').value.name == One("-b")
  {
    var opts := TwoFlags().path[0].options;
    assert opts[0].name.All() == ["-a"] && opts[1].name.All() == ["-b"];
    assert ['-', 'a'] == "-a" && ['-', 'b'] == "-b" && "-b" !in ["-a"];
    assert opts[1..][0] == opts[1];
  }

  /** `-ab` is not `-a -b` where `-a` takes a value: apart, `-b` is that value. */
  lemma {:induction false} ClusterCanDiffer()
    ensures Step(TwoFlags(), "-" + "ab") != Run(TwoFlags(), Apart("ab"))
  {
    var st := TwoFlags();
    TwoFlagsResolve();
    assert ActiveDirectives(st.path) == st.path[0].parserDirectives;
    assert Utf8.Len("-ab") > 2 by {
      Utf8.OffsetStrict("-ab", 0, 1);
      Utf8.OffsetStrict("-ab", 1, 2);
      Utf8.OffsetStrict("-ab", 2, 3);
      Utf8.OffsetEnds("-ab");
    }
    assert "-" + "ab" == "-ab";
    hide LookupOption, Resolve, TwoFlags, Step, Run;
    assert "ab"[1..] == "b" && "b"[1..] == "";
    assert Names(st, "b") == {"-b"};
    ClusterMeansItsFlagsIff(st, "ab");
  }
}
