/** What every run of the parser keeps (crates/core/src/parse.rs:90-174). */
module ParseInvariants {
  import opened Wrappers
  import opened Sequences
  import opened SpecTypes
  import opened Parse
  import opened Text

  // ----- the command path

  ghost predicate IsChain(root: Subcommand, path: seq<Subcommand>) {
    && path != [] && path[0] == root
    && forall i :: 0 <= i < |path| - 1 ==> path[i + 1] in path[i].subcommands
  }

  function Max(a: nat, b: nat): nat {
    if a <= b then b else a
  }

  function Height(node: Subcommand): nat {
    1 + HeightOfAll(node.subcommands)
  }

  function HeightOfAll(nodes: seq<Subcommand>): nat {
    if nodes == [] then 0 else Max(Height(nodes[0]), HeightOfAll(nodes[1..]))
  }

  lemma {:induction false} ChildIsLower(nodes: seq<Subcommand>, child: Subcommand)
    requires child in nodes
    ensures Height(child) <= HeightOfAll(nodes)
  {
    if child == nodes[0] {
    } else {
      ChildIsLower(nodes[1..], child);
    }
  }

  lemma {:induction false} ChainIsShort(root: Subcommand, path: seq<Subcommand>, n: nat)
    requires IsChain(root, path) && n < |path|
    ensures n + Height(path[n]) <= Height(root)
  {
    if n == 0 {
    } else {
      ChainIsShort(root, path, n - 1);
      ChildIsLower(path[n - 1].subcommands, path[n]);
    }
  }

  /** The persistent options of the nodes of a path, from the root down. */
  function PersistentOf(path: seq<Subcommand>): seq<Opt> {
    if path == [] then [] else PersistentOf(path[..|path| - 1]) + CollectPersistent(Last(path).options)
  }

  ghost predicate IsDeclared(path: seq<Subcommand>, opt: Opt) {
    exists node :: node in path && opt in node.options
  }

  /** An option of the active node, or a persistent one of the path. */
  predicate InScope(path: seq<Subcommand>, opt: Opt)
    requires path != []
  {
    opt in Last(path).options || opt in PersistentOf(path)
  }

  ghost predicate SeenAreDeclared(path: seq<Subcommand>, seen: set<string>) {
    forall name :: name in seen ==> exists opt :: IsDeclared(path, opt) && opt.name.Canonical() == name
  }

  ghost predicate Invariant(root: Subcommand, st: State) {
    && IsChain(root, st.path)
    && st.persistent == PersistentOf(st.path)
    && SeenAreDeclared(st.path, st.flags.seen)
    && (st.flags.pending.Some? ==> InScope(st.path, st.flags.pending.value) && st.flags.pending.value.args != [])
  }

  lemma {:induction false} CollectedAreDeclared(opts: seq<Opt>)
    ensures forall o :: o in CollectPersistent(opts) <==> o in opts && o.isPersistent
  {
    if opts == [] {
    } else {
      CollectedAreDeclared(opts[1..]);
    }
  }

  /** A persistent option is one that a node of the path declares as such. */
  lemma {:induction false} PersistentAreDeclared(path: seq<Subcommand>)
    ensures forall o :: o in PersistentOf(path) <==> o.isPersistent && IsDeclared(path, o)
  {
    if path == [] {
    } else {
      var init := path[..|path| - 1];
      PersistentAreDeclared(init);
      CollectedAreDeclared(Last(path).options);
      assert path == init + [Last(path)];
      assert forall o :: IsDeclared(path, o) <==> IsDeclared(init, o) || o in Last(path).options;
    }
  }

  lemma LookupIsDeclared(path: seq<Subcommand>, form: string)
    requires path != []
    ensures var o := LookupOption(Last(path), PersistentOf(path), form);
            o.Some? ==> InScope(path, o.value) && IsDeclared(path, o.value) && form in o.value.name.All()
  {
    PersistentAreDeclared(path);
  }

  // ----- one token

  ghost predicate FlagsAreDeclared(path: seq<Subcommand>, f: Flags)
    requires path != []
  {
    && SeenAreDeclared(path, f.seen)
    && (f.pending.Some? ==> InScope(path, f.pending.value) && f.pending.value.args != [])
  }

  lemma {:induction false} ClusterKeepsDeclared(path: seq<Subcommand>, chars: string, f: Flags)
    requires path != [] && FlagsAreDeclared(path, f)
    ensures FlagsAreDeclared(path, ConsumeCluster(Last(path), PersistentOf(path), chars, f))
    decreases |chars|
  {
    if chars == "" {
    } else {
      LookupIsDeclared(path, ['-', chars[0]]);
      hide LookupOption;
      ClusterKeepsDeclared(path, chars[1..],
                           ConsumeFlag(Last(path), PersistentOf(path), chars[0], |chars| == 1, f));
    }
  }

  lemma {:induction false} ConsumeKeepsDeclared(path: seq<Subcommand>, directives: Option<ParserDirectives>,
                                                text: string, f: Flags)
    requires path != [] && FlagsAreDeclared(path, f)
    ensures FlagsAreDeclared(path, Consume(Last(path), PersistentOf(path), directives, text, f))
  {
    hide LookupOption, ConsumeCluster, SplitInline, PersistentOf, IsDeclared, InScope;
    var inline := SplitInline(text, Separators(directives));
    if inline.Some? {
      LookupIsDeclared(path, inline.value.0);
    } else if IsCluster(directives, text) {
      ClusterKeepsDeclared(path, text[1..], f);
    } else {
      LookupIsDeclared(path, text);
    }
  }

  lemma DescentKeepsDeclared(path: seq<Subcommand>, child: Subcommand, f: Flags)
    requires path != [] && FlagsAreDeclared(path, f) && f.pending.None?
    ensures FlagsAreDeclared(path + [child], f)
  {
    assert forall o :: IsDeclared(path, o) ==> IsDeclared(path + [child], o);
  }

  lemma {:induction false} StepKeepsInvariant(root: Subcommand, st: State, text: string)
    requires Invariant(root, st)
    ensures Invariant(root, Step(st, text))
  {
    hide Consume, CollectPersistent, IsOptionLike, ActiveDirectives, IsDeclared, SeenAreDeclared, InScope;
    assert FlagsAreDeclared(st.path, st.flags);
    match RoleOf(st, text)
    case Value =>
    case OptionToken =>
      ConsumeKeepsDeclared(st.path, ActiveDirectives(st.path), text, st.flags);
    case Descent(child) =>
      DescentKeepsDeclared(st.path, child, st.flags);
      assert (st.path + [child])[..|st.path|] == st.path;
    case Positional =>
  }

  /** Every run keeps: the path is a chain of children from the root, no longer than
      the tree is high; the persistent options are those of the path; and what was
      seen, and what awaits a value, is declared on the path. */
  lemma {:induction false} RunKeepsInvariant(root: Subcommand, texts: seq<string>)
    ensures Invariant(root, Run(Start(root), texts))
    ensures |Run(Start(root), texts).path| <= Height(root)
    decreases |texts|
  {
    hide Invariant, Height, Step, IsChain;
    if texts == [] {
      StartIsInvariant(root);
    } else {
      RunKeepsInvariant(root, texts[..|texts| - 1]);
      StepKeepsInvariant(root, Run(Start(root), texts[..|texts| - 1]), Last(texts));
    }
    InvariantBoundsDepth(root, Run(Start(root), texts));
  }

  lemma StartIsInvariant(root: Subcommand)
    ensures Invariant(root, Start(root))
  {
    assert [root][..0] == [] && PersistentOf([root]) == [] + CollectPersistent(root.options);
  }

  lemma InvariantBoundsDepth(root: Subcommand, st: State)
    requires Invariant(root, st)
    ensures |st.path| <= Height(root)
  {
    ChainIsShort(root, st.path, |st.path| - 1);
  }

  // ----- positionals

  /** Once a positional is consumed, the path no longer changes. */
  lemma {:induction false} PathIsFrozen(st: State, texts: seq<string>)
    requires st.path != [] && st.positionalStarted
    ensures Run(st, texts).path == st.path && Run(st, texts).positionalStarted
    decreases |texts|
  {
    if texts == [] {
    } else {
      PathIsFrozen(st, texts[..|texts| - 1]);
    }
  }

  /** How many tokens of a run are taken for positionals. */
  function Positionals(root: Subcommand, texts: seq<string>): nat
    decreases |texts|
  {
    if texts == [] then 0
    else
      var init := texts[..|texts| - 1];
      Positionals(root, init) + if RoleOf(Run(Start(root), init), Last(texts)).Positional? then 1 else 0
  }

  function FirstVariadic(args: seq<Arg>): (r: Option<nat>)
    ensures r.Some? ==> r.value < |args| && args[r.value].isVariadic
    ensures forall i :: 0 <= i < |args| && (r.Some? ==> i < r.value) ==> !args[i].isVariadic
  {
    if args == [] then None
    else if args[0].isVariadic then Some(0)
    else
      var rest := FirstVariadic(args[1..]);
      if rest.Some? then Some(rest.value + 1) else None
  }

  /** The argument that the next positional fills after `k` of them. */
  function Slot(args: seq<Arg>, k: nat): nat {
    var v := FirstVariadic(args);
    if v.Some? && v.value < k then v.value else k
  }

  /** The positional index is the number of positionals consumed, stopped at the first
      variadic argument; every positional belongs to the active node. */
  lemma {:induction false} ArgIndexCountsPositionals(root: Subcommand, texts: seq<string>)
    ensures var st := Run(Start(root), texts); var k := Positionals(root, texts);
            && st.argIndex == Slot(st.Active().args, k)
            && (st.positionalStarted <==> k > 0)
    decreases |texts|
  {
    if texts == [] {
    } else {
      ArgIndexCountsPositionals(root, texts[..|texts| - 1]);
      hide Consume, ActiveDirectives, IsOptionLike, FirstVariadic, CollectPersistent;
      var st := Run(Start(root), texts[..|texts| - 1]);
      AdvanceFollowsSlot(st.Active(), Positionals(root, texts[..|texts| - 1]));
    }
  }

  lemma AdvanceFollowsSlot(node: Subcommand, k: nat)
    ensures AdvanceArgIndex(node, Slot(node.args, k)) == Slot(node.args, k + 1)
  {
  }

  /** Arguments declared after a variadic one are never reached, and the fallback to a
      variadic last argument past its index is never taken. */
  lemma VariadicIsLastReached(root: Subcommand, texts: seq<string>)
    ensures var st := Run(Start(root), texts); var args := st.Active().args;
            && (forall v :: 0 <= v < |args| && args[v].isVariadic ==> st.argIndex <= v)
            && CommandArgumentCursor(st.Active(), st.argIndex) ==
               if st.argIndex < |args| then Some(CommandArgument(args[st.argIndex])) else None
  {
    ArgIndexCountsPositionals(root, texts);
  }

  // ----- the cursor

  /** A classification names an option in scope that takes a value, the argument at the
      positional index of the active node, or a slot that the active node has. */
  lemma {:induction false} CursorIsSound(root: Subcommand, texts: seq<string>, query: string)
    ensures var st := Run(Start(root), texts);
            match ClassifyCursor(st, query)
            case OptionArgument(opt) => InScope(st.path, opt) && opt.args != []
            case CommandArgument(arg) => st.argIndex < |st.Active().args| && arg == st.Active().args[st.argIndex]
            case SubcommandSlot => st.Active().subcommands != [] && !st.positionalStarted
            case OptionSlot => "-" <= query
            case Empty => |st.Active().args| <= st.argIndex
  {
    hide Run, Invariant, InScope, FindOption;
    var st := Run(Start(root), texts);
    RunKeepsInvariant(root, texts);
    VariadicIsLastReached(root, texts);
    PendingInScope(root, st);
    var eq := Find(query, "=");
    if eq.Some? {
      LookupInScope(root, st, query[..eq.value]);
    }
  }

  lemma PendingInScope(root: Subcommand, st: State)
    requires Invariant(root, st)
    ensures st.flags.pending.Some? ==> InScope(st.path, st.flags.pending.value) && st.flags.pending.value.args != []
  {
  }

  lemma LookupInScope(root: Subcommand, st: State, form: string)
    requires Invariant(root, st)
    ensures var o := LookupOption(st.Active(), st.persistent, form); o.Some? ==> InScope(st.path, o.value)
  {
    LookupIsDeclared(st.path, form);
  }
}
