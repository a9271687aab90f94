/** The keys of the JSON forms and what is written under each (crates/core/src/types and
    crates/protocol/src/response.rs). With the round trips this fixes what is read, too. */
module EncodedKeys {
  import opened Wrappers
  import opened Sequences
  import opened SpecTypes
  import opened Json
  import opened SpecEncoding
  import opened SuggestionEncoding
  import opened TreeEncoding
  import opened Response

  /** The object holds this under the key, once, or nothing. */
  predicate Holds(j: Json, key: string, value: Option<Json>) {
    j.Obj? && Lookup(j.fields, key) == Success(value)
  }

  function Text(v: Option<string>): Option<Json> {
    if v.Some? then Some(Str(v.value)) else None
  }

  function Truth(v: Option<bool>): Option<Json> {
    if v.Some? then Some(Bool(v.value)) else None
  }

  /** Written only when true. */
  function Switch(b: bool): Option<Json> {
    if b then Some(Bool(true)) else None
  }

  function Number(v: Option<U8>): Option<Json> {
    if v.Some? then Some(Num(v.value)) else None
  }

  /** Written only when not empty. */
  function Many(items: seq<Json>): Option<Json> {
    if items == [] then None else Some(Arr(items))
  }

  function Strings(v: seq<string>): seq<Json> {
    seq(|v|, i requires 0 <= i < |v| => Str(v[i]))
  }

  function NamesForm(n: StringList): Json {
    match n case One(s) => Str(s) case Many(v) => Arr(Strings(v))
  }

  lemma {:induction false} StringsAre(v: seq<string>)
    ensures Map(EncodeString, v) == Strings(v)
  {
  }

  lemma {:induction false} NamesAre(n: StringList)
    ensures EncodeNames(n) == NamesForm(n)
  {
    if n.Many? {
      StringsAre(n.names);
    }
  }

  lemma {:induction false} WrittenAt(slots: seq<Slot>, i: nat)
    requires DistinctKeys(slots) && i < |slots|
    ensures Holds(Obj(Present(slots)), slots[i].key, slots[i].value)
  {
    hide Lookup, Present;
    LookupPresent(slots, i);
  }

  /** A suggestion that is more than a name. */
  lemma {:induction false} SuggestionSlotsAre(s: Suggestion)
    ensures SuggestionSlots(s) ==
            [Slot("name", Some(NamesForm(s.name))),
             Slot("displayName", Text(s.displayName)),
             Slot("insertValue", Text(s.insertValue)),
             Slot("description", Text(s.description)),
             Slot("priority", Number(s.priority)),
             Slot("isDangerous", Truth(s.isDangerous)),
             Slot("hidden", Truth(s.hidden)),
             Slot("deprecated", Truth(s.deprecated))]
  {
    NamesAre(s.name);
    hide EncodeNames, NamesForm;
  }

  lemma {:induction false} SuggestionKeys(s: Suggestion)
    requires !IsPureShorthand(s)
    ensures var j := EncodeSuggestion(s);
            && Holds(j, "name", Some(NamesForm(s.name)))
            && Holds(j, "displayName", Text(s.displayName))
            && Holds(j, "insertValue", Text(s.insertValue))
            && Holds(j, "description", Text(s.description))
            && Holds(j, "priority", Number(s.priority))
            && Holds(j, "isDangerous", Truth(s.isDangerous))
            && Holds(j, "hidden", Truth(s.hidden))
            && Holds(j, "deprecated", Truth(s.deprecated))
  {
    var slots := SuggestionSlots(s);
    SuggestionSlotsAre(s);
    SuggestionKeysDiffer(s);
    hide SuggestionSlots, Holds, Present, DistinctKeys, Text, Truth, Number, NamesForm;
    WrittenAt(slots, 0);
    WrittenAt(slots, 1);
    WrittenAt(slots, 2);
    WrittenAt(slots, 3);
    WrittenAt(slots, 4);
    WrittenAt(slots, 5);
    WrittenAt(slots, 6);
    WrittenAt(slots, 7);
  }

  lemma SuggestionKeysDiffer(s: Suggestion)
    ensures DistinctKeys(SuggestionSlots(s))
  {
  }

  lemma GeneratorKeysDiffer(g: Generator)
    ensures DistinctKeys(GeneratorSlots(g))
  {
  }

  lemma {:induction false} GeneratorSlotsAre(g: Generator)
    ensures GeneratorSlots(g) ==
            [Slot("run", Some(Arr(Strings(g.run)))),
             Slot("splitOn", Text(g.splitOn)),
             Slot("trim", Truth(g.trim)),
             Slot("extract", Text(g.extract)),
             Slot("priority", Number(g.priority)),
             Slot("cache", if g.cache.Some? then Some(EncodeCache(g.cache.value)) else None)]
  {
    StringsAre(g.run);
    hide Map, Strings, EncodeCache;
  }

  lemma {:induction false} GeneratorKeys(g: Generator)
    ensures var j := EncodeGenerator(g);
            && Holds(j, "run", Some(Arr(Strings(g.run))))
            && Holds(j, "splitOn", Text(g.splitOn))
            && Holds(j, "trim", Truth(g.trim))
            && Holds(j, "extract", Text(g.extract))
            && Holds(j, "priority", Number(g.priority))
            && (g.cache.None? ==> Holds(j, "cache", None))
            && (g.cache.Some? ==> Holds(j, "cache", Some(Obj([Field("ttlMs", Num(g.cache.value.ttlMs))]))))
  {
    var slots := GeneratorSlots(g);
    GeneratorSlotsAre(g);
    GeneratorKeysDiffer(g);
    assert g.cache.Some? ==> EncodeCache(g.cache.value) == Obj([Field("ttlMs", Num(g.cache.value.ttlMs))]) by {
      OneSlot("ttlMs");
    }
    hide GeneratorSlots, Holds, Present, DistinctKeys, EncodeCache, Text, Truth, Number, Strings;
    WrittenAt(slots, 0);
    WrittenAt(slots, 1);
    WrittenAt(slots, 2);
    WrittenAt(slots, 3);
    WrittenAt(slots, 4);
    WrittenAt(slots, 5);
  }

  lemma OneSlot(key: string)
    ensures forall v :: Present([Slot(key, Some(v))]) == [Field(key, v)]
  {
    forall v ensures Present([Slot(key, Some(v))]) == [Field(key, v)] {
      assert [Slot(key, Some(v))][1..] == [];
    }
  }

  function TemplateForm(t: Option<Template>): Option<Json> {
    match t
    case None => None
    case Some(Filepaths) => Some(Str("filepaths"))
    case Some(Folders) => Some(Str("folders"))
    case Some(History) => Some(Str("history"))
  }

  /** Written as a boolean or a count, and not at all when false. */
  function RepeatForm(r: Repeatable): Option<Json> {
    match r case Flag(on) => Switch(on) case Max(n) => Some(Num(n))
  }

  lemma {:induction false} ArgSlotsAre(a: Arg)
    ensures ArgSlots(a) ==
            [Slot("name", Text(a.name)),
             Slot("description", Text(a.description)),
             Slot("isOptional", Switch(a.isOptional)),
             Slot("isVariadic", Switch(a.isVariadic)),
             Slot("template", TemplateForm(a.template)),
             Slot("suggestions", Many(Map(EncodeSuggestion, a.suggestions))),
             Slot("generator", if a.generator.Some? then Some(EncodeGenerator(a.generator.value)) else None),
             Slot("isCommand", Switch(a.isCommand))]
  {
    hide Map, EncodeSuggestion, EncodeGenerator;
  }

  lemma {:induction false} ArgKeysAre(a: Arg)
    ensures var j := EncodeArg(a);
            && Holds(j, "name", Text(a.name))
            && Holds(j, "description", Text(a.description))
            && Holds(j, "isOptional", Switch(a.isOptional))
            && Holds(j, "isVariadic", Switch(a.isVariadic))
            && Holds(j, "template", TemplateForm(a.template))
            && Holds(j, "suggestions", Many(Map(EncodeSuggestion, a.suggestions)))
            && Holds(j, "generator", if a.generator.Some? then Some(EncodeGenerator(a.generator.value)) else None)
            && Holds(j, "isCommand", Switch(a.isCommand))
  {
    var slots := ArgSlots(a);
    ArgSlotsAre(a);
    ArgKeys(a);
    hide ArgSlots, Holds, Present, DistinctKeys, Text, Switch, TemplateForm, Many, EncodeSuggestion, EncodeGenerator;
    WrittenAt(slots, 0);
    WrittenAt(slots, 1);
    WrittenAt(slots, 2);
    WrittenAt(slots, 3);
    WrittenAt(slots, 4);
    WrittenAt(slots, 5);
    WrittenAt(slots, 6);
    WrittenAt(slots, 7);
  }

  lemma {:induction false} OptSlotsAre(o: Opt)
    ensures OptSlots(o) ==
            [Slot("name", Some(NamesForm(o.name))),
             Slot("description", Text(o.description)),
             Slot("args", Many(Map(EncodeArg, o.args))),
             Slot("isRequired", Switch(o.isRequired)),
             Slot("isRepeatable", RepeatForm(o.isRepeatable)),
             Slot("isPersistent", Switch(o.isPersistent)),
             Slot("requiresSeparator", Switch(o.requiresSeparator)),
             Slot("exclusiveOn", Many(Strings(o.exclusiveOn))),
             Slot("dependsOn", Many(Strings(o.dependsOn)))]
  {
    NamesAre(o.name);
    StringsAre(o.exclusiveOn);
    StringsAre(o.dependsOn);
    hide Map, EncodeArg, EncodeNames, NamesForm, Strings;
  }

  lemma {:induction false} OptKeysAre(o: Opt)
    ensures var j := EncodeOpt(o);
            && Holds(j, "name", Some(NamesForm(o.name)))
            && Holds(j, "description", Text(o.description))
            && Holds(j, "args", Many(Map(EncodeArg, o.args)))
            && Holds(j, "isRequired", Switch(o.isRequired))
            && Holds(j, "isRepeatable", RepeatForm(o.isRepeatable))
            && Holds(j, "isPersistent", Switch(o.isPersistent))
            && Holds(j, "requiresSeparator", Switch(o.requiresSeparator))
            && Holds(j, "exclusiveOn", Many(Strings(o.exclusiveOn)))
            && Holds(j, "dependsOn", Many(Strings(o.dependsOn)))
  {
    var slots := OptSlots(o);
    OptSlotsAre(o);
    OptKeys(o);
    hide OptSlots, Holds, Present, DistinctKeys, Text, Switch, RepeatForm, Many, NamesForm, Strings, EncodeArg;
    WrittenAt(slots, 0);
    WrittenAt(slots, 1);
    WrittenAt(slots, 2);
    WrittenAt(slots, 3);
    WrittenAt(slots, 4);
    WrittenAt(slots, 5);
    WrittenAt(slots, 6);
    WrittenAt(slots, 7);
    WrittenAt(slots, 8);
  }

  lemma {:induction false} DirectivesKeys(d: ParserDirectives)
    ensures var j := EncodeDirectives(d);
            && Holds(j, "flagsArePosixNoncompliant", Switch(d.flagsArePosixNoncompliant))
            && Holds(j, "optionsMustPrecedeArguments", Switch(d.optionsMustPrecedeArguments))
            && Holds(j, "optionArgSeparators", Many(Strings(d.optionArgSeparators)))
  {
    var slots := DirectivesSlots(d);
    assert DistinctKeys(slots);
    StringsAre(d.optionArgSeparators);
    hide Holds, Present, DistinctKeys, Map, Strings;
    WrittenAt(slots, 0);
    WrittenAt(slots, 1);
    WrittenAt(slots, 2);
  }

  lemma {:induction false} SubcommandSlotsAre(s: Subcommand)
    ensures SubcommandSlots(s) ==
            [Slot("name", Some(NamesForm(s.name))),
             Slot("description", Text(s.description)),
             Slot("subcommands", Many(EncodeSubcommands(s.subcommands))),
             Slot("options", Many(Map(EncodeOpt, s.options))),
             Slot("args", Many(Map(EncodeArg, s.args))),
             Slot("requiresSubcommand", Switch(s.requiresSubcommand)),
             Slot("parserDirectives", if s.parserDirectives.Some? then Some(EncodeDirectives(s.parserDirectives.value)) else None)]
  {
    NamesAre(s.name);
    ChildrenAreWritten(s.subcommands);
    hide Map, EncodeArg, EncodeOpt, EncodeNames, NamesForm, EncodeSubcommands, EncodeDirectives;
  }

  lemma {:induction false} SubcommandKeysAre(s: Subcommand)
    ensures var j := EncodeSubcommand(s);
            && Holds(j, "name", Some(NamesForm(s.name)))
            && Holds(j, "description", Text(s.description))
            && Holds(j, "subcommands", Many(EncodeSubcommands(s.subcommands)))
            && Holds(j, "options", Many(Map(EncodeOpt, s.options)))
            && Holds(j, "args", Many(Map(EncodeArg, s.args)))
            && Holds(j, "requiresSubcommand", Switch(s.requiresSubcommand))
            && Holds(j, "parserDirectives", if s.parserDirectives.Some? then Some(EncodeDirectives(s.parserDirectives.value)) else None)
  {
    var slots := SubcommandSlots(s);
    SubcommandSlotsAre(s);
    SubcommandKeys(s);
    hide SubcommandSlots, Holds, Present, DistinctKeys, Text, Switch, Many, NamesForm, EncodeArg, EncodeOpt,
      EncodeSubcommands, EncodeDirectives;
    WrittenAt(slots, 0);
    WrittenAt(slots, 1);
    WrittenAt(slots, 2);
    WrittenAt(slots, 3);
    WrittenAt(slots, 4);
    WrittenAt(slots, 5);
    WrittenAt(slots, 6);
  }

  /** The children are written in order. */
  lemma {:induction false} ChildrenAreWritten(ss: seq<Subcommand>)
    ensures |EncodeSubcommands(ss)| == |ss| && forall i :: 0 <= i < |ss| ==> EncodeSubcommands(ss)[i] == EncodeSubcommand(ss[i])
  {
    if ss == [] {
    } else {
      hide EncodeSubcommand;
      ChildrenAreWritten(ss[1..]);
    }
  }

  lemma {:induction false} ItemKeys(i: Item)
    ensures var j := EncodeItem(i);
            && Holds(j, "insert", Some(Str(i.insert)))
            && Holds(j, "display", Text(i.display))
            && Holds(j, "desc", Text(i.desc))
            && Holds(j, "score", Some(Real(i.score)))
            && Holds(j, "dangerous", Truth(i.dangerous))
            && Holds(j, "deprecated", Truth(i.deprecated))
  {
    var slots := ItemSlots(i);
    assert DistinctKeys(slots);
    hide Holds, Present, DistinctKeys;
    WrittenAt(slots, 0);
    WrittenAt(slots, 1);
    WrittenAt(slots, 2);
    WrittenAt(slots, 3);
    WrittenAt(slots, 4);
    WrittenAt(slots, 5);
  }

  /** A response has its version, its id, and one of three payloads. */
  lemma {:induction false} ResponseKeys(r: Response)
    ensures var j := EncodeResponse(r);
            && Holds(j, "v", Some(Num(r.v))) && Holds(j, "id", Some(Num(r.id)))
            && Holds(j, "items", if r.ItemsResponse? then Some(Arr(Map(EncodeItem, r.items))) else None)
            && (!r.ErrorResponse? ==> Holds(j, "error", None))
            && (r.ErrorResponse? ==>
                  Holds(j, "error", Some(Obj([Field("code", Str(r.error.code)), Field("message", Str(r.error.message))]))))
            && Holds(j, "suggestion", if !r.SuggestionResponse? then None
                                      else Some(if r.suggestion.Some? then Str(r.suggestion.value) else Null))
  {
    var slots := ResponseSlots(r);
    assert DistinctKeys(slots);
    if r.ErrorResponse? {
      TwoSlots("code", "message", Str(r.error.code), Str(r.error.message));
    }
    EnvelopeFields(r);
    hide Present, DistinctKeys, EncodeItem, Map, Lookup;
    WrittenAt(slots, 0);
    WrittenAt(slots, 1);
  }

  lemma TwoSlots(a: string, b: string, v: Json, w: Json)
    ensures Present([Slot(a, Some(v)), Slot(b, Some(w))]) == [Field(a, v), Field(b, w)]
  {
    assert [Slot(a, Some(v)), Slot(b, Some(w))][1..] == [Slot(b, Some(w))];
    OneSlot(b);
  }
}
