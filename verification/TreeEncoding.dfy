/** Decoding undoes encoding for every spec tree (crates/core/src/types/mod.rs). */
module TreeEncoding {
  import opened Wrappers
  import opened SpecTypes
  import opened Json
  import opened SpecEncoding
  import opened SuggestionEncoding

  // ----- arguments

  function ArgSlots(a: Arg): seq<Slot> {
    [OptSlot("name", a.name, EncodeString),
     OptSlot("description", a.description, EncodeString),
     BoolSlot("isOptional", a.isOptional),
     BoolSlot("isVariadic", a.isVariadic),
     OptSlot("template", a.template, EncodeTemplate),
     VecSlot("suggestions", a.suggestions, EncodeSuggestion),
     OptSlot("generator", a.generator, EncodeGenerator),
     BoolSlot("isCommand", a.isCommand)]
  }

  function EncodeArg(a: Arg): Json {
    Obj(Present(ArgSlots(a)))
  }

  function DecodeArg(j: Json): Decoded<Arg> {
    if !j.Obj? then Failure(Invalid)
    else
      var name :- OptField(j.fields, "name", DecodeString);
      var description :- OptField(j.fields, "description", DecodeString);
      var isOptional :- BoolField(j.fields, "isOptional");
      var isVariadic :- BoolField(j.fields, "isVariadic");
      var template :- OptField(j.fields, "template", DecodeTemplate);
      var suggestions :- VecField(j.fields, "suggestions", DecodeSuggestion);
      var generator :- OptField(j.fields, "generator", DecodeGenerator);
      var isCommand :- BoolField(j.fields, "isCommand");
      Success(Arg(name, description, isOptional, isVariadic, template, suggestions, generator, isCommand))
  }

  lemma {:induction false} SuggestionsUndone()
    ensures Undoes(DecodeSuggestion, EncodeSuggestion)
  {
    hide EncodeSuggestion, DecodeSuggestion;
    forall s: Suggestion ensures DecodeSuggestion(EncodeSuggestion(s)) == Success(s) {
      SuggestionRoundTrip(s);
    }
  }

  lemma {:induction false} GeneratorsUndone()
    ensures UndoesOptional(DecodeGenerator, EncodeGenerator)
  {
    hide DecodeGenerator, Present;
    forall g: Generator ensures DecodeGenerator(EncodeGenerator(g)) == Success(g) {
      GeneratorRoundTrip(g);
    }
  }

  lemma ArgKeys(a: Arg)
    ensures DistinctKeys(ArgSlots(a))
  {
  }

  lemma {:induction false} ArgFields(a: Arg)
    ensures var f := Present(ArgSlots(a));
            && OptField(f, "name", DecodeString) == Success(a.name)
            && OptField(f, "description", DecodeString) == Success(a.description)
            && BoolField(f, "isOptional") == Success(a.isOptional)
            && BoolField(f, "isVariadic") == Success(a.isVariadic)
            && OptField(f, "template", DecodeTemplate) == Success(a.template)
            && VecField(f, "suggestions", DecodeSuggestion) == Success(a.suggestions)
            && OptField(f, "generator", DecodeGenerator) == Success(a.generator)
            && BoolField(f, "isCommand") == Success(a.isCommand)
  {
    var slots := ArgSlots(a);
    LeavesUndone();
    SuggestionsUndone();
    GeneratorsUndone();
    ArgKeys(a);
    hide OptSlot, VecSlot, BoolSlot, Present, NeedField, OptField, VecField, BoolField, Undoes, UndoesOptional,
      DistinctKeys;
    hide EncodeSuggestion, DecodeSuggestion, EncodeGenerator, DecodeGenerator;
    OptRoundTrip(slots, 0, "name", a.name, DecodeString, EncodeString);
    OptRoundTrip(slots, 1, "description", a.description, DecodeString, EncodeString);
    BoolRoundTrip(slots, 2, "isOptional", a.isOptional);
    BoolRoundTrip(slots, 3, "isVariadic", a.isVariadic);
    OptRoundTrip(slots, 4, "template", a.template, DecodeTemplate, EncodeTemplate);
    VecRoundTrip(slots, 5, "suggestions", a.suggestions, DecodeSuggestion, EncodeSuggestion);
    OptRoundTrip(slots, 6, "generator", a.generator, DecodeGenerator, EncodeGenerator);
    BoolRoundTrip(slots, 7, "isCommand", a.isCommand);
  }

  lemma {:induction false} ArgRoundTrip(a: Arg)
    ensures DecodeArg(EncodeArg(a)) == Success(a)
  {
    hide ArgSlots, Present, NeedField, OptField, VecField, BoolField;
    ArgFields(a);
  }

  lemma {:induction false} ArgsUndone()
    ensures Undoes(DecodeArg, EncodeArg)
  {
    hide EncodeArg, DecodeArg;
    forall a: Arg ensures DecodeArg(EncodeArg(a)) == Success(a) {
      ArgRoundTrip(a);
    }
  }

  // ----- options

  function RepeatableSlot(r: Repeatable): Slot {
    Slot("isRepeatable", if r == Flag(false) then None else Some(EncodeRepeatable(r)))
  }

  /** Absent means not repeatable. */
  function RepeatableField(fields: seq<Field>): Decoded<Repeatable> {
    var v :- Lookup(fields, "isRepeatable");
    if v.None? then Success(Flag(false)) else DecodeRepeatable(v.value)
  }

  function OptSlots(o: Opt): seq<Slot> {
    [Slot("name", Some(EncodeNames(o.name))),
     OptSlot("description", o.description, EncodeString),
     VecSlot("args", o.args, EncodeArg),
     BoolSlot("isRequired", o.isRequired),
     RepeatableSlot(o.isRepeatable),
     BoolSlot("isPersistent", o.isPersistent),
     BoolSlot("requiresSeparator", o.requiresSeparator),
     VecSlot("exclusiveOn", o.exclusiveOn, EncodeString),
     VecSlot("dependsOn", o.dependsOn, EncodeString)]
  }

  function EncodeOpt(o: Opt): Json {
    Obj(Present(OptSlots(o)))
  }

  function DecodeOpt(j: Json): Decoded<Opt> {
    if !j.Obj? then Failure(Invalid)
    else
      var name :- NeedField(j.fields, "name", DecodeNames);
      var description :- OptField(j.fields, "description", DecodeString);
      var args :- VecField(j.fields, "args", DecodeArg);
      var isRequired :- BoolField(j.fields, "isRequired");
      var isRepeatable :- RepeatableField(j.fields);
      var isPersistent :- BoolField(j.fields, "isPersistent");
      var requiresSeparator :- BoolField(j.fields, "requiresSeparator");
      var exclusiveOn :- VecField(j.fields, "exclusiveOn", DecodeString);
      var dependsOn :- VecField(j.fields, "dependsOn", DecodeString);
      Success(Opt(name, description, args, isRequired, isRepeatable, isPersistent, requiresSeparator, exclusiveOn,
                  dependsOn))
  }

  lemma {:induction false} RepeatableRoundTrip(slots: seq<Slot>, i: nat, r: Repeatable)
    requires DistinctKeys(slots) && i < |slots| && slots[i] == RepeatableSlot(r)
    ensures RepeatableField(Present(slots)) == Success(r)
  {
    hide Present, Lookup;
    LookupPresent(slots, i);
  }

  lemma OptKeys(o: Opt)
    ensures DistinctKeys(OptSlots(o))
  {
  }

  lemma {:induction false} OptFields(o: Opt)
    ensures var f := Present(OptSlots(o));
            && NeedField(f, "name", DecodeNames) == Success(o.name)
            && OptField(f, "description", DecodeString) == Success(o.description)
            && VecField(f, "args", DecodeArg) == Success(o.args)
            && BoolField(f, "isRequired") == Success(o.isRequired)
            && RepeatableField(f) == Success(o.isRepeatable)
            && BoolField(f, "isPersistent") == Success(o.isPersistent)
            && BoolField(f, "requiresSeparator") == Success(o.requiresSeparator)
            && VecField(f, "exclusiveOn", DecodeString) == Success(o.exclusiveOn)
            && VecField(f, "dependsOn", DecodeString) == Success(o.dependsOn)
  {
    var slots := OptSlots(o);
    LeavesUndone();
    ArgsUndone();
    OptKeys(o);
    hide OptSlot, VecSlot, BoolSlot, Present, NeedField, OptField, VecField, BoolField, RepeatableField, Undoes,
      UndoesOptional, DistinctKeys;
    hide EncodeArg, DecodeArg, EncodeNames, DecodeNames;
    NamesRoundTrip(o.name);
    NeedRoundTrip(slots, 0, "name", o.name, DecodeNames, EncodeNames);
    OptRoundTrip(slots, 1, "description", o.description, DecodeString, EncodeString);
    VecRoundTrip(slots, 2, "args", o.args, DecodeArg, EncodeArg);
    BoolRoundTrip(slots, 3, "isRequired", o.isRequired);
    RepeatableRoundTrip(slots, 4, o.isRepeatable);
    BoolRoundTrip(slots, 5, "isPersistent", o.isPersistent);
    BoolRoundTrip(slots, 6, "requiresSeparator", o.requiresSeparator);
    VecRoundTrip(slots, 7, "exclusiveOn", o.exclusiveOn, DecodeString, EncodeString);
    VecRoundTrip(slots, 8, "dependsOn", o.dependsOn, DecodeString, EncodeString);
  }

  lemma {:induction false} OptRoundTrips(o: Opt)
    ensures DecodeOpt(EncodeOpt(o)) == Success(o)
  {
    hide OptSlots, Present, NeedField, OptField, VecField, BoolField, RepeatableField;
    OptFields(o);
  }

  lemma {:induction false} OptsUndone()
    ensures Undoes(DecodeOpt, EncodeOpt)
  {
    hide EncodeOpt, DecodeOpt;
    forall o: Opt ensures DecodeOpt(EncodeOpt(o)) == Success(o) {
      OptRoundTrips(o);
    }
  }

  // ----- directives

  function DirectivesSlots(d: ParserDirectives): seq<Slot> {
    [BoolSlot("flagsArePosixNoncompliant", d.flagsArePosixNoncompliant),
     BoolSlot("optionsMustPrecedeArguments", d.optionsMustPrecedeArguments),
     VecSlot("optionArgSeparators", d.optionArgSeparators, EncodeString)]
  }

  function EncodeDirectives(d: ParserDirectives): Json {
    Obj(Present(DirectivesSlots(d)))
  }

  function DecodeDirectives(j: Json): Decoded<ParserDirectives> {
    if !j.Obj? then Failure(Invalid)
    else
      var flags :- BoolField(j.fields, "flagsArePosixNoncompliant");
      var options :- BoolField(j.fields, "optionsMustPrecedeArguments");
      var separators :- VecField(j.fields, "optionArgSeparators", DecodeString);
      Success(ParserDirectives(flags, options, separators))
  }

  lemma {:induction false} DirectivesUndone()
    ensures UndoesOptional(DecodeDirectives, EncodeDirectives)
  {
    StringsUndone();
    hide Present, BoolField, VecField;
    forall d: ParserDirectives ensures DecodeDirectives(EncodeDirectives(d)) == Success(d) {
      var slots := DirectivesSlots(d);
      BoolRoundTrip(slots, 0, "flagsArePosixNoncompliant", d.flagsArePosixNoncompliant);
      BoolRoundTrip(slots, 1, "optionsMustPrecedeArguments", d.optionsMustPrecedeArguments);
      VecRoundTrip(slots, 2, "optionArgSeparators", d.optionArgSeparators, DecodeString, EncodeString);
    }
  }

  // ----- the tree

  function SubcommandSlots(s: Subcommand): seq<Slot>
    decreases s, 1
  {
    [Slot("name", Some(EncodeNames(s.name))),
     OptSlot("description", s.description, EncodeString),
     Slot("subcommands", if s.subcommands == [] then None else Some(Arr(EncodeSubcommands(s.subcommands)))),
     VecSlot("options", s.options, EncodeOpt),
     VecSlot("args", s.args, EncodeArg),
     BoolSlot("requiresSubcommand", s.requiresSubcommand),
     OptSlot("parserDirectives", s.parserDirectives, EncodeDirectives)]
  }

  function EncodeSubcommand(s: Subcommand): Json
    decreases s, 2
  {
    Obj(Present(SubcommandSlots(s)))
  }

  function EncodeSubcommands(ss: seq<Subcommand>): seq<Json>
    decreases ss, 0
  {
    if ss == [] then [] else [EncodeSubcommand(ss[0])] + EncodeSubcommands(ss[1..])
  }

  function DecodeSubcommand(j: Json): Decoded<Subcommand>
    decreases j, 1
  {
    if !j.Obj? then Failure(Invalid)
    else
      var name :- NeedField(j.fields, "name", DecodeNames);
      var description :- OptField(j.fields, "description", DecodeString);
      var nested :- Lookup(j.fields, "subcommands");
      var subcommands :-
        if nested.None? then Success([])
        else if nested.value.Arr? then DecodeSubcommands(nested.value.items)
        else Failure(Invalid);
      var options :- VecField(j.fields, "options", DecodeOpt);
      var args :- VecField(j.fields, "args", DecodeArg);
      var requiresSubcommand :- BoolField(j.fields, "requiresSubcommand");
      var parserDirectives :- OptField(j.fields, "parserDirectives", DecodeDirectives);
      Success(Subcommand(name, description, subcommands, options, args, requiresSubcommand, parserDirectives))
  }

  function DecodeSubcommands(items: seq<Json>): Decoded<seq<Subcommand>>
    decreases items, 0
  {
    if items == [] then Success([])
    else
      var first :- DecodeSubcommand(items[0]);
      var rest :- DecodeSubcommands(items[1..]);
      Success([first] + rest)
  }

  lemma SubcommandKeys(s: Subcommand)
    ensures DistinctKeys(SubcommandSlots(s))
  {
  }

  /** The fields of a node read back, apart from the children. */
  lemma {:induction false} NodeFields(s: Subcommand)
    ensures var f := Present(SubcommandSlots(s));
            && NeedField(f, "name", DecodeNames) == Success(s.name)
            && OptField(f, "description", DecodeString) == Success(s.description)
            && VecField(f, "options", DecodeOpt) == Success(s.options)
            && VecField(f, "args", DecodeArg) == Success(s.args)
            && BoolField(f, "requiresSubcommand") == Success(s.requiresSubcommand)
            && OptField(f, "parserDirectives", DecodeDirectives) == Success(s.parserDirectives)
  {
    var slots := SubcommandSlots(s);
    LeavesUndone();
    ArgsUndone();
    OptsUndone();
    DirectivesUndone();
    SubcommandKeys(s);
    hide OptSlot, VecSlot, BoolSlot, Present, NeedField, OptField, VecField, BoolField, Lookup, Undoes, UndoesOptional;
    hide DistinctKeys;
    hide EncodeArg, DecodeArg, EncodeOpt, DecodeOpt, EncodeNames, DecodeNames, EncodeDirectives, DecodeDirectives;
    hide EncodeSubcommands;
    NamesRoundTrip(s.name);
    NeedRoundTrip(slots, 0, "name", s.name, DecodeNames, EncodeNames);
    OptRoundTrip(slots, 1, "description", s.description, DecodeString, EncodeString);
    VecRoundTrip(slots, 3, "options", s.options, DecodeOpt, EncodeOpt);
    VecRoundTrip(slots, 4, "args", s.args, DecodeArg, EncodeArg);
    BoolRoundTrip(slots, 5, "requiresSubcommand", s.requiresSubcommand);
    OptRoundTrip(slots, 6, "parserDirectives", s.parserDirectives, DecodeDirectives, EncodeDirectives);
  }

  lemma {:induction false} ChildrenField(s: Subcommand)
    ensures Lookup(Present(SubcommandSlots(s)), "subcommands") ==
            Success(if s.subcommands == [] then None else Some(Arr(EncodeSubcommands(s.subcommands))))
  {
    SubcommandKeys(s);
    hide DistinctKeys, Present, Lookup, EncodeSubcommands;
    LookupPresent(SubcommandSlots(s), 2);
  }

  /** One node, given its children. */
  lemma {:induction false} NodeRoundTrip(s: Subcommand)
    requires DecodeSubcommands(EncodeSubcommands(s.subcommands)) == Success(s.subcommands)
    ensures DecodeSubcommand(EncodeSubcommand(s)) == Success(s)
  {
    hide SubcommandSlots, Present, NeedField, OptField, VecField, BoolField, Lookup, EncodeSubcommands,
      DecodeSubcommands;
    NodeFields(s);
    ChildrenField(s);
  }

  /** Decoding an encoded spec gives it back, at any depth of the tree. */
  lemma {:induction false} SubcommandRoundTrip(s: Subcommand)
    ensures DecodeSubcommand(EncodeSubcommand(s)) == Success(s)
    decreases s, 1
  {
    hide EncodeSubcommand, DecodeSubcommand, EncodeSubcommands, DecodeSubcommands;
    SubcommandsRoundTrip(s.subcommands);
    NodeRoundTrip(s);
  }

  lemma {:induction false} SubcommandsRoundTrip(ss: seq<Subcommand>)
    ensures DecodeSubcommands(EncodeSubcommands(ss)) == Success(ss)
    decreases ss, 0
  {
    hide EncodeSubcommand, DecodeSubcommand;
    if ss == [] {
    } else {
      SubcommandRoundTrip(ss[0]);
      SubcommandsRoundTrip(ss[1..]);
      assert ([EncodeSubcommand(ss[0])] + EncodeSubcommands(ss[1..]))[1..] == EncodeSubcommands(ss[1..]);
      assert ss == [ss[0]] + ss[1..];
    }
  }

  predicate IsKnownKey(key: string) {
    key in ["name", "description", "subcommands", "options", "args", "requiresSubcommand", "parserDirectives"]
  }

  /** A field that the format does not know makes no difference. */
  lemma {:induction false} UnknownFieldIsIgnored(fields: seq<Field>, extra: Field)
    requires !IsKnownKey(extra.key)
    ensures DecodeSubcommand(Obj(fields + [extra])) == DecodeSubcommand(Obj(fields))
  {
    hide Lookup, NeedField, OptField, VecField, BoolField, DecodeSubcommands;
    NeedIgnores(fields, extra, "name", DecodeNames);
    OptIgnores(fields, extra, "description", DecodeString);
    LookupIgnores(fields, extra, "subcommands");
    VecIgnores(fields, extra, "options", DecodeOpt);
    VecIgnores(fields, extra, "args", DecodeArg);
    BoolIgnores(fields, extra, "requiresSubcommand");
    OptIgnores(fields, extra, "parserDirectives", DecodeDirectives);
  }
}
