/** The hand-written form of a suggestion (crates/core/src/types/suggestion.rs): a bare
    string when it is nothing but a name, an object otherwise. */
module SuggestionEncoding {
  import opened Wrappers
  import opened SpecTypes
  import opened Json
  import opened SpecEncoding

  /** Nothing but a single name. */
  predicate IsPureShorthand(s: Suggestion) {
    s == FromName(s.name.Canonical())
  }

  function FromName(name: string): Suggestion {
    Suggestion(One(name), None, None, None, None, None, None, None)
  }

  function SuggestionSlots(s: Suggestion): (r: seq<Slot>)
    ensures |r| == 8
  {
    [Slot("name", Some(EncodeNames(s.name))),
     OptSlot("displayName", s.displayName, EncodeString),
     OptSlot("insertValue", s.insertValue, EncodeString),
     OptSlot("description", s.description, EncodeString),
     OptSlot("priority", s.priority, EncodeU8),
     OptSlot("isDangerous", s.isDangerous, EncodeBool),
     OptSlot("hidden", s.hidden, EncodeBool),
     OptSlot("deprecated", s.deprecated, EncodeBool)]
  }

  function EncodeSuggestion(s: Suggestion): Json {
    if IsPureShorthand(s) then Str(s.name.Canonical()) else Obj(Present(SuggestionSlots(s)))
  }

  /** The locals of `visit_map`. */
  datatype Locals = Locals(
    name: Option<StringList>,
    displayName: Option<string>,
    insertValue: Option<string>,
    description: Option<string>,
    priority: Option<U8>,
    isDangerous: Option<bool>,
    hidden: Option<bool>,
    deprecated: Option<bool>)

  const BLANK := Locals(None, None, None, None, None, None, None, None)

  /** One entry of the map. Only a second `name` is an error; any other known key
      overwrites, a null included as an error of its type; unknown keys are ignored. */
  function Visit(l: Locals, f: Field): Decoded<Locals> {
    match f.key
    case "name" =>
      if l.name.Some? then Failure(Duplicate("name"))
      else
        var v :- DecodeNames(f.value);
        Success(l.(name := Some(v)))
    case "displayName" =>
      var v :- DecodeString(f.value);
      Success(l.(displayName := Some(v)))
    case "insertValue" =>
      var v :- DecodeString(f.value);
      Success(l.(insertValue := Some(v)))
    case "description" =>
      var v :- DecodeString(f.value);
      Success(l.(description := Some(v)))
    case "priority" =>
      var v :- DecodeU8(f.value);
      Success(l.(priority := Some(v)))
    case "isDangerous" =>
      var v :- DecodeBool(f.value);
      Success(l.(isDangerous := Some(v)))
    case "hidden" =>
      var v :- DecodeBool(f.value);
      Success(l.(hidden := Some(v)))
    case "deprecated" =>
      var v :- DecodeBool(f.value);
      Success(l.(deprecated := Some(v)))
    case _ => Success(l)
  }

  function VisitAll(l: Locals, fields: seq<Field>): Decoded<Locals>
    decreases |fields|
  {
    if fields == [] then Success(l)
    else
      var next :- Visit(l, fields[0]);
      VisitAll(next, fields[1..])
  }

  function Finish(l: Locals): Decoded<Suggestion> {
    if l.name.None? then Failure(Missing("name"))
    else Success(Suggestion(l.name.value, l.displayName, l.insertValue, l.description, l.priority, l.isDangerous,
                            l.hidden, l.deprecated))
  }

  function DecodeSuggestion(j: Json): Decoded<Suggestion> {
    match j
    case Str(s) => Success(FromName(s))
    case Obj(fields) =>
      var l :- VisitAll(BLANK, fields);
      Finish(l)
    case _ => Failure(Invalid)
  }

  /** `visit_map`. */
  method VisitMap(fields: seq<Field>) returns (r: Decoded<Suggestion>)
    ensures r == DecodeSuggestion(Obj(fields))
  {
    hide Visit, Finish;
    var locals := BLANK;
    var i := 0;
    while i < |fields|
      invariant i <= |fields| && VisitAll(locals, fields[i..]) == VisitAll(BLANK, fields)
    {
      var next := Visit(locals, fields[i]);
      if next.Failure? {
        return Failure(next.error);
      }
      assert fields[i..][1..] == fields[i + 1..];
      locals := next.value;
      i := i + 1;
    }
    return Finish(locals);
  }

  // ----- repeated and unknown keys

  const KEYS := {"name", "displayName", "insertValue", "description", "priority", "isDangerous", "hidden", "deprecated"}

  lemma {:induction false} VisitConcat(l: Locals, a: seq<Field>, b: seq<Field>)
    ensures VisitAll(l, a + b) ==
            if VisitAll(l, a).Failure? then VisitAll(l, a) else VisitAll(VisitAll(l, a).value, b)
    decreases |a|
  {
    hide Visit;
    if a == [] {
      assert a + b == b;
    } else {
      assert (a + b)[0] == a[0] && (a + b)[1..] == a[1..] + b;
      var next := Visit(l, a[0]);
      if next.Success? {
        VisitConcat(next.value, a[1..], b);
      }
    }
  }

  lemma VisitOne(l: Locals, f: Field)
    ensures VisitAll(l, [f]) == Visit(l, f)
  {
    assert [f][1..] == [];
  }

  /** An entry whose key is unknown changes nothing, whatever its value and place. */
  lemma {:induction false} UnknownKeyIsIgnored(a: seq<Field>, f: Field, b: seq<Field>)
    requires f.key !in KEYS
    ensures DecodeSuggestion(Obj(a + [f] + b)) == DecodeSuggestion(Obj(a + b))
  {
    var l := VisitAll(BLANK, a);
    VisitConcat(BLANK, a + [f], b);
    VisitConcat(BLANK, a, [f]);
    VisitConcat(BLANK, a, b);
    if l.Success? {
      VisitOne(l.value, f);
    }
  }

  lemma {:induction false} NameStays(l: Locals, fields: seq<Field>)
    requires VisitAll(l, fields).Success?
    ensures VisitAll(l, fields).value.name.Some? <==> l.name.Some? || exists i :: 0 <= i < |fields| && fields[i].key == "name"
    decreases |fields|
  {
    if fields == [] {
    } else {
      var next := Visit(l, fields[0]).value;
      assert next.name.Some? <==> l.name.Some? || fields[0].key == "name";
      NameStays(next, fields[1..]);
      hide Visit;
      assert fields == [fields[0]] + fields[1..];
    }
  }

  /** A second name fails as a duplicate where it stands, if everything before it is read. */
  lemma {:induction false} SecondNameIsDuplicate(a: seq<Field>, f: Field, b: seq<Field>)
    requires f.key == "name" && exists i :: 0 <= i < |a| && a[i].key == "name"
    ensures DecodeSuggestion(Obj(a + [f] + b)) ==
            Failure(if VisitAll(BLANK, a).Failure? then VisitAll(BLANK, a).error else Duplicate("name"))
  {
    var l := VisitAll(BLANK, a);
    VisitConcat(BLANK, a + [f], b);
    VisitConcat(BLANK, a, [f]);
    if l.Success? {
      NameStays(BLANK, a);
      VisitOne(l.value, f);
    }
  }

  /** Reading one written slot. */
  lemma {:induction false} VisitSlot(l: Locals, slot: Slot, rest: seq<Slot>)
    ensures VisitAll(l, Present([slot] + rest)) ==
            if slot.value.None? then VisitAll(l, Present(rest))
            else if Visit(l, Field(slot.key, slot.value.value)).Failure? then
              Failure(Visit(l, Field(slot.key, slot.value.value)).error)
            else VisitAll(Visit(l, Field(slot.key, slot.value.value)).value, Present(rest))
  {
    hide Visit;
    assert ([slot] + rest)[1..] == rest;
    if slot.value.None? {
      assert [] + Present(rest) == Present(rest);
    } else {
      assert ([Field(slot.key, slot.value.value)] + Present(rest))[1..] == Present(rest);
    }
  }

  lemma {:induction false} VisitName(s: Suggestion)
    ensures Visit(BLANK, Field("name", EncodeNames(s.name))) == Success(BLANK.(name := Some(s.name)))
  {
    hide EncodeNames, DecodeNames;
    NamesRoundTrip(s.name);
  }

  /** The locals after the first `n` slots. */
  function After(s: Suggestion, n: nat): Locals {
    Locals(if n > 0 then Some(s.name) else None,
           if n > 1 then s.displayName else None,
           if n > 2 then s.insertValue else None,
           if n > 3 then s.description else None,
           if n > 4 then s.priority else None,
           if n > 5 then s.isDangerous else None,
           if n > 6 then s.hidden else None,
           if n > 7 then s.deprecated else None)
  }

  lemma {:induction false} VisitNth(s: Suggestion, n: nat)
    requires n < 8
    ensures var slot := SuggestionSlots(s)[n];
            if slot.value.None? then After(s, n + 1) == After(s, n)
            else Visit(After(s, n), Field(slot.key, slot.value.value)) == Success(After(s, n + 1))
  {
    hide EncodeNames, DecodeNames;
    VisitName(s);
  }

  lemma {:induction false} VisitFrom(s: Suggestion, n: nat)
    requires n <= 8
    ensures VisitAll(After(s, n), Present(SuggestionSlots(s)[n..])) == Success(After(s, 8))
    decreases 8 - n
  {
    hide Visit, After, Present;
    var slots := SuggestionSlots(s);
    hide SuggestionSlots;
    if n == 8 {
      NoSlots();
    } else {
      assert slots[n..] == [slots[n]] + slots[n + 1..];
      VisitSlot(After(s, n), slots[n], slots[n + 1..]);
      VisitNth(s, n);
      VisitFrom(s, n + 1);
    }
  }

  lemma NoSlots()
    ensures Present([]) == []
  {
  }

  lemma {:induction false} SuggestionRoundTrip(s: Suggestion)
    ensures DecodeSuggestion(EncodeSuggestion(s)) == Success(s)
  {
    hide VisitAll, Present, Visit;
    if !IsPureShorthand(s) {
      VisitFrom(s, 0);
      assert SuggestionSlots(s)[0..] == SuggestionSlots(s);
    }
  }

  /** The shorthand is used exactly where nothing is lost, so every string and every
      suggestion has one form. */
  lemma {:induction false} ShorthandIffString(s: Suggestion)
    ensures EncodeSuggestion(s).Str? <==> exists name :: DecodeSuggestion(Str(name)) == Success(s)
  {
    if EncodeSuggestion(s).Str? {
      assert DecodeSuggestion(Str(s.name.Canonical())) == Success(s);
    }
  }
}
