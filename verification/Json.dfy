/** JSON values, and how derived decoders read the fields of an object. */
module Json {
  import opened Wrappers
  import opened Sequences

  datatype Field = Field(key: string, value: Json)

  datatype Json =
    | Null
    | Bool(b: bool)
    | Num(n: int)
    | Real(r: real)
    | Str(s: string)
    | Arr(items: seq<Json>)
    | Obj(fields: seq<Field>)

  datatype DecodeError = Missing(key: string) | Duplicate(key: string) | Invalid

  type Decoded<T> = Result<T, DecodeError>

  // ----- fields

  /** The value of a field, if present; a repeated field is an error. */
  function Lookup(fields: seq<Field>, key: string): (r: Decoded<Option<Json>>)
    ensures r.Success? && r.value.Some? ==>
              exists i :: 0 <= i < |fields| && fields[i].key == key && fields[i].value == r.value.value
  {
    if fields == [] then Success(None)
    else
      var rest :- Lookup(fields[1..], key);
      if fields[0].key != key then Success(rest)
      else if rest.Some? then Failure(Duplicate(key))
      else Success(Some(fields[0].value))
  }

  /** What is read under a key is the value of the only field that has it; none is read if no
      field has it, and two are an error. */
  lemma {:induction false} LookupIs(fields: seq<Field>, key: string)
    ensures Lookup(fields, key) == Success(None) <==> forall i :: 0 <= i < |fields| ==> fields[i].key != key
    ensures Lookup(fields, key).Failure? <==>
            exists i, j :: 0 <= i < j < |fields| && fields[i].key == key && fields[j].key == key
  {
    if fields == [] {
    } else {
      LookupIs(fields[1..], key);
      assert forall i :: 1 <= i < |fields| ==> fields[i] == fields[1..][i - 1];
    }
  }

  /** A field that an encoder writes, or skips when it holds the default. */
  datatype Slot = Slot(key: string, value: Option<Json>)

  function Present(slots: seq<Slot>): seq<Field> {
    if slots == [] then []
    else (if slots[0].value.Some? then [Field(slots[0].key, slots[0].value.value)] else []) + Present(slots[1..])
  }

  ghost predicate DistinctKeys(slots: seq<Slot>) {
    forall i, j :: 0 <= i < j < |slots| ==> slots[i].key != slots[j].key
  }

  lemma {:induction false} AbsentKey(slots: seq<Slot>, key: string)
    requires forall i :: 0 <= i < |slots| ==> slots[i].key != key
    ensures Lookup(Present(slots), key) == Success(None)
  {
    if slots == [] {
    } else {
      AbsentKey(slots[1..], key);
      LookupCons(slots, key);
    }
  }

  lemma LookupCons(slots: seq<Slot>, key: string)
    requires slots != []
    ensures slots[0].key != key || slots[0].value.None? ==>
              Lookup(Present(slots), key) == Lookup(Present(slots[1..]), key)
    ensures slots[0].key == key && slots[0].value.Some? && Lookup(Present(slots[1..]), key) == Success(None) ==>
              Lookup(Present(slots), key) == Success(slots[0].value)
  {
    var rest := Present(slots[1..]);
    if slots[0].value.Some? {
      assert ([Field(slots[0].key, slots[0].value.value)] + rest)[1..] == rest;
    } else {
      assert [] + rest == rest;
    }
  }

  /** What was written under a key is what is read under it. */
  lemma {:induction false} LookupPresent(slots: seq<Slot>, i: nat)
    requires DistinctKeys(slots) && i < |slots|
    ensures Lookup(Present(slots), slots[i].key) == Success(slots[i].value)
  {
    LookupCons(slots, slots[i].key);
    if i == 0 {
      AbsentKey(slots[1..], slots[0].key);
    } else {
      LookupPresent(slots[1..], i - 1);
    }
  }

  /** A field with another key makes no difference. */
  lemma {:induction false} LookupIgnores(fields: seq<Field>, extra: Field, key: string)
    requires extra.key != key
    ensures Lookup(fields + [extra], key) == Lookup(fields, key)
  {
    if fields == [] {
      assert [extra][1..] == [] && fields + [extra] == [extra];
    } else {
      assert (fields + [extra])[1..] == fields[1..] + [extra];
      LookupIgnores(fields[1..], extra, key);
    }
  }

  // ----- arrays

  function DecodeAll<T>(dec: Json -> Decoded<T>, items: seq<Json>): Decoded<seq<T>> {
    if items == [] then Success([])
    else
      var x :- dec(items[0]);
      var rest :- DecodeAll(dec, items[1..]);
      Success([x] + rest)
  }

  ghost predicate Undoes<T(!new)>(dec: Json -> Decoded<T>, enc: T -> Json) {
    forall x :: dec(enc(x)) == Success(x)
  }

  /** Where null stands for an absent value, no value may be written as null. */
  ghost predicate UndoesOptional<T(!new)>(dec: Json -> Decoded<T>, enc: T -> Json) {
    forall x :: dec(enc(x)) == Success(x) && enc(x) != Null
  }

  lemma UndoesOne<T(!new)>(dec: Json -> Decoded<T>, enc: T -> Json, x: T)
    requires Undoes(dec, enc)
    ensures dec(enc(x)) == Success(x)
  {
  }

  lemma DecodeAllCons<T>(dec: Json -> Decoded<T>, item: Json, items: seq<Json>)
    ensures DecodeAll(dec, [item] + items) ==
            if dec(item).Failure? then Failure(dec(item).error)
            else if DecodeAll(dec, items).Failure? then Failure(DecodeAll(dec, items).error)
            else Success([dec(item).value] + DecodeAll(dec, items).value)
  {
    assert ([item] + items)[1..] == items;
  }

  lemma {:induction false} DecodeAllMap<T(!new)>(dec: Json -> Decoded<T>, enc: T -> Json, xs: seq<T>)
    requires Undoes(dec, enc)
    ensures DecodeAll(dec, Map(enc, xs)) == Success(xs)
  {
    hide Undoes;
    if xs == [] {
    } else {
      UndoesOne(dec, enc, xs[0]);
      DecodeAllMap(dec, enc, xs[1..]);
      DecodeAllCons(dec, enc(xs[0]), Map(enc, xs[1..]));
      assert xs == [xs[0]] + xs[1..];
    }
  }

  // ----- kinds of fields

  /** `Option` fields: absent and null are both `None`. */
  function OptField<T>(fields: seq<Field>, key: string, dec: Json -> Decoded<T>): Decoded<Option<T>> {
    var v :- Lookup(fields, key);
    if v.None? || v.value == Null then Success(None)
    else
      var x :- dec(v.value);
      Success(Some(x))
  }

  function OptSlot<T>(key: string, v: Option<T>, enc: T -> Json): Slot {
    Slot(key, if v.Some? then Some(enc(v.value)) else None)
  }

  /** `Vec` fields with a default: absent is empty. */
  function VecField<T>(fields: seq<Field>, key: string, dec: Json -> Decoded<T>): Decoded<seq<T>> {
    var v :- Lookup(fields, key);
    if v.None? then Success([])
    else if v.value.Arr? then DecodeAll(dec, v.value.items)
    else Failure(Invalid)
  }

  function VecSlot<T>(key: string, xs: seq<T>, enc: T -> Json): Slot {
    Slot(key, if xs == [] then None else Some(Arr(Map(enc, xs))))
  }

  /** `bool` fields with a default: absent is false. */
  function BoolField(fields: seq<Field>, key: string): Decoded<bool> {
    var v :- Lookup(fields, key);
    if v.None? then Success(false) else DecodeBool(v.value)
  }

  function BoolSlot(key: string, b: bool): Slot {
    Slot(key, if b then Some(Bool(true)) else None)
  }

  function NeedField<T>(fields: seq<Field>, key: string, dec: Json -> Decoded<T>): Decoded<T> {
    var v :- Lookup(fields, key);
    if v.None? then Failure(Missing(key)) else dec(v.value)
  }

  lemma {:induction false} OptRoundTrip<T(!new)>(slots: seq<Slot>, i: nat, key: string, v: Option<T>,
                                                 dec: Json -> Decoded<T>, enc: T -> Json)
    requires DistinctKeys(slots) && i < |slots| && slots[i] == OptSlot(key, v, enc)
    requires UndoesOptional(dec, enc)
    ensures OptField(Present(slots), key, dec) == Success(v)
  {
    hide Present, Lookup;
    LookupPresent(slots, i);
  }

  lemma {:induction false} VecRoundTrip<T(!new)>(slots: seq<Slot>, i: nat, key: string, xs: seq<T>,
                                                 dec: Json -> Decoded<T>, enc: T -> Json)
    requires DistinctKeys(slots) && i < |slots| && slots[i] == VecSlot(key, xs, enc)
    requires Undoes(dec, enc)
    ensures VecField(Present(slots), key, dec) == Success(xs)
  {
    hide Present, Lookup, DecodeAll, Map;
    LookupPresent(slots, i);
    DecodeAllMap(dec, enc, xs);
  }

  lemma {:induction false} BoolRoundTrip(slots: seq<Slot>, i: nat, key: string, b: bool)
    requires DistinctKeys(slots) && i < |slots| && slots[i] == BoolSlot(key, b)
    ensures BoolField(Present(slots), key) == Success(b)
  {
    hide Present, Lookup;
    LookupPresent(slots, i);
  }

  lemma {:induction false} NeedRoundTrip<T(!new)>(slots: seq<Slot>, i: nat, key: string, x: T,
                                                  dec: Json -> Decoded<T>, enc: T -> Json)
    requires DistinctKeys(slots) && i < |slots| && slots[i] == Slot(key, Some(enc(x)))
    requires dec(enc(x)) == Success(x)
    ensures NeedField(Present(slots), key, dec) == Success(x)
  {
    hide Present, Lookup;
    LookupPresent(slots, i);
  }

  lemma OptIgnores<T>(fields: seq<Field>, extra: Field, key: string, dec: Json -> Decoded<T>)
    requires extra.key != key
    ensures OptField(fields + [extra], key, dec) == OptField(fields, key, dec)
  {
    LookupIgnores(fields, extra, key);
  }

  lemma VecIgnores<T>(fields: seq<Field>, extra: Field, key: string, dec: Json -> Decoded<T>)
    requires extra.key != key
    ensures VecField(fields + [extra], key, dec) == VecField(fields, key, dec)
  {
    LookupIgnores(fields, extra, key);
  }

  lemma BoolIgnores(fields: seq<Field>, extra: Field, key: string)
    requires extra.key != key
    ensures BoolField(fields + [extra], key) == BoolField(fields, key)
  {
    LookupIgnores(fields, extra, key);
  }

  lemma NeedIgnores<T>(fields: seq<Field>, extra: Field, key: string, dec: Json -> Decoded<T>)
    requires extra.key != key
    ensures NeedField(fields + [extra], key, dec) == NeedField(fields, key, dec)
  {
    LookupIgnores(fields, extra, key);
  }

  // ----- leaves

  function EncodeString(s: string): Json {
    Str(s)
  }

  function DecodeString(j: Json): Decoded<string> {
    if j.Str? then Success(j.s) else Failure(Invalid)
  }

  function EncodeBool(b: bool): Json {
    Bool(b)
  }

  function DecodeBool(j: Json): Decoded<bool> {
    if j.Bool? then Success(j.b) else Failure(Invalid)
  }
}
